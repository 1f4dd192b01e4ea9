/**
 packages/scan-core/src/ownership.ts and the verify-ownership route: DNS ownership checks
 that race with token rotation. Each SQL statement and each lookup is one step.
 */
module Ownership {
  import opened Options

  type SiteId = nat
  type Team = nat
  type CheckId = nat
  type Time = int

  const DNS_TXT := "dns-txt"

  /** `recordName` is None when the site's URL has no registrable domain. */
  datatype Site = Site(
    team: Team, recordName: Option<string>, token: Option<string>,
    verifiedAt: Option<Time>, via: Option<string>)

  type Sites = map<SiteId, Site>

  // ----- the statements

  predicate InScope(sites: Sites, site: SiteId, team: Team) {
    site in sites && sites[site].team == team
  }

  /** `set ownership_token = coalesce(ownership_token, $3)` */
  function Ensure(sites: Sites, site: SiteId, team: Team, newToken: string): Sites {
    if !InScope(sites, site, team) || sites[site].token.Some? then sites
    else sites[site := sites[site].(token := Some(newToken))]
  }

  function Rotate(sites: Sites, site: SiteId, team: Team, newToken: string): Sites {
    if !InScope(sites, site, team) then sites
    else sites[site := sites[site].(token := Some(newToken), verifiedAt := None, via := None)]
  }

  predicate Hits(sites: Sites, site: SiteId, team: Team, token: string) {
    InScope(sites, site, team) && sites[site].token == Some(token)
  }

  /** `... where id = $1 and team_id = $2 and ownership_token = $3` */
  function Record(sites: Sites, site: SiteId, team: Team, token: string, verified: bool, now: Time): Sites {
    if !Hits(sites, site, team, token) then sites
    else sites[site := sites[site].(
      verifiedAt := if verified then Some(now) else None,
      via := if verified then Some(DNS_TXT) else None)]
  }

  // ----- requests in flight

  /** `fallback` is the token `ensureOwnershipToken` returned. */
  datatype Check =
    | Ensured(site: SiteId, team: Team, fallback: string)
    | Looking(site: SiteId, team: Team, token: string)
    | Judged(site: SiteId, team: Team, token: string, verified: bool)

  /** `matched` are the pairs for which a DNS lookup has found the token of the site. */
  datatype State = State(sites: Sites, checks: map<CheckId, Check>, now: Time, matched: set<(SiteId, string)>)

  datatype Action =
    | Advance(to: Time)
    | AddSite(site: SiteId, team: Team, recordName: Option<string>)
    | DeleteSite(site: SiteId)
    | EnsureToken(site: SiteId, team: Team, newToken: string)
    | RotateToken(site: SiteId, team: Team, newToken: string)
    | Begin(c: CheckId, site: SiteId, team: Team, newToken: string)
    | ReadToken(c: CheckId)
    | Lookup(c: CheckId, found: bool)
    | RecordCheck(c: CheckId)
    | Die(c: CheckId)

  predicate Enabled(s: State, a: Action) {
    match a
    case Advance(to) => s.now <= to
    case AddSite(site, _, _) => site !in s.sites
    case Begin(c, _, _, _) => c !in s.checks
    case ReadToken(c) => c in s.checks && s.checks[c].Ensured?
    case Lookup(c, found) => c in s.checks && s.checks[c].Looking? && (found ==> s.checks[c].token != "")
    case RecordCheck(c) => c in s.checks && s.checks[c].Judged?
    case Die(c) => c in s.checks
    case _ => true
  }

  /** `checkOwnershipLive` up to the lookup. */
  function AfterRead(sites: Sites, check: Check): Check
    requires check.Ensured?
  {
    if !InScope(sites, check.site, check.team) || sites[check.site].token.None? || sites[check.site].token.value == "" then
      Judged(check.site, check.team, check.fallback, false)
    else if sites[check.site].recordName.None? then
      Judged(check.site, check.team, sites[check.site].token.value, false)
    else Looking(check.site, check.team, sites[check.site].token.value)
  }

  function Apply(s: State, a: Action): State
    requires Enabled(s, a)
  {
    match a
    case Advance(to) => s.(now := to)
    case AddSite(site, team, recordName) => s.(sites := s.sites[site := Site(team, recordName, None, None, None)])
    case DeleteSite(site) => s.(sites := s.sites - {site})
    case EnsureToken(site, team, newToken) => s.(sites := Ensure(s.sites, site, team, newToken))
    case RotateToken(site, team, newToken) => s.(sites := Rotate(s.sites, site, team, newToken))
    case Begin(c, site, team, newToken) =>
      var sites := Ensure(s.sites, site, team, newToken);
      if InScope(sites, site, team) && sites[site].recordName.Some? then
        s.(sites := sites, checks := s.checks[c := Ensured(site, team, sites[site].token.value)])
      else s.(sites := sites)
    case ReadToken(c) => s.(checks := s.checks[c := AfterRead(s.sites, s.checks[c])])
    case Lookup(c, found) =>
      var check := s.checks[c];
      s.(checks := s.checks[c := Judged(check.site, check.team, check.token, found)],
         matched := if found then s.matched + {(check.site, check.token)} else s.matched)
    case RecordCheck(c) =>
      var check := s.checks[c];
      s.(sites := Record(s.sites, check.site, check.team, check.token, check.verified, s.now), checks := s.checks - {c})
    case Die(c) => s.(checks := s.checks - {c})
  }

  ghost predicate Run(s: State, acts: seq<Action>)
    decreases |acts|
  {
    acts != [] ==> Enabled(s, acts[0]) && Run(Apply(s, acts[0]), acts[1..])
  }

  ghost function Final(s: State, acts: seq<Action>): State
    requires Run(s, acts)
    decreases |acts|
  {
    if acts == [] then s else Final(Apply(s, acts[0]), acts[1..])
  }

  predicate Initial(s: State) {
    s.sites == map[] && s.checks == map[] && s.matched == {}
  }

  // ----- verified means a lookup matched the current token

  ghost predicate Sound(s: State) {
    && (forall site :: site in s.sites ==>
          && (s.sites[site].verifiedAt.Some? ==>
                && s.sites[site].token.Some? && (site, s.sites[site].token.value) in s.matched
                && s.sites[site].verifiedAt.value <= s.now)
          && (s.sites[site].verifiedAt.Some? <==> s.sites[site].via == Some(DNS_TXT)))
    && (forall c :: c in s.checks && s.checks[c].Judged? && s.checks[c].verified ==>
          (s.checks[c].site, s.checks[c].token) in s.matched)
  }

  lemma StepSound(s: State, a: Action)
    requires Sound(s) && Enabled(s, a)
    ensures Sound(Apply(s, a))
  {
  }

  lemma {:induction false} RunSound(s: State, acts: seq<Action>)
    requires Sound(s) && Run(s, acts)
    ensures Sound(Final(s, acts))
    decreases |acts|
  {
    if acts != [] {
      StepSound(s, acts[0]);
      RunSound(Apply(s, acts[0]), acts[1..]);
    }
  }

  /** However checks and rotations interleave, a verified site's current token was found in its DNS. */
  lemma VerifiedMeansMatched(s: State, acts: seq<Action>, site: SiteId)
    requires Initial(s) && Run(s, acts)
    requires site in Final(s, acts).sites && Final(s, acts).sites[site].verifiedAt.Some?
    ensures var row := Final(s, acts).sites[site];
            row.token.Some? && (site, row.token.value) in Final(s, acts).matched
  {
    RunSound(s, acts);
  }

  // ----- a rotation cuts off every check of the old token

  /** After a rotation to a token no lookup has found the site is unverified until a lookup finds that token. */
  ghost predicate Pending(s: State, site: SiteId, token: string) {
    && (site, token) !in s.matched
    && (site in s.sites ==> s.sites[site].token == Some(token) ==> s.sites[site].verifiedAt.None?)
    && forall c :: c in s.checks && s.checks[c].Judged? && s.checks[c].verified ==>
         !(s.checks[c].site == site && s.checks[c].token == token)
  }

  predicate Finds(s: State, a: Action, site: SiteId, token: string) {
    a.Lookup? && a.found && a.c in s.checks && s.checks[a.c].Looking?
    && s.checks[a.c].site == site && s.checks[a.c].token == token
  }

  ghost predicate NeverFound(s: State, acts: seq<Action>, site: SiteId, token: string)
    requires Run(s, acts)
    decreases |acts|
  {
    acts != [] ==> !Finds(s, acts[0], site, token) && NeverFound(Apply(s, acts[0]), acts[1..], site, token)
  }

  lemma {:induction false} PendingUntilFound(s: State, acts: seq<Action>, site: SiteId, token: string)
    requires Sound(s) && Pending(s, site, token) && Run(s, acts) && NeverFound(s, acts, site, token)
    ensures Pending(Final(s, acts), site, token)
    decreases |acts|
  {
    if acts != [] {
      PendingStep(s, acts[0], site, token);
      StepSound(s, acts[0]);
      PendingUntilFound(Apply(s, acts[0]), acts[1..], site, token);
    }
  }

  lemma PendingStep(s: State, a: Action, site: SiteId, token: string)
    requires Sound(s) && Pending(s, site, token) && Enabled(s, a) && !Finds(s, a, site, token)
    ensures Pending(Apply(s, a), site, token)
  {
  }

  /**
   No check begun before the rotation, whatever it found, verifies the new token: as long
   as the site keeps it, verification needs a lookup that finds it afterwards.
   */
  lemma RotationNeedsNewLookup(s: State, acts: seq<Action>, site: SiteId, team: Team, newToken: string)
    requires Sound(s) && InScope(s.sites, site, team) && (site, newToken) !in s.matched
    requires var s1 := Apply(s, RotateToken(site, team, newToken)); Run(s1, acts) && NeverFound(s1, acts, site, newToken)
    ensures var f := Final(Apply(s, RotateToken(site, team, newToken)), acts);
            site in f.sites && f.sites[site].token == Some(newToken) ==> f.sites[site].verifiedAt.None?
  {
    var s1 := Apply(s, RotateToken(site, team, newToken));
    StepSound(s, RotateToken(site, team, newToken));
    PendingUntilFound(s1, acts, site, newToken);
  }

  // ----- a check that nothing interrupts

  /**
   A check of a site with a token and a record name ends with the site verified now when
   the lookup finds the token, and unverified when it does not.
   */
  lemma CheckVerifiesIffFound(s: State, c: CheckId, site: SiteId, team: Team, newToken: string, found: bool)
    requires site in s.sites && s.sites[site].team == team && c !in s.checks
    requires s.sites[site].recordName.Some? && s.sites[site].token.Some? && s.sites[site].token.value != ""
    ensures var acts := [Begin(c, site, team, newToken), ReadToken(c), Lookup(c, found), RecordCheck(c)];
            && Run(s, acts)
            && Final(s, acts).checks == s.checks
            && Final(s, acts).sites == s.sites[site := s.sites[site].(
                 verifiedAt := if found then Some(s.now) else None, via := if found then Some("dns-txt") else None)]
  {
    var a1, a2, a3, a4 := Begin(c, site, team, newToken), ReadToken(c), Lookup(c, found), RecordCheck(c);
    var token := s.sites[site].token.value;
    var s1 := s.(checks := s.checks[c := Ensured(site, team, token)]);
    var s2 := s.(checks := s.checks[c := Looking(site, team, token)]);
    var s3 := s.(checks := s.checks[c := Judged(site, team, token, found)],
                 matched := if found then s.matched + {(site, token)} else s.matched);
    assert Apply(s, a1) == s1;
    assert s1.checks[c := Looking(site, team, token)] == s2.checks;
    assert Apply(s1, a2) == s2;
    assert s2.checks[c := Judged(site, team, token, found)] == s3.checks;
    assert Apply(s2, a3) == s3;
    assert s3.checks - {c} == s.checks;
    FourActions(s, a1, a2, a3, a4);
  }

  lemma FourActions(s: State, a: Action, b: Action, c: Action, d: Action)
    requires Enabled(s, a) && Enabled(Apply(s, a), b) && Enabled(Apply(Apply(s, a), b), c)
    requires Enabled(Apply(Apply(Apply(s, a), b), c), d)
    ensures Run(s, [a, b, c, d]) && Final(s, [a, b, c, d]) == Apply(Apply(Apply(Apply(s, a), b), c), d)
  {
    hide Apply, Enabled;
    assert [a, b, c, d][1..] == [b, c, d] && [b, c, d][1..] == [c, d] && [c, d][1..] == [d] && [d][1..] == [];
    var s4 := Apply(Apply(Apply(Apply(s, a), b), c), d);
    assert Run(s4, []) && Final(s4, []) == s4;
    assert Run(Apply(Apply(Apply(s, a), b), c), [d]) && Final(Apply(Apply(Apply(s, a), b), c), [d]) == s4;
    assert Run(Apply(Apply(s, a), b), [c, d]) && Final(Apply(Apply(s, a), b), [c, d]) == s4;
    assert Run(Apply(s, a), [b, c, d]) && Final(Apply(s, a), [b, c, d]) == s4;
  }

  /** A verified site is reached from the empty store. */
  lemma VerifiedIsReachable(s: State, site: SiteId, team: Team, name: string, token: string)
    requires Initial(s) && token != ""
    ensures exists acts: seq<Action> :: Run(s, acts) && site in Final(s, acts).sites
              && Final(s, acts).sites[site] == Site(team, Some(name), Some(token), Some(s.now), Some("dns-txt"))
  {
    var a1, a2 := AddSite(site, team, Some(name)), EnsureToken(site, team, token);
    var s2 := s.(sites := map[site := Site(team, Some(name), Some(token), None, None)]);
    assert Apply(Apply(s, a1), a2) == s2;
    CheckVerifiesIffFound(s2, 0, site, team, token, true);
    var rest := [Begin(0, site, team, token), ReadToken(0), Lookup(0, true), RecordCheck(0)];
    hide Apply;
    assert ([a2] + rest)[1..] == rest && ([a1] + ([a2] + rest))[1..] == [a2] + rest;
    assert Run(Apply(s, a1), [a2] + rest) && Final(Apply(s, a1), [a2] + rest) == Final(s2, rest);
    assert Run(s, [a1] + ([a2] + rest)) && Final(s, [a1] + ([a2] + rest)) == Final(s2, rest);
  }

  /** A site is written by its team only: a token is set once or replaced, and the result of a check meets its token. */
  lemma WritesAreExact(sites: Sites, site: SiteId, team: Team, token: string, verified: bool, now: Time)
    ensures var ours := site in sites && sites[site].team == team;
            && Ensure(sites, site, team, token) == (
                 if ours && sites[site].token == None then sites[site := sites[site].(token := Some(token))] else sites)
            && Rotate(sites, site, team, token) == (
                 if ours then sites[site := Site(team, sites[site].recordName, Some(token), None, None)] else sites)
            && Record(sites, site, team, token, verified, now) == (
                 if ours && sites[site].token == Some(token) then
                   sites[site := Site(team, sites[site].recordName, Some(token),
                                      if verified then Some(now) else None, if verified then Some("dns-txt") else None)]
                 else sites)
  {
  }

  /** A check looks up the token of the site, and only when there is one and a name to look under. */
  lemma LooksUpCurrentToken(sites: Sites, site: SiteId, team: Team, fallback: string)
    ensures var check := AfterRead(sites, Ensured(site, team, fallback));
            var ours := site in sites && sites[site].team == team && sites[site].token != None && sites[site].token != Some("");
            check == if !ours then Judged(site, team, fallback, false)
                     else if sites[site].recordName == None then Judged(site, team, sites[site].token.value, false)
                     else Looking(site, team, sites[site].token.value)
  {
  }

  // ----- the code

  datatype Result = Verified(token: string) | NotVerified(seen: Option<string>)

  class OwnershipStore {
    var sites: Sites

    constructor (sites: Sites)
      ensures this.sites == sites
    {
      this.sites := sites;
    }

    method EnsureOwnershipToken(site: SiteId, team: Team, newToken: string) returns (token: Option<string>)
      modifies this
      ensures sites == Ensure(old(sites), site, team, newToken)
      ensures token.Some? <==> InScope(sites, site, team) && sites[site].recordName.Some?
      ensures token.Some? ==> token == sites[site].token
    {
      if site !in sites || sites[site].team != team {
        return None;
      }
      if sites[site].token.None? {
        sites := sites[site := sites[site].(token := Some(newToken))];
      }
      token := if sites[site].recordName.Some? then sites[site].token else None;
    }

    method RotateOwnershipToken(site: SiteId, team: Team, newToken: string) returns (token: Option<string>)
      modifies this
      ensures sites == Rotate(old(sites), site, team, newToken)
      ensures token.Some? ==> InScope(sites, site, team) && token == Some(newToken) == sites[site].token && sites[site].verifiedAt.None?
    {
      if site !in sites || sites[site].team != team {
        return None;
      }
      var row := sites[site].(token := Some(newToken), verifiedAt := None, via := None);
      sites := sites[site := row];
      token := if row.recordName.Some? then Some(newToken) else None;
    }

    /** `found` is what the lookup would answer; it is not asked without a token and a record name. */
    method CheckOwnershipLive(site: SiteId, team: Team, fallback: string, found: bool) returns (r: Result)
      ensures var read := AfterRead(sites, Ensured(site, team, fallback));
              && (r.Verified? <==> read.Looking? && found)
              && (r.Verified? ==> r.token == read.token)
              && (r.NotVerified? ==> (if r.seen.Some? then r.seen.value else fallback) == read.token)
    {
      if site !in sites || sites[site].team != team {
        return NotVerified(None);
      }
      var token := sites[site].token;
      if token.None? || token.value == "" {
        return NotVerified(None);
      }
      if sites[site].recordName.None? {
        return NotVerified(token);
      }
      r := if found then Verified(token.value) else NotVerified(token);
    }

    /** None when no row was updated. */
    method RecordOwnershipCheck(site: SiteId, team: Team, token: string, verified: bool, now: Time)
      returns (verifiedAt: Option<Option<Time>>)
      modifies this
      ensures sites == Record(old(sites), site, team, token, verified, now)
      ensures verifiedAt.Some? <==> Hits(old(sites), site, team, token)
      ensures verifiedAt.Some? ==> verifiedAt.value == sites[site].verifiedAt
    {
      if site !in sites || sites[site].team != team || sites[site].token != Some(token) {
        return None;
      }
      var row := sites[site].(
        verifiedAt := if verified then Some(now) else None,
        via := if verified then Some(DNS_TXT) else None);
      sites := sites[site := row];
      verifiedAt := Some(row.verifiedAt);
    }
  }
}
