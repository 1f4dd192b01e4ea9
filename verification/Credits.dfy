/**
 packages/scan-core/src/credits.ts (and its copy apps/scheduler/src/credits.ts): credits
 spent and refunded against a subscription, with a ledger of both.
 */
module Credits {
  import opened Options
  import opened Subscriptions

  type ScanId = nat

  datatype Reason = ReasonScan | ReasonSchedule | ReasonCancel
  datatype Entry = Entry(team: Team, amount: int, reason: Reason, scan: Option<ScanId>)
  datatype Books = Books(subs: map<Team, Sub>, ledger: seq<Entry>)

  // ----- the transactions

  function Ensured(b: Books, team: Team, now: Time): Books {
    if team in b.subs then b else b.(subs := b.subs[team := FreeRow(now)])
  }

  predicate Expired(sub: Sub, now: Time) {
    sub.periodEnd.Some? && sub.periodEnd.value < now
  }

  /** A new period: Stripe teams keep their period end, the others get thirty days. */
  function Renewed(sub: Sub, now: Time): Sub {
    if !Expired(sub, now) then sub
    else sub.(used := 0, periodEnd := if sub.subscription.None? then Some(now + THIRTY_DAYS) else sub.periodEnd)
  }

  /** Both outcomes carry the books: a caller that catches the error keeps what was written before it. */
  datatype SpendResult =
    | Spent(books: Books, used: nat)
    | Limited(books: Books, usedNow: nat, limit: nat)

  function SpendCredit(b: Books, team: Team, reason: Reason, scan: Option<ScanId>, now: Time): SpendResult {
    var b1 := Ensured(b, team, now);
    var sub := b1.subs[team];
    var limit := CreditsPerPeriod(sub.plan);
    if sub.status.Canceled? then Limited(b1, sub.used, limit)
    else
      var renewed := Renewed(sub, now);
      var b2 := b1.(subs := b1.subs[team := renewed]);
      if renewed.used >= limit then Limited(b2, renewed.used, limit)
      else
        Spent(Books(b2.subs[team := renewed.(used := renewed.used + 1)], b2.ledger + [Entry(team, 1, reason, scan)]),
              renewed.used + 1)
  }

  predicate IsCharge(e: Entry, team: Team, scan: ScanId) {
    e.team == team && e.scan == Some(scan) && e.amount == 1
  }

  predicate IsRefund(e: Entry, team: Team, scan: ScanId) {
    e.team == team && e.scan == Some(scan) && e.amount == -1 && e.reason == ReasonCancel
  }

  predicate Charged(ledger: seq<Entry>, team: Team, scan: ScanId) {
    exists k :: 0 <= k < |ledger| && IsCharge(ledger[k], team, scan)
  }

  predicate Refunded(ledger: seq<Entry>, team: Team, scan: ScanId) {
    exists k :: 0 <= k < |ledger| && IsRefund(ledger[k], team, scan)
  }

  function RefundCredit(b: Books, team: Team, scan: ScanId): Books {
    if !Charged(b.ledger, team, scan) || Refunded(b.ledger, team, scan) then b
    else
      var subs := if team !in b.subs then b.subs
                  else b.subs[team := b.subs[team].(used := if b.subs[team].used > 0 then b.subs[team].used - 1 else 0)];
      Books(subs, b.ledger + [Entry(team, -1, ReasonCancel, Some(scan))])
  }

  /** What a Stripe event may do to the books: any column of a row but `credits_used`. */
  ghost predicate BillingStep(b: Books, b': Books, team: Team) {
    && b'.ledger == b.ledger
    && b'.subs.Keys == b.subs.Keys + {team}
    && (forall t :: t in b.subs && t != team ==> b'.subs[t] == b.subs[t])
    && b'.subs[team].used == if team in b.subs then b.subs[team].used else 0
  }

  // ----- what a spend and a refund do

  /** The row of a team that had none. */
  lemma NewRowIs(b: Books, team: Team, now: Time)
    ensures Ensured(b, team, now) ==
      if team in b.subs then b
      else Books(b.subs[team := Sub(Free, Active, Some(now + 2_592_000_000), 0, None, None, false, Month)], b.ledger)
  {
  }

  /**
   A spend is granted to a team in good standing whose credits, none of them used once its
   period end has passed, are not used up. It then costs one credit and books it.
   */
  lemma SpendIsExact(b: Books, team: Team, reason: Reason, scan: Option<ScanId>, now: Time)
    requires team in b.subs
    ensures var r, sub := SpendCredit(b, team, reason, scan, now), b.subs[team];
            var over := sub.periodEnd.Some? && sub.periodEnd.value < now;
            var used := if over then 0 else sub.used;
            var credits := match sub.plan case Free => 5 case Pro => 500 case Max => 2000;
            && (r.Spent? <==> (sub.status.Active? || sub.status.Trialing? || sub.status.PastDue?) && used < credits)
            && r.books.ledger == (if r.Spent? then b.ledger + [Entry(team, 1, reason, scan)] else b.ledger)
            && r.books.subs == (
                 if sub.status.Canceled? then b.subs
                 else b.subs[team := sub.(
                   used := if r.Spent? then used + 1 else used,
                   periodEnd := if over && sub.subscription.None? then Some(now + 2_592_000_000) else sub.periodEnd)])
            && (r.Spent? ==> r.used == used + 1)
            && (r.Limited? ==> r.limit == credits && r.usedNow == if sub.status.Canceled? then sub.used else used)
  {
    assert b.subs[team := b.subs[team]] == b.subs;
  }

  /** A team without a row gets one, and the first of its five credits is spent. */
  lemma FirstSpendIsExact(b: Books, team: Team, reason: Reason, scan: Option<ScanId>, now: Time)
    requires team !in b.subs
    ensures SpendCredit(b, team, reason, scan, now) == Spent(
              Books(b.subs[team := Sub(Free, Active, Some(now + 2_592_000_000), 1, None, None, false, Month)],
                    b.ledger + [Entry(team, 1, reason, scan)]), 1)
  {
    var row := FreeRow(now);
    assert b.subs[team := row][team := row.(used := 1)] == b.subs[team := row.(used := 1)];
    assert b.subs[team := row][team := row][team := row.(used := 1)] == b.subs[team := row.(used := 1)];
  }

  /** A canceled subscription grants nothing, at any time. */
  lemma {:induction false} CanceledGetsNothing(b: Books, team: Team, times: seq<Time>)
    requires team in b.subs && b.subs[team].status.Canceled?
    ensures Granted(b, team, times) == 0
    decreases |times|
  {
    if times != [] {
      SpendIsExact(b, team, ReasonScan, None, times[0]);
      assert SpendCredit(b, team, ReasonScan, None, times[0]).books == b;
      CanceledGetsNothing(b, team, times[1..]);
      hide SpendCredit;
    }
  }

  /** A refund needs a charge of the scan to the team and no refund of it; it gives one credit back and books that. */
  lemma RefundIsExact(b: Books, team: Team, scan: ScanId)
    ensures var charged := exists k :: 0 <= k < |b.ledger|
                             && b.ledger[k].team == team && b.ledger[k].scan == Some(scan) && b.ledger[k].amount == 1;
            var refunded := exists k :: 0 <= k < |b.ledger|
                              && b.ledger[k].team == team && b.ledger[k].scan == Some(scan)
                              && b.ledger[k].amount == -1 && b.ledger[k].reason == ReasonCancel;
            RefundCredit(b, team, scan) ==
              if !charged || refunded then b
              else Books(
                if team !in b.subs then b.subs
                else b.subs[team := b.subs[team].(used := if b.subs[team].used == 0 then 0 else b.subs[team].used - 1)],
                b.ledger + [Entry(team, -1, ReasonCancel, Some(scan))])
  {
    if k :| 0 <= k < |b.ledger| && b.ledger[k].team == team && b.ledger[k].scan == Some(scan) && b.ledger[k].amount == 1 {
      assert IsCharge(b.ledger[k], team, scan);
    }
    if k :| 0 <= k < |b.ledger| && b.ledger[k].team == team && b.ledger[k].scan == Some(scan)
            && b.ledger[k].amount == -1 && b.ledger[k].reason == ReasonCancel {
      assert IsRefund(b.ledger[k], team, scan);
    }
  }

  // ----- the ledger is orderly

  /** Two entries of one scan are its charge and, later, its refund; every refund has its charge. */
  ghost predicate Orderly(ledger: seq<Entry>) {
    && (forall k :: 0 <= k < |ledger| ==> ledger[k].amount == 1 || (ledger[k].amount == -1 && ledger[k].scan.Some?))
    && PairsOnly(ledger)
    && (forall k :: 0 <= k < |ledger| && ledger[k].amount == -1 ==>
          ledger[k].reason == ReasonCancel && Charged(ledger[..k], ledger[k].team, ledger[k].scan.value))
  }

  ghost predicate PairsOnly(ledger: seq<Entry>) {
    forall j, k :: 0 <= j < k < |ledger| && ledger[j].scan.Some? && ledger[k].scan == ledger[j].scan ==>
      ledger[j].amount == 1 && ledger[k].amount == -1 && ledger[k].team == ledger[j].team
  }

  ghost predicate Unused(ledger: seq<Entry>, scan: ScanId) {
    forall k :: 0 <= k < |ledger| ==> ledger[k].scan != Some(scan)
  }

  lemma SpendOrderly(ledger: seq<Entry>, e: Entry)
    requires Orderly(ledger) && e.amount == 1
    requires e.scan.Some? ==> Unused(ledger, e.scan.value)
    ensures Orderly(ledger + [e])
  {
    var l' := ledger + [e];
    assert forall k :: 0 <= k < |ledger| ==> l'[..k] == ledger[..k];
  }

  lemma RefundOrderly(ledger: seq<Entry>, team: Team, scan: ScanId)
    requires Orderly(ledger) && Charged(ledger, team, scan) && !Refunded(ledger, team, scan)
    ensures Orderly(ledger + [Entry(team, -1, ReasonCancel, Some(scan))])
  {
    var e := Entry(team, -1, ReasonCancel, Some(scan));
    var l' := ledger + [e];
    assert forall k :: 0 <= k <= |ledger| ==> l'[..k] == ledger[..k];
    assert ledger[..|ledger|] == ledger;
    var c :| 0 <= c < |ledger| && IsCharge(ledger[c], team, scan);
    forall j | 0 <= j < |ledger| && ledger[j].scan == Some(scan)
      ensures ledger[j].amount == 1 && ledger[j].team == team
    {
      assert !IsRefund(ledger[j], team, scan);
    }
  }

  // ----- conservation

  /** Sum of the amounts booked for a team. */
  function Net(entries: seq<Entry>, team: Team): int {
    if entries == [] then 0
    else
      var last := |entries| - 1;
      Net(entries[..last], team) + if entries[last].team == team then entries[last].amount else 0
  }

  /** Number of credits a team spent. */
  function Spends(entries: seq<Entry>, team: Team): nat {
    if entries == [] then 0
    else
      var last := |entries| - 1;
      Spends(entries[..last], team) + if entries[last].team == team && entries[last].amount == 1 then 1 else 0
  }

  /** Every refund of the team in these entries is for a charge in these entries. */
  ghost predicate Matched(entries: seq<Entry>, team: Team) {
    forall k :: 0 <= k < |entries| && entries[k].team == team && entries[k].amount == -1 ==>
      entries[k].scan.Some? && Charged(entries, team, entries[k].scan.value)
  }

  lemma NetAppend(entries: seq<Entry>, e: Entry, team: Team)
    ensures Net(entries + [e], team) == Net(entries, team) + if e.team == team then e.amount else 0
    ensures Spends(entries + [e], team) == Spends(entries, team) + if e.team == team && e.amount == 1 then 1 else 0
  {
    assert (entries + [e])[..|entries|] == entries;
  }

  predicate Units(entries: seq<Entry>) {
    forall k :: 0 <= k < |entries| ==> entries[k].amount == 1 || entries[k].amount == -1
  }

  /** Scans charged in these entries and not refunded in them. */
  ghost predicate Outstanding(entries: seq<Entry>, team: Team, open: set<ScanId>) {
    && (forall s :: s in open ==> Charged(entries, team, s))
    && (forall k :: 0 <= k < |entries| && entries[k].scan.Some? && entries[k].scan.value in open ==> entries[k].amount == 1)
  }

  /** Charges without a refund count in the net. */
  lemma {:induction false} NetCoversOutstanding(entries: seq<Entry>, team: Team, open: set<ScanId>)
    requires PairsOnly(entries) && Matched(entries, team) && Units(entries) && Outstanding(entries, team, open)
    ensures Net(entries, team) >= |open|
    decreases |entries|
  {
    if entries == [] {
      assert open == {};
    } else {
      var last := |entries| - 1;
      var e, rest := entries[last], entries[..last];
      assert entries == rest + [e];
      RestStaysMatched(rest, e, team);
      var before := OpenBefore(e, team, open);
      OutstandingBefore(rest, e, team, open);
      NetCoversOutstanding(rest, team, before);
      OpenBeforeSize(e, team, open);
    }
  }

  function OpenBefore(e: Entry, team: Team, open: set<ScanId>): set<ScanId> {
    if e.team != team || e.scan.None? then open
    else if e.amount == -1 then open + {e.scan.value}
    else open - {e.scan.value}
  }

  lemma OpenBeforeSize(e: Entry, team: Team, open: set<ScanId>)
    requires e.amount == 1 || (e.amount == -1 && (e.scan.Some? ==> e.scan.value !in open))
    requires e.team == team && e.amount == -1 ==> e.scan.Some?
    ensures |OpenBefore(e, team, open)| >= |open| - if e.team == team then e.amount else 0
  {
    if e.team == team && e.scan.Some? && e.amount == 1 {
      assert open <= (open - {e.scan.value}) + {e.scan.value};
      assert |(open - {e.scan.value}) + {e.scan.value}| == |open - {e.scan.value}| + 1;
      SubsetSize(open, (open - {e.scan.value}) + {e.scan.value});
    }
  }

  lemma {:induction false} SubsetSize<T>(a: set<T>, b: set<T>)
    requires a <= b
    ensures |a| <= |b|
    decreases a
  {
    if a != {} {
      var x :| x in a;
      SubsetSize(a - {x}, b - {x});
    }
  }

  lemma OutstandingBefore(rest: seq<Entry>, e: Entry, team: Team, open: set<ScanId>)
    requires PairsOnly(rest + [e]) && Matched(rest + [e], team) && Units(rest + [e]) && Outstanding(rest + [e], team, open)
    ensures Outstanding(rest, team, OpenBefore(e, team, open))
  {
    var all := rest + [e];
    assert all[|rest|] == e;
    assert forall k :: 0 <= k < |rest| ==> all[k] == rest[k];
    if e.team == team && e.amount == -1 {
      RefundWasOpen(rest, e, team);
    }
    ChargedBefore(rest, e, team, OpenBefore(e, team, open) * open);
  }

  lemma RestStaysMatched(rest: seq<Entry>, e: Entry, team: Team)
    requires PairsOnly(rest + [e]) && Matched(rest + [e], team)
    ensures PairsOnly(rest) && Matched(rest, team)
  {
    var all := rest + [e];
    assert forall k :: 0 <= k < |rest| ==> all[k] == rest[k];
    forall k | 0 <= k < |rest| && rest[k].team == team && rest[k].amount == -1
      ensures rest[k].scan.Some? && Charged(rest, team, rest[k].scan.value)
    {
      assert all[k].scan.Some?;
      var c :| 0 <= c < |all| && IsCharge(all[c], team, all[k].scan.value);
      assert c != |rest|;
      assert IsCharge(rest[c], team, rest[k].scan.value);
    }
  }

  lemma RefundWasOpen(rest: seq<Entry>, e: Entry, team: Team)
    requires PairsOnly(rest + [e]) && Matched(rest + [e], team) && e.team == team && e.amount == -1
    ensures e.scan.Some? && Charged(rest, team, e.scan.value)
    ensures forall k :: 0 <= k < |rest| && rest[k].scan == e.scan ==> rest[k].amount == 1
  {
    var all := rest + [e];
    assert all[|rest|] == e;
    assert forall k :: 0 <= k < |rest| ==> all[k] == rest[k];
    var c :| 0 <= c < |all| && IsCharge(all[c], team, e.scan.value);
    assert IsCharge(rest[c], team, e.scan.value);
  }

  lemma ChargedBefore(rest: seq<Entry>, e: Entry, team: Team, open: set<ScanId>)
    requires forall s :: s in open ==> Charged(rest + [e], team, s) && !IsCharge(e, team, s)
    ensures forall s :: s in open ==> Charged(rest, team, s)
  {
    var all := rest + [e];
    forall s | s in open
      ensures Charged(rest, team, s)
    {
      var c :| 0 <= c < |all| && IsCharge(all[c], team, s);
      assert IsCharge(rest[c], team, s);
    }
  }

  /** The entries since the last reset against the counter. */
  ghost predicate ConservedSince(entries: seq<Entry>, team: Team, used: nat) {
    && Net(entries, team) <= used <= Spends(entries, team)
    && (Matched(entries, team) ==> used == Net(entries, team))
  }

  lemma SpendConserves(entries: seq<Entry>, e: Entry, team: Team, used: nat)
    requires ConservedSince(entries, team, used) && e.amount == 1 && PairsOnly(entries + [e])
    ensures ConservedSince(entries + [e], team, if e.team == team then used + 1 else used)
  {
    NetAppend(entries, e, team);
    if Matched(entries + [e], team) {
      RestStaysMatched(entries, e, team);
    }
  }

  /** The clamp at zero fires only for refunds of an earlier period. */
  lemma RefundConserves(entries: seq<Entry>, e: Entry, team: Team, used: nat)
    requires ConservedSince(entries, team, used) && e.amount == -1 && PairsOnly(entries + [e])
    requires Units(entries)
    ensures ConservedSince(entries + [e], team, if e.team == team && used > 0 then used - 1 else used)
  {
    NetAppend(entries, e, team);
    SpendsCoverNet(entries, team);
    if Matched(entries + [e], team) {
      RestStaysMatched(entries, e, team);
      if e.team == team {
        RefundWasOpen(entries, e, team);
        NetCoversOutstanding(entries, team, {e.scan.value});
      }
    }
  }

  lemma {:induction false} SpendsCoverNet(entries: seq<Entry>, team: Team)
    requires Units(entries)
    ensures Net(entries, team) <= Spends(entries, team) <= |entries|
    decreases |entries|
  {
    if entries != [] {
      SpendsCoverNet(entries[..|entries| - 1], team);
    }
  }

  // ----- the books over time

  /** Where a team's ledger stood, and when, at its last reset. */
  datatype Meter = Meter(mark: map<Team, nat>, resetAt: map<Team, Time>)

  /** The spend opens a new period, or the row itself. */
  predicate Resets(b: Books, team: Team, now: Time) {
    team in b.subs ==> !b.subs[team].status.Canceled? && Expired(b.subs[team], now)
  }

  function MeterAfterSpend(b: Books, m: Meter, team: Team, now: Time): Meter {
    if Resets(b, team, now) then Meter(m.mark[team := |b.ledger|], m.resetAt[team := now]) else m
  }

  /** A new row opens its first period; an old one is left alone. */
  function MeterAfterEnsure(b: Books, m: Meter, team: Team, now: Time): Meter {
    if team in b.subs then m else Meter(m.mark[team := |b.ledger|], m.resetAt[team := now])
  }

  function MeterAfterBilling(b: Books, m: Meter, team: Team): Meter {
    if team in b.subs then m else m.(mark := m.mark[team := |b.ledger|])
  }

  ghost predicate Conserved(b: Books, m: Meter, team: Team)
    requires team in b.subs
  {
    && team in m.mark && m.mark[team] <= |b.ledger|
    && ConservedSince(b.ledger[m.mark[team]..], team, b.subs[team].used)
  }

  ghost predicate BooksInv(b: Books, m: Meter) {
    && Orderly(b.ledger)
    && (forall k :: 0 <= k < |b.ledger| ==> b.ledger[k].team in b.subs)
    && forall team :: team in b.subs ==> Conserved(b, m, team)
  }

  lemma SliceIsOrderly(ledger: seq<Entry>, from: nat)
    requires Orderly(ledger) && from <= |ledger|
    ensures PairsOnly(ledger[from..]) && Units(ledger[from..])
  {
    var s := ledger[from..];
    forall k | 0 <= k < |s|
      ensures s[k] == ledger[from + k]
    {
    }
    assert forall j, k :: 0 <= j < k < |s| ==> s[j] == ledger[from + j] && s[k] == ledger[from + k];
  }

  lemma AppendToSlice(ledger: seq<Entry>, from: nat, e: Entry)
    requires from <= |ledger|
    ensures (ledger + [e])[from..] == ledger[from..] + [e]
  {
  }

  /** The counter of a team after an entry of its own. */
  function Moved(used: nat, e: Entry): nat {
    if e.amount == 1 then used + 1 else if used > 0 then used - 1 else 0
  }

  /** The counter of any team against the ledger with one more entry. */
  lemma EntryConserves(b: Books, m: Meter, e: Entry, team: Team)
    requires BooksInv(b, m) && Orderly(b.ledger + [e]) && team in b.subs
    ensures var used := b.subs[team].used;
            var used' := if e.team == team then Moved(used, e) else used;
            ConservedSince((b.ledger + [e])[m.mark[team]..], team, used')
  {
    assert Conserved(b, m, team);
    var from := m.mark[team];
    AppendToSlice(b.ledger, from, e);
    SliceIsOrderly(b.ledger, from);
    SliceIsOrderly(b.ledger + [e], from);
    assert (b.ledger + [e])[|b.ledger|] == e;
    hide Orderly, Conserved, Matched, PairsOnly, Units;
    if e.amount == 1 {
      SpendConserves(b.ledger[from..], e, team, b.subs[team].used);
    } else {
      assert e.amount == -1 by {
        assert Units(b.ledger[from..] + [e]);
        UnitsLast(b.ledger[from..], e);
      }
      RefundConserves(b.ledger[from..], e, team, b.subs[team].used);
    }
  }

  lemma UnitsLast(entries: seq<Entry>, e: Entry)
    requires Units(entries + [e])
    ensures e.amount == 1 || e.amount == -1
  {
    assert (entries + [e])[|entries|] == e;
  }

  /** The reset: an empty slice of the ledger, and a counter at zero. */
  lemma ResetConserves(b: Books, m: Meter, team: Team, now: Time)
    requires BooksInv(b, m) && Resets(b, team, now)
    ensures var sub := Renewed(Ensured(b, team, now).subs[team], now);
            sub.used == 0 && BooksInv(b.(subs := b.subs[team := sub]), MeterAfterSpend(b, m, team, now))
  {
    var m' := MeterAfterSpend(b, m, team, now);
    var sub := Renewed(Ensured(b, team, now).subs[team], now);
    var b' := b.(subs := b.subs[team := sub]);
    assert b.ledger[|b.ledger|..] == [];
    hide Orderly;
    forall t | t in b'.subs
      ensures Conserved(b', m', t)
    {
      if t != team {
        assert Conserved(b, m, t);
      }
    }
  }

  /** One more entry, and the counter of its team moved with it. */
  lemma EntryKeepsBooks(b: Books, m: Meter, e: Entry)
    requires BooksInv(b, m) && e.team in b.subs && Orderly(b.ledger + [e])
    ensures BooksInv(Books(b.subs[e.team := b.subs[e.team].(used := Moved(b.subs[e.team].used, e))], b.ledger + [e]), m)
  {
    hide Orderly, ConservedSince;
    var b' := Books(b.subs[e.team := b.subs[e.team].(used := Moved(b.subs[e.team].used, e))], b.ledger + [e]);
    forall t | t in b'.subs
      ensures Conserved(b', m, t)
    {
      assert Conserved(b, m, t);
      EntryConserves(b, m, e, t);
    }
  }

  /** A charge on a row that is already in its period. */
  lemma ChargeConserves(b: Books, m: Meter, e: Entry)
    requires BooksInv(b, m) && e.team in b.subs && e.amount == 1 && (e.scan.Some? ==> Unused(b.ledger, e.scan.value))
    ensures BooksInv(Books(b.subs[e.team := b.subs[e.team].(used := b.subs[e.team].used + 1)], b.ledger + [e]), m)
  {
    SpendOrderly(b.ledger, e);
    EntryKeepsBooks(b, m, e);
    hide BooksInv, Orderly;
  }

  lemma SpendKeepsBooks(b: Books, m: Meter, team: Team, reason: Reason, scan: Option<ScanId>, now: Time)
    requires BooksInv(b, m) && (scan.Some? ==> Unused(b.ledger, scan.value))
    ensures BooksInv(SpendCredit(b, team, reason, scan, now).books, MeterAfterSpend(b, m, team, now))
  {
    var b1 := Ensured(b, team, now);
    hide BooksInv, Unused;
    if Resets(b, team, now) {
      ResetConserves(b, m, team, now);
      assert b1.(subs := b1.subs[team := Renewed(b1.subs[team], now)])
          == b.(subs := b.subs[team := Renewed(b1.subs[team], now)]);
    } else {
      assert b1.subs[team := b1.subs[team]] == b1.subs;
    }
    var r := SpendCredit(b, team, reason, scan, now);
    var m' := MeterAfterSpend(b, m, team, now);
    if r.Spent? {
      var renewed := Renewed(b1.subs[team], now);
      ChargeConserves(b1.(subs := b1.subs[team := renewed]), m', Entry(team, 1, reason, scan));
      assert b1.subs[team := renewed][team := renewed.(used := renewed.used + 1)]
          == b1.subs[team := renewed.(used := renewed.used + 1)];
    }
  }

  /** The row inserted when a team is created, or before its first spend. */
  lemma EnsureKeepsBooks(b: Books, m: Meter, team: Team, now: Time)
    requires BooksInv(b, m)
    ensures BooksInv(Ensured(b, team, now), MeterAfterEnsure(b, m, team, now))
  {
    if team !in b.subs {
      ResetConserves(b, m, team, now);
      hide BooksInv;
    }
  }

  lemma RefundKeepsBooks(b: Books, m: Meter, team: Team, scan: ScanId)
    requires BooksInv(b, m)
    ensures BooksInv(RefundCredit(b, team, scan), m)
  {
    if Charged(b.ledger, team, scan) && !Refunded(b.ledger, team, scan) {
      var e := Entry(team, -1, ReasonCancel, Some(scan));
      RefundOrderly(b.ledger, team, scan);
      assert team in b.subs;
      EntryKeepsBooks(b, m, e);
    }
    hide BooksInv, Orderly, Charged, Refunded;
  }

  lemma BillingConserves(b: Books, b': Books, m: Meter, team: Team, t: Team)
    requires BooksInv(b, m) && BillingStep(b, b', team) && t in b'.subs
    ensures Conserved(b', MeterAfterBilling(b, m, team), t)
  {
    assert b.ledger[|b.ledger|..] == [];
    if t in b.subs {
      assert Conserved(b, m, t);
    }
    hide Orderly;
  }

  lemma BillingKeepsBooks(b: Books, b': Books, m: Meter, team: Team)
    requires BooksInv(b, m) && BillingStep(b, b', team)
    ensures BooksInv(b', MeterAfterBilling(b, m, team))
  {
    var m' := MeterAfterBilling(b, m, team);
    forall t | t in b'.subs
      ensures Conserved(b', m', t)
    {
      BillingConserves(b, b', m, team, t);
    }
    hide Orderly, Conserved;
  }

  // ----- limits and periods

  /** With no Stripe subscription the counter stays within the plan. */
  predicate WithinPlan(sub: Sub) {
    sub.used <= CreditsPerPeriod(sub.plan)
  }

  /** A team without a Stripe subscription, in the thirty days that opened at its last reset. */
  predicate Periodic(b: Books, m: Meter, team: Team) {
    && team in b.subs && b.subs[team].subscription.None? && WithinPlan(b.subs[team])
    && team in m.resetAt && b.subs[team].periodEnd == Some(m.resetAt[team] + THIRTY_DAYS)
  }

  /** Resets of a team without Stripe are more than thirty days apart. */
  lemma ResetsApart(b: Books, m: Meter, team: Team, reason: Reason, scan: Option<ScanId>, now: Time, spender: Team)
    requires Periodic(b, m, team) || (spender == team && team !in b.subs)
    ensures var m' := MeterAfterSpend(b, m, spender, now);
            && Periodic(SpendCredit(b, spender, reason, scan, now).books, m', team)
            && (team in b.subs ==>
                  m' == m || (spender != team && m'.resetAt[team] == m.resetAt[team])
                  || m'.resetAt[team] == now > m.resetAt[team] + THIRTY_DAYS)
  {
  }

  /** The first period of a team opens with its row and lasts thirty days, whether a sign-up or a spend inserts it. */
  lemma EnsureOpensPeriod(b: Books, m: Meter, team: Team, now: Time, other: Team)
    requires other in b.subs ==> Periodic(b, m, other)
    requires other == team || other in b.subs
    ensures var m' := MeterAfterEnsure(b, m, team, now);
            && Periodic(Ensured(b, team, now), m', other)
            && m'.resetAt[other] == if other in b.subs then m.resetAt[other] else now
  {
  }

  lemma RefundStaysPeriodic(b: Books, m: Meter, team: Team, scan: ScanId, refunded: Team)
    requires Periodic(b, m, team)
    ensures Periodic(RefundCredit(b, refunded, scan), m, team)
  {
  }

  /** How many of a sequence of spends succeed. */
  function Granted(b: Books, team: Team, times: seq<Time>): nat
    decreases |times|
  {
    if times == [] then 0
    else
      var r := SpendCredit(b, team, ReasonScan, None, times[0]);
      Granted(r.books, team, times[1..]) + if r.Spent? then 1 else 0
  }

  /** What a row still allows in its period; a plan may have become smaller than what is used. */
  function Left(sub: Sub): nat {
    if sub.used < CreditsPerPeriod(sub.plan) then CreditsPerPeriod(sub.plan) - sub.used else 0
  }

  /** Inside a period exactly what is left of the plan is granted; without a period end that is for ever. */
  lemma {:induction false} GrantsWhatIsLeft(b: Books, team: Team, times: seq<Time>)
    requires team in b.subs && !b.subs[team].status.Canceled?
    requires forall i :: 0 <= i < |times| ==> !Expired(b.subs[team], times[i])
    ensures var left := Left(b.subs[team]);
            Granted(b, team, times) == if |times| <= left then |times| else left
    decreases |times|
  {
    if times != [] {
      var r := SpendCredit(b, team, ReasonScan, None, times[0]);
      assert !Expired(b.subs[team], times[0]);
      assert forall i :: 0 <= i < |times[1..]| ==> times[1..][i] == times[i + 1];
      GrantsWhatIsLeft(r.books, team, times[1..]);
    }
  }

  /**
   A Stripe team whose stored period end has passed starts a new period on every spend:
   until Stripe reports a new period end, nothing limits it.
   */
  lemma {:induction false} StaleStripePeriodIsUnlimited(b: Books, team: Team, times: seq<Time>)
    requires team in b.subs && !b.subs[team].status.Canceled? && b.subs[team].subscription.Some?
    requires forall i :: 0 <= i < |times| ==> Expired(b.subs[team], times[i])
    ensures Granted(b, team, times) == |times|
    decreases |times|
  {
    if times != [] {
      var r := SpendCredit(b, team, ReasonScan, None, times[0]);
      assert Expired(b.subs[team], times[0]);
      assert forall i :: 0 <= i < |times[1..]| ==> times[1..][i] == times[i + 1];
      StaleStripePeriodIsUnlimited(r.books, team, times[1..]);
    }
  }

  /** How many of the times are not past the period end. */
  function InTime(sub: Sub, times: seq<Time>): nat {
    if times == [] then 0 else InTime(sub, times[1..]) + if Expired(sub, times[0]) then 0 else 1
  }

  ghost predicate Ascending(times: seq<Time>) {
    forall i, j :: 0 <= i < j < |times| ==> times[i] <= times[j]
  }

  /** A Stripe team is granted what is left for its period, and everything after it. */
  lemma {:induction false} StripeGrants(b: Books, team: Team, times: seq<Time>)
    requires team in b.subs && !b.subs[team].status.Canceled? && b.subs[team].subscription.Some? && Ascending(times)
    ensures var k, left := InTime(b.subs[team], times), Left(b.subs[team]);
            Granted(b, team, times) == (if k <= left then k else left) + |times| - k
    decreases |times|
  {
    if times != [] {
      var sub := b.subs[team];
      if Expired(sub, times[0]) {
        assert forall i :: 0 <= i < |times| ==> times[0] <= times[i] && Expired(sub, times[i]);
        StaleStripePeriodIsUnlimited(b, team, times);
        NoneInTime(sub, times);
      } else {
        var r := SpendCredit(b, team, ReasonScan, None, times[0]);
        assert forall i :: 0 <= i < |times[1..]| ==> times[1..][i] == times[i + 1];
        SameEndSameTimes(sub, r.books.subs[team], times[1..]);
        StripeGrants(r.books, team, times[1..]);
        InTimeBound(sub, times[1..]);
      }
    }
  }

  lemma {:induction false} NoneInTime(sub: Sub, times: seq<Time>)
    requires forall i :: 0 <= i < |times| ==> Expired(sub, times[i])
    ensures InTime(sub, times) == 0
    decreases |times|
  {
    if times != [] {
      assert forall i :: 0 <= i < |times[1..]| ==> times[1..][i] == times[i + 1];
      NoneInTime(sub, times[1..]);
    }
  }

  lemma {:induction false} SameEndSameTimes(a: Sub, b: Sub, times: seq<Time>)
    requires a.periodEnd == b.periodEnd
    ensures InTime(a, times) == InTime(b, times)
    decreases |times|
  {
    if times != [] {
      SameEndSameTimes(a, b, times[1..]);
    }
  }

  lemma {:induction false} InTimeBound(sub: Sub, times: seq<Time>)
    ensures InTime(sub, times) <= |times|
    decreases |times|
  {
    if times != [] {
      InTimeBound(sub, times[1..]);
    }
  }

  // ----- the code

  class CreditStore {
    var subs: map<Team, Sub>
    var ledger: seq<Entry>

    function View(): Books
      reads this
    {
      Books(subs, ledger)
    }

    constructor (b: Books)
      ensures View() == b
    {
      subs, ledger := b.subs, b.ledger;
    }

    /** The rollback of an enclosing transaction. */
    method Restore(b: Books)
      modifies this
      ensures View() == b
    {
      subs, ledger := b.subs, b.ledger;
    }

    /** `insert ... on conflict (team_id) do nothing` */
    method EnsureSubscriptionRow(team: Team, now: Time)
      modifies this
      ensures View() == Ensured(old(View()), team, now)
    {
      if team !in subs {
        subs := subs[team := Sub(Free, Active, Some(now + THIRTY_DAYS), 0, None, None, false, Month)];
      }
    }

    method ResetPeriod(team: Team, now: Time)
      requires team in subs
      modifies this
      ensures Expired(old(subs)[team], now) ==> View() == old(View()).(subs := old(subs)[team := Renewed(old(subs)[team], now)])
    {
      var periodEnd := if subs[team].subscription.None? then Some(now + THIRTY_DAYS) else subs[team].periodEnd;
      subs := subs[team := subs[team].(used := 0, periodEnd := periodEnd)];
    }

    method Spend(team: Team, reason: Reason, scan: Option<ScanId>, now: Time) returns (r: SpendResult)
      modifies this
      ensures r == SpendCredit(old(View()), team, reason, scan, now)
      ensures View() == r.books
    {
      EnsureSubscriptionRow(team, now);
      var sub := subs[team];
      var limit := CreditsPerPeriod(sub.plan);
      if sub.status != Active && sub.status != Trialing && sub.status != PastDue {
        return Limited(View(), sub.used, limit);
      }
      if sub.periodEnd.Some? && sub.periodEnd.value < now {
        ResetPeriod(team, now);
        sub := sub.(used := 0);
      }
      if subs[team].used < limit {
        subs := subs[team := subs[team].(used := subs[team].used + 1)];
        ledger := ledger + [Entry(team, 1, reason, scan)];
        r := Spent(View(), subs[team].used);
      } else {
        r := Limited(View(), sub.used, limit);
      }
    }

    method Refund(team: Team, scan: ScanId) returns (done: bool)
      modifies this
      ensures View() == RefundCredit(old(View()), team, scan)
      ensures done <==> Charged(old(ledger), team, scan) && !Refunded(old(ledger), team, scan)
    {
      if !Charged(ledger, team, scan) || Refunded(ledger, team, scan) {
        return false;
      }
      if team in subs {
        var used: int := subs[team].used;
        subs := subs[team := subs[team].(used := if used - 1 > 0 then used - 1 else 0)];
      }
      ledger := ledger + [Entry(team, -1, ReasonCancel, Some(scan))];
      done := true;
    }
  }
}
