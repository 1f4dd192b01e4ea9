/**
 apps/web/lib/rate-limit.ts and apps/worker/src/rate-limit.ts: a fixed window over one
 Redis key. INCR, EXPIRE and TTL are the atomic steps; callers stall or die between them.
 */
module RateLimit {
  import opened Options

  /** Seconds. */
  type Time = int
  type Caller = nat

  datatype Key = Key(count: nat, expireAt: Option<Time>)
  datatype Verdict = Admitted | Refused(retryAfterSeconds: int)

  // ----- Redis

  /** An expired key reads as absent. */
  function Live(k: Option<Key>, now: Time): Option<Key> {
    if k.Some? && k.value.expireAt.Some? && k.value.expireAt.value <= now then None else k
  }

  function Incr(k: Option<Key>, now: Time): Key {
    match Live(k, now)
    case None => Key(1, None)
    case Some(key) => key.(count := key.count + 1)
  }

  function Expire(k: Option<Key>, now: Time, window: int): Option<Key> {
    match Live(k, now)
    case None => None
    case Some(key) => if window <= 0 then None else Some(key.(expireAt := Some(now + window)))
  }

  function Ttl(k: Option<Key>, now: Time): int {
    match Live(k, now)
    case None => -2
    case Some(key) => if key.expireAt.None? then -1 else key.expireAt.value - now
  }

  function RetryAfter(ttl: int): int {
    if ttl > 1 then ttl else 1
  }

  // ----- concurrent callers of one key

  /** After its INCR a caller may still owe an EXPIRE, or a TTL. */
  datatype Phase = Expiring(epoch: nat) | Rejecting

  /** An INCR that stayed within the limit: the call succeeds unless its caller dies. */
  datatype Admission = Admission(at: Time, epoch: nat)

  /** `created` are the times the key came into being; the last is its current lifetime. */
  datatype State = State(
    key: Option<Key>, now: Time, callers: map<Caller, Phase>,
    created: seq<Time>, admissions: seq<Admission>)

  datatype Action = Advance(to: Time) | CallIncr(c: Caller) | CallExpire(c: Caller) | CallTtl(c: Caller) | Die(c: Caller)

  predicate Enabled(s: State, a: Action) {
    match a
    case Advance(to) => s.now <= to
    case CallIncr(c) => c !in s.callers
    case CallExpire(c) => c in s.callers && s.callers[c].Expiring?
    case CallTtl(c) => c in s.callers && s.callers[c].Rejecting?
    case Die(c) => c in s.callers
  }

  function AfterIncr(s: State, c: Caller, limit: int): State {
    var key := Incr(s.key, s.now);
    var created := if Live(s.key, s.now).None? then s.created + [s.now] else s.created;
    var epoch: nat := if created == [] then 0 else |created| - 1;
    State(Some(key), s.now,
          if key.count == 1 then s.callers[c := Expiring(epoch)]
          else if key.count > limit then s.callers[c := Rejecting]
          else s.callers,
          created,
          if key.count <= limit then s.admissions + [Admission(s.now, epoch)] else s.admissions)
  }

  function Apply(s: State, a: Action, limit: int, window: int): State
    requires Enabled(s, a)
  {
    match a
    case Advance(to) => s.(now := to)
    case CallIncr(c) => AfterIncr(s, c, limit)
    case CallExpire(c) =>
      s.(key := Expire(s.key, s.now, window),
         callers := if 1 > limit then s.callers[c := Rejecting] else s.callers - {c})
    case CallTtl(c) => s.(callers := s.callers - {c})
    case Die(c) => s.(callers := s.callers - {c})
  }

  ghost predicate Run(s: State, acts: seq<Action>, limit: int, window: int)
    decreases |acts|
  {
    acts != [] ==> Enabled(s, acts[0]) && Run(Apply(s, acts[0], limit, window), acts[1..], limit, window)
  }

  ghost function Final(s: State, acts: seq<Action>, limit: int, window: int): State
    requires Run(s, acts, limit, window)
    decreases |acts|
  {
    if acts == [] then s else Final(Apply(s, acts[0], limit, window), acts[1..], limit, window)
  }

  predicate Initial(s: State) {
    s.key == None && s.callers == map[] && s.created == [] && s.admissions == []
  }

  // ----- lifetimes of the key

  function Last(s: State): nat {
    if s.created == [] then 0 else |s.created| - 1
  }

  /** Only its creator can give the key an expiry, and only for the lifetime it created. */
  ghost predicate OneExpirer(s: State) {
    && (forall c :: c in s.callers && s.callers[c].Expiring? ==>
          s.key.Some? && s.key.value.expireAt.None? && s.created != [] && s.callers[c].epoch == Last(s))
    && (forall c, d :: c in s.callers && d in s.callers && s.callers[c].Expiring? && s.callers[d].Expiring? ==> c == d)
  }

  ghost predicate SpacedTimes(times: seq<Time>, now: Time, window: int) {
    && (forall e :: 0 <= e < |times| ==> times[e] <= now)
    && (forall e :: 0 < e < |times| ==> times[e] >= times[e - 1] + window && times[e] >= times[e - 1])
  }

  /** Lifetimes start at least a window apart, and the key never lives for less than one. */
  ghost predicate Spaced(s: State, window: int) {
    && SpacedTimes(s.created, s.now, window)
    && (s.key.Some? ==> s.created != [] && s.key.value.count >= 1)
    && (s.key.Some? && s.key.value.expireAt.Some? ==> s.key.value.expireAt.value >= s.created[Last(s)] + window)
    && (s.key.None? && s.created != [] ==> window <= 0)
  }

  function CountEpoch(log: seq<Admission>, epoch: nat): nat {
    if log == [] then 0
    else CountEpoch(log[..|log| - 1], epoch) + if log[|log| - 1].epoch == epoch then 1 else 0
  }

  ghost predicate Within(s: State, i: nat)
    requires i < |s.admissions|
  {
    var a := s.admissions[i];
    && a.epoch < |s.created| && s.created[a.epoch] <= a.at <= s.now
    && (a.epoch + 1 < |s.created| ==> a.at <= s.created[a.epoch + 1])
  }

  ghost predicate Logged(s: State, limit: int) {
    && (forall i :: 0 <= i < |s.admissions| ==> Within(s, i))
    && (forall i, j :: 0 <= i < j < |s.admissions| ==> s.admissions[i].epoch <= s.admissions[j].epoch)
    && (forall e: nat :: CountEpoch(s.admissions, e) <= if limit > 0 then limit else 0)
    && (s.key.Some? && s.created != [] ==> CountEpoch(s.admissions, Last(s)) <= s.key.value.count)
  }

  ghost predicate Inv(s: State, limit: int, window: int) {
    OneExpirer(s) && Spaced(s, window) && Logged(s, limit)
  }

  lemma AppendCounts(log: seq<Admission>, a: Admission, epoch: nat)
    ensures CountEpoch(log + [a], epoch) == CountEpoch(log, epoch) + if a.epoch == epoch then 1 else 0
  {
    assert (log + [a])[..|log|] == log;
  }

  lemma {:induction false} NoLaterEpochs(log: seq<Admission>, epoch: nat)
    requires forall i :: 0 <= i < |log| ==> log[i].epoch < epoch
    ensures CountEpoch(log, epoch) == 0
    decreases |log|
  {
    if log != [] {
      NoLaterEpochs(log[..|log| - 1], epoch);
    }
  }

  lemma IncrKeepsLifetimes(s: State, c: Caller, limit: int, window: int)
    requires Inv(s, limit, window) && Enabled(s, CallIncr(c))
    ensures var s' := AfterIncr(s, c, limit); OneExpirer(s') && Spaced(s', window)
  {
    IncrKeepsExpirer(s, c, limit, window);
    IncrKeepsSpacing(s, c, limit, window);
    hide Logged, OneExpirer, Spaced;
  }

  lemma IncrKeepsExpirer(s: State, c: Caller, limit: int, window: int)
    requires OneExpirer(s) && Spaced(s, window) && Enabled(s, CallIncr(c))
    ensures OneExpirer(AfterIncr(s, c, limit))
  {
    if Live(s.key, s.now).None? {
      assert forall d :: d in s.callers ==> !s.callers[d].Expiring?;
    }
  }

  lemma IncrKeepsSpacing(s: State, c: Caller, limit: int, window: int)
    requires Spaced(s, window) && Enabled(s, CallIncr(c))
    ensures Spaced(AfterIncr(s, c, limit), window)
  {
    assert s.created != [] ==> s.created[Last(s)] <= s.now;
    if Live(s.key, s.now).None? {
      OneMoreTime(s.created, s.now, window);
    }
    hide SpacedTimes;
  }

  lemma OneMoreTime(times: seq<Time>, now: Time, window: int)
    requires SpacedTimes(times, now, window)
    requires times != [] ==> now >= times[|times| - 1] + window && now >= times[|times| - 1]
    ensures SpacedTimes(times + [now], now, window)
  {
  }

  lemma IncrKeepsWithin(s: State, c: Caller, limit: int, window: int)
    requires Inv(s, limit, window) && Enabled(s, CallIncr(c))
    ensures var s' := AfterIncr(s, c, limit);
            && (forall i :: 0 <= i < |s'.admissions| ==> Within(s', i))
            && (forall i, j :: 0 <= i < j < |s'.admissions| ==> s'.admissions[i].epoch <= s'.admissions[j].epoch)
  {
    var s' := AfterIncr(s, c, limit);
    IncrKeepsLifetimes(s, c, limit, window);
    hide OneExpirer;
    forall i | 0 <= i < |s'.admissions|
      ensures Within(s', i)
    {
      if i < |s.admissions| {
        assert Within(s, i);
      }
    }
    EpochsSoFar(s);
    hide Within;
  }

  lemma EpochsSoFar(s: State)
    requires forall i :: 0 <= i < |s.admissions| ==> Within(s, i)
    ensures forall i :: 0 <= i < |s.admissions| ==> s.admissions[i].epoch < |s.created|
  {
    forall i | 0 <= i < |s.admissions|
      ensures s.admissions[i].epoch < |s.created|
    {
      assert Within(s, i);
    }
  }

  lemma IncrKeepsCounts(s: State, c: Caller, limit: int, window: int, epoch: nat)
    requires Inv(s, limit, window) && Enabled(s, CallIncr(c))
    ensures var s' := AfterIncr(s, c, limit);
            && CountEpoch(s'.admissions, epoch) <= (if limit > 0 then limit else 0)
            && (epoch == Last(s') ==> CountEpoch(s'.admissions, epoch) <= s'.key.value.count)
  {
    var s' := AfterIncr(s, c, limit);
    AppendCounts(s.admissions, Admission(s.now, Last(s')), epoch);
    EpochsSoFar(s);
    assert CountEpoch(s.admissions, epoch) <= if limit > 0 then limit else 0;
    hide OneExpirer, CountEpoch, Within;
    if Live(s.key, s.now).None? && epoch == Last(s') {
      NoLaterEpochs(s.admissions, epoch);
    }
  }

  lemma StepKeeps(s: State, a: Action, limit: int, window: int)
    requires Inv(s, limit, window) && Enabled(s, a)
    ensures Inv(Apply(s, a, limit, window), limit, window)
  {
    var s' := Apply(s, a, limit, window);
    if a.CallIncr? {
      IncrKeepsLifetimes(s, a.c, limit, window);
      IncrKeepsWithin(s, a.c, limit, window);
      forall e: nat
        ensures CountEpoch(s'.admissions, e) <= (if limit > 0 then limit else 0)
        ensures e == Last(s') ==> CountEpoch(s'.admissions, e) <= s'.key.value.count
      {
        IncrKeepsCounts(s, a.c, limit, window, e);
      }
      hide OneExpirer, Spaced, CountEpoch, Within;
    } else {
      StepKeepsLifetimes(s, a, limit, window);
      StepKeepsLog(s, a, limit, window);
      hide OneExpirer, Spaced, Logged;
    }
  }

  lemma StepKeepsLog(s: State, a: Action, limit: int, window: int)
    requires Logged(s, limit) && Enabled(s, a) && !a.CallIncr?
    ensures Logged(Apply(s, a, limit, window), limit)
  {
    hide CountEpoch;
    var s' := Apply(s, a, limit, window);
    forall i | 0 <= i < |s'.admissions|
      ensures Within(s', i)
    {
      assert Within(s, i);
    }
  }

  lemma StepKeepsLifetimes(s: State, a: Action, limit: int, window: int)
    requires Inv(s, limit, window) && Enabled(s, a) && !a.CallIncr?
    ensures var s' := Apply(s, a, limit, window); OneExpirer(s') && Spaced(s', window)
  {
    StepKeepsExpirer(s, a, limit, window);
    StepKeepsSpacing(s, a, limit, window);
    hide Logged, OneExpirer, Spaced;
  }

  lemma StepKeepsExpirer(s: State, a: Action, limit: int, window: int)
    requires OneExpirer(s) && Enabled(s, a) && !a.CallIncr?
    ensures OneExpirer(Apply(s, a, limit, window))
  {
  }

  lemma StepKeepsSpacing(s: State, a: Action, limit: int, window: int)
    requires OneExpirer(s) && Spaced(s, window) && Enabled(s, a) && !a.CallIncr?
    ensures Spaced(Apply(s, a, limit, window), window)
  {
    assert s.created != [] ==> s.created[Last(s)] <= s.now;
    assert a.Advance? ==> SpacedTimes(s.created, a.to, window);
    hide SpacedTimes;
  }

  lemma {:induction false} RunKeeps(s: State, acts: seq<Action>, limit: int, window: int)
    requires Inv(s, limit, window) && Run(s, acts, limit, window)
    ensures Inv(Final(s, acts, limit, window), limit, window)
    decreases |acts|
  {
    if acts != [] {
      StepKeeps(s, acts[0], limit, window);
      RunKeeps(Apply(s, acts[0], limit, window), acts[1..], limit, window);
    }
  }

  /** At most `limit` admissions in one lifetime of the key. */
  lemma LimitPerLifetime(s: State, acts: seq<Action>, limit: int, window: int, epoch: nat)
    requires Initial(s) && Run(s, acts, limit, window)
    ensures CountEpoch(Final(s, acts, limit, window).admissions, epoch) <= if limit > 0 then limit else 0
  {
    RunKeeps(s, acts, limit, window);
  }

  /** The admissions of the current lifetime are its first calls, as many as the limit allows. */
  ghost predicate Full(s: State, limit: int) {
    s.key.Some? && s.created != [] ==>
      var count := s.key.value.count;
      CountEpoch(s.admissions, Last(s)) == if count <= limit then count else if limit > 0 then limit else 0
  }

  lemma StepKeepsFull(s: State, a: Action, limit: int, window: int)
    requires Inv(s, limit, window) && Full(s, limit) && Enabled(s, a)
    ensures Full(Apply(s, a, limit, window), limit)
  {
    var s' := Apply(s, a, limit, window);
    if a.CallIncr? {
      AppendCounts(s.admissions, Admission(s.now, Last(s')), Last(s'));
      EpochsSoFar(s);
      if Live(s.key, s.now).None? {
        NoLaterEpochs(s.admissions, Last(s'));
      }
    }
    hide OneExpirer, CountEpoch, Within, Logged;
  }

  lemma {:induction false} RunKeepsFull(s: State, acts: seq<Action>, limit: int, window: int)
    requires Inv(s, limit, window) && Full(s, limit) && Run(s, acts, limit, window)
    ensures Full(Final(s, acts, limit, window), limit)
    decreases |acts|
  {
    if acts != [] {
      StepKeeps(s, acts[0], limit, window);
      StepKeepsFull(s, acts[0], limit, window);
      RunKeepsFull(Apply(s, acts[0], limit, window), acts[1..], limit, window);
    }
    hide Inv, Full, Apply;
  }

  /** No call is refused before the limit: of the calls counted in a lifetime exactly the first `limit` are admitted. */
  lemma FirstCallsAreAdmitted(s: State, acts: seq<Action>, limit: int, window: int)
    requires Initial(s) && Run(s, acts, limit, window) && Final(s, acts, limit, window).key.Some?
    ensures var f := Final(s, acts, limit, window);
            var count := f.key.value.count;
            f.created != [] && CountEpoch(f.admissions, |f.created| - 1) == if count <= limit then count else if limit > 0 then limit else 0
  {
    RunKeeps(s, acts, limit, window);
    RunKeepsFull(s, acts, limit, window);
  }

  // ----- any window

  function CountIn(log: seq<Admission>, from: Time, until: Time): nat {
    if log == [] then 0
    else CountIn(log[..|log| - 1], from, until) + if from <= log[|log| - 1].at < until then 1 else 0
  }

  lemma {:induction false} InTwoEpochs(log: seq<Admission>, from: Time, until: Time, epoch: nat)
    requires forall i :: 0 <= i < |log| && from <= log[i].at < until ==> log[i].epoch == epoch || log[i].epoch == epoch + 1
    ensures CountIn(log, from, until) <= CountEpoch(log, epoch) + CountEpoch(log, epoch + 1)
    decreases |log|
  {
    if log != [] {
      InTwoEpochs(log[..|log| - 1], from, until, epoch);
    }
  }

  lemma {:induction false} NoneIn(log: seq<Admission>, from: Time, until: Time)
    requires forall i :: 0 <= i < |log| ==> !(from <= log[i].at < until)
    ensures CountIn(log, from, until) == 0
    decreases |log|
  {
    if log != [] {
      NoneIn(log[..|log| - 1], from, until);
    }
  }

  lemma {:induction false} CreatedIsMonotone(s: State, window: int, e: nat, f: nat)
    requires Spaced(s, window) && e <= f < |s.created|
    ensures s.created[e] <= s.created[f]
    decreases f
  {
    if e < f {
      CreatedIsMonotone(s, window, e, f - 1);
    }
  }

  /** Admissions two lifetimes apart are a window apart. */
  lemma TwoLifetimesApart(s: State, limit: int, window: int, i: nat, j: nat)
    requires Inv(s, limit, window) && i < |s.admissions| && j < |s.admissions|
    requires s.admissions[j].epoch >= s.admissions[i].epoch + 2
    ensures s.admissions[j].at >= s.admissions[i].at + window
  {
    var a, b := s.admissions[i], s.admissions[j];
    assert Within(s, i) && Within(s, j);
    CreatedIsMonotone(s, window, a.epoch + 2, b.epoch);
    assert s.created[a.epoch + 2] >= s.created[a.epoch + 1] + window;
  }

  lemma FirstIn(log: seq<Admission>, from: Time, until: Time) returns (i: nat)
    ensures i <= |log|
    ensures forall j :: 0 <= j < i ==> !(from <= log[j].at < until)
    ensures i < |log| ==> from <= log[i].at < until
  {
    i := 0;
    while i < |log| && !(from <= log[i].at < until)
      invariant i <= |log|
      invariant forall j :: 0 <= j < i ==> !(from <= log[j].at < until)
    {
      i := i + 1;
    }
  }

  /** Lifetimes admitted in one window are the first one and the next. */
  lemma WindowSpansTwo(s: State, limit: int, window: int, from: Time, i: nat, j: nat)
    requires Inv(s, limit, window) && i <= j < |s.admissions|
    requires from <= s.admissions[i].at && s.admissions[j].at < from + window
    ensures s.admissions[j].epoch == s.admissions[i].epoch || s.admissions[j].epoch == s.admissions[i].epoch + 1
  {
    if s.admissions[j].epoch >= s.admissions[i].epoch + 2 {
      TwoLifetimesApart(s, limit, window, i, j);
    }
  }

  lemma WindowBound(s: State, limit: int, window: int, from: Time)
    requires Inv(s, limit, window)
    ensures CountIn(s.admissions, from, from + window) <= if limit > 0 then 2 * limit else 0
  {
    var log := s.admissions;
    var i := FirstIn(log, from, from + window);
    if i < |log| {
      forall j | 0 <= j < |log| && from <= log[j].at < from + window
        ensures log[j].epoch == log[i].epoch || log[j].epoch == log[i].epoch + 1
      {
        WindowSpansTwo(s, limit, window, from, i, j);
      }
      InTwoEpochs(log, from, from + window, log[i].epoch);
      assert CountEpoch(log, log[i].epoch) <= (if limit > 0 then limit else 0);
      assert CountEpoch(log, log[i].epoch + 1) <= (if limit > 0 then limit else 0);
    } else {
      NoneIn(log, from, from + window);
    }
    hide CountEpoch, CountIn, Within, OneExpirer, Spaced;
  }

  /** At most twice the limit in any half-open interval as long as the window. */
  lemma TwiceLimitPerWindow(s: State, acts: seq<Action>, limit: int, window: int, from: Time)
    requires Initial(s) && Run(s, acts, limit, window)
    ensures CountIn(Final(s, acts, limit, window).admissions, from, from + window) <= if limit > 0 then 2 * limit else 0
  {
    RunKeeps(s, acts, limit, window);
    WindowBound(Final(s, acts, limit, window), limit, window, from);
  }

  /** A key that is given its expiry at once lives for exactly one window, and then the count starts again. */
  lemma LifetimeIsWindow(k: Option<Key>, now: Time, window: int, t: Time)
    requires Live(k, now).None? && window > 0
    ensures var created := Expire(Some(Incr(k, now)), now, window);
            && created == Some(Key(1, Some(now + window)))
            && (t < now + window ==> Ttl(created, t) == now + window - t && Incr(created, t) == Key(2, Some(now + window)))
            && (t >= now + window ==> Ttl(created, t) == -2 && Incr(created, t) == Key(1, None))
  {
  }

  // ----- the caller that dies

  /** The key has no expiry and nobody left who would set one. */
  ghost predicate Orphaned(s: State) {
    s.key.Some? && s.key.value.expireAt.None? && forall c :: c in s.callers ==> !s.callers[c].Expiring?
  }

  /**
   A key is orphaned by exactly one thing: the death of the caller that created it between
   its INCR and its EXPIRE.
   */
  lemma OrphanedByDeath(s: State, a: Action, limit: int, window: int)
    requires Inv(s, limit, window) && Enabled(s, a) && !Orphaned(s)
    ensures Orphaned(Apply(s, a, limit, window)) <==> a.Die? && s.callers[a.c].Expiring?
  {
    hide Logged;
    var s' := Apply(s, a, limit, window);
    if a.CallIncr? && Live(s.key, s.now).None? {
      assert s'.callers[a.c].Expiring?;
    }
    if !a.Die? && !a.CallIncr? {
      if c :| c in s.callers && s.callers[c].Expiring? && !(a.CallExpire? && a.c == c) {
        assert c in s'.callers && s'.callers[c].Expiring?;
      }
    } else if a.CallIncr? {
      if c :| c in s.callers && s.callers[c].Expiring? {
        assert c in s'.callers && s'.callers[c].Expiring?;
      }
    } else if a.Die? && !s.callers[a.c].Expiring? {
      if c :| c in s.callers && s.callers[c].Expiring? {
        assert c in s'.callers && s'.callers[c].Expiring?;
      }
    }
  }

  /** Two steps from an empty store are enough. */
  lemma OrphanIsReachable(s: State, c: Caller, limit: int, window: int)
    requires Initial(s)
    ensures var acts := [CallIncr(c), Die(c)];
            && Run(s, acts, limit, window) && Orphaned(Final(s, acts, limit, window))
            && Final(s, acts, limit, window).key.value.count == 1
  {
    var acts := [CallIncr(c), Die(c)];
    var s1 := Apply(s, acts[0], limit, window);
    var s2 := Apply(s1, acts[1], limit, window);
    assert acts[1..] == [Die(c)] && acts[1..][1..] == [];
    assert Run(s2, [], limit, window) && Run(s1, acts[1..], limit, window);
    assert Final(s1, acts[1..], limit, window) == s2;
  }

  /** From then on the key lives for ever: only what was left of the limit is ever admitted again. */
  lemma {:induction false} OrphanBlocksForever(s: State, acts: seq<Action>, limit: int, window: int)
    requires Orphaned(s) && s.key.value.count >= 1 && Run(s, acts, limit, window)
    ensures var f := Final(s, acts, limit, window);
            && Orphaned(f) && f.key.value.count >= s.key.value.count
            && |f.admissions| - |s.admissions| <= (if limit > s.key.value.count then limit - s.key.value.count else 0)
    decreases |acts|
  {
    if acts != [] {
      var s' := Apply(s, acts[0], limit, window);
      assert Orphaned(s') && s'.key.value.count >= s.key.value.count;
      OrphanBlocksForever(s', acts[1..], limit, window);
    }
  }

  // ----- the code

  /** The limiter against a store of keys, one call without interference. */
  class Limiter {
    var keys: map<string, Key>

    constructor ()
      ensures keys == map[]
    {
      keys := map[];
    }

    function Lookup(key: string): Option<Key>
      reads this
    {
      if key in keys then Some(keys[key]) else None
    }

    method Store(key: string, value: Option<Key>)
      modifies this
      ensures Lookup(key) == value
      ensures forall other :: other != key ==> Lookup(other) == old(Lookup(other))
    {
      keys := if value.Some? then keys[key := value.value] else keys - {key};
    }

    method CheckRateLimit(key: string, limit: int, windowSeconds: int, now: Time) returns (verdict: Verdict)
      modifies this
      ensures var before := old(Lookup("rl:" + key));
              var after := Lookup("rl:" + key);
              var count := Incr(before, now).count;
              && (verdict == Admitted <==> count <= limit)
              && (verdict.Refused? ==> verdict.retryAfterSeconds == if Ttl(after, now) > 1 then Ttl(after, now) else 1)
              && after == if count == 1 then Expire(Some(Incr(before, now)), now, windowSeconds) else Some(Incr(before, now))
      ensures forall other :: other != "rl:" + key ==> Lookup(other) == old(Lookup(other))
    {
      var redisKey := "rl:" + key;
      var incremented := Incr(Lookup(redisKey), now);
      Store(redisKey, Some(incremented));
      var count := incremented.count;
      if count == 1 {
        Store(redisKey, Expire(Lookup(redisKey), now, windowSeconds));
      }
      if count > limit {
        var ttl := Ttl(Lookup(redisKey), now);
        return Refused(RetryAfter(ttl));
      }
      verdict := Admitted;
    }
  }

  /** One caller's steps without interference are `CheckRateLimit`. */
  lemma UninterruptedIsTheCall(s: State, c: Caller, limit: int, window: int)
    requires c !in s.callers
    ensures var s1 := AfterIncr(s, c, limit);
            var s2 := if c in s1.callers && s1.callers[c].Expiring? then Apply(s1, CallExpire(c), limit, window) else s1;
            var s3 := if c in s2.callers && s2.callers[c].Rejecting? then Apply(s2, CallTtl(c), limit, window) else s2;
            var counted := Incr(s.key, s.now);
            && s3.callers == s.callers && (c in s2.callers <==> counted.count > limit)
            && s3.key == (if counted.count == 1 then Expire(Some(counted), s.now, window) else Some(counted))
            && |s3.admissions| == |s.admissions| + (if counted.count <= limit then 1 else 0)
  {
  }
}
