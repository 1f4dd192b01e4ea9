/**
 apps/worker/src/concurrency.ts: `mapWithConcurrency` under every order in which the
 pending calls settle. A worker runs alone between two awaits, so taking an index and
 settling a call are the atomic steps.
 */
module BoundedMap {
  import opened Options

  // ----- the limit

  datatype JsNum = Finite(value: real) | PlusInfinity | MinusInfinity | NaN

  /** `Math.max(1, Math.floor(concurrency) || 1)` against the number of items. */
  function WorkerCount(concurrency: JsNum, n: nat): (k: nat)
    ensures k <= n && (n > 0 ==> k >= 1)
    ensures concurrency.Finite? && concurrency.value >= 1.0 ==>
              k == if n < concurrency.value.Floor then n else concurrency.value.Floor
    ensures concurrency.PlusInfinity? || (concurrency.Finite? && concurrency.value >= n as real) ==> k == n
    ensures concurrency.MinusInfinity? || concurrency.NaN? || (concurrency.Finite? && concurrency.value < 2.0) ==> k <= 1
  {
    match concurrency
    case PlusInfinity => n
    case NaN => if n < 1 then n else 1
    case MinusInfinity => if n < 1 then n else 1
    case Finite(value) =>
      var floor := value.Floor;
      var limit := if floor <= 1 then 1 else floor;
      if n < limit then n else limit
  }

  // ----- the workers

  datatype Outcome<R> = Value(result: R) | Throws

  datatype Worker = Ready | Busy(index: nat) | Done | Rejected(index: nat)

  /** `calls` is the history of the indices `fn` was called with. */
  datatype State<R> = State(next: nat, workers: seq<Worker>, results: seq<Option<R>>, calls: seq<nat>)

  datatype Action = Take(w: nat) | Settle(w: nat)

  predicate Enabled<R>(s: State<R>, a: Action) {
    a.w < |s.workers| && if a.Take? then s.workers[a.w].Ready? else s.workers[a.w].Busy?
  }

  function Start<R>(n: nat, concurrency: JsNum): State<R> {
    State(0, seq(WorkerCount(concurrency, n), _ => Ready), seq(n, _ => None), [])
  }

  function TakeNext<R>(s: State<R>, w: nat): State<R>
    requires w < |s.workers|
  {
    if s.next >= |s.results| then s.(next := s.next + 1, workers := s.workers[w := Done])
    else s.(next := s.next + 1, workers := s.workers[w := Busy(s.next)], calls := s.calls + [s.next])
  }

  function SettleCall<R>(s: State<R>, w: nat, outcome: Outcome<R>): State<R>
    requires w < |s.workers| && s.workers[w].Busy? && s.workers[w].index < |s.results|
  {
    var index := s.workers[w].index;
    match outcome
    case Value(r) => s.(workers := s.workers[w := Ready], results := s.results[index := Some(r)])
    case Throws => s.(workers := s.workers[w := Rejected(index)])
  }

  // ----- what every step keeps

  predicate Called<R>(s: State<R>, i: nat) {
    i < s.next && i < |s.results|
  }

  /** Busy and rejected workers hold different indices, all of them called and without a result. */
  ghost predicate Holding<R>(s: State<R>) {
    && (forall w :: 0 <= w < |s.workers| && (s.workers[w].Busy? || s.workers[w].Rejected?) ==>
          Called(s, s.workers[w].index) && s.results[s.workers[w].index].None?)
    && (forall v, w :: 0 <= v < w < |s.workers| && (s.workers[v].Busy? || s.workers[v].Rejected?)
                       && (s.workers[w].Busy? || s.workers[w].Rejected?) ==>
          s.workers[v].index != s.workers[w].index)
  }

  ghost predicate Held<R>(s: State<R>, i: nat, outcome: Outcome<R>) {
    exists w :: 0 <= w < |s.workers| && (s.workers[w] == Busy(i) || (s.workers[w] == Rejected(i) && outcome.Throws?))
  }

  /** A result is the value of the call with its own index; a called index without one is in some worker's hands. */
  ghost predicate Delivered<T, R>(s: State<R>, items: seq<T>, fn: (T, nat) -> Outcome<R>)
    requires |items| == |s.results|
  {
    && (forall i :: 0 <= i < |items| && s.results[i].Some? ==>
          Called(s, i) && fn(items[i], i) == Value(s.results[i].value))
    && (forall i :: 0 <= i < |items| && Called(s, i) && s.results[i].None? ==> Held(s, i, fn(items[i], i)))
  }

  /** `fn` has been called once per index taken, in order. */
  ghost predicate CalledOnce<R>(s: State<R>) {
    && |s.calls| == (if s.next < |s.results| then s.next else |s.results|)
    && forall i :: 0 <= i < |s.calls| ==> s.calls[i] == i
  }

  /** A worker stops only when there is nothing left to take. */
  ghost predicate DoneAtEnd<R>(s: State<R>) {
    forall w :: 0 <= w < |s.workers| && s.workers[w].Done? ==> s.next > |s.results|
  }

  ghost predicate Inv<T, R>(s: State<R>, items: seq<T>, fn: (T, nat) -> Outcome<R>, concurrency: JsNum) {
    && |s.results| == |items| && |s.workers| == WorkerCount(concurrency, |items|)
    && Holding(s) && Delivered(s, items, fn) && CalledOnce(s) && DoneAtEnd(s)
  }

  function Apply<T, R>(s: State<R>, a: Action, items: seq<T>, fn: (T, nat) -> Outcome<R>): State<R>
    requires Enabled(s, a) && |items| == |s.results|
  {
    match a
    case Take(w) => TakeNext(s, w)
    case Settle(w) =>
      var index := s.workers[w].index;
      if index < |items| then SettleCall(s, w, fn(items[index], index)) else s
  }

  lemma TakeKeeps<T, R>(s: State<R>, w: nat, items: seq<T>, fn: (T, nat) -> Outcome<R>, concurrency: JsNum)
    requires Inv(s, items, fn, concurrency) && Enabled(s, Take(w))
    ensures Inv(TakeNext(s, w), items, fn, concurrency)
  {
    var s' := TakeNext(s, w);
    hide WorkerCount;
    forall i | 0 <= i < |items| && Called(s', i) && s'.results[i].None?
      ensures Held(s', i, fn(items[i], i))
    {
      if i == s.next {
        assert s'.workers[w] == Busy(i);
      } else {
        assert Held(s, i, fn(items[i], i));
        var v :| 0 <= v < |s.workers| && (s.workers[v] == Busy(i) || (s.workers[v] == Rejected(i) && fn(items[i], i).Throws?));
        assert s'.workers[v] == s.workers[v];
      }
    }
  }

  lemma SettleKeeps<T, R>(s: State<R>, w: nat, items: seq<T>, fn: (T, nat) -> Outcome<R>, concurrency: JsNum)
    requires Inv(s, items, fn, concurrency) && Enabled(s, Settle(w))
    ensures Inv(Apply(s, Settle(w), items, fn), items, fn, concurrency)
  {
    var s' := Apply(s, Settle(w), items, fn);
    var index := s.workers[w].index;
    hide WorkerCount;
    forall i | 0 <= i < |items| && Called(s', i) && s'.results[i].None?
      ensures Held(s', i, fn(items[i], i))
    {
      if i == index {
        assert s'.workers[w] == Rejected(i);
      } else {
        assert Held(s, i, fn(items[i], i));
        var v :| 0 <= v < |s.workers| && (s.workers[v] == Busy(i) || (s.workers[v] == Rejected(i) && fn(items[i], i).Throws?));
        assert s'.workers[v] == s.workers[v];
      }
    }
  }

  ghost predicate Run<T, R>(s: State<R>, acts: seq<Action>, items: seq<T>, fn: (T, nat) -> Outcome<R>)
    decreases |acts|
  {
    acts != [] ==>
      Enabled(s, acts[0]) && |items| == |s.results| && Run(Apply(s, acts[0], items, fn), acts[1..], items, fn)
  }

  ghost function Final<T, R>(s: State<R>, acts: seq<Action>, items: seq<T>, fn: (T, nat) -> Outcome<R>): State<R>
    requires Run(s, acts, items, fn)
    decreases |acts|
  {
    if acts == [] then s else Final(Apply(s, acts[0], items, fn), acts[1..], items, fn)
  }

  lemma {:induction false} RunKeeps<T, R>(
      s: State<R>, acts: seq<Action>, items: seq<T>, fn: (T, nat) -> Outcome<R>, concurrency: JsNum)
    requires Inv(s, items, fn, concurrency) && Run(s, acts, items, fn)
    ensures Inv(Final(s, acts, items, fn), items, fn, concurrency)
    decreases |acts|
  {
    if acts != [] {
      var a := acts[0];
      if a.Take? {
        TakeKeeps(s, a.w, items, fn, concurrency);
      } else {
        SettleKeeps(s, a.w, items, fn, concurrency);
      }
      hide Inv;
      RunKeeps(Apply(s, a, items, fn), acts[1..], items, fn, concurrency);
    }
  }

  lemma StartKeeps<T, R>(items: seq<T>, fn: (T, nat) -> Outcome<R>, concurrency: JsNum)
    ensures Inv(Start<R>(|items|, concurrency), items, fn, concurrency)
  {
  }

  // ----- results

  function InFlight(workers: seq<Worker>): nat {
    if workers == [] then 0
    else InFlight(workers[..|workers| - 1]) + if workers[|workers| - 1].Busy? then 1 else 0
  }

  /** The calls in flight are those that a worker waits for. */
  lemma {:induction false} InFlightCounts(workers: seq<Worker>)
    ensures InFlight(workers) == |set w | 0 <= w < |workers| && workers[w].Busy?|
    decreases |workers|
  {
    var busy := set w | 0 <= w < |workers| && workers[w].Busy?;
    if workers != [] {
      var last := |workers| - 1;
      var rest := workers[..last];
      InFlightCounts(rest);
      var before := set w | 0 <= w < |rest| && rest[w].Busy?;
      assert busy == if workers[last].Busy? then before + {last} else before;
    } else {
      assert busy == {};
    }
  }

  lemma {:induction false} InFlightBound(workers: seq<Worker>)
    ensures InFlight(workers) <= |workers|
    decreases |workers|
  {
    if workers != [] {
      InFlightBound(workers[..|workers| - 1]);
    }
  }

  predicate Finished<R>(s: State<R>) {
    forall w :: 0 <= w < |s.workers| ==> s.workers[w].Done? || s.workers[w].Rejected?
  }

  predicate AnyRejected<R>(s: State<R>) {
    exists w :: 0 <= w < |s.workers| && s.workers[w].Rejected?
  }

  /**
   At every point of every schedule the calls made are those for the first indices, once
   each and in order, and no more of them are in flight than the limit allows.
   */
  lemma OncePerIndexWithinLimit<T, R>(acts: seq<Action>, items: seq<T>, fn: (T, nat) -> Outcome<R>, concurrency: JsNum)
    requires Run(Start<R>(|items|, concurrency), acts, items, fn)
    ensures var f := Final(Start<R>(|items|, concurrency), acts, items, fn);
            && (forall i :: 0 <= i < |f.calls| ==> f.calls[i] == i) && |f.calls| <= |items|
            && InFlight(f.workers) <= WorkerCount(concurrency, |items|)
  {
    StartKeeps(items, fn, concurrency);
    RunKeeps(Start<R>(|items|, concurrency), acts, items, fn, concurrency);
    InFlightBound(Final(Start<R>(|items|, concurrency), acts, items, fn).workers);
  }

  /** When all workers are done and none rejected, every result is at its own index. */
  lemma ResultsInOrder<T, R>(acts: seq<Action>, items: seq<T>, fn: (T, nat) -> Outcome<R>, concurrency: JsNum)
    requires Run(Start<R>(|items|, concurrency), acts, items, fn)
    requires Finished(Final(Start<R>(|items|, concurrency), acts, items, fn))
    ensures var f := Final(Start<R>(|items|, concurrency), acts, items, fn);
            && |f.results| == |items|
            && (AnyRejected(f) <==> exists i :: 0 <= i < |f.calls| && i < |items| && fn(items[i], i).Throws?)
            && (!AnyRejected(f) ==>
                  |f.calls| == |items| && forall i :: 0 <= i < |items| ==>
                    f.results[i].Some? && fn(items[i], i) == Value(f.results[i].value))
  {
    StartKeeps(items, fn, concurrency);
    RunKeeps(Start<R>(|items|, concurrency), acts, items, fn, concurrency);
    var f := Final(Start<R>(|items|, concurrency), acts, items, fn);
    FinishedResults(f, items, fn, concurrency);
  }

  lemma FinishedResults<T, R>(f: State<R>, items: seq<T>, fn: (T, nat) -> Outcome<R>, concurrency: JsNum)
    requires Inv(f, items, fn, concurrency) && Finished(f)
    ensures AnyRejected(f) <==> exists i :: 0 <= i < |f.calls| && i < |items| && fn(items[i], i).Throws?
    ensures !AnyRejected(f) ==>
              |f.calls| == |items| && forall i :: 0 <= i < |items| ==>
                f.results[i].Some? && fn(items[i], i) == Value(f.results[i].value)
  {
    if i :| 0 <= i < |f.calls| && i < |items| && fn(items[i], i).Throws? {
      assert Called(f, i);
      assert Held(f, i, fn(items[i], i));
    }
    if w :| 0 <= w < |f.workers| && f.workers[w].Rejected? {
      RejectedThrows(f, items, fn, concurrency, w);
    } else {
      if |items| > 0 {
        assert f.workers[0].Done?;
      }
      forall i | 0 <= i < |items|
        ensures f.results[i].Some?
      {
        assert Called(f, i);
        assert f.results[i].None? ==> Held(f, i, fn(items[i], i));
      }
    }
  }

  lemma RejectedThrows<T, R>(f: State<R>, items: seq<T>, fn: (T, nat) -> Outcome<R>, concurrency: JsNum, w: nat)
    requires Inv(f, items, fn, concurrency) && w < |f.workers| && f.workers[w].Rejected?
    ensures exists i :: 0 <= i < |f.calls| && i < |items| && fn(items[i], i).Throws?
  {
    var i := f.workers[w].index;
    assert Called(f, i) && f.results[i].None?;
    assert Held(f, i, fn(items[i], i));
    var v :| 0 <= v < |f.workers| && (f.workers[v] == Busy(i) || (f.workers[v] == Rejected(i) && fn(items[i], i).Throws?));
    assert v == w;
    assert i < |f.calls|;
  }

  function Weight(workers: seq<Worker>): nat {
    if workers == [] then 0
    else
      Weight(workers[..|workers| - 1]) +
      match workers[|workers| - 1]
      case Ready => 1
      case Busy(_) => 2
      case _ => 0
  }

  /** What is left to do; every step of every schedule uses some of it up. */
  function Remaining<R>(s: State<R>): int {
    3 * (|s.results| - |s.calls|) + Weight(s.workers)
  }

  lemma {:induction false} WeightUpdate(workers: seq<Worker>, w: nat, to: Worker)
    requires w < |workers|
    ensures Weight(workers[w := to]) == Weight(workers) - Weight([workers[w]]) + Weight([to])
    decreases |workers|
  {
    var last := |workers| - 1;
    if w == last {
      assert workers[w := to][..last] == workers[..last];
    } else {
      assert workers[w := to][..last] == workers[..last][w := to];
      WeightUpdate(workers[..last], w, to);
    }
  }

  lemma StepsRunOut<T, R>(s: State<R>, a: Action, items: seq<T>, fn: (T, nat) -> Outcome<R>, concurrency: JsNum)
    requires Inv(s, items, fn, concurrency) && Enabled(s, a)
    ensures 0 <= Remaining(Apply(s, a, items, fn)) < Remaining(s)
  {
    hide Delivered, WorkerCount, Weight;
    WeightOne(s.workers[a.w]);
    WeightOne(Ready);
    WeightOne(Done);
    WeightOne(Busy(s.next));
    if a.Take? {
      WeightUpdate(s.workers, a.w, if s.next >= |s.results| then Done else Busy(s.next));
    } else {
      var index := s.workers[a.w].index;
      WeightOne(Rejected(index));
      assert Called(s, index);
      WeightUpdate(s.workers, a.w, if fn(items[index], index).Value? then Ready else Rejected(index));
    }
  }

  lemma WeightOne(w: Worker)
    ensures Weight([w]) == match w { case Ready => 1 case Busy(_) => 2 case _ => 0 }
  {
    assert [w][..0] == [];
  }

  /** So every schedule ends, and it can only stop when all workers have stopped. */
  lemma {:induction false} SchedulesEnd<T, R>(
      s: State<R>, acts: seq<Action>, items: seq<T>, fn: (T, nat) -> Outcome<R>, concurrency: JsNum)
    requires Inv(s, items, fn, concurrency) && Run(s, acts, items, fn)
    ensures |acts| <= Remaining(s)
    ensures (forall a :: !Enabled(Final(s, acts, items, fn), a)) <==> Finished(Final(s, acts, items, fn))
    decreases |acts|
  {
    if acts == [] {
      if w :| 0 <= w < |s.workers| && !s.workers[w].Done? && !s.workers[w].Rejected? {
        assert Enabled(s, if s.workers[w].Ready? then Take(w) else Settle(w));
      }
      assert Remaining(s) >= 0;
    } else {
      var a := acts[0];
      StepsRunOut(s, a, items, fn, concurrency);
      if a.Take? {
        TakeKeeps(s, a.w, items, fn, concurrency);
      } else {
        SettleKeeps(s, a.w, items, fn, concurrency);
      }
      hide Inv, Remaining, Enabled;
      SchedulesEnd(Apply(s, a, items, fn), acts[1..], items, fn, concurrency);
    }
  }

  // ----- the code: shared counter, results filled in place

  class Pool<R> {
    var nextIndex: nat
    const results: array<Option<R>>
    var workers: seq<Worker>
    ghost var calls: seq<nat>

    ghost function View(): State<R>
      reads this, results
    {
      State(nextIndex, workers, results[..], calls)
    }

    constructor (n: nat, concurrency: JsNum)
      ensures fresh(results) && View() == Start(n, concurrency)
    {
      nextIndex := 0;
      results := new Option<R>[n](_ => None);
      workers := seq(WorkerCount(concurrency, n), _ => Ready);
      calls := [];
      new;
      assert results[..] == seq(n, _ => None);
    }

    /** A worker up to its next await: the index to call `fn` with, or the end. */
    method Take(w: nat) returns (index: Option<nat>)
      requires w < |workers| && workers[w].Ready?
      modifies this
      ensures View() == TakeNext(old(View()), w)
      ensures index == if old(nextIndex) < results.Length then Some(old(nextIndex)) else None
    {
      var i := nextIndex;
      nextIndex := nextIndex + 1;
      if i >= results.Length {
        workers := workers[w := Done];
        return None;
      }
      workers := workers[w := Busy(i)];
      calls := calls + [i];
      index := Some(i);
    }

    /** The await of a worker's call resumes. */
    method Settle(w: nat, outcome: Outcome<R>)
      requires w < |workers| && workers[w].Busy? && workers[w].index < results.Length
      modifies this, results
      ensures View() == SettleCall(old(View()), w, outcome)
    {
      var index := workers[w].index;
      if outcome.Value? {
        results[index] := Some(outcome.result);
        workers := workers[w := Ready];
      } else {
        workers := workers[w := Rejected(index)];
      }
    }
  }
}
