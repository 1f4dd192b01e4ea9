/**
 The webhook outbox as a protocol: poll rounds that overlap, crash at any point, and
 interleave statement by statement with each other and with the rest of the system.
 */
module OutboxProtocol {
  import opened Options
  import opened WebhookDb

  type WorkerId = nat

  /** Where a poll round is inside `deliverOne`: before the request, before its answer, before the writes. */
  datatype Phase =
    | Idle
    | Sending(id: Id, row: Delivery)
    | Awaiting(id: Id, row: Delivery)
    | Writing(id: Id, stmts: seq<Stmt>, posted: bool)

  /** A poll round: the rows it claimed and has not started, and when their lease ends. */
  datatype Worker = Worker(leaseUntil: Time, queue: seq<Id>, phase: Phase)

  /**
   `posts` and `lost` count, per delivery, the requests sent and those whose result a
   crash lost; a deleted id is not used again.
   */
  datatype State = State(
    db: Db, now: Time, maxAttempts: nat, workers: map<WorkerId, Worker>,
    posts: map<Id, nat>, lost: map<Id, nat>, deleted: set<Id>)

  datatype Action =
    | Advance(to: Time)
    | ClaimDue(w: WorkerId, ids: seq<Id>)
    | ReadNext(w: WorkerId)
    | Decline(w: WorkerId, attempt: Attempt)
    | Post(w: WorkerId)
    | Answer(w: WorkerId, attempt: Attempt)
    | Write(w: WorkerId)
    | Crash(w: WorkerId)
    | TestNow(w: WorkerId, id: Id)
    | Enqueue(id: Id, row: Delivery)
    | SetActive(hook: Id, active: bool)
    | DeleteHook(hook: Id)

  predicate Distinct(ids: seq<Id>) {
    forall i, j :: 0 <= i < j < |ids| ==> ids[i] != ids[j]
  }

  predicate Enabled(s: State, a: Action) {
    match a
    case Advance(to) => s.now <= to
    case ClaimDue(w, ids) =>
      && w !in s.workers
      && Distinct(ids) && |ids| <= 50
      && forall id :: id in ids ==> id in s.db.rows && Due(s.db.rows[id], s.now)
    case ReadNext(w) => w in s.workers && s.workers[w].phase.Idle? && s.workers[w].queue != []
    case Decline(w, attempt) => w in s.workers && s.workers[w].phase.Sending? && !Posted(attempt)
    case Post(w) => w in s.workers && s.workers[w].phase.Sending?
    case Answer(w, attempt) => w in s.workers && s.workers[w].phase.Awaiting? && Posted(attempt)
    case Write(w) => w in s.workers && s.workers[w].phase.Writing? && s.workers[w].phase.stmts != []
    case Crash(w) => w in s.workers
    case TestNow(w, id) => w !in s.workers && id in s.db.rows && s.db.rows[id].isTest
    case Enqueue(id, row) =>
      && id !in s.db.rows && Untouched(s, id)
      && row.webhook in s.db.hooks && row.status.Pending? && row.attempts == 0 && row.nextAttemptAt.None?
    case SetActive(hook, _) => hook in s.db.hooks
    case DeleteHook(hook) => hook in s.db.hooks
  }

  /** A fresh id: no round and no counter has ever heard of it. */
  predicate Untouched(s: State, id: Id) {
    && id !in s.posts && id !in s.lost && id !in s.deleted
    && forall w :: w in s.workers ==> !Mentions(s.workers[w], id)
  }

  predicate Mentions(wk: Worker, id: Id) {
    id in wk.queue || (!wk.phase.Idle? && wk.phase.id == id)
  }

  function SetPhase(s: State, w: WorkerId, p: Phase): State
    requires w in s.workers
  {
    s.(workers := s.workers[w := s.workers[w].(phase := p)])
  }

  function Count(m: map<Id, nat>, id: Id): nat {
    if id in m then m[id] else 0
  }

  /** A phase after its last statement is over. */
  function Settle(id: Id, stmts: seq<Stmt>, posted: bool): Phase {
    if stmts == [] then Idle else Writing(id, stmts, posted)
  }

  function Apply(s: State, a: Action): State
    requires Enabled(s, a)
  {
    match a
    case Advance(to) => s.(now := to)
    case ClaimDue(w, ids) => ApplyClaim(s, w, ids)
    case ReadNext(w) => ApplyRead(s, w)
    case Decline(w, attempt) => ApplyJudge(s, w, attempt)
    case Post(w) => ApplyPost(s, w)
    case Answer(w, attempt) => ApplyJudge(s, w, attempt)
    case Write(w) => ApplyWrite(s, w)
    case Crash(w) => ApplyCrash(s, w)
    case TestNow(w, id) => s.(workers := s.workers[w := Worker(s.now, [id], Idle)])
    case Enqueue(id, row) => s.(db := s.db.(rows := s.db.rows[id := row]))
    case SetActive(hook, active) =>
      s.(db := s.db.(hooks := s.db.hooks[hook := s.db.hooks[hook].(active := active)]))
    case DeleteHook(hook) =>
      var gone := set id | id in s.db.rows && s.db.rows[id].webhook == hook;
      s.(db := Db(s.db.rows - gone, s.db.hooks - {hook}), deleted := s.deleted + gone)
  }

  function ApplyClaim(s: State, w: WorkerId, ids: seq<Id>): State {
    var until := s.now + CLAIM_LEASE_MS;
    s.(db := Claim(s.db, (set id | id in ids), until), workers := s.workers[w := Worker(until, ids, Idle)])
  }

  function ApplyRead(s: State, w: WorkerId): State
    requires w in s.workers && s.workers[w].phase.Idle? && s.workers[w].queue != []
  {
    var wk := s.workers[w];
    var id := wk.queue[0];
    var phase := match Read(s.db, id)
      case Ready(row) => Sending(id, row)
      case Inactive => Writing(id, [DisableIfOpen(id)], false)
      case _ => Idle;
    s.(workers := s.workers[w := Worker(wk.leaseUntil, wk.queue[1..], phase)])
  }

  /** The request leaves. */
  function ApplyPost(s: State, w: WorkerId): State
    requires w in s.workers && s.workers[w].phase.Sending?
  {
    var id, row := s.workers[w].phase.id, s.workers[w].phase.row;
    SetPhase(s.(posts := s.posts[id := Count(s.posts, id) + 1]), w, Awaiting(id, row))
  }

  /** The result is known, with or without a request; what follows are the writes. */
  function ApplyJudge(s: State, w: WorkerId, attempt: Attempt): State
    requires w in s.workers && (s.workers[w].phase.Sending? || s.workers[w].phase.Awaiting?)
  {
    var id, row := s.workers[w].phase.id, s.workers[w].phase.row;
    SetPhase(s, w, Writing(id, Plan(id, row, attempt, s.now, s.maxAttempts), s.workers[w].phase.Awaiting?))
  }

  function ApplyWrite(s: State, w: WorkerId): State
    requires w in s.workers && s.workers[w].phase.Writing? && s.workers[w].phase.stmts != []
  {
    var p := s.workers[w].phase;
    SetPhase(s.(db := Exec(s.db, p.stmts[0])), w, Settle(p.id, p.stmts[1..], p.posted))
  }

  /** The round disappears; an exception in the batch loop does the same. */
  function ApplyCrash(s: State, w: WorkerId): State
    requires w in s.workers
  {
    var p := s.workers[w].phase;
    var s' := s.(workers := s.workers - {w});
    if p.Awaiting? || (p.Writing? && p.posted && Finalizes(p.stmts)) then s'.(lost := s.lost[p.id := Count(s.lost, p.id) + 1]) else s'
  }

  // ----- who processes what

  /** The row of the delivery in progress has not been written yet. */
  predicate Finalizes(stmts: seq<Stmt>) {
    (|stmts| > 0 && OnRow(stmts[0])) || (|stmts| > 1 && OnRow(stmts[1]))
  }

  /** The round still has to read, send or write the row of this delivery. */
  predicate Owns(wk: Worker, id: Id) {
    || id in wk.queue
    || ((wk.phase.Sending? || wk.phase.Awaiting?) && wk.phase.id == id)
    || (wk.phase.Writing? && wk.phase.id == id && Finalizes(wk.phase.stmts))
  }

  /** An existing delivery of an event; test deliveries bypass the claim. */
  predicate Real(db: Db, id: Id) {
    id in db.rows && !db.rows[id].isTest
  }

  /** No two rounds process one delivery. */
  ghost predicate Exclusive(s: State) {
    forall w1, w2, id :: w1 in s.workers && w2 in s.workers && w1 != w2 && Real(s.db, id) ==>
      !(Owns(s.workers[w1], id) && Owns(s.workers[w2], id))
  }

  /** A delivery in process is open, and invisible until the lease of its round ends. */
  ghost predicate Leased(s: State) {
    forall w, id :: w in s.workers && Real(s.db, id) && Owns(s.workers[w], id) ==>
      Open(s.db.rows[id]) && s.db.rows[id].nextAttemptAt == Some(s.workers[w].leaseUntil)
  }

  /** The hypothesis on timing: no live round still has claimed rows when their lease ends. */
  ghost predicate Timely(s: State) {
    forall w, id :: w in s.workers && Real(s.db, id) && Owns(s.workers[w], id) ==> s.now < s.workers[w].leaseUntil
  }

  ghost predicate Bounded(s: State) {
    forall id :: Real(s.db, id) ==>
      s.db.rows[id].attempts <= s.maxAttempts && (Open(s.db.rows[id]) ==> s.db.rows[id].attempts < s.maxAttempts)
  }

  /** A row statement about to be executed uses up exactly one attempt of the row as it is now. */
  predicate Advances(s: State, id: Id, stmt: Stmt)
    requires id in s.db.rows
  {
    match stmt
    case SetRow(i, status, attempts) =>
      i == id && attempts == s.db.rows[id].attempts + 1 && !status.Pending? && !status.Failed?
    case SetRowAndTime(i, status, attempts, _) =>
      i == id && attempts == s.db.rows[id].attempts + 1 && !status.Pending?
      && (status.Failed? ==> attempts < s.maxAttempts)
    case DisableIfOpen(i) => i == id
    case _ => true
  }

  /** What a round is about to write still fits the row: nothing it read has gone stale. */
  predicate Fits(s: State, wk: Worker) {
    && Distinct(wk.queue)
    && (!wk.phase.Idle? && Real(s.db, wk.phase.id) && Owns(wk, wk.phase.id) ==> wk.phase.id !in wk.queue)
    && ((wk.phase.Sending? || wk.phase.Awaiting?) && Real(s.db, wk.phase.id) ==> wk.phase.row == s.db.rows[wk.phase.id])
    && (wk.phase.Writing? ==> PlanFits(s, wk.phase))
  }

  ghost predicate Current(s: State) {
    forall w :: w in s.workers ==> Fits(s, s.workers[w])
  }

  predicate PlanFits(s: State, p: Phase)
    requires p.Writing?
  {
    && |p.stmts| <= 2
    && (|p.stmts| == 2 ==> !(OnRow(p.stmts[0]) && OnRow(p.stmts[1])))
    && (forall i :: 0 <= i < |p.stmts| && OnRow(p.stmts[i]) ==> p.stmts[i].id == p.id)
    && (Real(s.db, p.id) ==> forall i :: 0 <= i < |p.stmts| ==> Advances(s, p.id, p.stmts[i]))
    && (p.posted && Finalizes(p.stmts) ==> forall i :: 0 <= i < |p.stmts| ==> !p.stmts[i].DisableIfOpen?)
  }

  /** A request has been sent and its result is not in the row yet. */
  predicate InFlight(wk: Worker, id: Id) {
    && !wk.phase.Idle? && wk.phase.id == id
    && (wk.phase.Awaiting? || (wk.phase.Writing? && wk.phase.posted && Finalizes(wk.phase.stmts)))
  }

  ghost predicate HasInFlight(s: State, id: Id) {
    exists w :: w in s.workers && InFlight(s.workers[w], id)
  }

  /** Every request sent is an attempt counted in the row, in flight, or lost in a crash. */
  ghost predicate Balanced(s: State, id: Id)
    requires id in s.db.rows
  {
    Count(s.posts, id) <= s.db.rows[id].attempts + Count(s.lost, id) + (if HasInFlight(s, id) then 1 else 0)
  }

  ghost predicate Accounted(s: State) {
    forall id :: Real(s.db, id) ==> Balanced(s, id)
  }

  ghost predicate Inv(s: State) {
    s.maxAttempts >= 1 && Exclusive(s) && Leased(s) && Current(s) && Bounded(s) && Accounted(s)
  }

  // ----- one round moves

  /** From `s` to `s'` only the round `w` moved: it wrote at most what it owned and took nothing on. */
  ghost predicate Move(s: State, s': State, w: WorkerId) {
    && w in s.workers
    && s'.maxAttempts == s.maxAttempts
    && (forall u :: u != w ==> (u in s'.workers <==> u in s.workers))
    && (forall u :: u != w && u in s.workers ==> s'.workers[u] == s.workers[u])
    && SameReal(s.db, s'.db)
    && (forall id :: Real(s.db, id) && !Owns(s.workers[w], id) ==> s'.db.rows[id] == s.db.rows[id])
    && (w in s'.workers ==>
          && s'.workers[w].leaseUntil == s.workers[w].leaseUntil
          && forall id :: Real(s.db, id) && Owns(s'.workers[w], id) ==>
               Owns(s.workers[w], id) && s'.db.rows[id] == s.db.rows[id])
  }

  ghost predicate SameReal(db: Db, db': Db) {
    forall id :: Real(db', id) <==> Real(db, id)
  }

  lemma MoveKeepsExclusive(s: State, s': State, w: WorkerId)
    requires Exclusive(s) && Move(s, s', w)
    ensures Exclusive(s')
  {
  }

  lemma MoveKeepsLeased(s: State, s': State, w: WorkerId)
    requires Exclusive(s) && Leased(s) && Move(s, s', w)
    ensures Leased(s')
  {
    forall u, id | u in s'.workers && Real(s'.db, id) && Owns(s'.workers[u], id)
      ensures Open(s'.db.rows[id]) && s'.db.rows[id].nextAttemptAt == Some(s'.workers[u].leaseUntil)
    {
      assert Real(s.db, id) && Owns(s.workers[u], id);
      assert s'.db.rows[id] == s.db.rows[id];
    }
  }

  lemma MoveKeepsFit(s: State, s': State, w: WorkerId, u: WorkerId)
    requires Exclusive(s) && Move(s, s', w) && u != w && u in s.workers && Fits(s, s.workers[u])
    ensures Fits(s', s'.workers[u])
  {
    var wk := s.workers[u];
    if !wk.phase.Idle? && Real(s.db, wk.phase.id) && Owns(wk, wk.phase.id) {
      assert s'.db.rows[wk.phase.id] == s.db.rows[wk.phase.id];
    }
  }

  /** What remains to be shown for a move is that the round itself still fits. */
  lemma MoveKeeps(s: State, s': State, w: WorkerId)
    requires Exclusive(s) && Leased(s) && Current(s) && Move(s, s', w)
    requires w in s'.workers ==> Fits(s', s'.workers[w])
    ensures Exclusive(s') && Leased(s') && Current(s')
  {
    MoveKeepsExclusive(s, s', w);
    MoveKeepsLeased(s, s', w);
    forall u | u in s'.workers
      ensures Fits(s', s'.workers[u])
    {
      if u != w {
        MoveKeepsFit(s, s', w, u);
      }
    }
  }

  lemma ReadMoves(s: State, w: WorkerId)
    requires Inv(s) && Enabled(s, ReadNext(w))
    ensures Move(s, ApplyRead(s, w), w)
  {
    hide Exclusive, Leased, Bounded, Accounted, Due, Open, PlanFits;
    var wk := s.workers[w];
    assert Fits(s, wk);
    assert wk.queue == [wk.queue[0]] + wk.queue[1..];
    hide Fits, Current;
  }

  lemma ReadFits(s: State, w: WorkerId)
    requires Inv(s) && Enabled(s, ReadNext(w))
    ensures Fits(ApplyRead(s, w), ApplyRead(s, w).workers[w])
  {
    var wk := s.workers[w];
    assert Fits(s, wk);
    assert wk.queue == [wk.queue[0]] + wk.queue[1..];
    hide Exclusive, Leased, Bounded, Accounted, Due, Open;
  }

  lemma PostMoves(s: State, w: WorkerId)
    requires Inv(s) && Enabled(s, Post(w))
    ensures Move(s, ApplyPost(s, w), w) && Fits(ApplyPost(s, w), ApplyPost(s, w).workers[w])
  {
    assert Fits(s, s.workers[w]);
    hide Exclusive, Accounted, Leased, Bounded, Current, PlanFits;
  }

  predicate Judging(wk: Worker) {
    wk.phase.Sending? || wk.phase.Awaiting?
  }

  lemma JudgeMoves(s: State, w: WorkerId, attempt: Attempt)
    requires Inv(s) && w in s.workers && Judging(s.workers[w])
    ensures Move(s, ApplyJudge(s, w, attempt), w)
  {
    var id := s.workers[w].phase.id;
    assert Owns(s.workers[w], id);
    hide Plan, Posted, Exclusive, Accounted, Leased, Bounded, Current;
  }

  lemma JudgeFits(s: State, w: WorkerId, attempt: Attempt)
    requires Inv(s) && w in s.workers && Judging(s.workers[w])
    ensures Fits(ApplyJudge(s, w, attempt), ApplyJudge(s, w, attempt).workers[w])
  {
    var p := s.workers[w].phase;
    assert Fits(s, s.workers[w]);
    assert Owns(s.workers[w], p.id);
    PlanIsFit(s, p.id, p.row, attempt, p.Awaiting?);
    hide Plan, Posted, Exclusive, Accounted, Leased, Bounded, Current;
  }

  lemma PlanIsFit(s: State, id: Id, row: Delivery, attempt: Attempt, posted: bool)
    requires s.maxAttempts >= 1
    requires Real(s.db, id) ==> row == s.db.rows[id] && Open(row) && row.attempts < s.maxAttempts
    ensures PlanFits(s, Writing(id, Plan(id, row, attempt, s.now, s.maxAttempts), posted))
  {
  }

  lemma WriteMoves(s: State, w: WorkerId)
    requires Inv(s) && Enabled(s, Write(w))
    ensures Move(s, ApplyWrite(s, w), w)
  {
    var p := s.workers[w].phase;
    assert Fits(s, s.workers[w]);
    ExecFrame(s.db, p.stmts[0]);
    RowStatementEnds(s, w);
    hide Exec, Exclusive, Accounted, Leased, Bounded, Fits, Current, Finalizes, OnRow;
  }

  /** Once the row statement is executed the round no longer owns the delivery. */
  lemma RowStatementEnds(s: State, w: WorkerId)
    requires Inv(s) && Enabled(s, Write(w))
    ensures var p := s.workers[w].phase;
            var wk' := ApplyWrite(s, w).workers[w];
            && (OnRow(p.stmts[0]) ==> p.stmts[0].id == p.id && Owns(s.workers[w], p.id))
            && (OnRow(p.stmts[0]) && Real(s.db, p.id) ==> !Owns(wk', p.id))
            && (forall id :: Owns(wk', id) ==> Owns(s.workers[w], id))
  {
    assert Fits(s, s.workers[w]);
    hide Exec, Exclusive, Accounted, Leased, Bounded, Advances;
  }

  lemma WriteFits(s: State, w: WorkerId)
    requires Inv(s) && Enabled(s, Write(w))
    ensures Fits(ApplyWrite(s, w), ApplyWrite(s, w).workers[w])
  {
    var p := s.workers[w].phase;
    assert Fits(s, s.workers[w]);
    ExecFrame(s.db, p.stmts[0]);
    hide Exec, Exclusive, Accounted, Leased, Bounded;
    if |p.stmts| == 2 {
      assert p.stmts[1..] == [p.stmts[1]];
    }
  }

  /** A statement changes at most the row it names, and never which rows are real. */
  lemma ExecFrame(db: Db, stmt: Stmt)
    ensures var db' := Exec(db, stmt);
            SameReal(db, db')
            && (forall id :: id in db.rows && !(OnRow(stmt) && stmt.id == id) ==> id in db'.rows && db'.rows[id] == db.rows[id])
  {
  }

  lemma CrashMoves(s: State, w: WorkerId)
    requires Inv(s) && Enabled(s, Crash(w))
    ensures Move(s, ApplyCrash(s, w), w)
  {
  }

  // ----- a round arrives

  /** Whatever a timely round may claim, no live round is processing. */
  lemma DueIsFree(s: State, id: Id)
    requires Leased(s) && Timely(s) && Real(s.db, id) && Due(s.db.rows[id], s.now)
    ensures forall w :: w in s.workers ==> !Owns(s.workers[w], id)
  {
  }

  lemma ClaimKeeps(s: State, w: WorkerId, ids: seq<Id>)
    requires Inv(s) && Enabled(s, ClaimDue(w, ids)) && Timely(s)
    ensures var s' := ApplyClaim(s, w, ids); Exclusive(s') && Leased(s') && Current(s')
  {
    hide Fits, Current, Bounded, Accounted, Exclusive, ApplyClaim;
    forall u, id | u in s.workers && Real(s.db, id) && Owns(s.workers[u], id)
      ensures id !in ids
    {
      if id in ids {
        DueIsFree(s, id);
      }
    }
    ClaimExcludes(s, w, ids);
    ClaimLeases(s, w, ids);
    ClaimFits(s, w, ids);
  }

  lemma ClaimExcludes(s: State, w: WorkerId, ids: seq<Id>)
    requires Exclusive(s) && w !in s.workers
    requires forall u, id :: u in s.workers && Real(s.db, id) && Owns(s.workers[u], id) ==> id !in ids
    ensures Exclusive(ApplyClaim(s, w, ids))
  {
    assert SameReal(s.db, ApplyClaim(s, w, ids).db);
  }

  lemma ClaimLeases(s: State, w: WorkerId, ids: seq<Id>)
    requires Leased(s) && Enabled(s, ClaimDue(w, ids))
    requires forall u, id :: u in s.workers && Real(s.db, id) && Owns(s.workers[u], id) ==> id !in ids
    ensures Leased(ApplyClaim(s, w, ids))
  {
    assert SameReal(s.db, ApplyClaim(s, w, ids).db);
  }

  lemma ClaimFits(s: State, w: WorkerId, ids: seq<Id>)
    requires Inv(s) && Enabled(s, ClaimDue(w, ids))
    requires forall u, id :: u in s.workers && Real(s.db, id) && Owns(s.workers[u], id) ==> id !in ids
    ensures Current(ApplyClaim(s, w, ids))
  {
    var s' := ApplyClaim(s, w, ids);
    forall u | u in s.workers
      ensures Fits(s', s.workers[u])
    {
      assert Fits(s, s.workers[u]);
    }
  }

  // ----- the rest of the system

  lemma OthersKeepExclusive(s: State, a: Action)
    requires Inv(s) && Enabled(s, a)
    requires a.Advance? || a.TestNow? || a.Enqueue? || a.SetActive? || a.DeleteHook?
    ensures Exclusive(Apply(s, a))
  {
    hide Fits, Bounded, Accounted, Current;
  }

  lemma OthersKeepLeased(s: State, a: Action)
    requires Inv(s) && Enabled(s, a)
    requires a.Advance? || a.TestNow? || a.Enqueue? || a.SetActive? || a.DeleteHook?
    ensures Leased(Apply(s, a))
  {
    hide Fits, Exclusive, Bounded, Accounted;
  }

  lemma OthersKeepFit(s: State, a: Action)
    requires Inv(s) && Enabled(s, a)
    requires a.Advance? || a.TestNow? || a.Enqueue? || a.SetActive? || a.DeleteHook?
    ensures Current(Apply(s, a))
  {
    hide Exclusive, Leased, Bounded, Accounted;
    var s' := Apply(s, a);
    forall w | w in s.workers
      ensures Fits(s', s.workers[w])
    {
      assert Fits(s, s.workers[w]);
    }
  }

  // ----- attempts and requests

  lemma WriteKeepsBounded(s: State, w: WorkerId)
    requires Inv(s) && Enabled(s, Write(w))
    ensures Bounded(ApplyWrite(s, w))
  {
    var p := s.workers[w].phase;
    assert Fits(s, s.workers[w]);
    ExecFrame(s.db, p.stmts[0]);
    hide Exclusive, Accounted, Leased;
    if OnRow(p.stmts[0]) && Real(s.db, p.id) {
      assert Advances(s, p.id, p.stmts[0]);
    }
  }

  lemma BoundedKept(s: State, a: Action)
    requires Inv(s) && Enabled(s, a)
    ensures Bounded(Apply(s, a))
  {
    hide Exclusive, Accounted, Leased, Current, Plan, Exec;
    if a.Write? {
      WriteKeepsBounded(s, a.w);
    }
  }

  /** Some round other than `w` has the result of a request in hand. */
  ghost predicate InFlightElsewhere(s: State, w: WorkerId, id: Id) {
    exists u :: u in s.workers && u != w && InFlight(s.workers[u], id)
  }

  lemma InFlightSplit(s: State, s': State, w: WorkerId, id: Id)
    requires forall u :: u != w ==> (u in s'.workers <==> u in s.workers)
    requires forall u :: u != w && u in s.workers ==> s'.workers[u] == s.workers[u]
    ensures HasInFlight(s, id) <==> InFlightElsewhere(s, w, id) || (w in s.workers && InFlight(s.workers[w], id))
    ensures HasInFlight(s', id) <==> InFlightElsewhere(s, w, id) || (w in s'.workers && InFlight(s'.workers[w], id))
  {
    if HasInFlight(s', id) {
      var u :| u in s'.workers && InFlight(s'.workers[u], id);
      assert u == w || (u in s.workers && InFlight(s.workers[u], id));
    }
    if InFlightElsewhere(s, w, id) {
      var u :| u in s.workers && u != w && InFlight(s.workers[u], id);
      assert u in s'.workers && InFlight(s'.workers[u], id);
    }
  }

  lemma OwnerAlone(s: State, w: WorkerId, id: Id)
    requires Exclusive(s) && w in s.workers && Real(s.db, id) && Owns(s.workers[w], id)
    ensures !InFlightElsewhere(s, w, id)
  {
    assert forall u :: u in s.workers && InFlight(s.workers[u], id) ==> Owns(s.workers[u], id);
  }

  lemma PostKeepsBalance(s: State, w: WorkerId, id: Id)
    requires Inv(s) && Enabled(s, Post(w)) && Real(s.db, id)
    ensures Balanced(ApplyPost(s, w), id)
  {
    InFlightSplit(s, ApplyPost(s, w), w, id);
    assert Balanced(s, id);
    if id == s.workers[w].phase.id {
      OwnerAlone(s, w, id);
    }
    hide HasInFlight, Exclusive, Leased, Current, Bounded, Accounted, InFlightElsewhere;
  }

  lemma JudgeKeepsBalance(s: State, w: WorkerId, attempt: Attempt, id: Id)
    requires Inv(s) && w in s.workers && Judging(s.workers[w]) && Real(s.db, id)
    ensures Balanced(ApplyJudge(s, w, attempt), id)
  {
    var p := s.workers[w].phase;
    InFlightSplit(s, ApplyJudge(s, w, attempt), w, id);
    PlanFinalizes(p.id, p.row, attempt, s.now, s.maxAttempts);
    assert Balanced(s, id);
    hide HasInFlight, Exclusive, Leased, Current, Bounded, Accounted, Plan, InFlightElsewhere, Finalizes;
  }

  lemma PlanFinalizes(id: Id, row: Delivery, attempt: Attempt, now: Time, maxAttempts: nat)
    ensures Finalizes(Plan(id, row, attempt, now, maxAttempts))
  {
  }

  lemma WriteKeepsBalance(s: State, w: WorkerId, id: Id)
    requires Inv(s) && Enabled(s, Write(w)) && Real(s.db, id)
    ensures id in ApplyWrite(s, w).db.rows && Balanced(ApplyWrite(s, w), id)
  {
    var s' := ApplyWrite(s, w);
    var p := s.workers[w].phase;
    InFlightSplit(s, s', w, id);
    ExecFrame(s.db, p.stmts[0]);
    assert Fits(s, s.workers[w]);
    assert Balanced(s, id);
    hide HasInFlight, Exclusive, Leased, Current, Bounded, Accounted, InFlightElsewhere;
    if id == p.id && OnRow(p.stmts[0]) {
      assert Advances(s, id, p.stmts[0]);
    }
  }

  lemma CrashKeepsBalance(s: State, w: WorkerId, id: Id)
    requires Inv(s) && Enabled(s, Crash(w)) && Real(s.db, id)
    ensures Balanced(ApplyCrash(s, w), id)
  {
    InFlightSplit(s, ApplyCrash(s, w), w, id);
    assert Balanced(s, id);
    hide HasInFlight, Exclusive, Leased, Current, Bounded, Accounted, InFlightElsewhere;
  }

  lemma OthersKeepBalance(s: State, a: Action, id: Id)
    requires Inv(s) && Enabled(s, a) && Real(Apply(s, a).db, id)
    requires !a.Decline? && !a.Post? && !a.Answer? && !a.Write? && !a.Crash?
    ensures Balanced(Apply(s, a), id)
  {
    var s' := Apply(s, a);
    if Real(s.db, id) {
      assert Balanced(s, id);
      if a.ClaimDue? || a.ReadNext? || a.TestNow? {
        InFlightSplit(s, s', a.w, id);
      }
    }
    hide Exclusive, Leased, Current, Bounded, Accounted;
  }

  lemma AccountedKept(s: State, a: Action)
    requires Inv(s) && Enabled(s, a)
    ensures Accounted(Apply(s, a))
  {
    var s' := Apply(s, a);
    forall id | Real(s'.db, id)
      ensures Balanced(s', id)
    {
      match a
      case Decline(w, attempt) => JudgeKeepsBalance(s, w, attempt, id);
      case Post(w) => PostKeepsBalance(s, w, id);
      case Answer(w, attempt) => JudgeKeepsBalance(s, w, attempt, id);
      case Write(w) =>
        ExecFrame(s.db, s.workers[w].phase.stmts[0]);
        WriteKeepsBalance(s, w, id);
      case Crash(w) => CrashKeepsBalance(s, w, id);
      case _ => OthersKeepBalance(s, a, id);
    }
  }

  // ----- runs

  /** A step of the system; a poll round claims only while every live round is within its lease. */
  ghost predicate Allowed(s: State, a: Action) {
    Enabled(s, a) && (a.ClaimDue? ==> Timely(s))
  }

  lemma StepKeeps(s: State, a: Action)
    requires Inv(s) && Allowed(s, a)
    ensures Inv(Apply(s, a))
  {
    BoundedKept(s, a);
    AccountedKept(s, a);
    ClaimsKept(s, a);
    hide Exclusive, Leased, Current, Bounded, Accounted;
  }

  lemma ClaimsKept(s: State, a: Action)
    requires Inv(s) && Allowed(s, a)
    ensures var s' := Apply(s, a); Exclusive(s') && Leased(s') && Current(s')
  {
    hide Exclusive, Leased, Current, Bounded, Accounted, Fits, Move;
    match a
    case ClaimDue(w, ids) => ClaimKeeps(s, w, ids);
    case ReadNext(w) =>
      ReadMoves(s, w);
      ReadFits(s, w);
      MoveKeeps(s, ApplyRead(s, w), w);
    case Decline(w, attempt) => JudgeKeepsClaims(s, w, attempt);
    case Post(w) =>
      PostMoves(s, w);
      MoveKeeps(s, ApplyPost(s, w), w);
    case Answer(w, attempt) => JudgeKeepsClaims(s, w, attempt);
    case Write(w) =>
      WriteMoves(s, w);
      WriteFits(s, w);
      MoveKeeps(s, ApplyWrite(s, w), w);
    case Crash(w) =>
      CrashMoves(s, w);
      MoveKeeps(s, ApplyCrash(s, w), w);
    case _ =>
      OthersKeepExclusive(s, a);
      OthersKeepLeased(s, a);
      OthersKeepFit(s, a);
  }

  lemma JudgeKeepsClaims(s: State, w: WorkerId, attempt: Attempt)
    requires Inv(s) && w in s.workers && Judging(s.workers[w])
    ensures var s' := ApplyJudge(s, w, attempt); Exclusive(s') && Leased(s') && Current(s')
  {
    hide Exclusive, Leased, Current, Bounded, Accounted, Fits, Move;
    JudgeMoves(s, w, attempt);
    JudgeFits(s, w, attempt);
    MoveKeeps(s, ApplyJudge(s, w, attempt), w);
  }

  ghost predicate Run(s: State, acts: seq<Action>)
    decreases |acts|
  {
    acts != [] ==> Allowed(s, acts[0]) && Run(Apply(s, acts[0]), acts[1..])
  }

  ghost function Final(s: State, acts: seq<Action>): State
    requires Run(s, acts)
    decreases |acts|
  {
    if acts == [] then s else Final(Apply(s, acts[0]), acts[1..])
  }

  /** Before the first poll round. */
  predicate Initial(s: State) {
    && s.maxAttempts >= 1 && s.workers == map[] && s.posts == map[] && s.lost == map[]
    && forall id :: id in s.db.rows ==> s.db.rows[id].status.Pending? && s.db.rows[id].attempts == 0
  }

  lemma {:induction false} RunKeeps(s: State, acts: seq<Action>)
    requires Inv(s) && Run(s, acts)
    ensures Inv(Final(s, acts))
    decreases |acts|
  {
    if acts != [] {
      StepKeeps(s, acts[0]);
      RunKeeps(Apply(s, acts[0]), acts[1..]);
    }
  }

  /** Mutual exclusion: in no timely run do two poll rounds process one delivery. */
  lemma NoDoubleDelivery(s: State, acts: seq<Action>, w1: WorkerId, w2: WorkerId, id: Id)
    requires Initial(s) && Run(s, acts)
    requires var f := Final(s, acts);
             w1 in f.workers && w2 in f.workers && Real(f.db, id)
             && Owns(f.workers[w1], id) && Owns(f.workers[w2], id)
    ensures w1 == w2
  {
    RunKeeps(s, acts);
  }

  /** Requests sent for a delivery in a run. */
  ghost function Requests(s: State, acts: seq<Action>, id: Id): nat
    requires Run(s, acts)
    decreases |acts|
  {
    if acts == [] then 0
    else (if acts[0].Post? && s.workers[acts[0].w].phase.id == id then 1 else 0) + Requests(Apply(s, acts[0]), acts[1..], id)
  }

  /** Crashes of rounds that had sent a request for it and not written its result. */
  ghost function LostResults(s: State, acts: seq<Action>, id: Id): nat
    requires Run(s, acts)
    decreases |acts|
  {
    if acts == [] then 0
    else (if acts[0].Crash? && InFlight(s.workers[acts[0].w], id) then 1 else 0) + LostResults(Apply(s, acts[0]), acts[1..], id)
  }

  lemma StepCounts(s: State, a: Action, id: Id)
    requires Enabled(s, a)
    ensures Count(Apply(s, a).posts, id) == Count(s.posts, id) + if a.Post? && s.workers[a.w].phase.id == id then 1 else 0
    ensures Count(Apply(s, a).lost, id) == Count(s.lost, id) + if a.Crash? && InFlight(s.workers[a.w], id) then 1 else 0
  {
    hide Plan, Exec, Read, Claim;
  }

  lemma {:induction false} CountsAreExact(s: State, acts: seq<Action>, id: Id)
    requires Run(s, acts)
    ensures Count(Final(s, acts).posts, id) == Count(s.posts, id) + Requests(s, acts, id)
    ensures Count(Final(s, acts).lost, id) == Count(s.lost, id) + LostResults(s, acts, id)
    decreases |acts|
  {
    if acts != [] {
      StepCounts(s, acts[0], id);
      CountsAreExact(Apply(s, acts[0]), acts[1..], id);
    }
    hide Apply, Enabled, Timely;
  }

  /** The number of requests for a delivery is at most `maxAttempts`, plus one per result lost in a crash. */
  lemma PostsBounded(s: State, acts: seq<Action>, id: Id)
    requires Initial(s) && Run(s, acts) && Real(Final(s, acts).db, id)
    ensures var f := Final(s, acts);
            && Requests(s, acts, id) <= f.maxAttempts + LostResults(s, acts, id)
            && (Open(f.db.rows[id]) ==> f.db.rows[id].attempts < f.maxAttempts)
  {
    RunKeeps(s, acts);
    CountsAreExact(s, acts, id);
    var f := Final(s, acts);
    assert Balanced(f, id);
    if HasInFlight(f, id) {
      var w :| w in f.workers && InFlight(f.workers[w], id);
      assert Owns(f.workers[w], id);
    }
  }

  lemma ClosedRowKept(s: State, a: Action, id: Id)
    requires Inv(s) && Allowed(s, a) && Real(s.db, id) && !Open(s.db.rows[id])
    ensures var s' := Apply(s, a);
            if id in s'.db.rows then s'.db.rows[id] == s.db.rows[id] else id in s'.deleted
  {
    match a
    case Write(w) =>
      var p := s.workers[w].phase;
      ExecFrame(s.db, p.stmts[0]);
      assert Fits(s, s.workers[w]);
      assert OnRow(p.stmts[0]) ==> Owns(s.workers[w], p.id);
      hide Exec, Exclusive, Current, Bounded, Accounted;
    case _ =>
  }

  lemma {:induction false} DeletedForever(s: State, acts: seq<Action>, id: Id)
    requires Run(s, acts) && id !in s.db.rows && id in s.deleted
    ensures id !in Final(s, acts).db.rows
    decreases |acts|
  {
    if acts != [] {
      var s' := Apply(s, acts[0]);
      if acts[0].Write? {
        ExecKeys(s.db, s.workers[acts[0].w].phase.stmts[0]);
      }
      assert id !in s'.db.rows && id in s'.deleted;
      DeletedForever(s', acts[1..], id);
    }
  }

  lemma ExecKeys(db: Db, stmt: Stmt)
    ensures Exec(db, stmt).rows.Keys == db.rows.Keys
  {
  }

  /** ok, rejected and disabled are final: such a row is never written again, only deleted. */
  lemma {:induction false} ClosedForever(s: State, acts: seq<Action>, id: Id)
    requires Inv(s) && Run(s, acts) && Real(s.db, id) && !Open(s.db.rows[id])
    ensures var f := Final(s, acts); id in f.db.rows ==> f.db.rows[id] == s.db.rows[id]
    decreases |acts|
  {
    if acts != [] {
      var s' := Apply(s, acts[0]);
      ClosedRowKept(s, acts[0], id);
      StepKeeps(s, acts[0]);
      if id in s'.db.rows {
        ClosedForever(s', acts[1..], id);
      } else {
        DeletedForever(s', acts[1..], id);
      }
    }
  }

  /** The step is the write of an attempt's result into the row. */
  predicate WritesResult(s: State, a: Action, id: Id)
    requires Enabled(s, a)
  {
    a.Write? && var stmt := s.workers[a.w].phase.stmts[0]; (stmt.SetRow? || stmt.SetRowAndTime?) && stmt.id == id
  }

  /** `attempts` has no lost update: the write of a result adds exactly one, every other step leaves it. */
  lemma AttemptsCountUp(s: State, a: Action, id: Id)
    requires Inv(s) && Allowed(s, a) && Real(s.db, id) && Real(Apply(s, a).db, id)
    ensures Apply(s, a).db.rows[id].attempts == s.db.rows[id].attempts + if WritesResult(s, a, id) then 1 else 0
  {
    match a
    case Write(w) =>
      var p := s.workers[w].phase;
      ExecFrame(s.db, p.stmts[0]);
      assert Fits(s, s.workers[w]);
      if p.id == id && OnRow(p.stmts[0]) {
        assert Advances(s, id, p.stmts[0]);
      }
      hide Exclusive, Current, Bounded, Accounted, Leased;
    case _ =>
  }

  /**
   The hypothesis is exactly what is needed: claims keep mutual exclusion whatever is
   due if, and only if, every live round is within its lease.
   */
  lemma ExclusionNeedsTheLease(s: State, w: WorkerId)
    requires Inv(s) && w !in s.workers
    ensures Timely(s) <==> forall ids :: Enabled(s, ClaimDue(w, ids)) ==> Exclusive(ApplyClaim(s, w, ids))
  {
    if Timely(s) {
      forall ids | Enabled(s, ClaimDue(w, ids))
        ensures Exclusive(ApplyClaim(s, w, ids))
      {
        ClaimKeeps(s, w, ids);
      }
    } else {
      var u, id :| u in s.workers && Real(s.db, id) && Owns(s.workers[u], id) && s.now >= s.workers[u].leaseUntil;
      OverrunIsClaimed(s, w, u, id);
    }
  }

  lemma OverrunIsClaimed(s: State, w: WorkerId, u: WorkerId, id: Id)
    requires Inv(s) && w !in s.workers && u in s.workers
    requires Real(s.db, id) && Owns(s.workers[u], id) && s.now >= s.workers[u].leaseUntil
    ensures Enabled(s, ClaimDue(w, [id])) && !Exclusive(ApplyClaim(s, w, [id]))
  {
    var s' := ApplyClaim(s, w, [id]);
    assert Real(s'.db, id) && Owns(s'.workers[u], id) && Owns(s'.workers[w], id);
  }

  /** From any initial state with a due delivery, a round that outlives its lease ends in two owners. */
  lemma OverrunIsReachable(s: State, id: Id) returns (acts: seq<Action>)
    requires Initial(s) && Real(s.db, id) && Due(s.db.rows[id], s.now)
    ensures Run(s, acts)
    ensures var f := Final(s, acts);
            1 !in f.workers && Enabled(f, ClaimDue(1, [id])) && !Exclusive(ApplyClaim(f, 1, [id]))
  {
    var a, b := ClaimDue(0, [id]), Advance(s.now + CLAIM_LEASE_MS);
    acts := [a, b];
    var s1 := Apply(s, a);
    var s2 := Apply(s1, b);
    assert Owns(s1.workers[0], id) && s1.db.rows[id].nextAttemptAt == Some(s.now + CLAIM_LEASE_MS);
    InitialInv(s);
    assert Timely(s);
    StepKeeps(s, a);
    StepKeeps(s1, b);
    OverrunIsClaimed(s2, 1, 0, id);
    assert acts[1..] == [b] && acts[1..][1..] == [];
    hide Inv, Apply, Exclusive;
    assert Run(s2, []) && Run(s1, [b]);
    assert Final(s1, [b]) == s2;
  }

  lemma InitialInv(s: State)
    requires Initial(s)
    ensures Inv(s)
  {
  }

  /** After a crash the delivery is due again as soon as the lease ends, and no sooner. */
  lemma CrashedDeliveryReturns(s: State, w: WorkerId, id: Id, t: Time)
    requires Inv(s) && w in s.workers && Real(s.db, id) && Owns(s.workers[w], id)
    ensures var s' := ApplyCrash(s, w);
            id in s'.db.rows && (Due(s'.db.rows[id], t) <==> t >= s.workers[w].leaseUntil)
  {
  }

  /**
   A round that is about to send declines what it can refuse by itself and otherwise sends;
   after that the answer comes from the network.
   */
  lemma AnswersFollowRequests(s: State, w: WorkerId, a: Attempt)
    requires w in s.workers && s.workers[w].phase.Sending?
    ensures Enabled(s, Post(w)) && !Enabled(s, Answer(w, a))
    ensures Enabled(s, Decline(w, a)) <==> a.UrlRefused? || a.SecretUnreadable? || a.PayloadTooLarge?
    ensures Enabled(Apply(s, Post(w)), Answer(w, a)) <==> a.PostThrew? || a.RedirectRefused? || a.Answered?
    ensures Apply(s, Post(w)).db == s.db
  {
  }

  /** With its webhook exactly the deliveries of that webhook go, and their ids are not used again. */
  lemma DeletionCascades(s: State, hook: Id)
    requires hook in s.db.hooks
    ensures var s' := Apply(s, DeleteHook(hook));
            && s'.db.hooks.Keys == s.db.hooks.Keys - {hook}
            && (forall id :: id in s'.db.rows <==> id in s.db.rows && s.db.rows[id].webhook != hook)
            && (forall id :: id in s'.db.rows ==> s'.db.rows[id] == s.db.rows[id])
            && (forall id :: id in s.db.rows && s.db.rows[id].webhook == hook ==> id in s'.deleted)
  {
  }

  // ----- without interference, the micro-steps are `deliverOne`

  function Drain(s: State, w: WorkerId): State
    requires w in s.workers && (s.workers[w].phase.Writing? ==> s.workers[w].phase.stmts != [])
    decreases if s.workers[w].phase.Writing? then |s.workers[w].phase.stmts| else 0
  {
    if s.workers[w].phase.Writing? then Drain(ApplyWrite(s, w), w) else s
  }

  lemma {:induction false} DrainExecutes(s: State, w: WorkerId)
    requires w in s.workers && s.workers[w].phase.Writing? && s.workers[w].phase.stmts != []
    ensures var s' := Drain(s, w);
            && w in s'.workers && s'.workers[w] == s.workers[w].(phase := Idle)
            && s'.db == ExecAll(s.db, s.workers[w].phase.stmts)
    decreases |s.workers[w].phase.stmts|
  {
    var s' := ApplyWrite(s, w);
    if s'.workers[w].phase.Writing? {
      DrainExecutes(s', w);
    } else {
      assert ExecAll(s'.db, s.workers[w].phase.stmts[1..]) == s'.db;
    }
  }

  /** The request and its answer, if the attempt gets as far as a request. */
  function Sent(s: State, w: WorkerId, attempt: Attempt): State
    requires w in s.workers && s.workers[w].phase.Sending?
  {
    ApplyJudge(if Posted(attempt) then ApplyPost(s, w) else s, w, attempt)
  }

  /** Read, then send if the row is ready, then every write. */
  function Uninterrupted(s: State, w: WorkerId, attempt: Attempt): State
    requires w in s.workers && s.workers[w].phase.Idle? && s.workers[w].queue != []
  {
    var s1 := ApplyRead(s, w);
    Drain(if s1.workers[w].phase.Sending? then Sent(s1, w, attempt) else s1, w)
  }

  lemma UninterruptedIsDeliverOne(s: State, w: WorkerId, attempt: Attempt)
    requires w in s.workers && s.workers[w].phase.Idle? && s.workers[w].queue != []
    ensures var s' := Uninterrupted(s, w, attempt);
            && s'.db == DeliverOne(s.db, s.workers[w].queue[0], attempt, s.now, s.maxAttempts)
            && w in s'.workers
            && s'.workers[w] == Worker(s.workers[w].leaseUntil, s.workers[w].queue[1..], Idle)
  {
    var id := s.workers[w].queue[0];
    var s1 := ApplyRead(s, w);
    if s1.workers[w].phase.Sending? {
      DrainExecutes(Sent(s1, w, attempt), w);
    } else if s1.workers[w].phase.Writing? {
      DrainExecutes(s1, w);
      assert ExecAll(Exec(s.db, DisableIfOpen(id)), [DisableIfOpen(id)][1..]) == Exec(s.db, DisableIfOpen(id));
    }
  }
}
