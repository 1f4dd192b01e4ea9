/**
 packages/notify/src/webhook-deliverer.ts: the deliverer itself, one poll round without
 interference. `OutboxProtocol` interleaves the same statements.
 */
module WebhookDeliverer {
  import opened Options
  import opened WebhookDb

  datatype Outcome = Delivered | Refused | Failing | Switched | NotFound

  /** What the world answers to one delivery, and when the outcome is written. */
  datatype Answer = Answer(attempt: Attempt, at: Time)

  datatype Tally = Tally(attempted: nat, delivered: nat, rejected: nat, failed: nat, disabled: nat)

  // ----- specification

  /** The rows a poll round can see: due, joined with their webhook, and not locked by another round. */
  predicate Visible(db: Db, id: Id, now: Time, locked: set<Id>) {
    id in db.rows && db.rows[id].webhook in db.hooks && Due(db.rows[id], now) && id !in locked
  }

  /** `order by created_at limit 50 for update skip locked`. */
  ghost predicate Selected(db: Db, now: Time, locked: set<Id>, due: seq<Id>) {
    && |due| <= 50
    && (forall i :: 0 <= i < |due| ==> Visible(db, due[i], now, locked))
    && (forall i, j :: 0 <= i < j < |due| ==> due[i] != due[j] && db.rows[due[i]].createdAt <= db.rows[due[j]].createdAt)
    && (forall id :: Visible(db, id, now, locked) && id !in due ==>
          |due| == 50 && forall i :: 0 <= i < 50 ==> db.rows[due[i]].createdAt <= db.rows[id].createdAt)
  }

  function OutcomeOf(db: Db, id: Id, attempt: Attempt, maxAttempts: nat): Outcome {
    match Read(db, id)
    case Gone => NotFound
    case Finished(status) => if status.Ok? then Delivered else if status.Rejected? then Refused else Switched
    case Inactive => Switched
    case Ready(row) =>
      match Judge(attempt)
      case Accept => Delivered
      case Reject => Refused
      case Retry => if !row.isTest && row.attempts + 1 >= maxAttempts then Switched else Failing
  }

  /** The deliveries of a batch, one after the other. */
  function DeliverAll(db: Db, ids: seq<Id>, answers: Id -> Answer, maxAttempts: nat): Db
    decreases |ids|
  {
    if ids == [] then db
    else
      var last := |ids| - 1;
      DeliverOne(DeliverAll(db, ids[..last], answers, maxAttempts), ids[last],
                 answers(ids[last]).attempt, answers(ids[last]).at, maxAttempts)
  }

  function Count(t: Tally, o: Outcome): Tally {
    match o
    case Delivered => t.(attempted := t.attempted + 1, delivered := t.delivered + 1)
    case Refused => t.(attempted := t.attempted + 1, rejected := t.rejected + 1)
    case Failing => t.(attempted := t.attempted + 1, failed := t.failed + 1)
    case Switched => t.(attempted := t.attempted + 1, disabled := t.disabled + 1)
    case NotFound => t.(attempted := t.attempted + 1)
  }

  function TallyOf(db: Db, ids: seq<Id>, answers: Id -> Answer, maxAttempts: nat): Tally
    decreases |ids|
  {
    if ids == [] then Tally(0, 0, 0, 0, 0)
    else
      var last := |ids| - 1;
      Count(TallyOf(db, ids[..last], answers, maxAttempts),
            OutcomeOf(DeliverAll(db, ids[..last], answers, maxAttempts), ids[last], answers(ids[last]).attempt, maxAttempts))
  }

  // ----- the deliverer

  class Deliverer {
    var rows: map<Id, Delivery>
    var hooks: map<Id, Webhook>
    const maxAttempts: nat

    function View(): Db
      reads this
    {
      Db(rows, hooks)
    }

    constructor (db: Db, maxAttempts: nat)
      ensures View() == db && this.maxAttempts == maxAttempts
    {
      this.rows := db.rows;
      this.hooks := db.hooks;
      this.maxAttempts := maxAttempts;
    }

    /** One SQL statement. */
    method Query(stmt: Stmt)
      modifies this
      ensures View() == Exec(old(View()), stmt)
    {
      var db := Exec(View(), stmt);
      rows, hooks := db.rows, db.hooks;
    }

    method DisableWebhook(id: Id, row: Delivery, attempts: nat)
      modifies this
      ensures View() == Exec(Exec(old(View()), DisableHook(row.webhook)), SetRow(id, Disabled, attempts))
    {
      Query(DisableHook(row.webhook));
      Query(SetRow(id, Disabled, attempts));
    }

    /** A retryable attempt that failed: back off, or give up on the webhook at the limit. */
    method HandleFailure(id: Id, row: Delivery, attempts: nat, now: Time) returns (outcome: Outcome)
      requires attempts == row.attempts + 1
      modifies this
      ensures forall a :: Judge(a) == Retry ==> View() == ExecAll(old(View()), Plan(id, row, a, now, maxAttempts))
      ensures outcome == if !row.isTest && attempts >= maxAttempts then Switched else Failing
    {
      ghost var db := View();
      var atMax := attempts >= maxAttempts;
      if row.isTest || atMax {
        if !row.isTest {
          DisableWebhook(id, row, attempts);
          outcome := Switched;
        } else {
          Query(SetRow(id, Failed, attempts));
          outcome := Failing;
        }
      } else {
        var nextAttempt := now + Backoff(attempts);
        Query(SetRowAndTime(id, Failed, attempts, Some(nextAttempt)));
        Query(CountFailure(row.webhook));
        outcome := Failing;
      }
      forall a | Judge(a) == Retry
        ensures View() == ExecAll(db, Plan(id, row, a, now, maxAttempts))
      {
        ExecPlan(db, id, row, a, now, maxAttempts);
      }
    }

    method DeliverOne(id: Id, attempt: Attempt, now: Time) returns (outcome: Outcome)
      modifies this
      ensures View() == WebhookDb.DeliverOne(old(View()), id, attempt, now, maxAttempts)
      ensures outcome == OutcomeOf(old(View()), id, attempt, maxAttempts)
    {
      ghost var db := View();
      if id !in rows || rows[id].webhook !in hooks {
        return NotFound;
      }
      var row := rows[id];
      if row.status.Ok? {
        return Delivered;
      }
      if row.status.Rejected? {
        return Refused;
      }
      if row.status.Disabled? {
        return Switched;
      }
      if !hooks[row.webhook].active {
        Query(DisableIfOpen(id));
        return Switched;
      }
      ExecPlan(db, id, row, attempt, now, maxAttempts);
      var attempts := row.attempts + 1;
      match attempt {
        case UrlRefused =>
          Query(SetRow(id, Rejected, attempts));
          outcome := Refused;
        case SecretUnreadable =>
          outcome := HandleFailure(id, row, attempts, now);
        case PayloadTooLarge =>
          Query(SetRow(id, Rejected, attempts));
          outcome := Refused;
        case PostThrew =>
          outcome := HandleFailure(id, row, attempts, now);
        case RedirectRefused =>
          Query(SetRow(id, Rejected, attempts));
          outcome := Refused;
        case Answered(status) =>
          if 200 <= status < 300 {
            Query(SetRowAndTime(id, Ok, attempts, None));
            Query(ResetFailures(row.webhook));
            outcome := Delivered;
          } else if status in PERMANENT_4XX {
            Query(SetRow(id, Rejected, attempts));
            outcome := Refused;
          } else {
            outcome := HandleFailure(id, row, attempts, now);
          }
      }
    }

    /** The oldest row of a non-empty set. */
    method Oldest(pool: set<Id>) returns (id: Id)
      requires pool != {} && pool <= rows.Keys
      ensures id in pool && forall other :: other in pool ==> rows[id].createdAt <= rows[other].createdAt
    {
      id :| id in pool;
      var rest := pool - {id};
      while rest != {}
        invariant rest <= pool && id in pool
        invariant forall other :: other in pool - rest ==> rows[id].createdAt <= rows[other].createdAt
        decreases rest
      {
        var other :| other in rest;
        if rows[other].createdAt < rows[id].createdAt {
          id := other;
        }
        rest := rest - {other};
      }
    }

    method SelectDue(now: Time, locked: set<Id>) returns (due: seq<Id>)
      ensures Selected(View(), now, locked, due)
    {
      due := [];
      var pool := set id | id in rows && Visible(View(), id, now, locked);
      while pool != {} && |due| < 50
        invariant pool <= rows.Keys && |due| <= 50
        invariant forall id :: Visible(View(), id, now, locked) <==> id in pool || id in due
        invariant forall i, id :: 0 <= i < |due| && id in pool ==> due[i] != id && rows[due[i]].createdAt <= rows[id].createdAt
        invariant forall i, j :: 0 <= i < j < |due| ==> due[i] != due[j] && rows[due[i]].createdAt <= rows[due[j]].createdAt
        decreases pool
      {
        var id := Oldest(pool);
        due := due + [id];
        pool := pool - {id};
      }
    }

    /** The claiming transaction: select, lease, commit. */
    method ClaimDue(now: Time, locked: set<Id>) returns (due: seq<Id>)
      modifies this
      ensures Selected(old(View()), now, locked, due)
      ensures View() == Claim(old(View()), (set id | id in due), now + CLAIM_LEASE_MS)
    {
      due := SelectDue(now, locked);
      var ids := set id | id in due;
      if |due| > 0 {
        var until := now + CLAIM_LEASE_MS;
        rows := map id | id in rows :: if id in ids then rows[id].(nextAttemptAt := Some(until)) else rows[id];
      }
    }

    /** A poll round. */
    method DeliverDue(now: Time, locked: set<Id>, answers: Id -> Answer) returns (due: seq<Id>, result: Tally)
      modifies this
      ensures Selected(old(View()), now, locked, due)
      ensures View() == DeliverAll(Claim(old(View()), (set id | id in due), now + CLAIM_LEASE_MS), due, answers, maxAttempts)
      ensures result == TallyOf(Claim(old(View()), (set id | id in due), now + CLAIM_LEASE_MS), due, answers, maxAttempts)
    {
      due := ClaimDue(now, locked);
      ghost var claimed := View();
      var attempted, delivered, rejected, failed, disabled := 0, 0, 0, 0, 0;
      for i := 0 to |due|
        invariant View() == DeliverAll(claimed, due[..i], answers, maxAttempts)
        invariant Tally(attempted, delivered, rejected, failed, disabled) == TallyOf(claimed, due[..i], answers, maxAttempts)
      {
        assert due[..i + 1][..i] == due[..i];
        attempted := attempted + 1;
        var outcome := DeliverOne(due[i], answers(due[i]).attempt, answers(due[i]).at);
        if outcome == Delivered { delivered := delivered + 1; }
        if outcome == Refused { rejected := rejected + 1; }
        if outcome == Failing { failed := failed + 1; }
        if outcome == Switched { disabled := disabled + 1; }
      }
      assert due[..|due|] == due;
      result := Tally(attempted, delivered, rejected, failed, disabled);
    }
  }

  // ----- what a round achieves

  /** The webhook after an attempt: a success clears its failures, a retryable failure adds one. */
  lemma HookAfter(db: Db, id: Id, attempt: Attempt, now: Time, maxAttempts: nat, hook: Id)
    requires Read(db, id).Ready? && hook in db.hooks
    ensures var db' := DeliverOne(db, id, attempt, now, maxAttempts);
            var o := OutcomeOf(db, id, attempt, maxAttempts);
            && hook in db'.hooks
            && (hook != db.rows[id].webhook || Judge(attempt) == Reject ==> db'.hooks[hook] == db.hooks[hook])
            && (hook == db.rows[id].webhook && o == Delivered ==> db'.hooks[hook] == Webhook(true, 0))
            && (hook == db.rows[id].webhook && !db.rows[id].isTest && Judge(attempt) == Retry ==>
                  db'.hooks[hook] == Webhook(db.rows[id].attempts + 1 < maxAttempts, db.hooks[hook].failureCount + 1))
  {
    ExecPlan(db, id, db.rows[id], attempt, now, maxAttempts);
  }

  /** The webhook in literals of the answer. */
  lemma HookIsExact(db: Db, id: Id, a: Attempt, now: Time, maxAttempts: nat)
    requires id in db.rows && (db.rows[id].status.Pending? || db.rows[id].status.Failed?)
    requires db.rows[id].webhook in db.hooks && db.hooks[db.rows[id].webhook].active
    ensures id in DeliverOne(db, id, a, now, maxAttempts).rows
    ensures var d, hook := db.rows[id], db.hooks[db.rows[id].webhook];
            var d' := DeliverOne(db, id, a, now, maxAttempts).rows[id];
            DeliverOne(db, id, a, now, maxAttempts) == Db(
              db.rows[id := d'],
              if d'.status == Ok then db.hooks[d.webhook := Webhook(true, 0)]
              else if d'.status == Rejected || d.isTest then db.hooks
              else db.hooks[d.webhook := Webhook(d'.status == Failed, hook.failureCount + 1)])
  {
    ExecPlan(db, id, db.rows[id], a, now, maxAttempts);
  }

  lemma DeliverOneKeys(db: Db, id: Id, attempt: Attempt, now: Time, maxAttempts: nat)
    ensures var db' := DeliverOne(db, id, attempt, now, maxAttempts);
            && db'.rows.Keys == db.rows.Keys && db'.hooks.Keys == db.hooks.Keys
            && forall other :: other in db.rows && other != id ==> db'.rows[other] == db.rows[other]
  {
    if Read(db, id).Ready? {
      ExecPlan(db, id, db.rows[id], attempt, now, maxAttempts);
    }
  }

  /**
   What a delivery leaves of the row it sends, and the outcome it reports, for every
   answer: accepted, refused for good, or tried again until the maximum.
   */
  lemma DeliveryIsExact(db: Db, id: Id, a: Attempt, now: Time, maxAttempts: nat)
    requires id in db.rows && (db.rows[id].status.Pending? || db.rows[id].status.Failed?)
    requires db.rows[id].webhook in db.hooks && db.hooks[db.rows[id].webhook].active
    ensures id in DeliverOne(db, id, a, now, maxAttempts).rows
    ensures var d, d' := db.rows[id], DeliverOne(db, id, a, now, maxAttempts).rows[id];
            var accepted := a.Answered? && 200 <= a.httpStatus <= 299;
            var refused := a.UrlRefused? || a.PayloadTooLarge? || a.RedirectRefused?
              || (a.Answered? && (a.httpStatus == 400 || a.httpStatus == 401 || a.httpStatus == 403
                                  || a.httpStatus == 404 || a.httpStatus == 410));
            var last := !d.isTest && d.attempts + 1 >= maxAttempts;
            && (d'.status == Ok <==> accepted)
            && (d'.status == Rejected <==> refused)
            && (d'.status == Disabled <==> !accepted && !refused && last)
            && (d'.status == Failed <==> !accepted && !refused && !last)
            && d' == d.(status := d'.status, attempts := d.attempts + 1, nextAttemptAt :=
                 if accepted then None
                 else if refused || last || d.isTest then d.nextAttemptAt
                 else Some(now + if d.attempts == 0 then 60_000 else if d.attempts == 1 then 300_000
                                 else if d.attempts == 2 then 1_800_000 else 7_200_000))
    ensures var o, d' := OutcomeOf(db, id, a, maxAttempts), DeliverOne(db, id, a, now, maxAttempts).rows[id];
            && (o == Delivered <==> d'.status == Ok) && (o == Refused <==> d'.status == Rejected)
            && (o == Switched <==> d'.status == Disabled) && (o == Failing <==> d'.status == Failed)
  {
    ExecPlan(db, id, db.rows[id], a, now, maxAttempts);
  }

  /** A delivery that is over, that has lost its webhook, or whose webhook is switched off is not sent. */
  lemma NothingIsSent(db: Db, id: Id, a: Attempt, now: Time, maxAttempts: nat)
    ensures var o, db' := OutcomeOf(db, id, a, maxAttempts), DeliverOne(db, id, a, now, maxAttempts);
            if id !in db.rows || db.rows[id].webhook !in db.hooks then db' == db && o == NotFound
            else
              var d := db.rows[id];
              match d.status
              case Ok => db' == db && o == Delivered
              case Rejected => db' == db && o == Refused
              case Disabled => db' == db && o == Switched
              case _ =>
                !db.hooks[d.webhook].active ==>
                  o == Switched && db' == Db(db.rows[id := d.(status := Disabled)], db.hooks)
  {
  }

  /** A retry is selected from its time on, to the millisecond, unless another round has it. */
  lemma RetryIsVisibleFrom(db: Db, id: Id, a: Attempt, now: Time, maxAttempts: nat, t: Time, locked: set<Id>)
    requires id in db.rows && db.rows[id].webhook in db.hooks && !db.rows[id].isTest
    requires id in DeliverOne(db, id, a, now, maxAttempts).rows && OutcomeOf(db, id, a, maxAttempts) == Failing
    ensures Visible(DeliverOne(db, id, a, now, maxAttempts), id, t, locked) <==>
              id !in locked
              && t >= now + (if db.rows[id].attempts == 0 then 60_000 else if db.rows[id].attempts == 1 then 300_000
                             else if db.rows[id].attempts == 2 then 1_800_000 else 7_200_000)
  {
    DeliveryIsExact(db, id, a, now, maxAttempts);
    DeliverOneKeys(db, id, a, now, maxAttempts);
    hide DeliverOne, OutcomeOf;
  }

  /** A claim hides its rows for fifteen minutes and changes nothing else. */
  lemma ClaimHides(db: Db, ids: set<Id>, now: Time, id: Id, t: Time, locked: set<Id>)
    requires id in db.rows && db.rows[id].webhook in db.hooks
    ensures var db' := Claim(db, ids, now + CLAIM_LEASE_MS);
            && db'.hooks == db.hooks && db'.rows.Keys == db.rows.Keys
            && db'.rows[id] == (if id in ids then db.rows[id].(nextAttemptAt := Some(now + 900_000)) else db.rows[id])
            && (id in ids && id !in locked && (db.rows[id].status == Pending || db.rows[id].status == Failed) ==>
                  (Visible(db', id, t, locked) <==> t >= now + 900_000))
  {
  }

  /** A round settles what it claimed, exactly once each, and nothing else. */
  ghost predicate SettledOnce(before: Delivery, after: Delivery, at: Time, maxAttempts: nat) {
    && !after.status.Pending?
    && (Open(after) ==>
          && after.attempts == before.attempts + 1 < maxAttempts
          && after.nextAttemptAt.Some? && after.nextAttemptAt.value >= at + 60_000)
  }

  lemma {:induction false} RoundSettles(db: Db, ids: seq<Id>, answers: Id -> Answer, maxAttempts: nat, id: Id)
    requires forall i, j :: 0 <= i < j < |ids| ==> ids[i] != ids[j]
    requires id in db.rows
    ensures var db' := DeliverAll(db, ids, answers, maxAttempts);
            && db'.rows.Keys == db.rows.Keys && db'.hooks.Keys == db.hooks.Keys
            && (id !in ids ==> db'.rows[id] == db.rows[id])
            && (id in ids && db.rows[id].webhook in db.hooks && Open(db.rows[id]) && !db.rows[id].isTest ==>
                  SettledOnce(db.rows[id], db'.rows[id], answers(id).at, maxAttempts))
    decreases |ids|
  {
    if ids != [] {
      var last := |ids| - 1;
      var mid := DeliverAll(db, ids[..last], answers, maxAttempts);
      var a := answers(ids[last]);
      assert forall x :: x in ids <==> x in ids[..last] || x == ids[last];
      RoundSettles(db, ids[..last], answers, maxAttempts, id);
      DeliverOneKeys(mid, ids[last], a.attempt, a.at, maxAttempts);
      if id == ids[last] && mid.rows[id].webhook in mid.hooks && Open(mid.rows[id]) && !mid.rows[id].isTest {
        DeliverOneProgress(mid, id, a.attempt, a.at, maxAttempts);
        PendingLeaves(mid, id, a.attempt, a.at, maxAttempts);
      }
    }
  }

  lemma PendingLeaves(db: Db, id: Id, attempt: Attempt, now: Time, maxAttempts: nat)
    requires id in db.rows && db.rows[id].webhook in db.hooks && Open(db.rows[id])
    ensures var db' := DeliverOne(db, id, attempt, now, maxAttempts); id in db'.rows && !db'.rows[id].status.Pending?
  {
    if Read(db, id).Ready? {
      ExecPlan(db, id, db.rows[id], attempt, now, maxAttempts);
    }
  }

  /** Deliveries of the batch with this outcome. */
  function WithOutcome(db: Db, ids: seq<Id>, answers: Id -> Answer, maxAttempts: nat, o: Outcome): nat
    decreases |ids|
  {
    if ids == [] then 0
    else
      var last := |ids| - 1;
      var mid := DeliverAll(db, ids[..last], answers, maxAttempts);
      WithOutcome(db, ids[..last], answers, maxAttempts, o)
      + if OutcomeOf(mid, ids[last], answers(ids[last]).attempt, maxAttempts) == o then 1 else 0
  }

  /** Each counter counts the deliveries with its own outcome. */
  lemma {:induction false} TallyCountsOutcomes(db: Db, ids: seq<Id>, answers: Id -> Answer, maxAttempts: nat)
    ensures var t := TallyOf(db, ids, answers, maxAttempts);
            && t.attempted == |ids|
            && t.delivered == WithOutcome(db, ids, answers, maxAttempts, Delivered)
            && t.rejected == WithOutcome(db, ids, answers, maxAttempts, Refused)
            && t.failed == WithOutcome(db, ids, answers, maxAttempts, Failing)
            && t.disabled == WithOutcome(db, ids, answers, maxAttempts, Switched)
    decreases |ids|
  {
    if ids != [] {
      TallyCountsOutcomes(db, ids[..|ids| - 1], answers, maxAttempts);
    }
    hide OutcomeOf, DeliverAll;
  }

  /** Every claimed row is counted once, under exactly one heading or as not found. */
  lemma {:induction false} TallyAddsUp(db: Db, ids: seq<Id>, answers: Id -> Answer, maxAttempts: nat)
    requires forall i, j :: 0 <= i < j < |ids| ==> ids[i] != ids[j]
    requires forall i :: 0 <= i < |ids| ==> ids[i] in db.rows && db.rows[ids[i]].webhook in db.hooks
    ensures var t := TallyOf(db, ids, answers, maxAttempts);
            t.attempted == |ids| == t.delivered + t.rejected + t.failed + t.disabled
    decreases |ids|
  {
    if ids != [] {
      var last := |ids| - 1;
      TallyAddsUp(db, ids[..last], answers, maxAttempts);
      RoundSettles(db, ids[..last], answers, maxAttempts, ids[last]);
    }
  }
}
