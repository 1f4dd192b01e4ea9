/**
 packages/notify/src/webhook-deliverer.ts: the rows of the webhook outbox and the
 single SQL statements that one delivery issues, each of them atomic.
 */
module WebhookDb {
  import opened Options

  type Id = nat
  /** Milliseconds. */
  type Time = int

  datatype Status = Pending | Failed | Ok | Rejected | Disabled

  datatype Delivery = Delivery(
    webhook: Id, isTest: bool, createdAt: Time,
    status: Status, attempts: nat, nextAttemptAt: Option<Time>)

  datatype Webhook = Webhook(active: bool, failureCount: nat)

  datatype Db = Db(rows: map<Id, Delivery>, hooks: map<Id, Webhook>)

  const CLAIM_LEASE_MS: Time := 15 * 60_000
  const BACKOFF_MS: seq<Time> := [60_000, 5 * 60_000, 30 * 60_000, 2 * 3_600_000]
  const PERMANENT_4XX: set<int> := {400, 401, 403, 404, 410}

  predicate Open(d: Delivery) {
    d.status == Pending || d.status == Failed
  }

  /** The selection of a poll round. */
  predicate Due(d: Delivery, now: Time) {
    Open(d) && (d.nextAttemptAt.None? || d.nextAttemptAt.value <= now)
  }

  // ----- what one delivery reads

  datatype Reading = Gone | Finished(status: Status) | Inactive | Ready(row: Delivery)

  /** The join of a delivery and its webhook, and the early exits on it. */
  function Read(db: Db, id: Id): Reading {
    if id !in db.rows || db.rows[id].webhook !in db.hooks then Gone
    else if !Open(db.rows[id]) then Finished(db.rows[id].status)
    else if !db.hooks[db.rows[id].webhook].active then Inactive
    else Ready(db.rows[id])
  }

  // ----- what the world answers

  datatype Attempt =
    | UrlRefused
    | SecretUnreadable
    | PayloadTooLarge
    | PostThrew
    | RedirectRefused
    | Answered(httpStatus: int)

  datatype Verdict = Accept | Reject | Retry

  function Judge(a: Attempt): Verdict {
    match a
    case UrlRefused => Reject
    case SecretUnreadable => Retry
    case PayloadTooLarge => Reject
    case PostThrew => Retry
    case RedirectRefused => Reject
    case Answered(code) =>
      if 200 <= code < 300 then Accept else if code in PERMANENT_4XX then Reject else Retry
  }

  /** Whether the attempt got as far as the network. */
  predicate Posted(a: Attempt) {
    a.PostThrew? || a.RedirectRefused? || a.Answered?
  }

  // ----- what one delivery writes

  datatype Stmt =
    | SetRow(id: Id, status: Status, attempts: nat)
    | SetRowAndTime(id: Id, status: Status, attempts: nat, nextAttemptAt: Option<Time>)
    | DisableIfOpen(id: Id)
    | ResetFailures(webhook: Id)
    | CountFailure(webhook: Id)
    | DisableHook(webhook: Id)

  predicate OnRow(s: Stmt) {
    s.SetRow? || s.SetRowAndTime? || s.DisableIfOpen?
  }

  function Exec(db: Db, s: Stmt): Db {
    match s
    case SetRow(id, status, attempts) =>
      if id !in db.rows then db
      else db.(rows := db.rows[id := db.rows[id].(status := status, attempts := attempts)])
    case SetRowAndTime(id, status, attempts, next) =>
      if id !in db.rows then db
      else db.(rows := db.rows[id := db.rows[id].(status := status, attempts := attempts, nextAttemptAt := next)])
    case DisableIfOpen(id) =>
      if id !in db.rows || !Open(db.rows[id]) then db
      else db.(rows := db.rows[id := db.rows[id].(status := Disabled)])
    case ResetFailures(hook) =>
      if hook !in db.hooks then db
      else db.(hooks := db.hooks[hook := db.hooks[hook].(failureCount := 0)])
    case CountFailure(hook) =>
      if hook !in db.hooks then db
      else db.(hooks := db.hooks[hook := db.hooks[hook].(failureCount := db.hooks[hook].failureCount + 1)])
    case DisableHook(hook) =>
      if hook !in db.hooks then db
      else db.(hooks := db.hooks[hook := Webhook(false, db.hooks[hook].failureCount + 1)])
  }

  function ExecAll(db: Db, stmts: seq<Stmt>): Db
    decreases |stmts|
  {
    if stmts == [] then db else ExecAll(Exec(db, stmts[0]), stmts[1..])
  }

  /** `BACKOFF_MS[attempts - 1]`, or the last entry past the end of the table. */
  function Backoff(attempts: nat): Time
    requires attempts > 0
  {
    if attempts - 1 < |BACKOFF_MS| then BACKOFF_MS[attempts - 1] else BACKOFF_MS[|BACKOFF_MS| - 1]
  }

  /** The statements that follow an attempt on the row `row` read under `id`, in order. */
  function Plan(id: Id, row: Delivery, a: Attempt, now: Time, maxAttempts: nat): (stmts: seq<Stmt>)
    ensures |stmts| <= 2
  {
    var attempts := row.attempts + 1;
    match Judge(a)
    case Accept => [SetRowAndTime(id, Ok, attempts, None), ResetFailures(row.webhook)]
    case Reject => [SetRow(id, Rejected, attempts)]
    case Retry =>
      if row.isTest then [SetRow(id, Failed, attempts)]
      else if attempts >= maxAttempts then [DisableHook(row.webhook), SetRow(id, Disabled, attempts)]
      else [SetRowAndTime(id, Failed, attempts, Some(now + Backoff(attempts))), CountFailure(row.webhook)]
  }

  /** The claim: every chosen row becomes invisible until the lease ends. */
  function Claim(db: Db, ids: set<Id>, until: Time): Db {
    db.(rows := map id | id in db.rows ::
      if id in ids then db.rows[id].(nextAttemptAt := Some(until)) else db.rows[id])
  }

  /** Backoffs start at a minute and never get shorter. */
  lemma BackoffsGrow(attempts: nat)
    requires attempts > 0
    ensures 60_000 <= Backoff(attempts) <= Backoff(attempts + 1) <= 7_200_000
  {
  }

  /** One uninterrupted delivery of a row. */
  function DeliverOne(db: Db, id: Id, a: Attempt, now: Time, maxAttempts: nat): Db {
    match Read(db, id)
    case Ready(row) => ExecAll(db, Plan(id, row, a, now, maxAttempts))
    case Inactive => Exec(db, DisableIfOpen(id))
    case _ => db
  }

  /**
   A completed delivery of an open row ends it, or uses up one of its attempts; no
   other row changes.
   */
  lemma DeliverOneProgress(db: Db, id: Id, a: Attempt, now: Time, maxAttempts: nat)
    requires id in db.rows && db.rows[id].webhook in db.hooks && Open(db.rows[id]) && !db.rows[id].isTest
    ensures var db' := DeliverOne(db, id, a, now, maxAttempts);
            && db'.rows.Keys == db.rows.Keys
            && (forall other :: other in db.rows && other != id ==> db'.rows[other] == db.rows[other])
            && (Open(db'.rows[id]) ==>
                  && db'.rows[id].status == Failed
                  && db'.rows[id].attempts == db.rows[id].attempts + 1 < maxAttempts
                  && db'.rows[id].nextAttemptAt.Some?
                  && db'.rows[id].nextAttemptAt.value >= now + 60_000)
  {
    match Read(db, id)
    case Ready(row) => ExecPlan(db, id, row, a, now, maxAttempts);
    case _ =>
  }

  /** What the statements of a plan come to. */
  lemma ExecPlan(db: Db, id: Id, row: Delivery, a: Attempt, now: Time, maxAttempts: nat)
    ensures var plan := Plan(id, row, a, now, maxAttempts);
            ExecAll(db, plan) == if |plan| == 1 then Exec(db, plan[0]) else Exec(Exec(db, plan[0]), plan[1])
  {
    var plan := Plan(id, row, a, now, maxAttempts);
    assert ExecAll(Exec(db, plan[0]), plan[1..])
        == if |plan| == 1 then Exec(db, plan[0]) else Exec(Exec(db, plan[0]), plan[1]);
  }

  /** A failing test row is open again at once, however often it has failed. */
  lemma TestRowsNeverEnd(db: Db, id: Id, a: Attempt, now: Time, maxAttempts: nat)
    requires id in db.rows && Read(db, id).Ready? && db.rows[id].isTest && Judge(a) == Retry
    ensures id in DeliverOne(db, id, a, now, maxAttempts).rows
    ensures var d := DeliverOne(db, id, a, now, maxAttempts).rows[id];
            Open(d) && d.attempts == db.rows[id].attempts + 1 && d.nextAttemptAt == db.rows[id].nextAttemptAt
  {
    ExecPlan(db, id, db.rows[id], a, now, maxAttempts);
  }
}
