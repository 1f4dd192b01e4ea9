/**
 The life of a scan and the credit it costs: apps/web/lib/scans-core.ts,
 packages/scan-core/src/finish-scan.ts and progress.ts, apps/scheduler/src/core.ts. Each
 transaction is one step; the dispatcher's read and its unguarded write are two.
 */
module ScanLifecycle {
  import opened Options
  import opened Subscriptions
  import opened Credits

  type SiteId = nat

  datatype Status = Queued | Running | Completed | Failed | Canceled
  datatype Trigger = Manual | Scheduled | Deploy
  datatype Scan = Scan(site: SiteId, status: Status, trigger: Trigger)
  datatype Frequency = Never | Daily | Weekly

  /** `lastScan` and `lastStatus` are the denormalised copy kept by `setSiteScanState`. */
  datatype Site = Site(
    team: Team, frequency: Frequency, nextScanAt: Option<Time>,
    lastScan: Option<ScanId>, lastStatus: Option<Status>)

  datatype Db = Db(sites: map<SiteId, Site>, scans: map<ScanId, Scan>, nextScan: ScanId, books: Books)

  predicate IsActive(status: Status) {
    status.Queued? || status.Running?
  }

  predicate HasActive(db: Db, site: SiteId) {
    exists id :: id in db.scans && db.scans[id].site == site && IsActive(db.scans[id].status)
  }

  // ----- the transactions

  function WithCache(db: Db, site: SiteId, scan: ScanId, status: Status): Db {
    if site !in db.sites then db
    else db.(sites := db.sites[site := db.sites[site].(lastScan := Some(scan), lastStatus := Some(status))])
  }

  /** Insert a queued scan under a fresh id and show it on its site. */
  function AddScan(db: Db, site: SiteId, trigger: Trigger): Db {
    WithCache(db.(scans := db.scans[db.nextScan := Scan(site, Queued, trigger)], nextScan := db.nextScan + 1),
              site, db.nextScan, Queued)
  }

  datatype CreateError = SiteNotFound | Overlap | OutOfCredit
  datatype CreateResult = Created(db: Db, scan: ScanId) | NotCreated(error: CreateError)

  function CreateManualScan(db: Db, team: Team, site: SiteId, trigger: Trigger, now: Time): CreateResult {
    if site !in db.sites || db.sites[site].team != team then NotCreated(SiteNotFound)
    else if HasActive(db, site) then NotCreated(Overlap)
    else
      match SpendCredit(db.books, team, ReasonScan, Some(db.nextScan), now)
      case Limited(_, _, _) => NotCreated(OutOfCredit)
      case Spent(books, _) => Created(AddScan(db, site, trigger).(books := books), db.nextScan)
  }

  datatype CancelError = ScanNotFound | NotCancelable
  datatype CancelResult = CancelDone(db: Db) | NotCanceled(error: CancelError)

  function SetStatus(db: Db, scan: ScanId, status: Status): Db
    requires scan in db.scans
  {
    db.(scans := db.scans[scan := db.scans[scan].(status := status)])
  }

  function CancelScan(db: Db, team: Team, scan: ScanId): CancelResult {
    if scan !in db.scans || db.scans[scan].site !in db.sites || db.sites[db.scans[scan].site].team != team then
      NotCanceled(ScanNotFound)
    else if !IsActive(db.scans[scan].status) then NotCanceled(NotCancelable)
    else
      CancelDone(WithCache(SetStatus(db, scan, Status.Canceled), db.scans[scan].site, scan, Status.Canceled)
                 .(books := RefundCredit(db.books, team, scan)))
  }

  predicate IsOutcome(status: Status) {
    status.Completed? || status.Failed?
  }

  /** None when there is no such scan; a canceled scan is left as it is. */
  function FinishScan(db: Db, scan: ScanId, outcome: Status): Option<Db> {
    if scan !in db.scans then None
    else if db.scans[scan].status.Canceled? then Some(db)
    else Some(WithCache(SetStatus(db, scan, outcome), db.scans[scan].site, scan, outcome))
  }

  /** `writeProgressSkeleton`: no guard on the status. */
  function StartScan(db: Db, scan: ScanId): Db {
    if scan in db.scans then SetStatus(db, scan, Running) else db
  }

  function Postpone(db: Db, site: SiteId, next: Option<Time>): Db
    requires site in db.sites
  {
    db.(sites := db.sites[site := db.sites[site].(nextScanAt := next)])
  }

  /** A due site and the time computed for its next scan. */
  datatype Due = Due(site: SiteId, next: Option<Time>)

  /** One due site of the scheduler's batch; the credit error is caught, what was written before it stays. */
  function ScheduleSite(db: Db, due: Due, now: Time): Db {
    if due.site !in db.sites then db
    else if HasActive(db, due.site) then Postpone(db, due.site, due.next)
    else
      match SpendCredit(db.books, db.sites[due.site].team, ReasonSchedule, None, now)
      case Limited(books, _, _) => Postpone(db.(books := books), due.site, due.next)
      case Spent(books, _) => Postpone(AddScan(db, due.site, Scheduled).(books := books), due.site, due.next)
  }

  function ScheduleAll(db: Db, due: seq<Due>, now: Time): Db
    decreases |due|
  {
    if due == [] then db
    else ScheduleSite(ScheduleAll(db, due[..|due| - 1], now), due[|due| - 1], now)
  }

  /** The first scan of the onboarding route, which does not look for a scan in progress. */
  function OnboardSite(db: Db, team: Team, site: SiteId, now: Time): Db {
    var db1 := if site in db.sites then db else db.(sites := db.sites[site := Site(team, Never, None, None, None)]);
    match SpendCredit(db1.books, team, ReasonScan, Some(db1.nextScan), now)
    case Limited(_, _, _) => db
    case Spent(books, _) => AddScan(db1, site, Manual).(books := books)
  }

  // ----- steps

  /** `jobs` are the scans a dispatcher has read as queued and not yet written. */
  datatype State = State(db: Db, meter: Meter, jobs: set<ScanId>)

  datatype Action =
    | SignUp(team: Team, now: Time)
    | AddSite(site: SiteId, team: Team)
    | SetSchedule(site: SiteId, frequency: Frequency, next: Option<Time>)
    | Create(team: Team, site: SiteId, trigger: Trigger, now: Time)
    | Schedule(due: Due, now: Time)
    | Onboard(team: Team, site: SiteId, now: Time)
    | Cancel(team: Team, scan: ScanId)
    | Load(scan: ScanId)
    | Start(scan: ScanId)
    | Finish(scan: ScanId, outcome: Status)
    | Billing(team: Team, sub: Sub)

  predicate Enabled(s: State, a: Action) {
    match a
    case AddSite(site, team) => site !in s.db.sites
    case SetSchedule(site, _, _) => site in s.db.sites
    case Create(_, _, trigger, _) => !trigger.Scheduled?
    case Onboard(team, site, _) => site in s.db.sites ==> s.db.sites[site].team == team
    case Load(scan) => scan in s.db.scans && s.db.scans[scan].status.Queued?
    case Start(scan) => scan in s.jobs
    case Finish(_, outcome) => IsOutcome(outcome)
    case Billing(team, sub) => sub.used == if team in s.db.books.subs then s.db.books.subs[team].used else 0
    case _ => true
  }

  function Apply(s: State, a: Action): State
    requires Enabled(s, a)
  {
    match a
    case SignUp(team, now) =>
      s.(db := s.db.(books := Ensured(s.db.books, team, now)), meter := MeterAfterEnsure(s.db.books, s.meter, team, now))
    case AddSite(site, team) => s.(db := s.db.(sites := s.db.sites[site := Site(team, Never, None, None, None)]))
    case SetSchedule(site, frequency, next) =>
      s.(db := s.db.(sites := s.db.sites[site := s.db.sites[site].(frequency := frequency, nextScanAt := next)]))
    case Create(team, site, trigger, now) =>
      (match CreateManualScan(s.db, team, site, trigger, now)
       case Created(db, _) => s.(db := db, meter := MeterAfterSpend(s.db.books, s.meter, team, now))
       case _ => s)
    case Schedule(due, now) =>
      if due.site !in s.db.sites || HasActive(s.db, due.site) then s.(db := ScheduleSite(s.db, due, now))
      else s.(db := ScheduleSite(s.db, due, now),
              meter := MeterAfterSpend(s.db.books, s.meter, s.db.sites[due.site].team, now))
    case Onboard(team, site, now) =>
      var db := OnboardSite(s.db, team, site, now);
      if db == s.db then s else s.(db := db, meter := MeterAfterSpend(s.db.books, s.meter, team, now))
    case Cancel(team, scan) =>
      (match CancelScan(s.db, team, scan)
       case CancelDone(db) => s.(db := db)
       case _ => s)
    case Load(scan) => s.(jobs := s.jobs + {scan})
    case Start(scan) => s.(db := StartScan(s.db, scan), jobs := s.jobs - {scan})
    case Finish(scan, outcome) =>
      (match FinishScan(s.db, scan, outcome)
       case Some(db) => s.(db := db)
       case None => s)
    case Billing(team, sub) =>
      s.(db := s.db.(books := s.db.books.(subs := s.db.books.subs[team := sub])),
         meter := MeterAfterBilling(s.db.books, s.meter, team))
  }

  // ----- what every step keeps

  ghost predicate Formed(db: Db) {
    && (forall id :: id in db.scans ==> id < db.nextScan && db.scans[id].site in db.sites)
    && (forall k :: 0 <= k < |db.books.ledger| && db.books.ledger[k].scan.Some? ==>
          db.books.ledger[k].scan.value < db.nextScan)
  }

  /** At most one scan of a site is queued or running. */
  ghost predicate OneActive(db: Db) {
    forall i, j :: i in db.scans && j in db.scans && i != j && db.scans[i].site == db.scans[j].site ==>
      !(IsActive(db.scans[i].status) && IsActive(db.scans[j].status))
  }

  /** A manual or deploy scan is charged, and refunded exactly if canceled; a scheduled scan never appears. */
  ghost predicate Accounted(db: Db, id: ScanId)
    requires id in db.scans && db.scans[id].site in db.sites
  {
    var team, ledger := db.sites[db.scans[id].site].team, db.books.ledger;
    if db.scans[id].trigger.Scheduled? then Unused(ledger, id)
    else Charged(ledger, team, id) && (Refunded(ledger, team, id) <==> db.scans[id].status.Canceled?)
  }

  ghost predicate AllAccounted(db: Db)
    requires Formed(db)
  {
    forall id :: id in db.scans ==> Accounted(db, id)
  }

  /** The copy on the site names one of its scans, with its status; it does not follow a start. */
  ghost predicate Mirrored(db: Db, site: SiteId)
    requires site in db.sites
  {
    var row := db.sites[site];
    row.lastScan.Some? ==>
      && row.lastScan.value in db.scans && db.scans[row.lastScan.value].site == site
      && (row.lastStatus == Some(db.scans[row.lastScan.value].status)
          || (row.lastStatus == Some(Queued) && db.scans[row.lastScan.value].status.Running?))
  }

  ghost predicate AllMirrored(db: Db) {
    forall site :: site in db.sites ==> Mirrored(db, site)
  }

  ghost predicate Inv(s: State) {
    && Formed(s.db) && OneActive(s.db) && AllAccounted(s.db) && AllMirrored(s.db)
    && BooksInv(s.db.books, s.meter)
    && forall id :: id in s.jobs ==> id in s.db.scans
  }

  /** A scan that is over stays over, and canceled stays canceled. */
  ghost predicate StaysClosed(db: Db, db': Db) {
    forall id :: id in db.scans && !IsActive(db.scans[id].status) ==>
      id in db'.scans && !IsActive(db'.scans[id].status)
      && (db.scans[id].status.Canceled? ==> db'.scans[id] == db.scans[id])
  }

  /** The hypotheses: starts hit queued or running scans, onboarding hits sites without one. */
  predicate Allowed(s: State, a: Action) {
    && Enabled(s, a)
    && (a.Start? ==> a.scan in s.db.scans && IsActive(s.db.scans[a.scan].status))
    && (a.Onboard? ==> !HasActive(s.db, a.site))
  }

  // ----- the ledger seen from one scan

  /** Entries about other scans change nothing for this one. */
  lemma OtherEntry(ledger: seq<Entry>, e: Entry, team: Team, scan: ScanId)
    requires e.scan != Some(scan)
    ensures Charged(ledger + [e], team, scan) <==> Charged(ledger, team, scan)
    ensures Refunded(ledger + [e], team, scan) <==> Refunded(ledger, team, scan)
    ensures Unused(ledger + [e], scan) <==> Unused(ledger, scan)
  {
    var l' := ledger + [e];
    assert forall k :: 0 <= k < |ledger| ==> l'[k] == ledger[k];
    if Charged(ledger, team, scan) {
      var k :| 0 <= k < |ledger| && IsCharge(ledger[k], team, scan);
      assert IsCharge(l'[k], team, scan);
    }
    if Refunded(ledger, team, scan) {
      var k :| 0 <= k < |ledger| && IsRefund(ledger[k], team, scan);
      assert IsRefund(l'[k], team, scan);
    }
    if Unused(l', scan) {
      assert forall k :: 0 <= k < |ledger| ==> l'[k].scan != Some(scan);
    }
  }

  /** The books after a spend: at most one entry more, naming the given scan. */
  lemma SpendEntry(b: Books, team: Team, reason: Reason, scan: Option<ScanId>, now: Time)
    ensures var r := SpendCredit(b, team, reason, scan, now);
            r.books.ledger == if r.Spent? then b.ledger + [Entry(team, 1, reason, scan)] else b.ledger
  {
  }

  // ----- a new scan

  /** The database after a scan is added and charged to `scan` (or to no scan at all). */
  lemma AddScanKeeps(db: Db, site: SiteId, trigger: Trigger, books: Books, e: Entry)
    requires Formed(db) && OneActive(db) && AllAccounted(db) && AllMirrored(db)
    requires site in db.sites && !HasActive(db, site)
    requires books.ledger == db.books.ledger + [e] && e.team == db.sites[site].team && e.amount == 1
    requires e.scan == if trigger.Scheduled? then None else Some(db.nextScan)
    ensures var db' := AddScan(db, site, trigger).(books := books);
            Formed(db') && OneActive(db') && AllAccounted(db') && AllMirrored(db')
  {
    var db' := AddScan(db, site, trigger).(books := books);
    hide OneActive, AllMirrored, HasActive;
    AddScanOneActive(db, site, trigger, books);
    AddScanMirrors(db, site, trigger, books);
    forall id | id in db'.scans
      ensures Accounted(db', id)
    {
      AddScanAccounts(db, site, trigger, books, e, id);
    }
  }

  lemma AddScanOneActive(db: Db, site: SiteId, trigger: Trigger, books: Books)
    requires Formed(db) && OneActive(db) && !HasActive(db, site)
    ensures OneActive(AddScan(db, site, trigger).(books := books))
  {
  }

  lemma AddScanMirrors(db: Db, site: SiteId, trigger: Trigger, books: Books)
    requires Formed(db) && AllMirrored(db) && site in db.sites
    ensures AllMirrored(AddScan(db, site, trigger).(books := books))
  {
    var db' := AddScan(db, site, trigger).(books := books);
    forall other | other in db'.sites
      ensures Mirrored(db', other)
    {
      assert Mirrored(db, other);
    }
  }

  lemma AddScanAccounts(db: Db, site: SiteId, trigger: Trigger, books: Books, e: Entry, id: ScanId)
    requires Formed(db) && AllAccounted(db) && site in db.sites
    requires books.ledger == db.books.ledger + [e] && e.team == db.sites[site].team && e.amount == 1
    requires e.scan == if trigger.Scheduled? then None else Some(db.nextScan)
    requires id in db.scans || id == db.nextScan
    ensures Accounted(AddScan(db, site, trigger).(books := books), id)
  {
    var ledger := db.books.ledger;
    assert (ledger + [e])[|ledger|] == e;
    if id == db.nextScan {
      assert Unused(ledger, id);
      if trigger.Scheduled? {
        OtherEntry(ledger, e, e.team, id);
      } else {
        assert IsCharge((ledger + [e])[|ledger|], e.team, id);
      }
    } else {
      assert Accounted(db, id);
      OtherEntry(ledger, e, db.sites[db.scans[id].site].team, id);
    }
  }

  lemma CreateKeeps(s: State, a: Action)
    requires a.Create? && Inv(s) && Enabled(s, a)
    ensures Inv(Apply(s, a))
  {
    var r := CreateManualScan(s.db, a.team, a.site, a.trigger, a.now);
    SpendEntry(s.db.books, a.team, ReasonScan, Some(s.db.nextScan), a.now);
    if r.Created? {
      assert Unused(s.db.books.ledger, s.db.nextScan);
      SpendKeepsBooks(s.db.books, s.meter, a.team, ReasonScan, Some(s.db.nextScan), a.now);
      AddScanKeeps(s.db, a.site, a.trigger, r.db.books, Entry(a.team, 1, ReasonScan, Some(s.db.nextScan)));
    }
    hide OneActive, AllAccounted, AllMirrored, BooksInv, HasActive, SpendCredit, MeterAfterSpend, Unused;
  }

  lemma PostponeKeeps(db: Db, site: SiteId, next: Option<Time>)
    requires Formed(db) && OneActive(db) && AllAccounted(db) && AllMirrored(db) && site in db.sites
    ensures var db' := Postpone(db, site, next); Formed(db') && OneActive(db') && AllAccounted(db') && AllMirrored(db')
  {
    var db' := Postpone(db, site, next);
    assert forall id :: id in db.scans ==> Accounted(db, id);
    forall other | other in db'.sites
      ensures Mirrored(db', other)
    {
      assert Mirrored(db, other);
    }
    hide HasActive, Charged, Refunded, Unused;
  }

  lemma OnlyBooksKeeps(db: Db, books: Books)
    requires Formed(db) && OneActive(db) && AllAccounted(db) && AllMirrored(db) && books.ledger == db.books.ledger
    ensures var db' := db.(books := books); Formed(db') && OneActive(db') && AllAccounted(db') && AllMirrored(db')
  {
    var db' := db.(books := books);
    assert forall id :: id in db.scans ==> Accounted(db, id);
    forall other | other in db'.sites
      ensures Mirrored(db', other)
    {
      assert Mirrored(db, other);
    }
    hide Charged, Refunded, Unused;
  }

  lemma ScheduleKeeps(s: State, a: Action)
    requires a.Schedule? && Inv(s) && Enabled(s, a)
    ensures Inv(Apply(s, a))
  {
    var db := s.db;
    if a.due.site in db.sites {
      if HasActive(db, a.due.site) {
        PostponeKeeps(db, a.due.site, a.due.next);
      } else {
        var team := db.sites[a.due.site].team;
        var r := SpendCredit(db.books, team, ReasonSchedule, None, a.now);
        SpendEntry(db.books, team, ReasonSchedule, None, a.now);
        SpendKeepsBooks(db.books, s.meter, team, ReasonSchedule, None, a.now);
        if r.Spent? {
          AddScanKeeps(db, a.due.site, Scheduled, r.books, Entry(team, 1, ReasonSchedule, None));
          PostponeKeeps(AddScan(db, a.due.site, Scheduled).(books := r.books), a.due.site, a.due.next);
        } else {
          OnlyBooksKeeps(db, r.books);
          PostponeKeeps(db.(books := r.books), a.due.site, a.due.next);
        }
      }
    }
    hide OneActive, AllAccounted, AllMirrored, BooksInv, HasActive, SpendCredit, MeterAfterSpend, Formed;
  }

  lemma NewSiteKeeps(db: Db, site: SiteId, team: Team)
    requires Formed(db) && OneActive(db) && AllAccounted(db) && AllMirrored(db) && site !in db.sites
    ensures var db' := db.(sites := db.sites[site := Site(team, Never, None, None, None)]);
            Formed(db') && OneActive(db') && AllAccounted(db') && AllMirrored(db')
  {
    var db' := db.(sites := db.sites[site := Site(team, Never, None, None, None)]);
    assert forall id :: id in db.scans ==> Accounted(db, id);
    forall other | other in db'.sites
      ensures Mirrored(db', other)
    {
      assert other != site ==> Mirrored(db, other);
    }
    hide Charged, Refunded, Unused;
  }

  lemma OnboardKeeps(s: State, a: Action)
    requires a.Onboard? && Inv(s) && Allowed(s, a)
    ensures Inv(Apply(s, a))
  {
    var db1 := if a.site in s.db.sites then s.db
               else s.db.(sites := s.db.sites[a.site := Site(a.team, Never, None, None, None)]);
    if a.site !in s.db.sites {
      NewSiteKeeps(s.db, a.site, a.team);
    }
    assert !HasActive(db1, a.site);
    SpendEntry(db1.books, a.team, ReasonScan, Some(db1.nextScan), a.now);
    var r := SpendCredit(db1.books, a.team, ReasonScan, Some(db1.nextScan), a.now);
    if r.Spent? {
      assert Unused(s.db.books.ledger, s.db.nextScan);
      SpendKeepsBooks(s.db.books, s.meter, a.team, ReasonScan, Some(s.db.nextScan), a.now);
      AddScanKeeps(db1, a.site, Manual, r.books, Entry(a.team, 1, ReasonScan, Some(db1.nextScan)));
    }
    hide OneActive, AllAccounted, AllMirrored, BooksInv, HasActive, SpendCredit, MeterAfterSpend, Unused;
  }

  // ----- a scan changes status

  lemma StatusKeepsOneActive(db: Db, scan: ScanId, status: Status)
    requires Formed(db) && OneActive(db) && scan in db.scans
    requires IsActive(status) ==> IsActive(db.scans[scan].status)
    ensures OneActive(SetStatus(db, scan, status))
    ensures StaysClosed(db, SetStatus(db, scan, status)) <==> (db.scans[scan].status.Canceled? ==> status.Canceled?)
  {
    var db' := SetStatus(db, scan, status);
    assert db'.scans[scan].status == status;
  }

  /** Everything but the canceled flag survives; the new copy on the site agrees by construction. */
  lemma StatusKeepsMirrors(db: Db, scan: ScanId, status: Status)
    requires Formed(db) && AllMirrored(db) && scan in db.scans
    ensures AllMirrored(WithCache(SetStatus(db, scan, status), db.scans[scan].site, scan, status))
  {
    var site := db.scans[scan].site;
    var db' := WithCache(SetStatus(db, scan, status), site, scan, status);
    forall other | other in db'.sites
      ensures Mirrored(db', other)
    {
      assert Mirrored(db, other);
    }
  }

  lemma StartKeepsMirrors(db: Db, scan: ScanId)
    requires Formed(db) && AllMirrored(db) && scan in db.scans && IsActive(db.scans[scan].status)
    ensures AllMirrored(StartScan(db, scan))
  {
    forall other | other in db.sites
      ensures Mirrored(StartScan(db, scan), other)
    {
      assert Mirrored(db, other);
    }
  }

  lemma StartKeeps(s: State, a: Action)
    requires a.Start? && Inv(s) && Allowed(s, a)
    ensures Inv(Apply(s, a))
  {
    var db, db' := s.db, StartScan(s.db, a.scan);
    StatusKeepsOneActive(db, a.scan, Running);
    StartKeepsMirrors(db, a.scan);
    forall id | id in db'.scans
      ensures Accounted(db', id)
    {
      assert Accounted(db, id);
    }
    hide OneActive, AllMirrored, BooksInv, Charged, Refunded, Unused;
  }

  lemma FinishKeeps(s: State, a: Action)
    requires a.Finish? && Inv(s) && Enabled(s, a)
    ensures Inv(Apply(s, a))
  {
    var db := s.db;
    hide AllMirrored, BooksInv, Charged, Refunded, Unused;
    if a.scan in db.scans && !db.scans[a.scan].status.Canceled? {
      var db' := FinishScan(db, a.scan, a.outcome).value;
      StatusKeepsOneActive(db, a.scan, a.outcome);
      StatusKeepsMirrors(db, a.scan, a.outcome);
      assert OneActive(db');
      forall id | id in db'.scans
        ensures Accounted(db', id)
      {
        assert Accounted(db, id);
      }
    }
  }

  lemma RefundEntry(db: Db, scan: ScanId)
    requires Formed(db) && scan in db.scans && Accounted(db, scan) && !db.scans[scan].status.Canceled?
    ensures var team := db.sites[db.scans[scan].site].team;
            RefundCredit(db.books, team, scan).ledger
              == if db.scans[scan].trigger.Scheduled? then db.books.ledger
                 else db.books.ledger + [Entry(team, -1, ReasonCancel, Some(scan))]
  {
  }

  lemma CancelAccounts(db: Db, db': Db, scan: ScanId, id: ScanId)
    requires Formed(db) && AllAccounted(db) && Formed(db') && scan in db.scans && id in db.scans
    requires IsActive(db.scans[scan].status)
    requires CancelScan(db, db.sites[db.scans[scan].site].team, scan) == CancelDone(db')
    ensures Accounted(db', id)
  {
    var team := db.sites[db.scans[scan].site].team;
    var e := Entry(team, -1, ReasonCancel, Some(scan));
    var ledger := db.books.ledger;
    assert Accounted(db, scan) && Accounted(db, id);
    RefundEntry(db, scan);
    assert (ledger + [e])[|ledger|] == e;
    if id != scan {
      OtherEntry(ledger, e, db.sites[db.scans[id].site].team, id);
    } else if !db.scans[scan].trigger.Scheduled? {
      assert IsRefund((ledger + [e])[|ledger|], team, scan);
      var k :| 0 <= k < |ledger| && IsCharge(ledger[k], team, scan);
      assert IsCharge((ledger + [e])[k], team, scan);
    }
    hide RefundCredit, Formed, AllAccounted;
  }

  lemma CancelForms(db: Db, db': Db, scan: ScanId)
    requires Formed(db) && OneActive(db) && AllMirrored(db) && AllAccounted(db) && scan in db.scans
    requires IsActive(db.scans[scan].status)
    requires CancelScan(db, db.sites[db.scans[scan].site].team, scan) == CancelDone(db')
    ensures Formed(db') && OneActive(db') && AllMirrored(db')
  {
    assert Accounted(db, scan);
    RefundEntry(db, scan);
    StatusKeepsOneActive(db, scan, Status.Canceled);
    var cached := WithCache(SetStatus(db, scan, Status.Canceled), db.scans[scan].site, scan, Status.Canceled);
    StatusKeepsMirrors(db, scan, Status.Canceled);
    hide RefundCredit, AllAccounted, Charged, Refunded, Unused;
    forall other | other in db'.sites
      ensures Mirrored(db', other)
    {
      assert Mirrored(cached, other);
    }
  }

  lemma CancelKeeps(s: State, a: Action)
    requires a.Cancel? && Inv(s) && Enabled(s, a)
    ensures Inv(Apply(s, a))
  {
    var r := CancelScan(s.db, a.team, a.scan);
    RefundKeepsBooks(s.db.books, s.meter, a.team, a.scan);
    hide BooksInv, RefundCredit, OneActive, AllMirrored;
    if r.CancelDone? {
      CancelForms(s.db, r.db, a.scan);
      forall id | id in r.db.scans
        ensures Accounted(r.db, id)
      {
        CancelAccounts(s.db, r.db, a.scan, id);
      }
    }
  }

  // ----- every step

  lemma SiteOnlyKeeps(s: State, a: Action)
    requires Inv(s) && Enabled(s, a) && (a.AddSite? || a.SetSchedule? || a.Load?)
    ensures Inv(Apply(s, a))
  {
    hide BooksInv;
    if a.AddSite? {
      NewSiteKeeps(s.db, a.site, a.team);
    } else if a.SetSchedule? {
      var db := s.db.(sites := s.db.sites[a.site := s.db.sites[a.site].(frequency := a.frequency)]);
      var db' := Apply(s, a).db;
      forall id | id in db'.scans
        ensures Accounted(db', id)
      {
        assert Accounted(s.db, id);
      }
      forall other | other in db'.sites
        ensures Mirrored(db', other)
      {
        assert Mirrored(s.db, other);
      }
    }
  }

  lemma BillingKeeps(s: State, a: Action)
    requires a.Billing? && Inv(s) && Enabled(s, a)
    ensures Inv(Apply(s, a))
  {
    var books := s.db.books.(subs := s.db.books.subs[a.team := a.sub]);
    BillingKeepsBooks(s.db.books, books, s.meter, a.team);
    OnlyBooksKeeps(s.db, books);
    hide BooksInv, OneActive, AllAccounted, AllMirrored;
  }

  lemma SignUpKeeps(s: State, a: Action)
    requires a.SignUp? && Inv(s) && Enabled(s, a)
    ensures Inv(Apply(s, a))
  {
    EnsureKeepsBooks(s.db.books, s.meter, a.team, a.now);
    OnlyBooksKeeps(s.db, Ensured(s.db.books, a.team, a.now));
    hide BooksInv, OneActive, AllAccounted, AllMirrored, MeterAfterEnsure;
  }

  lemma StepKeeps(s: State, a: Action)
    requires Inv(s) && Allowed(s, a)
    ensures Inv(Apply(s, a))
  {
    hide Inv, Apply;
    match a
    case SignUp(_, _) => SignUpKeeps(s, a);
    case Create(_, _, _, _) => CreateKeeps(s, a);
    case Schedule(_, _) => ScheduleKeeps(s, a);
    case Onboard(_, _, _) => OnboardKeeps(s, a);
    case Cancel(_, _) => CancelKeeps(s, a);
    case Start(_) => StartKeeps(s, a);
    case Finish(_, _) => FinishKeeps(s, a);
    case Billing(_, _) => BillingKeeps(s, a);
    case _ => SiteOnlyKeeps(s, a);
  }
}
