/** What each transaction on a scan does to the database, and to nothing else. */
module ScanEffects {
  import opened Options
  import opened Subscriptions
  import opened Credits
  import opened ScanLifecycle

  /** A scan of the site is queued or running. */
  ghost predicate Busy(db: Db, site: SiteId) {
    exists id :: id in db.scans && db.scans[id].site == site && (db.scans[id].status == Queued || db.scans[id].status == Running)
  }

  lemma BusyIsActive(db: Db, site: SiteId)
    ensures HasActive(db, site) <==> Busy(db, site)
  {
    if id :| id in db.scans && db.scans[id].site == site && IsActive(db.scans[id].status) {
      assert db.scans[id].status == Queued || db.scans[id].status == Running;
    }
    if id :| id in db.scans && db.scans[id].site == site && (db.scans[id].status == Queued || db.scans[id].status == Running) {
      assert IsActive(db.scans[id].status);
    }
  }

  /** A new queued scan with a fresh id, named on its site. */
  function WithNewScan(db: Db, site: SiteId, trigger: Trigger, books: Books): Db
    requires site in db.sites
  {
    Db(db.sites[site := db.sites[site].(lastScan := Some(db.nextScan), lastStatus := Some(Queued))],
       db.scans[db.nextScan := Scan(site, Queued, trigger)], db.nextScan + 1, books)
  }

  /** A scan is created for a site of the team that is not busy, if its credit can be spent; the errors have this order. */
  lemma CreateIsExact(db: Db, team: Team, site: SiteId, trigger: Trigger, now: Time)
    ensures var spent := SpendCredit(db.books, team, ReasonScan, Some(db.nextScan), now);
            CreateManualScan(db, team, site, trigger, now) ==
              if site !in db.sites || db.sites[site].team != team then NotCreated(SiteNotFound)
              else if Busy(db, site) then NotCreated(Overlap)
              else if spent.Limited? then NotCreated(OutOfCredit)
              else Created(WithNewScan(db, site, trigger, spent.books), db.nextScan)
  {
    BusyIsActive(db, site);
    hide HasActive, SpendCredit;
  }

  /** A due site gets its next time whatever happens, and a scheduled scan if it is not busy and its credit can be spent. */
  lemma ScheduleIsExact(db: Db, due: Due, now: Time)
    requires due.site in db.sites
    ensures var spent := SpendCredit(db.books, db.sites[due.site].team, ReasonSchedule, None, now);
            var later := db.(sites := db.sites[due.site := db.sites[due.site].(nextScanAt := due.next)]);
            ScheduleSite(db, due, now) ==
              if Busy(db, due.site) then later
              else if spent.Limited? then later.(books := spent.books)
              else WithNewScan(later, due.site, Scheduled, spent.books)
  {
    BusyIsActive(db, due.site);
    hide HasActive, SpendCredit;
  }

  /** The onboarding scan: the site is added when it is new, and nothing happens without a credit. */
  lemma OnboardIsExact(db: Db, team: Team, site: SiteId, now: Time)
    ensures var spent := SpendCredit(db.books, team, ReasonScan, Some(db.nextScan), now);
            var sites := if site in db.sites then db.sites else db.sites[site := Site(team, Never, None, None, None)];
            OnboardSite(db, team, site, now) ==
              if spent.Limited? then db else WithNewScan(db.(sites := sites), site, Manual, spent.books)
  {
    hide SpendCredit;
  }

  /** A cancellation is for a queued or running scan of a site of the team; it is refunded and shown on the site. */
  lemma CancelIsExact(db: Db, team: Team, scan: ScanId)
    ensures CancelScan(db, team, scan) ==
              if scan !in db.scans || db.scans[scan].site !in db.sites || db.sites[db.scans[scan].site].team != team then
                NotCanceled(ScanNotFound)
              else if db.scans[scan].status != Queued && db.scans[scan].status != Running then NotCanceled(NotCancelable)
              else
                var site := db.scans[scan].site;
                CancelDone(Db(
                  db.sites[site := db.sites[site].(lastScan := Some(scan), lastStatus := Some(Status.Canceled))],
                  db.scans[scan := db.scans[scan].(status := Status.Canceled)], db.nextScan,
                  RefundCredit(db.books, team, scan)))
  {
    hide RefundCredit;
  }

  /** A scan that is there and not canceled ends with the outcome it is given, and its site shows that. */
  lemma FinishIsExact(db: Db, scan: ScanId, outcome: Status)
    ensures FinishScan(db, scan, outcome) ==
              if scan !in db.scans then None
              else if db.scans[scan].status == Status.Canceled then Some(db)
              else
                var site := db.scans[scan].site;
                Some(Db(
                  if site in db.sites then db.sites[site := db.sites[site].(lastScan := Some(scan), lastStatus := Some(outcome))]
                  else db.sites,
                  db.scans[scan := db.scans[scan].(status := outcome)], db.nextScan, db.books))
  {
  }

  /** The start writes `running` to a scan that is there, whatever its status, and leaves the site. */
  lemma StartIsExact(db: Db, scan: ScanId)
    ensures StartScan(db, scan) ==
              if scan in db.scans then db.(scans := db.scans[scan := db.scans[scan].(status := Running)]) else db
  {
  }
}
