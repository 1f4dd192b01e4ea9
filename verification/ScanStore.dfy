/** The transactions on scans as the code runs them, statement by statement. */
module ScanStore {
  import opened Options
  import opened Subscriptions
  import opened Credits
  import opened ScanLifecycle

  /** `computeNextScanAt` is not part of this model. */
  type NextScan = (Frequency, Time, Time) -> Time

  // ----- one poll round of the scheduler

  predicate IsDue(site: Site, now: Time) {
    site.frequency != Never && site.nextScanAt.Some? && site.nextScanAt.value <= now
  }

  /** A site the selection sees: due, and not locked by another round. */
  predicate IsOpen(db: Db, site: SiteId, now: Time, locked: set<SiteId>) {
    site in db.sites && site !in locked && IsDue(db.sites[site], now)
  }

  /** When the next scan of an open site was due. */
  function DueAt(db: Db, site: SiteId): Time {
    if site in db.sites && db.sites[site].nextScanAt.Some? then db.sites[site].nextScanAt.value else 0
  }

  /** `order by next_scan_at`, ahead of every site of the pool. */
  ghost predicate Ranked(db: Db, due: seq<SiteId>, pool: set<SiteId>) {
    && (forall i, j :: 0 <= i < j < |due| ==> due[i] != due[j] && DueAt(db, due[i]) <= DueAt(db, due[j]))
    && (forall i, site :: 0 <= i < |due| && site in pool ==> due[i] != site && DueAt(db, due[i]) <= DueAt(db, site))
  }

  /** `order by next_scan_at limit 50 for update skip locked`. */
  ghost predicate SelectedSites(db: Db, now: Time, locked: set<SiteId>, due: seq<SiteId>) {
    && |due| <= 50
    && (forall i :: 0 <= i < |due| ==> IsOpen(db, due[i], now, locked))
    && (forall i, j :: 0 <= i < j < |due| ==> due[i] != due[j] && DueAt(db, due[i]) <= DueAt(db, due[j]))
    && (forall site :: IsOpen(db, site, now, locked) && site !in due ==>
          |due| == 50 && forall i :: 0 <= i < 50 ==> DueAt(db, due[i]) <= DueAt(db, site))
  }

  lemma RankedNext(db: Db, due: seq<SiteId>, pool: set<SiteId>, site: SiteId)
    requires Ranked(db, due, pool) && site in pool && forall other :: other in pool ==> DueAt(db, site) <= DueAt(db, other)
    ensures Ranked(db, due + [site], pool - {site})
  {
  }

  function Dues(db: Db, sites: seq<SiteId>, now: Time, computeNext: NextScan): (due: seq<Due>)
    requires forall i :: 0 <= i < |sites| ==> sites[i] in db.sites && db.sites[sites[i]].nextScanAt.Some?
  {
    seq(|sites|, i requires 0 <= i < |sites| =>
      Due(sites[i], Some(computeNext(db.sites[sites[i]].frequency, db.sites[sites[i]].nextScanAt.value, now))))
  }

  datatype Round = Round(started: seq<SiteId>, creditSkipped: seq<SiteId>, queued: seq<ScanId>)

  function RoundOf(db: Db, due: seq<Due>, now: Time): Round
    decreases |due|
  {
    if due == [] then Round([], [], [])
    else
      var before := RoundOf(db, due[..|due| - 1], now);
      var db1, d := ScheduleAll(db, due[..|due| - 1], now), due[|due| - 1];
      if d.site !in db1.sites || HasActive(db1, d.site) then before
      else if SpendCredit(db1.books, db1.sites[d.site].team, ReasonSchedule, None, now).Limited? then
        before.(creditSkipped := before.creditSkipped + [d.site])
      else before.(started := before.started + [d.site], queued := before.queued + [db1.nextScan])
  }

  // ----- the code

  class ScanStore {
    var sites: map<SiteId, Site>
    var scans: map<ScanId, Scan>
    var nextScan: ScanId
    const credits: CreditStore

    function View(): Db
      reads this, credits
    {
      Db(sites, scans, nextScan, credits.View())
    }

    constructor (db: Db, credits: CreditStore)
      requires credits.View() == db.books
      ensures View() == db && this.credits == credits
    {
      this.sites, this.scans, this.nextScan, this.credits := db.sites, db.scans, db.nextScan, credits;
    }

    method SetSiteScanState(site: SiteId, scan: ScanId, status: Status)
      modifies this
      ensures View() == WithCache(old(View()), site, scan, status)
    {
      if site in sites {
        sites := sites[site := sites[site].(lastScan := Some(scan), lastStatus := Some(status))];
      }
    }

    /** `insert into scans ... returning id` followed by the copy on the site. */
    method InsertScan(site: SiteId, trigger: Trigger) returns (scan: ScanId)
      modifies this
      ensures scan == old(nextScan) && View() == AddScan(old(View()), site, trigger)
    {
      scan := nextScan;
      scans := scans[scan := Scan(site, Queued, trigger)];
      nextScan := nextScan + 1;
      SetSiteScanState(site, scan, Queued);
    }

    /** An error leaves no trace: not the scan, not the copy on the site, not the subscription row. */
    method CreateManualScan(team: Team, site: SiteId, trigger: Trigger, now: Time) returns (r: CreateResult)
      modifies this, credits
      ensures r == ScanLifecycle.CreateManualScan(old(View()), team, site, trigger, now)
      ensures View() == if r.Created? then r.db else old(View())
    {
      var begin := View();
      if site !in sites || sites[site].team != team {
        return NotCreated(SiteNotFound);
      }
      if HasActive(View(), site) {
        return NotCreated(Overlap);
      }
      var scan := InsertScan(site, trigger);
      var spent := credits.Spend(team, ReasonScan, Some(scan), now);
      if spent.Limited? {
        sites, scans, nextScan := begin.sites, begin.scans, begin.nextScan;
        credits.Restore(begin.books);
        return NotCreated(OutOfCredit);
      }
      r := Created(View(), scan);
    }

    method CancelScan(team: Team, scan: ScanId) returns (r: CancelResult)
      modifies this, credits
      ensures r == ScanLifecycle.CancelScan(old(View()), team, scan)
      ensures View() == if r.CancelDone? then r.db else old(View())
    {
      if scan !in scans || scans[scan].site !in sites || sites[scans[scan].site].team != team {
        return NotCanceled(ScanNotFound);
      }
      if scans[scan].status != Queued && scans[scan].status != Running {
        return NotCanceled(NotCancelable);
      }
      var site := scans[scan].site;
      scans := scans[scan := scans[scan].(status := Status.Canceled)];
      SetSiteScanState(site, scan, Status.Canceled);
      var _ := credits.Refund(team, scan);
      r := CancelDone(View());
    }

    method FinishScan(scan: ScanId, outcome: Status) returns (found: bool)
      requires IsOutcome(outcome)
      modifies this
      ensures found <==> ScanLifecycle.FinishScan(old(View()), scan, outcome).Some?
      ensures View() == if found then ScanLifecycle.FinishScan(old(View()), scan, outcome).value else old(View())
    {
      if scan !in scans {
        return false;
      }
      if scans[scan].status == Status.Canceled {
        return true;
      }
      scans := scans[scan := scans[scan].(status := outcome)];
      SetSiteScanState(scans[scan].site, scan, outcome);
      found := true;
    }

    method WriteProgressSkeleton(scan: ScanId)
      modifies this
      ensures View() == StartScan(old(View()), scan)
    {
      if scan in scans {
        scans := scans[scan := scans[scan].(status := Running)];
      }
    }

    method SetNextScanAt(site: SiteId, next: Time)
      requires site in sites
      modifies this
      ensures View() == Postpone(old(View()), site, Some(next))
    {
      sites := sites[site := sites[site].(nextScanAt := Some(next))];
    }

    /** One site of the batch. */
    method ProcessSite(site: SiteId, next: Time, now: Time) returns (started: bool, skipped: bool, scan: ScanId)
      requires site in sites
      modifies this, credits
      ensures View() == ScheduleSite(old(View()), Due(site, Some(next)), now)
      ensures var free := !HasActive(old(View()), site);
              var spent := SpendCredit(old(View()).books, old(sites)[site].team, ReasonSchedule, None, now).Spent?;
              (started <==> free && spent) && (skipped <==> free && !spent)
      ensures started ==> scan == old(nextScan)
    {
      started, skipped, scan := false, false, 0;
      if HasActive(View(), site) {
        SetNextScanAt(site, next);
        return;
      }
      var spent := credits.Spend(sites[site].team, ReasonSchedule, None, now);
      if spent.Limited? {
        SetNextScanAt(site, next);
        skipped := true;
        return;
      }
      scan := InsertScan(site, Scheduled);
      SetNextScanAt(site, next);
      started := true;
    }

    /** The site of a non-empty set that has been due longest. */
    method Earliest(pool: set<SiteId>) returns (site: SiteId)
      requires pool != {}
      ensures site in pool && forall other :: other in pool ==> DueAt(View(), site) <= DueAt(View(), other)
    {
      site :| site in pool;
      var rest := pool - {site};
      while rest != {}
        invariant rest <= pool && site in pool
        invariant forall other :: other in pool - rest ==> DueAt(View(), site) <= DueAt(View(), other)
        decreases rest
      {
        var other :| other in rest;
        if DueAt(View(), other) < DueAt(View(), site) {
          site := other;
        }
        rest := rest - {other};
      }
    }

    method SelectDueSites(now: Time, locked: set<SiteId>) returns (due: seq<SiteId>)
      ensures SelectedSites(View(), now, locked, due)
    {
      due := [];
      var pool := set site | site in sites && IsOpen(View(), site, now, locked);
      ghost var all := pool;
      assert forall site :: site in all <==> IsOpen(View(), site, now, locked);
      while pool != {} && |due| < 50
        invariant |due| <= 50 && Ranked(View(), due, pool)
        invariant forall site :: site in all <==> site in pool || site in due
        decreases pool
      {
        var site := Earliest(pool);
        RankedNext(View(), due, pool, site);
        due := due + [site];
        pool := pool - {site};
      }
      hide IsOpen, DueAt;
    }

    /** The batch transaction of `processDueSites`: the sites it selects, each with its statements. */
    method ProcessDueSites(now: Time, locked: set<SiteId>, computeNext: NextScan) returns (due: seq<SiteId>, r: Round)
      modifies this, credits
      ensures SelectedSites(old(View()), now, locked, due)
      ensures View() == ScheduleAll(old(View()), Dues(old(View()), due, now, computeNext), now)
      ensures r == RoundOf(old(View()), Dues(old(View()), due, now, computeNext), now)
    {
      due := SelectDueSites(now, locked);
      r := ProcessAll(due, now, computeNext);
    }

    /** The loop over the batch. */
    method ProcessAll(due: seq<SiteId>, now: Time, computeNext: NextScan) returns (r: Round)
      requires forall i :: 0 <= i < |due| ==> due[i] in sites && sites[due[i]].nextScanAt.Some?
      requires forall i, j :: 0 <= i < j < |due| ==> due[i] != due[j]
      modifies this, credits
      ensures View() == ScheduleAll(old(View()), Dues(old(View()), due, now, computeNext), now)
      ensures r == RoundOf(old(View()), Dues(old(View()), due, now, computeNext), now)
    {
      hide HasActive, SpendCredit, ScheduleSite, CreditStore.View;
      ghost var db0 := View();
      ghost var dues := Dues(db0, due, now, computeNext);
      r := Round([], [], []);
      for i := 0 to |due|
        invariant View() == ScheduleAll(db0, dues[..i], now)
        invariant r == RoundOf(db0, dues[..i], now)
        invariant sites.Keys == db0.sites.Keys
        invariant forall k :: i <= k < |due| ==> sites[due[k]] == db0.sites[due[k]]
      {
        ghost var before := View();
        var site := due[i];
        var next := computeNext(sites[site].frequency, sites[site].nextScanAt.value, now);
        assert dues[i] == Due(site, Some(next));
        assert dues[..i + 1][..i] == dues[..i];
        var started, skipped, scan := ProcessSite(site, next, now);
        ScheduleSiteFrame(before, dues[i], now);
        if skipped {
          r := r.(creditSkipped := r.creditSkipped + [site]);
        } else if started {
          r := r.(started := r.started + [site], queued := r.queued + [scan]);
        }
      }
      assert dues[..|due|] == dues;
    }
  }

  /** A due site's transaction touches no other site and no scan that exists. */
  lemma ScheduleSiteFrame(db: Db, due: Due, now: Time)
    ensures var db' := ScheduleSite(db, due, now);
            && db'.sites.Keys == db.sites.Keys
            && (forall site :: site in db.sites && site != due.site ==> db'.sites[site] == db.sites[site])
            && (forall id :: id in db.scans && id != db.nextScan ==> id in db'.scans && db'.scans[id] == db.scans[id])
  {
    hide HasActive, SpendCredit;
  }

  // ----- what a round achieves

  /** The batch is a sequence of scheduling steps, so it keeps what they keep. */
  lemma {:induction false} BatchKeeps(s: State, due: seq<Due>, now: Time) returns (meter: Meter)
    requires Inv(s)
    ensures Inv(State(ScheduleAll(s.db, due, now), meter, s.jobs))
    decreases |due|
  {
    if due == [] {
      meter := s.meter;
    } else {
      var m := BatchKeeps(s, due[..|due| - 1], now);
      var mid := State(ScheduleAll(s.db, due[..|due| - 1], now), m, s.jobs);
      var a := Schedule(due[|due| - 1], now);
      ScheduleKeeps(mid, a);
      meter := Apply(mid, a).meter;
      ScheduleStep(mid, a);
    }
  }

  lemma ScheduleStep(s: State, a: Action)
    requires a.Schedule?
    ensures Apply(s, a) == State(ScheduleSite(s.db, a.due, a.now), Apply(s, a).meter, s.jobs)
  {
    hide HasActive, ScheduleSite;
  }

  ghost predicate OneEach(db: Db, due: seq<Due>) {
    && (forall i :: 0 <= i < |due| ==> due[i].site in db.sites)
    && (forall i, j :: 0 <= i < j < |due| ==> due[i].site != due[j].site)
  }

  /** Every due site gets its next time, whatever happened to it, and no other site moves. */
  lemma {:induction false} RoundPostpones(db: Db, due: seq<Due>, now: Time)
    requires OneEach(db, due)
    ensures var db' := ScheduleAll(db, due, now);
            && db'.sites.Keys == db.sites.Keys
            && (forall i :: 0 <= i < |due| ==> db'.sites[due[i].site].nextScanAt == due[i].next)
            && (forall site :: site in db.sites && (forall i :: 0 <= i < |due| ==> due[i].site != site) ==>
                  db'.sites[site] == db.sites[site])
    decreases |due|
  {
    if due != [] {
      var last := |due| - 1;
      var rest := due[..last];
      RoundPostpones(db, rest, now);
      var mid := ScheduleAll(db, rest, now);
      ScheduleSiteFrame(mid, due[last], now);
      ScheduleSiteAdds(mid, due[last], now);
      var db' := ScheduleSite(mid, due[last], now);
      assert ScheduleAll(db, due, now) == db';
      hide *;
      forall i | 0 <= i < |due|
        ensures db'.sites[due[i].site].nextScanAt == due[i].next
      {
        assert i < last ==> rest[i] == due[i] && due[i].site != due[last].site;
      }
      forall site | site in db.sites && (forall i :: 0 <= i < |due| ==> due[i].site != site)
        ensures db'.sites[site] == db.sites[site]
      {
        assert site != due[last].site;
        assert forall i :: 0 <= i < |rest| ==> rest[i] == due[i];
      }
    }
  }

  /** What a round reports adds up. */
  lemma {:induction false} RoundCounts(db: Db, due: seq<Due>, now: Time)
    requires OneEach(db, due)
    ensures var r := RoundOf(db, due, now);
            && |r.queued| == |r.started| && |r.started| + |r.creditSkipped| <= |due|
            && ScheduleAll(db, due, now).nextScan == db.nextScan + |r.queued|
    decreases |due|
  {
    if due != [] {
      var last := |due| - 1;
      RoundCounts(db, due[..last], now);
      RoundPostpones(db, due[..last], now);
      ScheduleSiteAdds(ScheduleAll(db, due[..last], now), due[last], now);
      hide ScheduleSite, HasActive, SpendCredit;
    }
  }

  /** After its turn a site is due again from its next time on, unless it is never scanned or another round has it. */
  lemma PostponedIsDueAgain(db: Db, due: Due, now: Time, t: Time, locked: set<SiteId>)
    requires due.site in db.sites && due.next.Some?
    ensures IsOpen(ScheduleSite(db, due, now), due.site, t, locked) <==>
              due.site !in locked && t >= due.next.value
              && (db.sites[due.site].frequency == Daily || db.sites[due.site].frequency == Weekly)
  {
    hide HasActive, SpendCredit;
  }

  /** What the turn of a site reports: started or skipped, by its credit, and neither when it is busy. */
  predicate Reported(db: Db, due: Due, now: Time, started: bool, skipped: bool)
    requires due.site in db.sites
  {
    var granted := SpendCredit(db.books, db.sites[due.site].team, ReasonSchedule, None, now).Spent?;
    && (started <==> !HasActive(db, due.site) && granted)
    && (skipped <==> !HasActive(db, due.site) && !granted)
  }

  /** Every due site is reported by what happened at its turn. */
  lemma {:induction false} RoundReports(db: Db, due: seq<Due>, now: Time, i: nat)
    requires OneEach(db, due) && i < |due|
    ensures var r, turn := RoundOf(db, due, now), ScheduleAll(db, due[..i], now);
            && due[i].site in turn.sites
            && Reported(turn, due[i], now, due[i].site in r.started, due[i].site in r.creditSkipped)
    decreases |due|
  {
    var last := |due| - 1;
    var rest := due[..last];
    assert rest[..i] == due[..i] && (i < last ==> rest[i] == due[i] && due[i].site != due[last].site);
    TurnOf(db, due, now, i);
    TurnOf(db, due, now, last);
    LastIsNew(db, due, now);
    OneMoreReport(db, due, now);
    if i < last {
      RoundReports(db, rest, now, i);
    }
    hide *;
  }

  lemma TurnOf(db: Db, due: seq<Due>, now: Time, i: nat)
    requires OneEach(db, due) && i < |due|
    ensures OneEach(db, due[..i]) && due[i].site in ScheduleAll(db, due[..i], now).sites
  {
    RoundPostpones(db, due[..i], now);
    hide ScheduleAll;
  }

  lemma LastIsNew(db: Db, due: seq<Due>, now: Time)
    requires OneEach(db, due) && due != []
    ensures var r, site := RoundOf(db, due[..|due| - 1], now), due[|due| - 1].site;
            site !in r.started && site !in r.creditSkipped
  {
    var rest, site := due[..|due| - 1], due[|due| - 1].site;
    var r := RoundOf(db, rest, now);
    if site in r.started || site in r.creditSkipped {
      var j := ReportIsDue(db, rest, now, site);
    }
    hide RoundOf;
  }

  lemma OneMoreReport(db: Db, due: seq<Due>, now: Time)
    requires due != []
    requires due[|due| - 1].site in ScheduleAll(db, due[..|due| - 1], now).sites
    ensures var r, before := RoundOf(db, due, now), RoundOf(db, due[..|due| - 1], now);
            var turn, d := ScheduleAll(db, due[..|due| - 1], now), due[|due| - 1];
            && (forall site :: site != d.site ==> (site in r.started <==> site in before.started)
                                                  && (site in r.creditSkipped <==> site in before.creditSkipped))
            && (d.site !in before.started && d.site !in before.creditSkipped ==>
                  Reported(turn, d, now, d.site in r.started, d.site in r.creditSkipped))
  {
    hide SpendCredit, HasActive, ScheduleSite;
  }

  /** Only due sites are reported. */
  lemma {:induction false} ReportIsDue(db: Db, due: seq<Due>, now: Time, site: SiteId) returns (j: nat)
    requires site in RoundOf(db, due, now).started || site in RoundOf(db, due, now).creditSkipped
    ensures j < |due| && due[j].site == site
    decreases |due|
  {
    var last := |due| - 1;
    if due[last].site == site {
      return last;
    }
    hide SpendCredit, HasActive, ScheduleSite, ScheduleAll;
    j := ReportIsDue(db, due[..last], now, site);
  }

  /** The scans of a round are new, queued, scheduled, and one per started site; the others are as before. */
  ghost predicate QueuedExactly(db: Db, db': Db, r: Round) {
    && |r.queued| == |r.started| && db'.nextScan == db.nextScan + |r.queued|
    && (forall id :: id in db'.scans ==> id in db.scans || db.nextScan <= id < db'.nextScan)
    && (forall id :: id in db.scans ==> id in db'.scans && db'.scans[id] == db.scans[id])
    && (forall k :: 0 <= k < |r.queued| ==>
          && r.queued[k] == db.nextScan + k && r.queued[k] in db'.scans
          && db'.scans[r.queued[k]] == Scan(r.started[k], Queued, Scheduled))
  }

  lemma OneMoreQueued(db: Db, mid: Db, after: Db, r: Round, site: SiteId)
    requires Formed(db) && QueuedExactly(db, mid, r)
    requires after.nextScan == mid.nextScan + 1 && after.scans == mid.scans[mid.nextScan := Scan(site, Queued, Scheduled)]
    ensures QueuedExactly(db, after, r.(started := r.started + [site], queued := r.queued + [mid.nextScan]))
  {
  }

  lemma {:induction false} RoundQueues(db: Db, due: seq<Due>, now: Time)
    requires Formed(db) && OneEach(db, due)
    ensures QueuedExactly(db, ScheduleAll(db, due, now), RoundOf(db, due, now))
    decreases |due|
  {
    if due == [] {
    } else {
      hide ScheduleSite, HasActive, SpendCredit, QueuedExactly, Formed;
      var last := |due| - 1;
      RoundQueues(db, due[..last], now);
      RoundPostpones(db, due[..last], now);
      var mid := ScheduleAll(db, due[..last], now);
      ScheduleSiteAdds(mid, due[last], now);
      var after := ScheduleSite(mid, due[last], now);
      if after.nextScan == mid.nextScan {
        SameQueued(db, mid, after, RoundOf(db, due[..last], now));
      } else {
        OneMoreQueued(db, mid, after, RoundOf(db, due[..last], now), due[last].site);
      }
    }
  }

  lemma SameQueued(db: Db, mid: Db, after: Db, r: Round)
    requires QueuedExactly(db, mid, r) && after.nextScan == mid.nextScan && after.scans == mid.scans
    ensures QueuedExactly(db, after, r)
  {
  }

  lemma ScheduleSiteAdds(db: Db, due: Due, now: Time)
    requires due.site in db.sites
    ensures var db' := ScheduleSite(db, due, now);
            var started := !HasActive(db, due.site)
                           && SpendCredit(db.books, db.sites[due.site].team, ReasonSchedule, None, now).Spent?;
            && db'.sites[due.site].nextScanAt == due.next
            && (if started then
                  db'.nextScan == db.nextScan + 1 && db'.scans == db.scans[db.nextScan := Scan(due.site, Queued, Scheduled)]
                else db'.nextScan == db.nextScan && db'.scans == db.scans)
  {
    hide HasActive, SpendCredit;
  }
}
