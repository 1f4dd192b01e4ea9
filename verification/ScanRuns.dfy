/** What holds over whole runs of scans, cancellations, schedules and credits, and where the hypotheses bite. */
module ScanRuns {
  import opened Options
  import opened Subscriptions
  import opened Credits
  import opened ScanLifecycle

  ghost predicate Run(s: State, acts: seq<Action>)
    decreases |acts|
  {
    acts != [] ==> Allowed(s, acts[0]) && Run(Apply(s, acts[0]), acts[1..])
  }

  ghost function Final(s: State, acts: seq<Action>): State
    requires Run(s, acts)
    decreases |acts|
  {
    if acts == [] then s else Final(Apply(s, acts[0]), acts[1..])
  }

  /** An empty database. */
  predicate Initial(s: State) {
    s == State(Db(map[], map[], 0, Books(map[], [])), Meter(map[], map[]), {})
  }

  lemma {:induction false} RunKeeps(s: State, acts: seq<Action>)
    requires Inv(s) && Run(s, acts)
    ensures Inv(Final(s, acts))
    decreases |acts|
  {
    if acts != [] {
      StepKeeps(s, acts[0]);
      RunKeeps(Apply(s, acts[0]), acts[1..]);
    }
  }

  /** A site never has two scans queued or running. */
  lemma OneScanPerSite(s: State, acts: seq<Action>, i: ScanId, j: ScanId)
    requires Initial(s) && Run(s, acts)
    requires var db := Final(s, acts).db;
             i in db.scans && j in db.scans && db.scans[i].site == db.scans[j].site
             && IsActive(db.scans[i].status) && IsActive(db.scans[j].status)
    ensures i == j
  {
    RunKeeps(s, acts);
  }

  // ----- canceled absorbs

  lemma StepClosed(s: State, a: Action)
    requires Inv(s) && Allowed(s, a)
    ensures StaysClosed(s.db, Apply(s, a).db)
    ensures forall id :: id in s.db.scans ==>
      id in Apply(s, a).db.scans && Apply(s, a).db.scans[id].site == s.db.scans[id].site
      && Apply(s, a).db.scans[id].trigger == s.db.scans[id].trigger
  {
    hide OneActive, AllAccounted, AllMirrored, BooksInv, SpendCredit, MeterAfterSpend, RefundCredit, HasActive;
  }

  lemma {:induction false} CanceledForever(s: State, acts: seq<Action>, id: ScanId)
    requires Inv(s) && Run(s, acts) && id in s.db.scans && s.db.scans[id].status.Canceled?
    ensures id in Final(s, acts).db.scans && Final(s, acts).db.scans[id] == s.db.scans[id]
    decreases |acts|
  {
    if acts != [] {
      StepClosed(s, acts[0]);
      StepKeeps(s, acts[0]);
      CanceledForever(Apply(s, acts[0]), acts[1..], id);
    }
  }

  // ----- a status is the last thing that happened to the scan

  /** A finish that is not held back by a cancellation. */
  predicate Finishes(s: State, a: Action, scan: ScanId) {
    a.Finish? && a.scan == scan && scan in s.db.scans && s.db.scans[scan].status != Status.Canceled
  }

  /** A cancellation by the team of the site while the scan is queued or running. */
  predicate Cancels(s: State, a: Action, scan: ScanId) {
    && a.Cancel? && a.scan == scan && scan in s.db.scans
    && s.db.scans[scan].site in s.db.sites && s.db.sites[s.db.scans[scan].site].team == a.team
    && (s.db.scans[scan].status == Queued || s.db.scans[scan].status == Running)
  }

  /** The outcome of the last finish that took effect. */
  ghost function LastFinish(s: State, acts: seq<Action>, scan: ScanId): Option<Status>
    requires Run(s, acts)
    decreases |acts|
  {
    if acts == [] then None
    else
      var later := LastFinish(Apply(s, acts[0]), acts[1..], scan);
      if later.Some? then later else if Finishes(s, acts[0], scan) then Some(acts[0].outcome) else None
  }

  ghost predicate EverCanceled(s: State, acts: seq<Action>, scan: ScanId)
    requires Run(s, acts)
    decreases |acts|
  {
    acts != [] && (Cancels(s, acts[0], scan) || EverCanceled(Apply(s, acts[0]), acts[1..], scan))
  }

  lemma StatusStep(s: State, a: Action, scan: ScanId)
    requires Inv(s) && Allowed(s, a)
    ensures var before, after := s.db.scans, Apply(s, a).db.scans;
            && (Finishes(s, a, scan) ==> scan in after && after[scan].status == a.outcome && IsOutcome(a.outcome))
            && (Cancels(s, a, scan) ==> scan in after && after[scan].status == Status.Canceled)
            && (scan in before && !Finishes(s, a, scan) && !Cancels(s, a, scan) ==>
                  scan in after && (after[scan].status == before[scan].status
                                    || (before[scan].status == Queued && after[scan].status == Running)))
            && (scan !in before && scan in after ==> after[scan].status == Queued)
  {
    hide OneActive, AllAccounted, AllMirrored, BooksInv, SpendCredit, MeterAfterSpend, MeterAfterEnsure, RefundCredit, HasActive;
  }

  lemma {:induction false} StatusHistory(s: State, acts: seq<Action>, scan: ScanId)
    requires Inv(s) && Run(s, acts)
    ensures var now := Final(s, acts).db.scans;
            && (LastFinish(s, acts, scan).Some? ==> scan in now && now[scan].status == LastFinish(s, acts, scan).value)
            && (EverCanceled(s, acts, scan) ==> scan in now && now[scan].status == Status.Canceled)
            && (scan in now && IsOutcome(now[scan].status) ==>
                  LastFinish(s, acts, scan).Some? || (scan in s.db.scans && IsOutcome(s.db.scans[scan].status)))
            && (scan in now && now[scan].status == Status.Canceled ==>
                  EverCanceled(s, acts, scan) || (scan in s.db.scans && s.db.scans[scan].status == Status.Canceled))
            && (LastFinish(s, acts, scan).None? && scan in s.db.scans && IsOutcome(s.db.scans[scan].status) ==>
                  scan in now && now[scan].status == s.db.scans[scan].status)
            && (LastFinish(s, acts, scan).Some? && scan in s.db.scans ==> s.db.scans[scan].status != Status.Canceled)
            && (scan in s.db.scans && s.db.scans[scan].status == Status.Canceled ==> scan in now && now[scan] == s.db.scans[scan])
            && (LastFinish(s, acts, scan).Some? ==> IsOutcome(LastFinish(s, acts, scan).value))
    decreases |acts|
  {
    if acts != [] {
      StatusStep(s, acts[0], scan);
      StepKeeps(s, acts[0]);
      StatusHistory(Apply(s, acts[0]), acts[1..], scan);
      if scan in s.db.scans && s.db.scans[scan].status == Status.Canceled {
        CanceledForever(s, acts, scan);
      }
    }
    hide Inv, Apply, Allowed;
  }

  /**
   Over every run a scan is completed or failed exactly when a finish took effect, with the
   outcome of the last one, and canceled exactly when a cancellation took effect.
   */
  lemma StatusIsLastWritten(s: State, acts: seq<Action>, scan: ScanId)
    requires Initial(s) && Run(s, acts) && scan in Final(s, acts).db.scans
    ensures var status := Final(s, acts).db.scans[scan].status;
            && (status == Completed <==> LastFinish(s, acts, scan) == Some(Completed))
            && (status == Failed <==> LastFinish(s, acts, scan) == Some(Failed))
            && (status == Status.Canceled <==> EverCanceled(s, acts, scan))
  {
    InitialInv(s);
    StatusHistory(s, acts, scan);
    hide Inv, Run, Final, LastFinish, EverCanceled;
  }

  // ----- one charge, one refund

  function CountFor(ledger: seq<Entry>, scan: ScanId, amount: int): nat {
    if ledger == [] then 0
    else
      var last := |ledger| - 1;
      CountFor(ledger[..last], scan, amount) + if ledger[last].scan == Some(scan) && ledger[last].amount == amount then 1 else 0
  }

  lemma {:induction false} CountIsOne(ledger: seq<Entry>, scan: ScanId, amount: int)
    requires PairsOnly(ledger)
    ensures CountFor(ledger, scan, amount) ==
      if exists k :: 0 <= k < |ledger| && ledger[k].scan == Some(scan) && ledger[k].amount == amount then 1 else 0
    decreases |ledger|
  {
    if ledger != [] {
      var last := |ledger| - 1;
      var rest := ledger[..last];
      CountIsOne(rest, scan, amount);
      assert forall k :: 0 <= k < last ==> rest[k] == ledger[k];
      if k :| 0 <= k < last && ledger[k].scan == Some(scan) && ledger[k].amount == amount {
        assert rest[k].scan == Some(scan);
      }
    }
  }

  /** Who is named on the entries of a scan. */
  lemma EntriesOfScan(ledger: seq<Entry>, team: Team, scan: ScanId)
    requires Orderly(ledger) && Charged(ledger, team, scan)
    ensures forall k :: 0 <= k < |ledger| && ledger[k].scan == Some(scan) ==>
      IsCharge(ledger[k], team, scan) || IsRefund(ledger[k], team, scan)
  {
    var c :| 0 <= c < |ledger| && IsCharge(ledger[c], team, scan);
    forall k | 0 <= k < |ledger| && ledger[k].scan == Some(scan)
      ensures IsCharge(ledger[k], team, scan) || IsRefund(ledger[k], team, scan)
    {
      assert k <= c || ledger[k].team == team;
    }
  }

  /** The ledger rows of a scan: one charge for a manual or deploy scan, one refund if and only if it is canceled. */
  lemma ChargedOnceRefundedIffCanceled(s: State, acts: seq<Action>, id: ScanId)
    requires Initial(s) && Run(s, acts) && id in Final(s, acts).db.scans
    ensures var db := Final(s, acts).db;
            var scan, ledger := db.scans[id], db.books.ledger;
            && CountFor(ledger, id, 1) == (if scan.trigger.Scheduled? then 0 else 1)
            && CountFor(ledger, id, -1) == (if scan.status.Canceled? && !scan.trigger.Scheduled? then 1 else 0)
  {
    RunKeeps(s, acts);
    var db := Final(s, acts).db;
    var ledger := db.books.ledger;
    assert Accounted(db, id);
    CountIsOne(ledger, id, 1);
    CountIsOne(ledger, id, -1);
    if !db.scans[id].trigger.Scheduled? {
      var team := db.sites[db.scans[id].site].team;
      EntriesOfScan(ledger, team, id);
      var c :| 0 <= c < |ledger| && IsCharge(ledger[c], team, id);
      assert ledger[c].scan == Some(id) && ledger[c].amount == 1;
      if db.scans[id].status.Canceled? {
        var r :| 0 <= r < |ledger| && IsRefund(ledger[r], team, id);
        assert ledger[r].scan == Some(id) && ledger[r].amount == -1;
      }
    }
    hide Orderly, PairsOnly, CountFor, OneActive, AllAccounted, AllMirrored, Conserved;
  }

  // ----- conservation of credits

  /** The counter of a team against its ledger since the last reset. */
  lemma CreditsConserved(s: State, acts: seq<Action>, team: Team)
    requires Initial(s) && Run(s, acts) && team in Final(s, acts).db.books.subs
    ensures var f := Final(s, acts);
            && team in f.meter.mark && f.meter.mark[team] <= |f.db.books.ledger|
            && var since := f.db.books.ledger[f.meter.mark[team]..];
               var used := f.db.books.subs[team].used;
               && Net(since, team) <= used <= Spends(since, team)
               && (Matched(since, team) ==> used == Net(since, team))
  {
    RunKeeps(s, acts);
    assert Conserved(Final(s, acts).db.books, Final(s, acts).meter, team);
  }

  /** No Stripe event touches the team. */
  ghost predicate Quiet(acts: seq<Action>, team: Team) {
    forall k :: 0 <= k < |acts| ==> !(acts[k].Billing? && acts[k].team == team)
  }

  ghost predicate InPeriod(s: State, team: Team) {
    team in s.db.books.subs ==> Periodic(s.db.books, s.meter, team)
  }

  predicate SamePlan(b: Books, b': Books, team: Team) {
    team in b.subs ==> team in b'.subs && b'.subs[team].plan == b.subs[team].plan
  }

  lemma StepInPeriod(s: State, a: Action, team: Team)
    requires Inv(s) && Allowed(s, a) && InPeriod(s, team) && !(a.Billing? && a.team == team)
    ensures InPeriod(Apply(s, a), team) && SamePlan(s.db.books, Apply(s, a).db.books, team)
  {
    hide Inv, SpendCredit, RefundCredit, Periodic, MeterAfterSpend, MeterAfterEnsure, HasActive, Charged, Refunded;
    match a
    case SignUp(t, now) =>
      if team in s.db.books.subs || t == team {
        EnsureOpensPeriod(s.db.books, s.meter, t, now, team);
      }
    case Create(t, _, _, now) => SpendInPeriod(s.db.books, s.meter, t, ReasonScan, Some(s.db.nextScan), now, team);
    case Onboard(t, _, now) => SpendInPeriod(s.db.books, s.meter, t, ReasonScan, Some(s.db.nextScan), now, team);
    case Schedule(due, now) =>
      if due.site in s.db.sites {
        SpendInPeriod(s.db.books, s.meter, s.db.sites[due.site].team, ReasonSchedule, None, now, team);
      }
    case Cancel(t, scan) =>
      if team in s.db.books.subs {
        RefundStaysPeriodic(s.db.books, s.meter, team, scan, t);
      }
      RefundKeys(s.db.books, t, scan);
    case Billing(t, sub) =>
      if team in s.db.books.subs {
        BillingElsewhere(s.db.books, s.meter, t, sub, team);
      }
    case _ =>
  }

  lemma SpendInPeriod(b: Books, m: Meter, spender: Team, reason: Reason, scan: Option<ScanId>, now: Time, team: Team)
    requires team in b.subs ==> Periodic(b, m, team)
    ensures var b' := SpendCredit(b, spender, reason, scan, now).books;
            && (team in b'.subs ==> Periodic(b', MeterAfterSpend(b, m, spender, now), team))
            && SamePlan(b, b', team)
  {
    if team in b.subs || spender == team {
      ResetsApart(b, m, team, reason, scan, now, spender);
    }
  }

  lemma BillingElsewhere(b: Books, m: Meter, billed: Team, sub: Sub, team: Team)
    requires Periodic(b, m, team) && billed != team
    ensures Periodic(b.(subs := b.subs[billed := sub]), MeterAfterBilling(b, m, billed), team)
  {
  }

  lemma RefundKeys(b: Books, team: Team, scan: ScanId)
    ensures RefundCredit(b, team, scan).subs.Keys == b.subs.Keys
    ensures forall t :: t in b.subs ==> RefundCredit(b, team, scan).subs[t].plan == b.subs[t].plan
  {
  }

  /** Without Stripe events a team's net spending in a period stays within its plan. */
  lemma {:induction false} NetWithinPlan(s: State, acts: seq<Action>, team: Team)
    requires Inv(s) && Run(s, acts) && Quiet(acts, team) && InPeriod(s, team)
    ensures var f := Final(s, acts);
            && InPeriod(f, team) && SamePlan(s.db.books, f.db.books, team)
            && (team in f.db.books.subs ==>
                  && Conserved(f.db.books, f.meter, team)
                  && Net(f.db.books.ledger[f.meter.mark[team]..], team) <= CreditsPerPeriod(f.db.books.subs[team].plan))
    decreases |acts|
  {
    if acts == [] {
      if team in s.db.books.subs {
        assert Conserved(s.db.books, s.meter, team);
      }
    } else {
      StepInPeriod(s, acts[0], team);
      StepKeeps(s, acts[0]);
      assert forall k :: 0 <= k < |acts[1..]| ==> acts[1..][k] == acts[k + 1];
      NetWithinPlan(Apply(s, acts[0]), acts[1..], team);
    }
    hide Inv, Periodic, Allowed, Apply, ConservedSince;
  }

  // ----- a canceled subscription

  lemma OtherSpends(b: Books, spender: Team, reason: Reason, scan: Option<ScanId>, now: Time, team: Team)
    requires team in b.subs && b.subs[team].status == SubStatus.Canceled
    ensures var b' := SpendCredit(b, spender, reason, scan, now).books;
            team in b'.subs && b'.subs[team] == b.subs[team] && Spends(b'.ledger, team) == Spends(b.ledger, team)
  {
    SpendLeavesOthers(b, spender, reason, scan, now, team);
    NetAppend(b.ledger, Entry(spender, 1, reason, scan), team);
    hide SpendCredit, Spends;
  }

  lemma SpendLeavesOthers(b: Books, spender: Team, reason: Reason, scan: Option<ScanId>, now: Time, team: Team)
    requires team in b.subs && b.subs[team].status == SubStatus.Canceled
    ensures var r := SpendCredit(b, spender, reason, scan, now);
            && team in r.books.subs && r.books.subs[team] == b.subs[team]
            && r.books.ledger == (if r.Spent? then b.ledger + [Entry(spender, 1, reason, scan)] else b.ledger)
            && (spender == team ==> r.Limited?)
  {
  }

  lemma RefundsDoNotSpend(b: Books, refunded: Team, scan: ScanId, team: Team)
    requires team in b.subs
    ensures var b' := RefundCredit(b, refunded, scan);
            team in b'.subs && b'.subs[team].status == b.subs[team].status && Spends(b'.ledger, team) == Spends(b.ledger, team)
  {
    NetAppend(b.ledger, Entry(refunded, -1, ReasonCancel, Some(scan)), team);
    hide Charged, Refunded, Spends;
  }

  lemma CanceledStep(s: State, a: Action, team: Team)
    requires Enabled(s, a) && !(a.Billing? && a.team == team)
    requires team in s.db.books.subs && s.db.books.subs[team].status == SubStatus.Canceled
    ensures var b, b' := s.db.books, Apply(s, a).db.books;
            team in b'.subs && b'.subs[team].status == SubStatus.Canceled && Spends(b'.ledger, team) == Spends(b.ledger, team)
  {
    hide SpendCredit, RefundCredit, MeterAfterSpend, MeterAfterEnsure, HasActive, Spends;
    match a
    case Create(t, _, _, now) => OtherSpends(s.db.books, t, ReasonScan, Some(s.db.nextScan), now, team);
    case Onboard(t, _, now) => OtherSpends(s.db.books, t, ReasonScan, Some(s.db.nextScan), now, team);
    case Schedule(due, now) =>
      if due.site in s.db.sites {
        OtherSpends(s.db.books, s.db.sites[due.site].team, ReasonSchedule, None, now, team);
      }
    case Cancel(t, scan) => RefundsDoNotSpend(s.db.books, t, scan, team);
    case _ =>
  }

  /** While its subscription is canceled no run books a credit spent by the team. */
  lemma {:induction false} CanceledIsNeverCharged(s: State, acts: seq<Action>, team: Team)
    requires Run(s, acts) && Quiet(acts, team)
    requires team in s.db.books.subs && s.db.books.subs[team].status == SubStatus.Canceled
    ensures var b' := Final(s, acts).db.books;
            && team in b'.subs && b'.subs[team].status == SubStatus.Canceled
            && Spends(b'.ledger, team) == Spends(s.db.books.ledger, team)
    decreases |acts|
  {
    if acts != [] {
      CanceledStep(s, acts[0], team);
      assert forall k :: 0 <= k < |acts[1..]| ==> acts[1..][k] == acts[k + 1];
      CanceledIsNeverCharged(Apply(s, acts[0]), acts[1..], team);
    }
    hide Apply, Enabled, Spends;
  }

  // ----- the hypotheses are exactly what is needed

  /** The unguarded start is safe if and only if the scan is still queued or running when it is written. */
  lemma StartIsSafeIffActive(s: State, scan: ScanId)
    requires Inv(s) && scan in s.jobs
    ensures var s' := Apply(s, Start(scan));
            Inv(s') && StaysClosed(s.db, s'.db) <==> IsActive(s.db.scans[scan].status)
  {
    var s' := Apply(s, Start(scan));
    assert s'.db.scans[scan].status == Running;
    if IsActive(s.db.scans[scan].status) {
      StepKeeps(s, Start(scan));
      StepClosed(s, Start(scan));
    }
  }

  /** Onboarding keeps one scan per site if and only if the site has none in progress. */
  lemma OnboardIsSafeIffIdle(s: State, team: Team, site: SiteId, now: Time)
    requires Inv(s) && Enabled(s, Onboard(team, site, now))
    requires SpendCredit(s.db.books, team, ReasonScan, Some(s.db.nextScan), now).Spent?
    ensures OneActive(Apply(s, Onboard(team, site, now)).db) <==> !HasActive(s.db, site)
  {
    var db' := OnboardSite(s.db, team, site, now);
    assert s.db.nextScan in db'.scans && db'.scans[s.db.nextScan] == Scan(site, Queued, Manual);
    if HasActive(s.db, site) {
      var id :| id in s.db.scans && s.db.scans[id].site == site && IsActive(s.db.scans[id].status);
      assert id in db'.scans && db'.scans[id] == s.db.scans[id] && id != s.db.nextScan;
    }
    hide AllAccounted, AllMirrored, BooksInv, SpendCredit, MeterAfterSpend;
  }

  /**
   A cancellation between the dispatcher's read and its write is undone: the scan runs
   although its credit is refunded.
   */
  lemma CancelUndoneByDispatcher(db: Db, scan: ScanId)
    requires Formed(db) && AllAccounted(db)
    requires scan in db.scans && db.scans[scan].status.Queued? && !db.scans[scan].trigger.Scheduled?
    ensures var team := db.sites[db.scans[scan].site].team;
            var r := CancelScan(db, team, scan);
            && r.CancelDone? && scan in r.db.scans && r.db.scans[scan].status == Status.Canceled
            && StartScan(r.db, scan).scans[scan].status == Running
            && Refunded(StartScan(r.db, scan).books.ledger, team, scan)
  {
    var team := db.sites[db.scans[scan].site].team;
    var r := CancelScan(db, team, scan);
    assert Accounted(db, scan);
    RefundEntry(db, scan);
    var e := Entry(team, -1, ReasonCancel, Some(scan));
    assert IsRefund((db.books.ledger + [e])[|db.books.ledger|], team, scan);
    assert r.db.books.ledger == db.books.ledger + [e];
    hide RefundCredit, Formed, AllAccounted, Charged;
  }

  /** And if the team starts another scan in between, the site has two. */
  lemma RevivedScanOverlaps(db: Db, scan: ScanId, now: Time)
    requires Formed(db) && scan in db.scans && db.scans[scan].status.Canceled?
    requires var site := db.scans[scan].site;
             CreateManualScan(db, db.sites[site].team, site, Manual, now).Created?
    ensures var site := db.scans[scan].site;
            var r := CreateManualScan(db, db.sites[site].team, site, Manual, now);
            scan in r.db.scans && !OneActive(StartScan(r.db, scan))
  {
    var site := db.scans[scan].site;
    var db2 := StartScan(CreateManualScan(db, db.sites[site].team, site, Manual, now).db, scan);
    assert db2.scans[db.nextScan] == Scan(site, Queued, Manual);
    assert db2.scans[scan].status == Running && db2.scans[scan].site == site && scan != db.nextScan;
    hide OneActive, SpendCredit, HasActive;
    TwoActive(db2, scan, db.nextScan);
  }

  lemma TwoActive(db: Db, i: ScanId, j: ScanId)
    requires i in db.scans && j in db.scans && i != j && db.scans[i].site == db.scans[j].site
    requires IsActive(db.scans[i].status) && IsActive(db.scans[j].status)
    ensures !OneActive(db)
  {
  }

  // ----- from the empty database

  const ADD := AddSite(0, 0)
  const CREATE := Create(0, 0, Manual, 0)

  /** A site with one queued scan, paid by its team. */
  function Books1(): Books {
    Books(map[0 := FreeRow(0).(used := 1)], [Entry(0, 1, ReasonScan, Some(0))])
  }

  function QueuedOne(): Db {
    Db(map[0 := Site(0, Never, None, Some(0), Some(Queued))], map[0 := Scan(0, Queued, Manual)], 1, Books1())
  }

  /** The same scan canceled and refunded. */
  function Books0(): Books {
    Books(map[0 := FreeRow(0)], [Entry(0, 1, ReasonScan, Some(0)), Entry(0, -1, ReasonCancel, Some(0))])
  }

  function CanceledOne(): Db {
    Db(map[0 := Site(0, Never, None, Some(0), Some(Status.Canceled))], map[0 := Scan(0, Status.Canceled, Manual)], 1, Books0())
  }

  lemma FirstScan(s: State)
    requires Initial(s)
    ensures Allowed(s, ADD) && Allowed(Apply(s, ADD), CREATE)
    ensures var s2 := Apply(Apply(s, ADD), CREATE); s2.db == QueuedOne() && s2.jobs == {} && Inv(s2)
  {
    InitialInv(s);
    StepKeeps(s, ADD);
    StepKeeps(Apply(s, ADD), CREATE);
    FirstScanDb(s);
    hide Inv, Apply;
  }

  lemma FirstScanDb(s: State)
    requires Initial(s)
    ensures var s2 := Apply(Apply(s, ADD), CREATE); s2.db == QueuedOne() && s2.jobs == {}
  {
    var db := Db(map[0 := Site(0, Never, None, None, None)], map[], 0, Books(map[], []));
    assert Apply(s, ADD).db == db && Apply(s, ADD).jobs == {};
    FirstSpend();
    hide SpendCredit, MeterAfterSpend;
    assert CreateManualScan(db, 0, 0, Manual, 0) == Created(QueuedOne(), 0);
  }

  lemma FirstSpend()
    ensures SpendCredit(Books(map[], []), 0, ReasonScan, Some(0), 0) == Spent(Books1(), 1)
  {
    assert FreeRow(0).used == 0;
  }

  lemma NextSpend()
    ensures SpendCredit(Books1(), 0, ReasonScan, Some(1), 0).Spent?
    ensures SpendCredit(Books0(), 0, ReasonScan, Some(1), 0).Spent?
  {
  }

  lemma CancelFirst()
    ensures CancelScan(QueuedOne(), 0, 0) == CancelDone(CanceledOne())
  {
    var b := Books1();
    assert IsCharge(b.ledger[0], 0, 0);
    assert RefundCredit(b, 0, 0) == Books0();
    hide RefundCredit;
  }

  lemma ThenRun(s: State, a: Action, acts: seq<Action>)
    requires Allowed(s, a) && Run(Apply(s, a), acts)
    ensures Run(s, [a] + acts) && Final(s, [a] + acts) == Final(Apply(s, a), acts)
  {
    assert ([a] + acts)[1..] == acts;
  }

  /** The race is reachable from the empty database. */
  lemma CancelRaceIsReachable(s: State)
    requires Initial(s)
    ensures exists acts: seq<Action>, scan :: Run(s, acts) && ReadyToRace(Final(s, acts), scan)
  {
    var a1, a2, a3 := AddSite(0, 0), Create(0, 0, Manual, 0), Load(0);
    var s1 := Apply(s, a1);
    var s2 := Apply(s1, a2);
    assert SpendCredit(s1.db.books, 0, ReasonScan, Some(0), 0).Spent?;
    assert s2.db.scans[0] == Scan(0, Queued, Manual);
    var s3 := Apply(s2, a3);
    assert ReadyToRace(s3, 0);
    hide Apply, Inv;
    OneStep(s2, a3);
    TwoSteps(s1, a2, a3);
    assert [a1, a2, a3][1..] == [a2, a3];
    assert Run(s, [a1, a2, a3]) && Final(s, [a1, a2, a3]) == s3;
  }

  /** An onboarding scan beside an active one is reachable from the empty database. */
  lemma OnboardOverlapIsReachable(s: State)
    requires Initial(s)
    ensures exists acts: seq<Action> :: Run(s, acts) && OverlapsByOnboarding(Final(s, acts))
  {
    FirstScan(s);
    var s2 := Apply(Apply(s, ADD), CREATE);
    OnboardOverlaps(s2);
    hide *;
    TwoSteps(s, ADD, CREATE);
    assert OverlapsByOnboarding(Final(s, [ADD, CREATE]));
  }

  lemma OnboardOverlaps(s2: State)
    requires Inv(s2) && s2.db == QueuedOne()
    ensures OverlapsByOnboarding(s2)
  {
    NextSpend();
    assert s2.db.scans[0] == Scan(0, Queued, Manual) && HasActive(s2.db, 0);
    hide Apply, Inv, OneActive, Books1, SpendCredit;
    OnboardIsSafeIffIdle(s2, 0, 0, 0);
  }

  ghost predicate OverlapsByOnboarding(s: State) {
    Enabled(s, Onboard(0, 0, 0)) && !OneActive(Apply(s, Onboard(0, 0, 0)).db)
  }

  /** So are the two active scans of the race: the dispatcher's write makes the second. */
  lemma RevivedOverlapIsReachable(s: State)
    requires Initial(s)
    ensures exists acts: seq<Action> :: Run(s, acts) && OverlapsByStart(Final(s, acts))
  {
    FirstScan(s);
    var s2 := Apply(Apply(s, ADD), CREATE);
    RaceEnds(s2);
    hide *;
    var end := RunThree(s2, Load(0), Cancel(0, 0), CREATE);
    ThenRun(Apply(s, ADD), CREATE, end);
    ThenRun(s, ADD, [CREATE] + end);
    assert OverlapsByStart(Final(s, [ADD] + ([CREATE] + end)));
  }

  lemma RunThree(s: State, a: Action, b: Action, c: Action) returns (acts: seq<Action>)
    requires Allowed(s, a) && Allowed(Apply(s, a), b) && Allowed(Apply(Apply(s, a), b), c)
    ensures Run(s, acts) && Final(s, acts) == Apply(Apply(Apply(s, a), b), c)
  {
    hide Apply, Enabled;
    TwoSteps(Apply(s, a), b, c);
    ThenRun(s, a, [b, c]);
    acts := [a] + [b, c];
  }

  lemma RaceEnds(s2: State)
    requires s2.db == QueuedOne() && s2.jobs == {}
    ensures Allowed(s2, Load(0))
    ensures var s3 := Apply(s2, Load(0));
            var s4 := Apply(s3, Cancel(0, 0));
            && Allowed(s3, Cancel(0, 0)) && Allowed(s4, CREATE) && OverlapsByStart(Apply(s4, CREATE))
  {
    CancelFirst();
    NextSpend();
    hide SpendCredit, MeterAfterSpend, CancelScan, OneActive;
    var s4 := Apply(Apply(s2, Load(0)), Cancel(0, 0));
    assert s4.db == CanceledOne() && s4.jobs == {0};
    var r := CreateManualScan(s4.db, 0, 0, Manual, 0);
    assert !HasActive(s4.db, 0);
    RevivedScanOverlaps(s4.db, 0, 0);
  }

  ghost predicate OverlapsByStart(s: State) {
    Enabled(s, Start(0)) && !OneActive(Apply(s, Start(0)).db)
  }

  lemma InitialInv(s: State)
    requires Initial(s)
    ensures Inv(s)
  {
  }

  predicate ReadyToRace(s: State, scan: ScanId) {
    scan in s.jobs && scan in s.db.scans && s.db.scans[scan].status.Queued? && !s.db.scans[scan].trigger.Scheduled?
  }

  lemma OneStep(s: State, a: Action)
    requires Allowed(s, a)
    ensures Run(s, [a]) && Final(s, [a]) == Apply(s, a)
  {
    assert [a][1..] == [];
  }

  lemma TwoSteps(s: State, a: Action, b: Action)
    requires Allowed(s, a) && Allowed(Apply(s, a), b)
    ensures Run(s, [a, b]) && Final(s, [a, b]) == Apply(Apply(s, a), b)
  {
    OneStep(Apply(s, a), b);
    assert [a, b][1..] == [b];
  }
}
