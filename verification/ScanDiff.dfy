/**
 packages/shared/src/diff.ts (`computeScanDiff`, `isCleanScan`, `isSnoozed`) and
 packages/scan-core/src/scan-diff.ts: what changed since the last clean scan.
 */
module ScanDiff {
  import opened Options

  type Time = int

  datatype Severity = Critical | High | Medium | Low | Info
  datatype FindingStatus = Open | Fixed | Ignored
  datatype Snooze = NotSnoozed | NextScan | Until(time: Time)

  /** `fp` is the fingerprint, a hash of check, route and title. */
  datatype Finding = Finding(
    id: string, fp: string, severity: Severity, status: FindingStatus, active: bool,
    snooze: Snooze, regressed: bool)

  datatype Counts = Counts(critical: nat, high: nat, medium: nat, low: nat, info: nat)

  datatype Diff = Diff(
    added: Counts, resolved: Counts, regressed: Counts, same: Counts,
    newIds: seq<string>, regressedIds: seq<string>, alertNew: Counts, alertRegressed: Counts)

  const ZERO := Counts(0, 0, 0, 0, 0)

  function Get(c: Counts, s: Severity): nat {
    match s
    case Critical => c.critical
    case High => c.high
    case Medium => c.medium
    case Low => c.low
    case Info => c.info
  }

  function Add(c: Counts, s: Severity): Counts {
    match s
    case Critical => c.(critical := c.critical + 1)
    case High => c.(high := c.high + 1)
    case Medium => c.(medium := c.medium + 1)
    case Low => c.(low := c.low + 1)
    case Info => c.(info := c.info + 1)
  }

  /** Each severity has its own counter. */
  lemma CountersAreNamed(c: Counts, s: Severity)
    ensures Get(c, s) == match s
              case Critical => c.critical case High => c.high case Medium => c.medium case Low => c.low case Info => c.info
    ensures Add(c, s) == Counts(
              c.critical + (if s == Critical then 1 else 0), c.high + (if s == High then 1 else 0),
              c.medium + (if s == Medium then 1 else 0), c.low + (if s == Low then 1 else 0),
              c.info + (if s == Info then 1 else 0))
  {
  }

  function Total(c: Counts): nat {
    c.critical + c.high + c.medium + c.low + c.info
  }

  predicate IsSnoozed(f: Finding, now: Time) {
    f.snooze.NextScan? || (f.snooze.Until? && f.snooze.time > now)
  }

  /** A snooze until a time ends at that time; one until the next scan lasts for this one. */
  lemma SnoozeEnds(f: Finding, now: Time)
    ensures f.snooze == NotSnoozed ==> !IsSnoozed(f, now)
    ensures f.snooze == NextScan ==> IsSnoozed(f, now)
    ensures forall t :: f.snooze == Until(t) ==> (IsSnoozed(f, now) <==> now < t)
  {
  }

  // ----- what a diff says about one finding

  datatype Tag = New | Regressed | Same | Uncounted

  /** The entry of the fingerprint map: a later finding replaces an earlier one. */
  function LastWith(findings: seq<Finding>, fp: string): Option<Finding> {
    if findings == [] then None
    else if findings[|findings| - 1].fp == fp then Some(findings[|findings| - 1])
    else LastWith(findings[..|findings| - 1], fp)
  }

  function TagOf(f: Finding, snapshot: seq<Finding>): Tag {
    if f.active then Uncounted
    else
      match LastWith(snapshot, f.fp)
      case None => New
      case Some(before) => if f.status.Open? && !before.status.Open? then Regressed else Same
  }

  predicate HasFp(findings: seq<Finding>, fp: string) {
    exists i :: 0 <= i < |findings| && findings[i].fp == fp && !findings[i].active
  }

  /** The last finding of the list with this fingerprint. */
  ghost predicate IsLastWith(findings: seq<Finding>, fp: string, i: int) {
    0 <= i < |findings| && findings[i].fp == fp && forall j :: i < j < |findings| ==> findings[j].fp != fp
  }

  lemma {:induction false} LastWithIs(findings: seq<Finding>, fp: string)
    ensures LastWith(findings, fp).None? <==> forall i :: 0 <= i < |findings| ==> findings[i].fp != fp
    ensures LastWith(findings, fp).Some? ==> exists i :: IsLastWith(findings, fp, i) && findings[i] == LastWith(findings, fp).value
    decreases |findings|
  {
    if findings != [] {
      var rest := findings[..|findings| - 1];
      LastWithIs(rest, fp);
      if findings[|findings| - 1].fp == fp {
        assert IsLastWith(findings, fp, |findings| - 1);
      } else if LastWith(rest, fp).Some? {
        var i :| IsLastWith(rest, fp, i) && rest[i] == LastWith(rest, fp).value;
        assert IsLastWith(findings, fp, i);
      }
    }
  }

  /**
   New is a finding that the snapshot does not have; regressed is one that is open now and
   was fixed or ignored then; every other one is the same. Findings of active tests are not
   counted.
   */
  lemma TagIsExact(f: Finding, snapshot: seq<Finding>)
    ensures TagOf(f, snapshot) == Uncounted <==> f.active
    ensures TagOf(f, snapshot) == New <==> !f.active && forall i :: 0 <= i < |snapshot| ==> snapshot[i].fp != f.fp
    ensures TagOf(f, snapshot) == Regressed <==> (
              && !f.active && f.status == Open
              && exists i :: IsLastWith(snapshot, f.fp, i) && (snapshot[i].status == Fixed || snapshot[i].status == Ignored))
  {
    LastWithIs(snapshot, f.fp);
    if LastWith(snapshot, f.fp).Some? {
      var k :| IsLastWith(snapshot, f.fp, k) && snapshot[k] == LastWith(snapshot, f.fp).value;
      assert forall i :: IsLastWith(snapshot, f.fp, i) ==> i == k;
    }
    hide LastWith;
  }

  // ----- counting

  function CountTag(current: seq<Finding>, snapshot: seq<Finding>, tag: Tag, s: Severity): nat {
    if current == [] then 0
    else
      var last := current[|current| - 1];
      CountTag(current[..|current| - 1], snapshot, tag, s)
      + if TagOf(last, snapshot) == tag && last.severity == s then 1 else 0
  }

  function CountAlerts(current: seq<Finding>, snapshot: seq<Finding>, tag: Tag, s: Severity, now: Time): nat {
    if current == [] then 0
    else
      var last := current[|current| - 1];
      CountAlerts(current[..|current| - 1], snapshot, tag, s, now)
      + if TagOf(last, snapshot) == tag && last.severity == s && !IsSnoozed(last, now) then 1 else 0
  }

  function IdsOf(current: seq<Finding>, snapshot: seq<Finding>, tag: Tag): seq<string> {
    if current == [] then []
    else
      var last := current[|current| - 1];
      IdsOf(current[..|current| - 1], snapshot, tag) + if TagOf(last, snapshot) == tag then [last.id] else []
  }

  /** Findings of the snapshot that are counted and gone. */
  function CountGone(snapshot: seq<Finding>, current: seq<Finding>, s: Severity): nat {
    if snapshot == [] then 0
    else
      var last := snapshot[|snapshot| - 1];
      CountGone(snapshot[..|snapshot| - 1], current, s)
      + if !last.active && !HasFp(current, last.fp) && last.severity == s then 1 else 0
  }

  function CountCounted(current: seq<Finding>, s: Severity): nat {
    if current == [] then 0
    else
      var last := current[|current| - 1];
      CountCounted(current[..|current| - 1], s) + if !last.active && last.severity == s then 1 else 0
  }

  function SnapshotItems(snapshot: Option<seq<Finding>>): seq<Finding> {
    if snapshot.Some? then snapshot.value else []
  }

  /** The diff by its meaning: every list and every count, finding by finding. */
  ghost predicate IsDiff(d: Diff, current: seq<Finding>, snapshot: Option<seq<Finding>>, now: Time) {
    var items := SnapshotItems(snapshot);
    && (forall s :: Get(d.added, s) == CountTag(current, items, New, s))
    && (forall s :: Get(d.regressed, s) == CountTag(current, items, Regressed, s))
    && (forall s :: Get(d.same, s) == CountTag(current, items, Same, s))
    && (forall s :: Get(d.resolved, s) == CountGone(items, current, s))
    && (forall s :: Get(d.alertNew, s) == CountAlerts(current, items, New, s, now))
    && (forall s :: Get(d.alertRegressed, s) == CountAlerts(current, items, Regressed, s, now))
    && d.newIds == IdsOf(current, items, New)
    && d.regressedIds == IdsOf(current, items, Regressed)
  }

  // ----- properties of diffs

  /** Every counted finding of the current scan is under exactly one of three headings. */
  lemma {:induction false} TagsPartition(current: seq<Finding>, snapshot: seq<Finding>, s: Severity)
    ensures CountTag(current, snapshot, New, s) + CountTag(current, snapshot, Regressed, s)
            + CountTag(current, snapshot, Same, s) == CountCounted(current, s)
    decreases |current|
  {
    if current != [] {
      TagsPartition(current[..|current| - 1], snapshot, s);
    }
  }

  lemma {:induction false} IdsMatchCounts(current: seq<Finding>, snapshot: seq<Finding>, tag: Tag)
    ensures |IdsOf(current, snapshot, tag)|
            == CountTag(current, snapshot, tag, Critical) + CountTag(current, snapshot, tag, High)
             + CountTag(current, snapshot, tag, Medium) + CountTag(current, snapshot, tag, Low)
             + CountTag(current, snapshot, tag, Info)
    decreases |current|
  {
    if current != [] {
      IdsMatchCounts(current[..|current| - 1], snapshot, tag);
    }
  }

  lemma {:induction false} AlertsWithinCounts(current: seq<Finding>, snapshot: seq<Finding>, tag: Tag, s: Severity, now: Time)
    ensures CountAlerts(current, snapshot, tag, s, now) <= CountTag(current, snapshot, tag, s)
    ensures (forall i :: 0 <= i < |current| ==> !IsSnoozed(current[i], now)) ==>
              CountAlerts(current, snapshot, tag, s, now) == CountTag(current, snapshot, tag, s)
    decreases |current|
  {
    if current != [] {
      AlertsWithinCounts(current[..|current| - 1], snapshot, tag, s, now);
    }
  }

  /** The counts and lists of a diff agree with each other and with the findings. */
  lemma DiffAddsUp(d: Diff, current: seq<Finding>, snapshot: Option<seq<Finding>>, now: Time, s: Severity)
    requires IsDiff(d, current, snapshot, now)
    ensures Get(d.added, s) + Get(d.regressed, s) + Get(d.same, s) == CountCounted(current, s)
    ensures |d.newIds| == Total(d.added) && |d.regressedIds| == Total(d.regressed)
    ensures Get(d.alertNew, s) <= Get(d.added, s) && Get(d.alertRegressed, s) <= Get(d.regressed, s)
  {
    var items := SnapshotItems(snapshot);
    TagsPartition(current, items, s);
    IdsMatchCounts(current, items, New);
    IdsMatchCounts(current, items, Regressed);
    AlertsWithinCounts(current, items, New, s, now);
    AlertsWithinCounts(current, items, Regressed, s, now);
    TotalIs(d.added);
    TotalIs(d.regressed);
    hide CountTag, CountAlerts, CountGone, CountCounted, IdsOf, Get, Total;
  }

  lemma TotalIs(c: Counts)
    ensures Total(c) == Get(c, Critical) + Get(c, High) + Get(c, Medium) + Get(c, Low) + Get(c, Info)
  {
  }

  predicate NoActive(findings: seq<Finding>) {
    forall i :: 0 <= i < |findings| ==> !findings[i].active
  }

  lemma {:induction false} LastWithFinds(findings: seq<Finding>, fp: string)
    requires NoActive(findings)
    ensures LastWith(findings, fp).Some? <==> HasFp(findings, fp)
    decreases |findings|
  {
    if findings != [] {
      var rest := findings[..|findings| - 1];
      LastWithFinds(rest, fp);
      if HasFp(rest, fp) {
        var i :| 0 <= i < |rest| && rest[i].fp == fp && !rest[i].active;
        assert findings[i].fp == fp && !findings[i].active;
      }
      if i :| 0 <= i < |findings| && findings[i].fp == fp && !findings[i].active {
        assert i < |rest| ==> rest[i].fp == fp && !rest[i].active;
      }
    }
  }

  lemma {:induction false} GoneIsNew(a: seq<Finding>, b: seq<Finding>, s: Severity)
    requires NoActive(a) && NoActive(b)
    ensures CountGone(a, b, s) == CountTag(a, b, New, s)
    decreases |a|
  {
    if a != [] {
      GoneIsNew(a[..|a| - 1], b, s);
      LastWithFinds(b, a[|a| - 1].fp);
    }
  }

  /** Without active-test findings, what is resolved from b to a is what is new from a to b. */
  lemma ResolvedMirrorsNew(ab: Diff, ba: Diff, a: seq<Finding>, b: seq<Finding>, now: Time, later: Time)
    requires NoActive(a) && NoActive(b)
    requires IsDiff(ab, a, Some(b), now) && IsDiff(ba, b, Some(a), later)
    ensures ab.resolved == ba.added && ba.resolved == ab.added
  {
    forall s: Severity
      ensures Get(ab.resolved, s) == Get(ba.added, s) && Get(ba.resolved, s) == Get(ab.added, s)
    {
      GoneIsNew(b, a, s);
      GoneIsNew(a, b, s);
    }
    SameCounts(ab.resolved, ba.added);
    SameCounts(ba.resolved, ab.added);
  }

  lemma SameCounts(a: Counts, b: Counts)
    requires forall s :: Get(a, s) == Get(b, s)
    ensures a == b
  {
    assert Get(a, Critical) == Get(b, Critical) && Get(a, High) == Get(b, High);
    assert Get(a, Medium) == Get(b, Medium) && Get(a, Low) == Get(b, Low) && Get(a, Info) == Get(b, Info);
  }

  /** The diff of a scan is determined by the findings. */
  lemma DiffIsUnique(d: Diff, e: Diff, current: seq<Finding>, snapshot: Option<seq<Finding>>, now: Time)
    requires IsDiff(d, current, snapshot, now) && IsDiff(e, current, snapshot, now)
    ensures d == e
  {
    hide CountTag, CountAlerts, CountGone, IdsOf, Get;
    SameCounts(d.added, e.added);
    SameCounts(d.regressed, e.regressed);
    SameCounts(d.same, e.same);
    SameCounts(d.resolved, e.resolved);
    SameCounts(d.alertNew, e.alertNew);
    SameCounts(d.alertRegressed, e.alertRegressed);
  }

  // ----- computeScanDiff

  method FingerprintMap(snapshot: seq<Finding>) returns (m: map<string, Finding>)
    ensures forall fp :: fp in m <==> LastWith(snapshot, fp).Some?
    ensures forall fp :: fp in m ==> LastWith(snapshot, fp) == Some(m[fp])
  {
    m := map[];
    for i := 0 to |snapshot|
      invariant forall fp :: fp in m <==> LastWith(snapshot[..i], fp).Some?
      invariant forall fp :: fp in m ==> LastWith(snapshot[..i], fp) == Some(m[fp])
    {
      assert snapshot[..i + 1][..i] == snapshot[..i];
      m := m[snapshot[i].fp := snapshot[i]];
    }
    assert snapshot[..|snapshot|] == snapshot;
  }

  ghost predicate CurrentDone(d: Diff, current: seq<Finding>, items: seq<Finding>, now: Time) {
    && (forall s :: Get(d.added, s) == CountTag(current, items, New, s))
    && (forall s :: Get(d.regressed, s) == CountTag(current, items, Regressed, s))
    && (forall s :: Get(d.same, s) == CountTag(current, items, Same, s))
    && (forall s :: Get(d.alertNew, s) == CountAlerts(current, items, New, s, now))
    && (forall s :: Get(d.alertRegressed, s) == CountAlerts(current, items, Regressed, s, now))
    && d.newIds == IdsOf(current, items, New)
    && d.regressedIds == IdsOf(current, items, Regressed)
    && d.resolved == ZERO
  }

  /** One turn of the first loop. */
  method CountFinding(d: Diff, f: Finding, before: Option<Finding>, now: Time, ghost done: seq<Finding>, ghost items: seq<Finding>)
    returns (d': Diff)
    requires !f.active && before == LastWith(items, f.fp) && CurrentDone(d, done, items, now)
    ensures CurrentDone(d', done + [f], items, now)
  {
    assert (done + [f])[..|done|] == done;
    d' := d;
    if before.None? {
      d' := d'.(added := Add(d'.added, f.severity), newIds := d'.newIds + [f.id]);
      if !IsSnoozed(f, now) {
        d' := d'.(alertNew := Add(d'.alertNew, f.severity));
      }
    } else if f.status.Open? && (before.value.status.Fixed? || before.value.status.Ignored?) {
      d' := d'.(regressed := Add(d'.regressed, f.severity), regressedIds := d'.regressedIds + [f.id]);
      if !IsSnoozed(f, now) {
        d' := d'.(alertRegressed := Add(d'.alertRegressed, f.severity));
      }
    } else {
      d' := d'.(same := Add(d'.same, f.severity));
    }
  }

  lemma ActiveIsUncounted(d: Diff, f: Finding, done: seq<Finding>, items: seq<Finding>, now: Time)
    requires f.active && CurrentDone(d, done, items, now)
    ensures CurrentDone(d, done + [f], items, now)
  {
    assert (done + [f])[..|done|] == done;
  }

  method ComputeScanDiff(current: seq<Finding>, snapshot: Option<seq<Finding>>, now: Time) returns (d: Diff)
    ensures IsDiff(d, current, snapshot, now)
  {
    hide CurrentDone, CountTag, CountAlerts, IdsOf, Get, HasFp;
    var items := SnapshotItems(snapshot);
    var byFp := FingerprintMap(items);
    var fps: set<string> := {};
    d := Diff(ZERO, ZERO, ZERO, ZERO, [], [], ZERO, ZERO);
    StartsDone(d, items, now);
    assert current[..0] == [];
    for i := 0 to |current|
      invariant CurrentDone(d, current[..i], items, now)
      invariant forall fp :: fp in fps <==> HasFp(current[..i], fp)
    {
      var f := current[i];
      assert current[..i + 1] == current[..i] + [f];
      HasFpStep(current[..i], f);
      if f.active {
        ActiveIsUncounted(d, f, current[..i], items, now);
      } else {
        fps := fps + {f.fp};
        var before := if f.fp in byFp then Some(byFp[f.fp]) else None;
        d := CountFinding(d, f, before, now, current[..i], items);
      }
    }
    assert current[..|current|] == current;
    var resolved := CountResolved(items, fps, current);
    DoneIsDiff(d, resolved, current, snapshot, now);
    d := d.(resolved := resolved);
  }

  /** The second loop. */
  method CountResolved(items: seq<Finding>, fps: set<string>, ghost current: seq<Finding>) returns (c: Counts)
    requires forall fp :: fp in fps <==> HasFp(current, fp)
    ensures forall s :: Get(c, s) == CountGone(items, current, s)
  {
    c := ZERO;
    for i := 0 to |items|
      invariant forall s :: Get(c, s) == CountGone(items[..i], current, s)
    {
      assert items[..i + 1][..i] == items[..i];
      if !items[i].active && items[i].fp !in fps {
        c := Add(c, items[i].severity);
      }
    }
    assert items[..|items|] == items;
  }

  lemma StartsDone(d: Diff, items: seq<Finding>, now: Time)
    requires d == Diff(ZERO, ZERO, ZERO, ZERO, [], [], ZERO, ZERO)
    ensures CurrentDone(d, [], items, now) && forall fp :: !HasFp([], fp)
  {
  }

  lemma HasFpStep(done: seq<Finding>, f: Finding)
    ensures forall fp :: HasFp(done + [f], fp) <==> HasFp(done, fp) || (f.fp == fp && !f.active)
  {
    var all := done + [f];
    assert all[|done|] == f;
    forall fp
      ensures HasFp(all, fp) <==> HasFp(done, fp) || (f.fp == fp && !f.active)
    {
      if i :| 0 <= i < |done| && done[i].fp == fp && !done[i].active {
        assert all[i].fp == fp && !all[i].active;
      }
    }
  }

  lemma DoneIsDiff(d: Diff, resolved: Counts, current: seq<Finding>, snapshot: Option<seq<Finding>>, now: Time)
    requires CurrentDone(d, current, SnapshotItems(snapshot), now)
    requires forall s :: Get(resolved, s) == CountGone(SnapshotItems(snapshot), current, s)
    ensures IsDiff(d.(resolved := resolved), current, snapshot, now)
  {
    hide CountTag, CountAlerts, CountGone, IdsOf, Get;
  }

  // ----- the last clean snapshot

  /** A completed scan, newest first; `items` is None when its payload does not parse. */
  datatype ScanRow = ScanRow(score: Option<int>, items: Option<seq<Finding>>)

  predicate Blocking(f: Finding) {
    !f.active && f.status.Open? && (f.severity.Critical? || f.severity.High?)
  }

  predicate IsClean(score: Option<int>, items: seq<Finding>) {
    (score.Some? && score.value >= 80) || forall i :: 0 <= i < |items| ==> !Blocking(items[i])
  }

  predicate IsCleanRow(row: ScanRow) {
    row.items.Some? && IsClean(row.score, row.items.value)
  }

  method IsCleanScan(score: Option<int>, items: seq<Finding>) returns (clean: bool)
    ensures clean <==> IsClean(score, items)
    ensures clean <==> (
              || (score.Some? && score.value >= 80)
              || forall i :: 0 <= i < |items| ==> (
                   || items[i].active || items[i].status == Fixed || items[i].status == Ignored
                   || (items[i].severity != Critical && items[i].severity != High)))
  {
    if score.Some? && score.value >= 80 {
      return true;
    }
    for i := 0 to |items|
      invariant forall k :: 0 <= k < i ==> !Blocking(items[k])
    {
      if !items[i].active && items[i].status.Open? && (items[i].severity.Critical? || items[i].severity.High?) {
        return false;
      }
    }
    clean := true;
  }

  ghost predicate IsFirstClean(completed: seq<ScanRow>, i: int) {
    0 <= i < |completed| && i < 20 && IsCleanRow(completed[i]) && forall k :: 0 <= k < i ==> !IsCleanRow(completed[k])
  }

  /** The items of the newest clean scan among the newest twenty, if there is one. */
  ghost predicate IsSnapshot(completed: seq<ScanRow>, snapshot: Option<seq<Finding>>) {
    match snapshot
    case None => forall i :: 0 <= i < |completed| && i < 20 ==> !IsCleanRow(completed[i])
    case Some(_) => exists i :: IsFirstClean(completed, i) && completed[i].items == snapshot
  }

  /** Rows that do not parse are skipped; the loop stops at the first clean one. */
  method FindCleanSnapshot(completed: seq<ScanRow>) returns (found: Option<seq<Finding>>)
    ensures IsSnapshot(completed, found)
  {
    var n := if |completed| < 20 then |completed| else 20;
    for i := 0 to n
      invariant forall k :: 0 <= k < i ==> !IsCleanRow(completed[k])
    {
      if completed[i].items.Some? {
        var clean := IsCleanScan(completed[i].score, completed[i].items.value);
        if clean {
          assert IsFirstClean(completed, i);
          return completed[i].items;
        }
      }
    }
    found := None;
  }

  // ----- writing the findings back

  function Rewritten(f: Finding, regressed: set<string>): Finding {
    f.(regressed := f.id in regressed || f.regressed, snooze := if f.snooze.NextScan? then NotSnoozed else f.snooze)
  }

  function RewriteAll(items: seq<Finding>, regressed: set<string>): seq<Finding> {
    seq(|items|, i requires 0 <= i < |items| => Rewritten(items[i], regressed))
  }

  predicate NeedsRewrite(items: seq<Finding>, regressed: set<string>) {
    exists i :: 0 <= i < |items| && (items[i].snooze.NextScan? || items[i].id in regressed)
  }

  /** What is stored after a diff: one scan consumes every `next-scan` snooze and nothing else but the flags changes. */
  ghost predicate Consumed(before: seq<Finding>, after: seq<Finding>, regressed: set<string>) {
    && |after| == |before|
    && forall i :: 0 <= i < |before| ==>
         && !after[i].snooze.NextScan?
         && (before[i].snooze.NextScan? <==> after[i].snooze != before[i].snooze)
         && (after[i].regressed <==> before[i].regressed || before[i].id in regressed)
         && after[i] == before[i].(snooze := after[i].snooze, regressed := after[i].regressed)
  }

  /** The findings of a scan: a list, or a record that does not parse as one, such as the error of a failed scan. */
  datatype Payload = Other(json: string) | Version1(items: seq<Finding>)

  /** What a parsed list is stored as: the rewrite by the diff against the last clean snapshot. */
  ghost predicate IsStored(items: seq<Finding>, completed: seq<ScanRow>, now: Time, stored: Payload, d: Diff) {
    && (exists snapshot: Option<seq<Finding>> :: IsSnapshot(completed, snapshot) && IsDiff(d, items, snapshot, now))
    && stored.Version1?
    && stored.items == RewriteAll(items, set id | id in d.regressedIds)
    && Consumed(items, stored.items, set id | id in d.regressedIds)
  }

  /**
   The diff and the findings as they are stored. Findings that do not parse have no diff
   and pass unchanged; those that need no rewriting are returned as they are.
   */
  method ComputeAndWriteScanDiff(findings: Payload, completed: seq<ScanRow>, now: Time)
    returns (stored: Payload, diff: Option<Diff>)
    ensures diff.Some? <==> findings.Version1?
    ensures findings.Other? ==> stored == findings
    ensures findings.Version1? ==> IsStored(findings.items, completed, now, stored, diff.value)
  {
    hide IsDiff, IsClean;
    if findings.Other? {
      return findings, None;
    }
    var items := findings.items;
    var snapshot := FindCleanSnapshot(completed);
    var d := ComputeScanDiff(items, snapshot, now);
    var regressed := set id | id in d.regressedIds;
    diff := Some(d);
    RewriteConsumes(items, regressed);
    if !NeedsRewrite(items, regressed) {
      FastPath(items, regressed);
      stored := findings;
    } else {
      stored := Version1(RewriteAll(items, regressed));
    }
  }

  lemma RewriteConsumes(items: seq<Finding>, regressed: set<string>)
    ensures Consumed(items, RewriteAll(items, regressed), regressed)
  {
  }

  /** The rewrite is the identity exactly when nothing is muted until this scan and every flag is already set. */
  lemma FastPath(items: seq<Finding>, regressed: set<string>)
    ensures !NeedsRewrite(items, regressed) ==> RewriteAll(items, regressed) == items
    ensures RewriteAll(items, regressed) == items <==>
              forall i :: 0 <= i < |items| ==>
                !items[i].snooze.NextScan? && (items[i].id in regressed ==> items[i].regressed)
  {
    var all := RewriteAll(items, regressed);
    assert forall i :: 0 <= i < |items| ==> all[i] == Rewritten(items[i], regressed);
    forall i | 0 <= i < |items|
      ensures all[i] == items[i] <==> !items[i].snooze.NextScan? && (items[i].id in regressed ==> items[i].regressed)
    {
    }
  }
}
