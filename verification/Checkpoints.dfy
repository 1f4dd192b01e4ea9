/**
 DeepSeekAndDestroy/tools/context_checkpoint.py and the checkpoint rules of
 check_state.py: commands as sequences of file operations, any prefix of which a crash
 may leave behind.
 */
module Checkpoints {
  import opened Options
  import opened Decimal

  datatype Status =
    | NoStatus | Prepared | Compacting | RehydrationRequired | Resumed | CompactionFailed

  /** `context_checkpoint` in state.json; a path is given by its directory under `compactions`. */
  datatype Checkpoint = Checkpoint(
    sequence: Option<nat>, status: Status, checkpointPath: Option<string>, manifestPath: Option<string>,
    continuityVerified: bool)

  datatype RunState = RunState(runId: string, planId: string, checkpoint: Checkpoint)

  datatype Manifest = Manifest(sequence: nat, runId: string, planId: string)

  /** A child of `compactions`; `text` says whether CHECKPOINT.md is there. */
  datatype Entry = PlainFile | Folder(manifest: Option<Manifest>, text: bool)

  /** `latest` is the LATEST file, empty while it is being rewritten. */
  datatype Fs = Fs(entries: map<string, Entry>, latest: Option<string>, state: RunState)

  const EMPTY := Checkpoint(None, NoStatus, None, None, false)

  // ----- sequence numbers

  predicate IsNumbered(entries: map<string, Entry>, name: string) {
    name in entries && entries[name].Folder? && IsNumeral(name)
  }

  ghost predicate IsLatestSequence(entries: map<string, Entry>, n: nat) {
    && (forall name :: IsNumbered(entries, name) ==> Parse(name) <= n)
    && (n > 0 ==> exists name :: IsNumbered(entries, name) && Parse(name) == n)
  }

  /** The largest of some numbers, or 0. */
  ghost function Largest(numbers: set<nat>): (n: nat)
    ensures forall m :: m in numbers ==> m <= n
    ensures n > 0 ==> n in numbers
  {
    if numbers == {} then 0
    else
      var m :| m in numbers;
      assert numbers == (numbers - {m}) + {m};
      var rest := Largest(numbers - {m});
      if m > rest then m else rest
  }

  ghost function LatestSequence(entries: map<string, Entry>): (n: nat)
    ensures IsLatestSequence(entries, n)
  {
    var numbers := set name | name in entries && IsNumbered(entries, name) :: Parse(name);
    assert forall name :: IsNumbered(entries, name) ==> Parse(name) in numbers;
    Largest(numbers)
  }

  lemma LatestIsUnique(entries: map<string, Entry>, m: nat, n: nat)
    requires IsLatestSequence(entries, m) && IsLatestSequence(entries, n)
    ensures m == n
  {
  }

  /** The exclusive mkdir can only meet a plain file; no checkpoint directory has the next name. */
  lemma NextNameIsFree(entries: map<string, Entry>)
    ensures var name := Pad4(LatestSequence(entries) + 1);
            name in entries ==> entries[name].PlainFile?
  {
    var n := LatestSequence(entries) + 1;
    ParsePad4(n);
    assert !IsNumbered(entries, Pad4(n));
  }

  // ----- file operations

  datatype Op =
    | Mkdir(name: string)
    | PutManifest(name: string, manifest: Manifest)
    | PutText(name: string)
    | TruncateLatest
    | PutLatest(text: string)
    | PutState(state: RunState)

  function Exec(fs: Fs, op: Op): Fs {
    match op
    case Mkdir(name) => if name in fs.entries then fs else fs.(entries := fs.entries[name := Folder(None, false)])
    case PutManifest(name, m) =>
      if name in fs.entries && fs.entries[name].Folder? then
        fs.(entries := fs.entries[name := fs.entries[name].(manifest := Some(m))])
      else fs
    case PutText(name) =>
      if name in fs.entries && fs.entries[name].Folder? then
        fs.(entries := fs.entries[name := fs.entries[name].(text := true)])
      else fs
    case TruncateLatest => fs.(latest := Some(""))
    case PutLatest(text) => fs.(latest := Some(text))
    case PutState(state) => fs.(state := state)
  }

  function ExecAll(fs: Fs, ops: seq<Op>): Fs
    decreases |ops|
  {
    if ops == [] then fs else Exec(ExecAll(fs, ops[..|ops| - 1]), ops[|ops| - 1])
  }

  // ----- the commands

  predicate HasManifest(fs: Fs, name: Option<string>) {
    name.Some? && name.value in fs.entries && fs.entries[name.value].Folder? && fs.entries[name.value].manifest.Some?
  }

  predicate HasText(fs: Fs, name: Option<string>) {
    name.Some? && name.value in fs.entries && fs.entries[name.value].Folder? && fs.entries[name.value].text
  }

  /** A prepared checkpoint that is still there is used again. */
  predicate Reusable(fs: Fs) {
    var c := fs.state.checkpoint;
    (c.status == Prepared || c.status == Compacting) && HasText(fs, c.checkpointPath) && HasManifest(fs, c.manifestPath)
  }

  function NewCheckpoint(fs: Fs, n: nat): (ops: seq<Op>)
    ensures |ops| == 6
  {
    var name := Pad4(n);
    [Mkdir(name),
     PutManifest(name, Manifest(n, fs.state.runId, fs.state.planId)),
     PutText(name),
     TruncateLatest,
     PutLatest(name),
     PutState(fs.state.(checkpoint := Checkpoint(Some(n), Prepared, Some(name), Some(name), false)))]
  }

  /** None when the mkdir fails; it comes first, so nothing is written then. */
  ghost function PrepareOps(fs: Fs): Option<seq<Op>> {
    var n := LatestSequence(fs.entries) + 1;
    if Reusable(fs) then Some([])
    else if Pad4(n) in fs.entries then None
    else Some(NewCheckpoint(fs, n))
  }

  /** The number a prepare reports: the next one, or that of the checkpoint used again. */
  ghost function PreparedSequence(fs: Fs): nat {
    var recorded := fs.state.checkpoint.sequence;
    if !Reusable(fs) then LatestSequence(fs.entries) + 1
    else if recorded.Some? && recorded.value != 0 then recorded.value
    else LatestSequence(fs.entries)
  }

  function WithStatus(state: RunState, status: Status): RunState {
    state.(checkpoint := state.checkpoint.(status := status))
  }

  /** `latest_checkpoint`; None is an error: no checkpoint, or a LATEST that is not a number. */
  ghost function LatestCheckpoint(fs: Fs): Option<nat> {
    if fs.latest.Some? then
      if IsNumeral(fs.latest.value) && Parse(fs.latest.value) > 0 then Some(Parse(fs.latest.value)) else None
    else if LatestSequence(fs.entries) > 0 then Some(LatestSequence(fs.entries)) else None
  }

  datatype Command =
    | Prepare
    | PreCompact
    | PostCompact
    | Rehydrate
    | VerifyResume(sequence: Option<nat>)
    | Edit(runId: string, planId: string)

  /** `read_json` of the manifest and the two identity checks. */
  ghost predicate Resumable(fs: Fs, sequence: Option<nat>) {
    var n := LatestCheckpoint(fs);
    && n.Some? && (sequence.Some? ==> sequence == n)
    && HasManifest(fs, Some(Pad4(n.value)))
    && fs.entries[Pad4(n.value)].manifest.value.runId == fs.state.runId
    && fs.entries[Pad4(n.value)].manifest.value.planId == fs.state.planId
  }

  ghost function Ops(fs: Fs, c: Command): seq<Op> {
    match c
    case Prepare => if PrepareOps(fs).Some? then PrepareOps(fs).value else []
    case PreCompact =>
      if PrepareOps(fs).None? then []
      else PrepareOps(fs).value + [PutState(WithStatus(ExecAll(fs, PrepareOps(fs).value).state, Compacting))]
    case PostCompact =>
      var n := LatestCheckpoint(fs);
      if n.None? then []
      else
        var s := WithStatus(fs.state, RehydrationRequired);
        [PutState(s.(checkpoint := s.checkpoint.(sequence := n)))]
    case Rehydrate =>
      if LatestCheckpoint(fs).None? then [] else [PutState(WithStatus(fs.state, RehydrationRequired))]
    case VerifyResume(sequence) =>
      if !Resumable(fs, sequence) then []
      else
        var name := Pad4(LatestCheckpoint(fs).value);
        [PutState(fs.state.(checkpoint :=
          Checkpoint(LatestCheckpoint(fs), Resumed, Some(name), Some(name), true)))]
    case Edit(runId, planId) => [PutState(fs.state.(runId := runId, planId := planId))]
  }

  /** A command, and how many of its file operations happen before it crashes. */
  datatype Step = Step(command: Command, done: nat)

  ghost function After(fs: Fs, step: Step): Fs {
    var ops := Ops(fs, step.command);
    ExecAll(fs, if step.done < |ops| then ops[..step.done] else ops)
  }

  ghost predicate CrashFree(fs: Fs, step: Step) {
    step.done >= |Ops(fs, step.command)|
  }

  ghost function Final(fs: Fs, steps: seq<Step>): Fs
    decreases |steps|
  {
    if steps == [] then fs else After(Final(fs, steps[..|steps| - 1]), steps[|steps| - 1])
  }

  /** A run root before its first checkpoint. */
  predicate Initial(fs: Fs) {
    fs.entries == map[] && fs.latest == None && fs.state.checkpoint == EMPTY
  }

  // ----- crash safety

  /** LATEST is absent, empty, or names a checkpoint with its manifest and its CHECKPOINT.md. */
  ghost predicate LatestIsComplete(fs: Fs) {
    fs.latest.Some? && fs.latest.value != "" ==>
      && HasManifest(fs, fs.latest) && HasText(fs, fs.latest)
      && IsNumeral(fs.latest.value) && fs.latest.value == Pad4(Parse(fs.latest.value)) && Parse(fs.latest.value) > 0
  }

  /** Checkpoints are only ever added: nothing about an existing entry changes. */
  predicate Extends(fs: Fs, fs': Fs) {
    forall name :: name in fs.entries ==> name in fs'.entries && fs'.entries[name] == fs.entries[name]
  }

  lemma ExecTake(fs: Fs, ops: seq<Op>, k: nat)
    requires k < |ops|
    ensures ExecAll(fs, ops[..k + 1]) == Exec(ExecAll(fs, ops[..k]), ops[k])
  {
    assert ops[..k + 1][..k] == ops[..k];
  }

  /** The file system after the first `k` operations of a new checkpoint. */
  function NewPrefix(fs: Fs, n: nat, k: nat): Fs {
    var name := Pad4(n);
    Fs(if k == 0 then fs.entries
       else fs.entries[name := Folder(if k >= 2 then Some(Manifest(n, fs.state.runId, fs.state.planId)) else None, k >= 3)],
       if k < 4 then fs.latest else if k == 4 then Some("") else Some(name),
       if k < 6 then fs.state
       else fs.state.(checkpoint := Checkpoint(Some(n), Prepared, Some(name), Some(name), false)))
  }

  lemma PrefixOfNew(fs: Fs, n: nat, k: nat)
    requires k <= 6 && Pad4(n) !in fs.entries
    ensures ExecAll(fs, NewCheckpoint(fs, n)[..k]) == NewPrefix(fs, n, k)
    decreases k
  {
    var ops := NewCheckpoint(fs, n);
    if k == 0 {
      assert ops[..0] == [];
    } else {
      PrefixOfNew(fs, n, k - 1);
      ExecTake(fs, ops, k - 1);
    }
    hide ExecAll, Pad4;
  }

  lemma StateOpOnly(fs: Fs, state: RunState, k: nat)
    requires k <= 1
    ensures ExecAll(fs, [PutState(state)][..k]) == if k == 0 then fs else fs.(state := state)
  {
    ExecTake(fs, [PutState(state)], 0);
    assert [PutState(state)][..0] == [];
    assert [PutState(state)][..1] == [PutState(state)];
  }

  /** The entries and LATEST are untouched, or those of a prefix of a new checkpoint. */
  ghost predicate Shape(fs: Fs, fs': Fs) {
    var n := LatestSequence(fs.entries) + 1;
    || (fs'.entries == fs.entries && fs'.latest == fs.latest)
    || (Pad4(n) !in fs.entries && exists k :: 0 < k <= 6 && LooksLike(fs', NewPrefix(fs, n, k)))
  }

  predicate LooksLike(fs: Fs, like: Fs) {
    fs.entries == like.entries && fs.latest == like.latest
  }

  /** What a prefix of any command can leave: a state.json rewritten, or a prefix of a new checkpoint. */
  lemma AfterShape(fs: Fs, step: Step)
    ensures Shape(fs, After(fs, step))
  {
    var ops := Ops(fs, step.command);
    var k := if step.done < |ops| then step.done else |ops|;
    assert ops[..|ops|] == ops;
    assert After(fs, step) == ExecAll(fs, ops[..k]);
    if step.command.Prepare? {
      PrepareShape(fs, k);
    } else if step.command.PreCompact? {
      PreCompactShape(fs, k);
    } else {
      StateShape(fs, step.command, k);
    }
    hide After, ExecAll, Ops, PrepareOps, Shape;
  }

  lemma StateShape(fs: Fs, c: Command, k: nat)
    requires !c.Prepare? && !c.PreCompact? && k <= |Ops(fs, c)|
    ensures Shape(fs, ExecAll(fs, Ops(fs, c)[..k]))
  {
    var ops := Ops(fs, c);
    if ops == [] {
      assert ops[..0] == [];
    } else {
      assert ops == [PutState(ops[0].state)];
      StateOpOnly(fs, ops[0].state, k);
    }
    hide LatestSequence, LatestCheckpoint, Resumable, NewPrefix, ExecAll, Pad4;
  }

  lemma PreCompactShape(fs: Fs, k: nat)
    requires k <= |Ops(fs, PreCompact)|
    ensures Shape(fs, ExecAll(fs, Ops(fs, PreCompact)[..k]))
  {
    var ops := Ops(fs, PreCompact);
    hide PrepareOps;
    if PrepareOps(fs).None? {
      assert ops[..0] == [];
    } else {
      var p := PrepareOps(fs).value;
      assert p[..|p|] == p;
      if k <= |p| {
        assert ops[..k] == p[..k];
        PrepareShape(fs, k);
      } else {
        assert ops[..|p|] == p;
        ExecTake(fs, ops, |p|);
        PrepareShape(fs, |p|);
      }
    }
    hide LatestSequence, NewPrefix, ExecAll, Pad4;
  }

  lemma PrepareShape(fs: Fs, k: nat)
    requires PrepareOps(fs).Some? ==> k <= |PrepareOps(fs).value|
    requires PrepareOps(fs).None? ==> k == 0
    ensures var ops := if PrepareOps(fs).Some? then PrepareOps(fs).value else [];
            Shape(fs, ExecAll(fs, ops[..k]))
  {
    hide NewCheckpoint, NewPrefix, Reusable, Exec, LatestSequence, Pad4;
    var ops := if PrepareOps(fs).Some? then PrepareOps(fs).value else [];
    var n := LatestSequence(fs.entries) + 1;
    if k == 0 {
      assert ops[..0] == [];
    } else {
      PrefixOfNew(fs, n, k);
      assert LooksLike(ExecAll(fs, ops[..k]), NewPrefix(fs, n, k));
    }
  }

  /** A crash at any point leaves every earlier checkpoint as it was, and LATEST usable or empty. */
  lemma StepIsCrashSafe(fs: Fs, step: Step)
    requires LatestIsComplete(fs)
    ensures LatestIsComplete(After(fs, step)) && Extends(fs, After(fs, step))
  {
    hide After, Ops, LatestSequence, ExecAll;
    AfterShape(fs, step);
    var fs' := After(fs, step);
    var n := LatestSequence(fs.entries) + 1;
    if !LooksLike(fs', fs) {
      var k :| 0 < k <= 6 && LooksLike(fs', NewPrefix(fs, n, k));
      PrefixIsCrashSafe(fs, fs', n, k);
    }
  }

  lemma PrefixIsCrashSafe(fs: Fs, fs': Fs, n: nat, k: nat)
    requires LatestIsComplete(fs) && 0 < k <= 6 && n > 0 && Pad4(n) !in fs.entries
    requires LooksLike(fs', NewPrefix(fs, n, k))
    ensures LatestIsComplete(fs') && Extends(fs, fs')
  {
    ParsePad4(n);
    hide Pad4, IsNumeral, Parse;
  }

  /** A directory a command creates has a number above all that were there. */
  lemma NewNumbersAreLarger(fs: Fs, step: Step, name: string)
    requires IsNumbered(After(fs, step).entries, name) && !IsNumbered(fs.entries, name)
    ensures Parse(name) == LatestSequence(fs.entries) + 1
    ensures LatestSequence(After(fs, step).entries) == LatestSequence(fs.entries) + 1
  {
    AfterShape(fs, step);
    var fs' := After(fs, step);
    var n := LatestSequence(fs.entries) + 1;
    hide After, Ops, ExecAll;
    var k :| 0 < k <= 6 && LooksLike(fs', NewPrefix(fs, n, k));
    ParsePad4(n);
    assert name == Pad4(n);
    assert IsLatestSequence(fs'.entries, n) by {
      forall other | IsNumbered(fs'.entries, other)
        ensures Parse(other) <= n
      {
        assert other != name ==> IsNumbered(fs.entries, other);
      }
    }
    LatestIsUnique(fs'.entries, LatestSequence(fs'.entries), n);
  }

  lemma {:induction false} RunIsCrashSafe(fs: Fs, steps: seq<Step>)
    requires LatestIsComplete(fs)
    ensures LatestIsComplete(Final(fs, steps)) && Extends(fs, Final(fs, steps))
    decreases |steps|
  {
    if steps != [] {
      RunIsCrashSafe(fs, steps[..|steps| - 1]);
      StepIsCrashSafe(Final(fs, steps[..|steps| - 1]), steps[|steps| - 1]);
      hide After, LatestIsComplete;
    }
  }

  /** Whatever crashes, a sequence number is given out once: a later step never creates an earlier directory. */
  lemma NumbersAreNotReused(fs: Fs, steps: seq<Step>, step: Step, name: string, i: nat, earlier: string)
    requires Initial(fs) && i <= |steps|
    requires var f := Final(fs, steps); IsNumbered(After(f, step).entries, name) && !IsNumbered(f.entries, name)
    requires IsNumbered(Final(fs, steps[..i]).entries, earlier)
    ensures Parse(earlier) < Parse(name)
  {
    var f, mid := Final(fs, steps), Final(fs, steps[..i]);
    NewNumbersAreLarger(f, step, name);
    RunSuffix(fs, steps, i);
    RunIsCrashSafe(fs, steps[..i]);
    RunIsCrashSafe(mid, steps[i..]);
    hide Final, After, LatestIsComplete, LatestSequence;
    assert IsNumbered(f.entries, earlier);
  }

  lemma {:induction false} RunSuffix(fs: Fs, steps: seq<Step>, i: nat)
    requires i <= |steps|
    ensures Final(Final(fs, steps[..i]), steps[i..]) == Final(fs, steps)
    decreases |steps|
  {
    hide After;
    if i == |steps| {
      assert steps[..i] == steps;
      assert steps[i..] == [];
    } else {
      var last := |steps| - 1;
      assert steps[..last][..i] == steps[..i];
      assert steps[i..][..last - i] == steps[..last][i..];
      RunSuffix(fs, steps[..last], i);
    }
  }

  // ----- the validator

  /** The `context_checkpoint` rules of check_state.py. */
  predicate Valid(fs: Fs) {
    var c := fs.state.checkpoint;
    && (c.status != NoStatus ==>
          && c.sequence.Some? && c.sequence.value != 0
          && HasText(fs, c.checkpointPath) && HasManifest(fs, c.manifestPath))
    && (c.status == Resumed ==> c.continuityVerified)
  }

  /** Either nothing was ever checkpointed, or state.json records a complete checkpoint. */
  ghost predicate Recorded(fs: Fs) {
    var c := fs.state.checkpoint;
    && LatestIsComplete(fs) && Valid(fs) && fs.latest != Some("")
    && (fs.latest.None? ==> fs.entries == map[] && c == EMPTY)
    && (fs.latest.Some? ==> c.status != NoStatus)
  }

  lemma CompleteStepRecords(fs: Fs, step: Step)
    requires Recorded(fs) && CrashFree(fs, step)
    ensures Recorded(After(fs, step))
  {
    if step.command.Prepare? || step.command.PreCompact? {
      if PrepareOps(fs).Some? {
        PrepareRecords(fs);
        CompactingRecords(fs);
      }
      hide Recorded, PrepareOps, LatestSequence, LatestCheckpoint, Resumable;
    } else {
      StateStepRecords(fs, step.command);
      hide Recorded, PrepareOps, LatestSequence, LatestCheckpoint, Resumable;
    }
  }

  lemma CompactingRecords(fs: Fs)
    requires PrepareOps(fs).Some?
    requires var fs' := ExecAll(fs, PrepareOps(fs).value); Recorded(fs') && fs'.latest.Some?
    ensures Recorded(ExecAll(fs, Ops(fs, PreCompact)))
  {
    var p := PrepareOps(fs).value;
    var ops := Ops(fs, PreCompact);
    assert ops[..|ops| - 1] == p;
    hide PrepareOps;
  }

  lemma StateStepRecords(fs: Fs, c: Command)
    requires Recorded(fs) && !c.Prepare? && !c.PreCompact?
    ensures Recorded(ExecAll(fs, Ops(fs, c)))
  {
    var ops := Ops(fs, c);
    if ops != [] {
      StateOpOnly(fs, ops[0].state, 1);
      assert ops[..1] == ops;
      ParseLatest(fs);
    }
    hide LatestSequence, LatestCheckpoint, IsNumeral;
  }

  lemma PrepareRecords(fs: Fs)
    requires Recorded(fs) && PrepareOps(fs).Some?
    ensures var fs' := ExecAll(fs, PrepareOps(fs).value); Recorded(fs') && fs'.latest.Some?
  {
    var n := LatestSequence(fs.entries) + 1;
    if !Reusable(fs) {
      PrefixOfNew(fs, n, 6);
      assert NewCheckpoint(fs, n)[..6] == NewCheckpoint(fs, n);
      ParsePad4(n);
      NewRecords(fs, n);
    }
    hide LatestSequence, NewCheckpoint, NewPrefix, Pad4;
  }

  lemma NewRecords(fs: Fs, n: nat)
    requires n > 0
    ensures Recorded(NewPrefix(fs, n, 6))
  {
    ParsePad4(n);
    hide Pad4;
  }

  lemma ParseLatest(fs: Fs)
    requires Recorded(fs)
    ensures LatestCheckpoint(fs).Some? <==> fs.latest.Some?
    ensures LatestCheckpoint(fs).Some? ==> LatestCheckpoint(fs).value > 0 && Pad4(LatestCheckpoint(fs).value) == fs.latest.value
  {
  }

  /** Without crashes every state the commands write passes the validator. */
  lemma {:induction false} CrashFreeRunsAreValid(fs: Fs, steps: seq<Step>)
    requires Initial(fs)
    requires forall i :: 0 <= i < |steps| ==> CrashFree(Final(fs, steps[..i]), steps[i])
    ensures Recorded(Final(fs, steps)) && Valid(Final(fs, steps))
    decreases |steps|
  {
    if steps != [] {
      var last := |steps| - 1;
      var rest := steps[..last];
      forall i | 0 <= i < |rest|
        ensures CrashFree(Final(fs, rest[..i]), rest[i])
      {
        assert rest[..i] == steps[..i];
      }
      CrashFreeRunsAreValid(fs, rest);
      CompleteStepRecords(Final(fs, rest), steps[last]);
    }
  }

  // ----- what a crash can lead to

  /**
   After crashes, `rehydrate` and the post-compact hook leave a valid state exactly when
   they find no checkpoint to name or state.json already records one whose files exist.
   */
  lemma RehydrateIsValidIffRecorded(fs: Fs)
    requires LatestCheckpoint(fs).Some?
    ensures var c := fs.state.checkpoint;
            Valid(After(fs, Step(Rehydrate, 1))) <==>
              c.sequence.Some? && c.sequence.value != 0 && HasText(fs, c.checkpointPath) && HasManifest(fs, c.manifestPath)
    ensures var c := fs.state.checkpoint;
            Valid(After(fs, Step(PostCompact, 1))) <==>
              HasText(fs, c.checkpointPath) && HasManifest(fs, c.manifestPath)
  {
    var s := WithStatus(fs.state, RehydrationRequired);
    StateOpOnly(fs, s, 1);
    StateOpOnly(fs, s.(checkpoint := s.checkpoint.(sequence := LatestCheckpoint(fs))), 1);
    assert forall state :: [PutState(state)][..1] == [PutState(state)];
  }

  /** A first checkpoint that crashes before state.json is written, followed by a rehydration, is rejected. */
  lemma CrashThenRehydrateIsRejected(fs: Fs)
    requires Initial(fs)
    ensures var crashed := After(fs, Step(Prepare, 5));
            && LatestIsComplete(crashed) && Valid(crashed)
            && LatestCheckpoint(crashed) == Some(1)
            && !Valid(After(crashed, Step(Rehydrate, 1)))
  {
    FirstPrefix(fs, 5);
    var crashed := After(fs, Step(Prepare, 5));
    ParsePad4(1);
    StepIsCrashSafe(fs, Step(Prepare, 5));
    hide After, NewCheckpoint, LatestSequence, Pad4, LatestIsComplete;
    RehydrateIsValidIffRecorded(crashed);
  }

  /** A verified resume leaves a valid state exactly when the checkpoint it names has its CHECKPOINT.md. */
  lemma ResumeIsValidIffTextExists(fs: Fs, sequence: Option<nat>)
    requires Resumable(fs, sequence)
    ensures Valid(After(fs, Step(VerifyResume(sequence), 1))) <==> HasText(fs, Some(Pad4(LatestCheckpoint(fs).value)))
    ensures LatestIsComplete(fs) && fs.latest.Some? ==> Valid(After(fs, Step(VerifyResume(sequence), 1)))
  {
    var name := Pad4(LatestCheckpoint(fs).value);
    var state := fs.state.(checkpoint := Checkpoint(LatestCheckpoint(fs), Resumed, Some(name), Some(name), true));
    StateOpOnly(fs, state, 1);
    assert [PutState(state)][..1] == [PutState(state)];
  }

  // ----- runs with crashes, and the validator

  /** state.json records nothing, or a checkpoint whose files exist. */
  ghost predicate Sane(fs: Fs) {
    && LatestIsComplete(fs)
    && (fs.state.checkpoint == EMPTY || (fs.state.checkpoint.status != NoStatus && Valid(fs)))
  }

  /**
   A rehydration finds a checkpoint on disk that state.json knows nothing of, or a resume
   is verified against a checkpoint without its CHECKPOINT.md.
   */
  ghost predicate Lapse(fs: Fs, step: Step) {
    step.done > 0
    && match step.command
       case Rehydrate => LatestCheckpoint(fs).Some? && fs.state.checkpoint == EMPTY
       case PostCompact => LatestCheckpoint(fs).Some? && fs.state.checkpoint == EMPTY
       case VerifyResume(sequence) => Resumable(fs, sequence) && !HasText(fs, Some(Pad4(LatestCheckpoint(fs).value)))
       case _ => false
  }

  lemma PrefixIsSane(fs: Fs, n: nat, k: nat)
    requires Sane(fs) && 0 < k <= 6 && n > 0 && Pad4(n) !in fs.entries
    ensures Sane(NewPrefix(fs, n, k)) && (k == 6 ==> NewPrefix(fs, n, k).state.checkpoint.status == Prepared)
  {
    PrefixIsCrashSafe(fs, NewPrefix(fs, n, k), n, k);
    hide Pad4, LatestIsComplete;
  }

  /** Whatever prefix of a prepare happens, and a complete one leaves a checkpoint recorded. */
  lemma PrepareIsSane(fs: Fs, k: nat)
    requires Sane(fs) && PrepareOps(fs).Some? && k <= |PrepareOps(fs).value|
    ensures Sane(ExecAll(fs, PrepareOps(fs).value[..k]))
    ensures k == |PrepareOps(fs).value| ==> ExecAll(fs, PrepareOps(fs).value[..k]).state.checkpoint.status != NoStatus
  {
    var ops, n := PrepareOps(fs).value, LatestSequence(fs.entries) + 1;
    if k == 0 {
      assert ops[..0] == [];
    } else {
      PrefixOfNew(fs, n, k);
      PrefixIsSane(fs, n, k);
    }
    hide Sane, NewCheckpoint, NewPrefix, LatestSequence, Pad4;
  }

  lemma PreCompactIsSane(fs: Fs, k: nat)
    requires Sane(fs) && k <= |Ops(fs, PreCompact)|
    ensures Sane(ExecAll(fs, Ops(fs, PreCompact)[..k]))
  {
    hide PrepareOps, LatestIsComplete;
    var ops := Ops(fs, PreCompact);
    if PrepareOps(fs).None? {
      assert ops[..0] == [];
    } else {
      var p := PrepareOps(fs).value;
      assert p[..|p|] == p;
      if k <= |p| {
        assert ops[..k] == p[..k];
        PrepareIsSane(fs, k);
      } else {
        PrepareIsSane(fs, |p|);
        assert ops[..k] == ops && ops[..|p|] == p;
        PutStateLast(fs, ops, ops[|p|].state);
        StatusStaysSane(ExecAll(fs, p), Compacting);
      }
    }
    hide Sane, ExecAll;
  }

  lemma StatusStaysSane(fs: Fs, status: Status)
    requires Sane(fs) && fs.state.checkpoint.status != NoStatus && status != NoStatus && status != Resumed
    ensures Sane(fs.(state := WithStatus(fs.state, status)))
  {
  }

  lemma StateIsSane(fs: Fs, step: Step)
    requires Sane(fs) && !step.command.Prepare? && !step.command.PreCompact?
    ensures Lapse(fs, step) ==> !Valid(After(fs, step))
    ensures !Lapse(fs, step) ==> Sane(After(fs, step))
  {
    var ops := Ops(fs, step.command);
    if ops == [] || step.done == 0 {
      assert ops[..0] == [];
    } else {
      StateOpOnly(fs, ops[0].state, 1);
      assert ops[..1] == ops;
    }
    hide LatestSequence, Pad4;
  }

  /** One step, crashed or not, from a sane state: it leaves a sane one unless it is a lapse, and a lapse is rejected. */
  lemma StepIsSaneIffNoLapse(fs: Fs, step: Step)
    requires Sane(fs)
    ensures Lapse(fs, step) ==> !Valid(After(fs, step))
    ensures !Lapse(fs, step) ==> Sane(After(fs, step)) && Valid(After(fs, step))
  {
    var ops := Ops(fs, step.command);
    var k := if step.done < |ops| then step.done else |ops|;
    assert ops[..|ops|] == ops;
    assert After(fs, step) == ExecAll(fs, ops[..k]);
    hide After, Resumable, LatestCheckpoint;
    match step.command
    case Prepare =>
      if PrepareOps(fs).Some? {
        PrepareIsSane(fs, k);
      } else {
        assert ops[..0] == [];
      }
    case PreCompact => PreCompactIsSane(fs, k);
    case _ => StateIsSane(fs, step);
    hide PrepareOps, LatestIsComplete;
  }

  /** Every state of the run passes the validator. */
  ghost predicate AlwaysValid(fs: Fs, steps: seq<Step>) {
    forall i :: 0 <= i <= |steps| ==> Valid(Final(fs, steps[..i]))
  }

  ghost predicate NoLapse(fs: Fs, steps: seq<Step>) {
    forall i :: 0 <= i < |steps| ==> !Lapse(Final(fs, steps[..i]), steps[i])
  }

  /** Over runs with any crashes the validator accepts every state if and only if no step is a lapse. */
  lemma {:induction false} CrashRunsAreValidIffNoLapse(fs: Fs, steps: seq<Step>)
    requires Initial(fs)
    ensures AlwaysValid(fs, steps) <==> NoLapse(fs, steps)
    ensures NoLapse(fs, steps) ==> Sane(Final(fs, steps))
    decreases |steps|
  {
    hide After, Lapse, Sane, Valid;
    if steps == [] {
      InitialIsSane(fs);
      assert forall i :: 0 <= i <= |steps| ==> steps[..i] == [];
    } else {
      var last := |steps| - 1;
      var rest := steps[..last];
      CrashRunsAreValidIffNoLapse(fs, rest);
      assert forall i :: 0 <= i <= last ==> rest[..i] == steps[..i];
      assert steps[..last + 1] == steps;
      OneMoreStep(fs, steps);
      if NoLapse(fs, rest) {
        StepIsSaneIffNoLapse(Final(fs, rest), steps[last]);
      }
    }
  }

  lemma InitialIsSane(fs: Fs)
    requires Initial(fs)
    ensures Sane(fs) && Valid(fs)
  {
  }

  lemma OneMoreStep(fs: Fs, steps: seq<Step>)
    requires steps != []
    ensures var last := |steps| - 1;
            && (AlwaysValid(fs, steps) <==> AlwaysValid(fs, steps[..last]) && Valid(Final(fs, steps)))
            && (NoLapse(fs, steps) <==> NoLapse(fs, steps[..last]) && !Lapse(Final(fs, steps[..last]), steps[last]))
  {
    hide Valid, Lapse, Final;
    var last := |steps| - 1;
    var rest := steps[..last];
    assert forall i :: 0 <= i <= last ==> rest[..i] == steps[..i];
    assert steps[..last + 1] == steps;
    if AlwaysValid(fs, steps) {
      forall i | 0 <= i <= last
        ensures Valid(Final(fs, rest[..i]))
      {
        assert Valid(Final(fs, steps[..i]));
      }
    }
    if AlwaysValid(fs, rest) && Valid(Final(fs, steps)) {
      forall i | 0 <= i <= |steps|
        ensures Valid(Final(fs, steps[..i]))
      {
        assert i <= last ==> Valid(Final(fs, rest[..i]));
      }
    }
    if NoLapse(fs, steps) {
      forall i | 0 <= i < last
        ensures !Lapse(Final(fs, rest[..i]), rest[i])
      {
        assert !Lapse(Final(fs, steps[..i]), steps[i]);
      }
    }
    if NoLapse(fs, rest) && !Lapse(Final(fs, rest), steps[last]) {
      forall i | 0 <= i < |steps|
        ensures !Lapse(Final(fs, steps[..i]), steps[i])
      {
        assert i < last ==> !Lapse(Final(fs, rest[..i]), rest[i]);
      }
    }
  }

  lemma PutStateLast(fs: Fs, ops: seq<Op>, state: RunState)
    requires ops != [] && ops[|ops| - 1] == PutState(state)
    ensures ExecAll(fs, ops) == ExecAll(fs, ops[..|ops| - 1]).(state := state)
  {
  }

  // ----- what is prepared can be resumed

  /** A prepare that makes a new checkpoint and completes. */
  ghost predicate MakesNew(fs: Fs) {
    !Reusable(fs) && PrepareOps(fs).Some?
  }

  /** The number of the next checkpoint. */
  ghost function Next(fs: Fs): nat {
    LatestSequence(fs.entries) + 1
  }

  /** LATEST names checkpoint `n`, which is complete and records these identities. */
  ghost predicate Offers(fs: Fs, n: nat, runId: string, planId: string) {
    && n > 0 && fs.latest == Some(Pad4(n)) && Pad4(n) in fs.entries
    && fs.entries[Pad4(n)] == Folder(Some(Manifest(n, runId, planId)), true)
  }

  lemma PreparedOffers(fs: Fs)
    requires MakesNew(fs)
    ensures var fs' := ExecAll(fs, PrepareOps(fs).value);
            && Offers(fs', Next(fs), fs.state.runId, fs.state.planId)
            && fs'.state == RunState(fs.state.runId, fs.state.planId,
                 Checkpoint(Some(Next(fs)), Prepared, Some(Pad4(Next(fs))), Some(Pad4(Next(fs))), false))
            && PreparedSequence(fs) == Next(fs) && Reusable(fs') && PreparedSequence(fs') == Next(fs)
            && forall name :: name in fs.entries ==> name in fs'.entries && fs'.entries[name] == fs.entries[name]
  {
    var n := Next(fs);
    PrefixOfNew(fs, n, 6);
    assert NewCheckpoint(fs, n)[..6] == NewCheckpoint(fs, n);
    hide LatestSequence, NewCheckpoint, ExecAll, Pad4;
  }

  /** What a resume needs, and what it records. */
  lemma ResumeOfOffered(fs: Fs, n: nat, runId: string, planId: string, sequence: Option<nat>)
    requires Offers(fs, n, runId, planId)
    ensures var fs' := After(fs, Step(VerifyResume(sequence), 1));
            var same := fs.state.runId == runId && fs.state.planId == planId && (sequence == None || sequence == Some(n));
            && (Resumable(fs, sequence) <==> same)
            && fs' == (if !same then fs
                       else fs.(state := RunState(runId, planId, Checkpoint(Some(n), Resumed, Some(Pad4(n)), Some(Pad4(n)), true))))
            && (same ==> Valid(fs'))
  {
    ParsePad4(n);
    assert LatestCheckpoint(fs) == Some(n);
    hide LatestSequence, LatestCheckpoint, Pad4;
    if Resumable(fs, sequence) {
      var state := fs.state.(checkpoint := Checkpoint(Some(n), Resumed, Some(Pad4(n)), Some(Pad4(n)), true));
      StateOpOnly(fs, state, 1);
      assert [PutState(state)][..1] == [PutState(state)];
    }
  }

  /** Hooks, edits and resumes never write LATEST, and neither does a prepare that uses a checkpoint again. */
  lemma HooksKeepLatest(fs: Fs, step: Step)
    requires (step.command.Prepare? || step.command.PreCompact?) ==> Reusable(fs)
    ensures After(fs, step).latest == fs.latest
  {
    var ops := Ops(fs, step.command);
    var k := if step.done < |ops| then step.done else |ops|;
    assert ops[..|ops|] == ops;
    assert |ops| == 1 ==> ops[..1] == [ops[0]] && ops[..0] == [];
    if |ops| == 1 {
      StateOpOnly(fs, ops[0].state, k);
      assert ops == [PutState(ops[0].state)];
    }
    hide LatestSequence, LatestCheckpoint, Resumable, Pad4, Reusable;
  }

  lemma {:induction false} HookRunsKeepLatest(fs: Fs, steps: seq<Step>)
    requires forall i :: 0 <= i < |steps| && (steps[i].command.Prepare? || steps[i].command.PreCompact?) ==>
               Reusable(Final(fs, steps[..i]))
    ensures Final(fs, steps).latest == fs.latest
    decreases |steps|
  {
    hide After, Reusable;
    if steps != [] {
      var last := |steps| - 1;
      var rest := steps[..last];
      forall i | 0 <= i < |rest| && (rest[i].command.Prepare? || rest[i].command.PreCompact?)
        ensures Reusable(Final(fs, rest[..i]))
      {
        assert rest[..i] == steps[..i];
      }
      HookRunsKeepLatest(fs, rest);
      HooksKeepLatest(Final(fs, rest), steps[last]);
    }
  }

  /** Nothing that leaves LATEST alone takes the checkpoint back, crashed or not. */
  lemma {:induction false} OfferStands(fs: Fs, steps: seq<Step>, n: nat, runId: string, planId: string)
    requires LatestIsComplete(fs) && Offers(fs, n, runId, planId) && Final(fs, steps).latest == fs.latest
    ensures Offers(Final(fs, steps), n, runId, planId)
  {
    RunIsCrashSafe(fs, steps);
    hide Final, LatestIsComplete, Pad4;
  }

  /**
   A checkpoint that was prepared completely is resumed, after any steps and crashes that
   leave LATEST as it is, exactly when neither identity was edited since and no other
   number is asked for.
   */
  lemma PreparedIsResumable(fs: Fs, steps: seq<Step>, sequence: Option<nat>)
    requires LatestIsComplete(fs) && MakesNew(fs)
    requires Final(ExecAll(fs, PrepareOps(fs).value), steps).latest == ExecAll(fs, PrepareOps(fs).value).latest
    ensures var n, f := Next(fs), Final(ExecAll(fs, PrepareOps(fs).value), steps);
            var after := After(f, Step(VerifyResume(sequence), 1));
            if f.state.runId == fs.state.runId && f.state.planId == fs.state.planId && (sequence == None || sequence == Some(n)) then
              && Resumable(f, sequence) && Valid(after)
              && after.state.checkpoint.sequence == Some(n)
              && after.state.checkpoint.status == Resumed && after.state.checkpoint.continuityVerified
            else !Resumable(f, sequence) && after == f
  {
    PreparedOffers(fs);
    PreparedIsComplete(fs);
    hide LatestIsComplete, PrepareOps, MakesNew, Offers, Resumable, Valid, After, Final, ExecAll;
    var fs1 := ExecAll(fs, PrepareOps(fs).value);
    OfferStands(fs1, steps, Next(fs), fs.state.runId, fs.state.planId);
    ResumeOfOffered(Final(fs1, steps), Next(fs), fs.state.runId, fs.state.planId, sequence);
  }

  lemma PreparedIsComplete(fs: Fs)
    requires LatestIsComplete(fs) && MakesNew(fs)
    ensures LatestIsComplete(ExecAll(fs, PrepareOps(fs).value))
  {
    PreparedOffers(fs);
    ParsePad4(Next(fs));
    hide LatestSequence, PrepareOps, MakesNew, ExecAll, Pad4;
  }

  /** The compaction cycle, each of its steps complete: pre-compact, post-compact, rehydrate. */
  ghost function Cycle(): seq<Step> {
    [Step(PreCompact, 1), Step(PostCompact, 1), Step(Rehydrate, 1)]
  }

  lemma ThreeSteps(fs: Fs, a: Step, b: Step, c: Step)
    ensures Final(fs, [a, b, c]) == After(After(After(fs, a), b), c)
  {
    assert [a, b, c][..2] == [a, b] && [a, b][..1] == [a] && [a][..0] == [];
    hide After;
    assert Final(fs, []) == fs;
    assert Final(fs, [a]) == After(fs, a);
    assert Final(fs, [a, b]) == After(After(fs, a), b);
  }

  /** After a prepare the cycle uses that checkpoint and ends where a resume is asked for, by its number or by none. */
  lemma CycleEndsInResume(fs: Fs)
    requires LatestIsComplete(fs) && MakesNew(fs)
    ensures var n, f := Next(fs), Final(ExecAll(fs, PrepareOps(fs).value), Cycle());
            && f.state.checkpoint == Checkpoint(Some(n), RehydrationRequired, Some(Pad4(n)), Some(Pad4(n)), false)
            && Resumable(f, None) && Resumable(f, Some(n)) && forall m :: m != n ==> !Resumable(f, Some(m))
  {
    PreparedOffers(fs);
    var fs1 := ExecAll(fs, PrepareOps(fs).value);
    var n := Next(fs);
    hide PrepareOps, MakesNew, ExecAll, After, LatestSequence, LatestIsComplete, Reusable, Final;
    var fs2 := fs1.(state := WithStatus(fs1.state, Compacting));
    var fs3 := fs1.(state := WithStatus(fs1.state, RehydrationRequired));
    PreCompactReuses(fs1);
    OfferedHooks(fs2, n, fs.state.runId, fs.state.planId);
    OfferedHooks(fs3, n, fs.state.runId, fs.state.planId);
    ThreeSteps(fs1, Step(PreCompact, 1), Step(PostCompact, 1), Step(Rehydrate, 1));
    ResumeOfOffered(fs3, n, fs.state.runId, fs.state.planId, None);
    forall m: nat
      ensures Resumable(fs3, Some(m)) <==> m == n
    {
      ResumeOfOffered(fs3, n, fs.state.runId, fs.state.planId, Some(m));
    }
  }

  /** A prepare, and the hook before a compaction, use a prepared checkpoint again; the hook marks it. */
  lemma PreCompactReuses(fs: Fs)
    requires Reusable(fs)
    ensures PrepareOps(fs) == Some([]) && After(fs, Step(Prepare, 0)) == fs
    ensures After(fs, Step(PreCompact, 1)) == fs.(state := WithStatus(fs.state, Compacting))
  {
    var state := WithStatus(fs.state, Compacting);
    StateOpOnly(fs, state, 1);
    assert [] + [PutState(state)] == [PutState(state)];
    assert [PutState(state)][..1] == [PutState(state)];
    hide LatestSequence, Reusable;
  }

  /** The two hooks after a compaction set the status, and the first also the number. */
  lemma OfferedHooks(fs: Fs, n: nat, runId: string, planId: string)
    requires Offers(fs, n, runId, planId)
    ensures After(fs, Step(PostCompact, 1)) == fs.(state := fs.state.(checkpoint :=
              fs.state.checkpoint.(status := RehydrationRequired, sequence := Some(n))))
    ensures After(fs, Step(Rehydrate, 1)) == fs.(state := fs.state.(checkpoint :=
              fs.state.checkpoint.(status := RehydrationRequired)))
  {
    ParsePad4(n);
    assert LatestCheckpoint(fs) == Some(n);
    hide LatestSequence, LatestCheckpoint, Pad4;
    var s := WithStatus(fs.state, RehydrationRequired);
    StateOpOnly(fs, s, 1);
    StateOpOnly(fs, s.(checkpoint := s.checkpoint.(sequence := Some(n))), 1);
    assert forall state :: [PutState(state)][..1] == [PutState(state)];
  }

  /**
   What a crash of the very first prepare leaves to be found: nothing before the directory,
   the directory before LATEST is touched, an unreadable LATEST, and then LATEST.
   */
  lemma FirstCrashLeaves(fs: Fs, k: nat)
    requires Initial(fs) && k <= 6
    ensures LatestCheckpoint(After(fs, Step(Prepare, k))) == if k == 0 || k == 4 then None else Some(1)
  {
    FirstPrefix(fs, k);
    ParsePad4(1);
    var f := NewPrefix(fs, 1, k);
    if 1 <= k < 4 {
      assert IsNumbered(f.entries, Pad4(1));
      assert IsLatestSequence(f.entries, 1);
      LatestIsUnique(f.entries, 1, LatestSequence(f.entries));
    } else if k == 0 {
      assert IsLatestSequence(f.entries, 0);
      LatestIsUnique(f.entries, 0, LatestSequence(f.entries));
    }
    hide After, LatestSequence, Pad4;
  }

  lemma FirstPrefix(fs: Fs, k: nat)
    requires Initial(fs) && k <= 6
    ensures After(fs, Step(Prepare, k)) == NewPrefix(fs, 1, k)
  {
    assert LatestSequence(fs.entries) == 0 by {
      assert IsLatestSequence(fs.entries, LatestSequence(fs.entries));
    }
    PrefixOfNew(fs, 1, k);
    assert NewCheckpoint(fs, 1)[..6] == NewCheckpoint(fs, 1);
    hide NewCheckpoint, NewPrefix, LatestSequence, Pad4, ExecAll;
  }

  // ----- the code

  class RunRoot {
    var entries: map<string, Entry>
    var latest: Option<string>
    var state: RunState

    function View(): Fs
      reads this
    {
      Fs(entries, latest, state)
    }

    constructor (fs: Fs)
      ensures View() == fs
    {
      entries, latest, state := fs.entries, fs.latest, fs.state;
    }

    /** The loop over the children of `compactions`. */
    method FindLatestSequence() returns (n: nat)
      ensures n == LatestSequence(entries)
    {
      n := 0;
      var rest := entries.Keys;
      while rest != {}
        invariant rest <= entries.Keys
        invariant forall name :: IsNumbered(entries, name) && name !in rest ==> Parse(name) <= n
        invariant n > 0 ==> exists name :: IsNumbered(entries, name) && Parse(name) == n
        decreases rest
      {
        var name :| name in rest;
        if entries[name].Folder? && IsNumeral(name) && Parse(name) > n {
          assert IsNumbered(entries, name);
          n := Parse(name);
        }
        rest := rest - {name};
      }
      LatestIsUnique(entries, n, LatestSequence(entries));
    }

    method LatestOnDisk() returns (n: Option<nat>)
      ensures n == LatestCheckpoint(View())
    {
      if latest.Some? {
        if !IsNumeral(latest.value) || Parse(latest.value) == 0 {
          return None;
        }
        return Some(Parse(latest.value));
      }
      var s := FindLatestSequence();
      n := if s > 0 then Some(s) else None;
    }

    /** None when the directory cannot be created. */
    method PrepareCheckpoint() returns (sequence: Option<nat>)
      modifies this
      ensures sequence.None? <==> PrepareOps(old(View())).None?
      ensures sequence.Some? ==> sequence.value == PreparedSequence(old(View()))
      ensures View() == ExecAll(old(View()), if PrepareOps(old(View())).Some? then PrepareOps(old(View())).value else [])
    {
      ghost var fs := View();
      if Reusable(View()) {
        sequence := state.checkpoint.sequence;
        if sequence.None? || sequence.value == 0 {
          var n := FindLatestSequence();
          sequence := Some(n);
        }
        return;
      }
      var last := FindLatestSequence();
      var n := last + 1;
      var name := Pad4(n);
      if name in entries {
        return None;
      }
      PrefixOfNew(fs, n, 6);
      assert NewCheckpoint(fs, n)[..6] == NewCheckpoint(fs, n);
      entries := entries[name := Folder(None, false)];
      entries := entries[name := entries[name].(manifest := Some(Manifest(n, state.runId, state.planId)))];
      entries := entries[name := entries[name].(text := true)];
      latest := Some("");
      latest := Some(name);
      state := state.(checkpoint := Checkpoint(Some(n), Prepared, Some(name), Some(name), false));
      sequence := Some(n);
    }

    method SetCheckpointStatus(status: Status, sequence: Option<nat>)
      modifies `state
      ensures state == WithStatus(old(state), status).(checkpoint :=
        if sequence.Some? then WithStatus(old(state), status).checkpoint.(sequence := sequence)
        else WithStatus(old(state), status).checkpoint)
    {
      var c := state.checkpoint.(status := status);
      if sequence.Some? {
        c := c.(sequence := sequence);
      }
      state := state.(checkpoint := c);
    }

    /** The pre-compact hook; it blocks the compaction when the checkpoint cannot be made. */
    method PreCompactHook() returns (blocked: bool)
      modifies this
      ensures blocked <==> PrepareOps(old(View())).None?
      ensures View() == ExecAll(old(View()), Ops(old(View()), PreCompact))
    {
      hide Reusable, LatestSequence, Exec;
      ghost var fs := View();
      var sequence := PrepareCheckpoint();
      if sequence.None? {
        return true;
      }
      ghost var ops := Ops(fs, PreCompact);
      assert ops[..|ops| - 1] == PrepareOps(fs).value;
      ghost var prepared := state;
      SetCheckpointStatus(Compacting, None);
      PutStateLast(fs, ops, WithStatus(prepared, Compacting));
      blocked := false;
    }

    method PostCompactHook() returns (sequence: Option<nat>)
      modifies `state
      ensures sequence == LatestCheckpoint(old(View()))
      ensures View() == After(old(View()), Step(PostCompact, 1))
    {
      sequence := LatestOnDisk();
      if sequence.Some? {
        ghost var s := WithStatus(state, RehydrationRequired);
        s := s.(checkpoint := s.checkpoint.(sequence := sequence));
        StateOpOnly(View(), s, 1);
        assert [PutState(s)][..1] == [PutState(s)];
        SetCheckpointStatus(RehydrationRequired, sequence);
      }
    }

    method RehydrateText() returns (sequence: Option<nat>)
      modifies `state
      ensures sequence == LatestCheckpoint(old(View()))
      ensures View() == After(old(View()), Step(Rehydrate, 1))
    {
      sequence := LatestOnDisk();
      if sequence.Some? {
        StateOpOnly(View(), WithStatus(state, RehydrationRequired), 1);
        assert [PutState(WithStatus(state, RehydrationRequired))][..1] == [PutState(WithStatus(state, RehydrationRequired))];
        SetCheckpointStatus(RehydrationRequired, None);
      }
    }

    method VerifyResumed(requested: Option<nat>) returns (ok: bool)
      modifies `state
      ensures ok <==> Resumable(old(View()), requested)
      ensures View() == After(old(View()), Step(VerifyResume(requested), 1))
    {
      var sequence := LatestOnDisk();
      if sequence.None? || (requested.Some? && requested != sequence) {
        return false;
      }
      var name := Pad4(sequence.value);
      if !HasManifest(View(), Some(name)) {
        return false;
      }
      var manifest := entries[name].manifest.value;
      if state.runId != manifest.runId || state.planId != manifest.planId {
        return false;
      }
      ghost var fs := View();
      state := state.(checkpoint := Checkpoint(sequence, Resumed, Some(name), Some(name), true));
      StateOpOnly(fs, state, 1);
      assert [PutState(state)][..1] == [PutState(state)];
      ok := true;
    }
  }
}
