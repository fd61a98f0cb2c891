/**
 * The automation stage (robot_desktop_automator.py): takes every pending
 * prompt file ("processed_..." ending in ".txt") from the prompts directory,
 * hands its command to the desktop robot and records the outcome in the
 * file's name: "empty_robot_command_" for an empty command, "completed_" in
 * the completed directory on success, "failed_robot_command_" on failure.
 *
 * The robot itself is an input: for each file it succeeds or fails. Reading
 * the file and each move may raise; whether they do is an input too.
 */
module RobotAutomator {
  import opened Strings
  import opened FileSystem
  import PromptWriter

  /** The prefix of a pending prompt file, the one the prompt stage writes. */
  const PENDING: string := PromptWriter.PROCESSED
  const EMPTY: string := "empty_robot_command_"
  const COMPLETED: string := "completed_"
  const FAILED: string := "failed_robot_command_"

  // ---------------------------------------------------------------------------
  // Discovery of the pending prompt files
  // ---------------------------------------------------------------------------

  predicate IsPending(name: string) {
    StartsWith(name, PENDING) && EndsWith(name, ".txt")
  }

  /** The pending names of a listing, in its order. */
  function PendingPromptFiles(listing: seq<string>): (r: seq<string>)
    ensures forall n :: n in r <==> n in listing && IsPending(n)
    ensures forall n :: n in r ==> IsPending(n)
    ensures Distinct(listing) ==> Distinct(r)
  {
    if listing == [] then []
    else
      var rest := PendingPromptFiles(listing[1..]);
      assert Distinct(listing) ==> Distinct(listing[1..]) by {
        if Distinct(listing) {
          DistinctTail(listing);
        }
      }
      if IsPending(listing[0]) then [listing[0]] + rest else rest
  }

  /** The pending files of a directory, as a set. */
  function PendingSet(dir: Directory): (r: set<string>)
    ensures forall n :: n in r <==> n in dir && IsPending(n)
  {
    set n | n in dir.Keys && IsPending(n)
  }

  /** A sequence without repetitions holds each of its elements once. */
  lemma {:induction false} DistinctMultiset(s: seq<string>)
    requires Distinct(s)
    ensures forall x :: multiset(s)[x] == if x in s then 1 else 0
  {
    if s != [] {
      var t := s[1..];
      DistinctTail(s);
      DistinctMultiset(t);
      assert s == [s[0]] + t;
    }
  }

  /**
   * Discovery does not depend on the order os.listdir returns: any two
   * listings of the same directory yield the same pending files, each once,
   * and exactly the pending files of the directory.
   */
  lemma DiscoveryOrderIndependent(l1: seq<string>, l2: seq<string>, dir: Directory)
    requires IsListingOf(l1, dir) && IsListingOf(l2, dir)
    ensures multiset(PendingPromptFiles(l1)) == multiset(PendingPromptFiles(l2))
    ensures |PendingPromptFiles(l1)| == |PendingPromptFiles(l2)|
    ensures forall n :: n in PendingPromptFiles(l1) <==> n in PendingSet(dir)
  {
    var p1 := PendingPromptFiles(l1);
    var p2 := PendingPromptFiles(l2);
    DistinctMultiset(p1);
    DistinctMultiset(p2);
    assert multiset(p1) == multiset(p2);
    assert |multiset(p1)| == |p1| && |multiset(p2)| == |p2|;
  }

  // ---------------------------------------------------------------------------
  // The three rewrites of the "processed_" prefix
  // ---------------------------------------------------------------------------

  /** `filename.replace('processed_', marker, 1)` */
  function Rewrite(filename: string, marker: string): string {
    ReplaceFirst(filename, PENDING, marker)
  }

  /**
   * On a pending name each rewrite replaces the leading "processed_" with the
   * new marker and keeps the rest, so the result still ends with ".txt" but is
   * no longer pending, and differs from the original.
   */
  lemma RewrittenNameNotPending(filename: string, marker: string)
    requires IsPending(filename)
    requires marker == EMPTY || marker == COMPLETED || marker == FAILED
    ensures Rewrite(filename, marker) == marker + filename[|PENDING|..]
    ensures !IsPending(Rewrite(filename, marker)) && EndsWith(Rewrite(filename, marker), ".txt")
    ensures Rewrite(filename, marker) != filename
  {
    ReplaceFirstOfPrefix(filename, PENDING, marker);
    PendingRestEndsWithTxt(filename);
    MarkedNameNotPending(marker, filename[|PENDING|..]);
  }

  /** The ".txt" of a pending name lies after its "processed_", since no character of "processed_" is a dot. */
  lemma PendingRestEndsWithTxt(filename: string)
    requires IsPending(filename)
    ensures |filename| >= |PENDING| + 4 && EndsWith(filename[|PENDING|..], ".txt")
  {
    assert forall k :: 0 <= k < |PENDING| ==> PENDING[k] != '.';
    assert forall k :: 0 <= k < |PENDING| ==> filename[k] == filename[..|PENDING|][k];
    assert filename[|filename| - 4] == filename[|filename| - 4..][0];
    assert filename[|PENDING|..][|filename| - |PENDING| - 4..] == filename[|filename| - 4..];
  }

  /** A marker followed by a ".txt" rest is a name that ends with ".txt" but is not pending. */
  lemma MarkedNameNotPending(marker: string, rest: string)
    requires marker == EMPTY || marker == COMPLETED || marker == FAILED
    requires EndsWith(rest, ".txt")
    ensures !IsPending(marker + rest) && EndsWith(marker + rest, ".txt")
    ensures (marker + rest)[0] != PENDING[0]
  {
    var r := marker + rest;
    assert r[0] == marker[0];
    assert r[|r| - 4..] == rest[|rest| - 4..];
  }

  // ---------------------------------------------------------------------------
  // One pending file (the body of the loop in process_all_pending_robot_prompts)
  // ---------------------------------------------------------------------------

  /** SAVED_PROMPTS_DIR and COMPLETED_PROMPTS_DIR. */
  datatype RobotConfig = RobotConfig(promptsDir: string, completedDir: string)

  /** Per file name: whether reading succeeds, whether the robot succeeds, whether a move succeeds. */
  datatype RobotEnv = RobotEnv(readOk: string -> bool, automation: string -> bool, moveOk: string -> bool)

  /** How one pending file ended. The `...Raised` outcomes are the ones the exception handler catches. */
  datatype Disposition =
    | ReadRaised            // reading the file raised
    | Emptied               // empty command, renamed to "empty_robot_command_..."
    | EmptyRenameRaised     // empty command, the rename raised
    | Completed             // the robot succeeded, moved to "completed_..." in the completed directory
    | CompleteMoveRaised    // the robot succeeded, the move raised
    | AutomationFailed      // the robot failed, renamed to "failed_robot_command_..."
    | FailedRenameRaised    // the robot failed, the rename raised

  predicate IsRaised(d: Disposition) {
    d.ReadRaised? || d.EmptyRenameRaised? || d.CompleteMoveRaised? || d.FailedRenameRaised?
  }

  datatype StepResult = StepResult(fs: FileSystem, disposition: Disposition)

  /**
   * One pending file: read and strip its command; an empty command is renamed
   * in place, a successful run moves the file to the completed directory (a
   * move into a missing directory raises), a failed run renames it in place.
   * Any exception leaves the files as they were.
   */
  function RobotStep(cfg: RobotConfig, env: RobotEnv, fs: FileSystem, filename: string): (r: StepResult)
    requires cfg.promptsDir in fs && IsPending(filename)
    ensures r.fs.Keys == fs.Keys
  {
    var dir := cfg.promptsDir;
    if filename !in fs[dir] || !env.readOk(filename) then StepResult(fs, ReadRaised)
    else if Strip(fs[dir][filename]) == "" then
      RewrittenNameNotPending(filename, EMPTY);
      if env.moveOk(filename) then StepResult(Move(fs, dir, filename, dir, Rewrite(filename, EMPTY)), Emptied)
      else StepResult(fs, EmptyRenameRaised)
    else if env.automation(filename) then
      RewrittenNameNotPending(filename, COMPLETED);
      if env.moveOk(filename) && cfg.completedDir in fs then
        StepResult(Move(fs, dir, filename, cfg.completedDir, Rewrite(filename, COMPLETED)), Completed)
      else StepResult(fs, CompleteMoveRaised)
    else
      RewrittenNameNotPending(filename, FAILED);
      if env.moveOk(filename) then StepResult(Move(fs, dir, filename, dir, Rewrite(filename, FAILED)), AutomationFailed)
      else StepResult(fs, FailedRenameRaised)
  }

  /** The files and the outcomes after the first files of the snapshot. */
  datatype RobotOutcome = RobotOutcome(fs: FileSystem, dispositions: seq<Disposition>)

  /** The loop over `files`, in order, as a fold from the left. */
  function RobotRun(cfg: RobotConfig, env: RobotEnv, files: seq<string>, fs: FileSystem): (r: RobotOutcome)
    requires cfg.promptsDir in fs && forall n :: n in files ==> IsPending(n)
    ensures r.fs.Keys == fs.Keys && |r.dispositions| == |files|
  {
    if files == [] then RobotOutcome(fs, [])
    else
      var prev := RobotRun(cfg, env, files[..|files| - 1], fs);
      var step := RobotStep(cfg, env, prev.fs, files[|files| - 1]);
      RobotOutcome(step.fs, prev.dispositions + [step.disposition])
  }

  // ---------------------------------------------------------------------------
  // The counters
  // ---------------------------------------------------------------------------

  function ProcessedDelta(d: Disposition): nat {
    if d.Completed? then 1 else 0
  }

  /** As written, the two in-place renames count a failure before the move, and the handler counts it again. */
  function FailedDeltaAsWritten(d: Disposition): nat {
    match d
    case Completed => 0
    case EmptyRenameRaised => 2
    case FailedRenameRaised => 2
    case _ => 1
  }

  /** Counting each failure once, after the move, as the success path does. */
  function FailedDelta(d: Disposition): nat {
    if d.Completed? then 0 else 1
  }

  function ProcessedCount(ds: seq<Disposition>): nat {
    if ds == [] then 0 else ProcessedCount(ds[..|ds| - 1]) + ProcessedDelta(ds[|ds| - 1])
  }

  function FailedCountAsWritten(ds: seq<Disposition>): nat {
    if ds == [] then 0 else FailedCountAsWritten(ds[..|ds| - 1]) + FailedDeltaAsWritten(ds[|ds| - 1])
  }

  function FailedCount(ds: seq<Disposition>): nat {
    if ds == [] then 0 else FailedCount(ds[..|ds| - 1]) + FailedDelta(ds[|ds| - 1])
  }

  /** The number of files whose in-place rename raised. */
  function RenameRaisedCount(ds: seq<Disposition>): nat {
    if ds == [] then 0
    else RenameRaisedCount(ds[..|ds| - 1]) + (if ds[|ds| - 1].EmptyRenameRaised? || ds[|ds| - 1].FailedRenameRaised? then 1 else 0)
  }

  /** Counted once per file, the two counters add up to the number of pending files. */
  lemma {:induction false} CountsAddUp(ds: seq<Disposition>)
    ensures ProcessedCount(ds) + FailedCount(ds) == |ds|
  {
    if ds != [] {
      CountsAddUp(ds[..|ds| - 1]);
    }
  }

  /** As written, the counters overshoot by one for every in-place rename that raised. */
  lemma {:induction false} AsWrittenCountsOvershoot(ds: seq<Disposition>)
    ensures ProcessedCount(ds) + FailedCountAsWritten(ds) == |ds| + RenameRaisedCount(ds)
  {
    if ds != [] {
      AsWrittenCountsOvershoot(ds[..|ds| - 1]);
    }
  }

  // ---------------------------------------------------------------------------
  // The loop (process_all_pending_robot_prompts)
  // ---------------------------------------------------------------------------

  /** The step in terms of what the loop body tests, in the order it tests it. */
  lemma RobotStepUnfold(cfg: RobotConfig, env: RobotEnv, fs: FileSystem, filename: string)
    requires cfg.promptsDir in fs && IsPending(filename)
    ensures var dir := cfg.promptsDir;
            var r := RobotStep(cfg, env, fs, filename);
            if filename !in fs[dir] || !env.readOk(filename) then r == StepResult(fs, ReadRaised)
            else if Strip(fs[dir][filename]) == "" then
              r == if env.moveOk(filename) then StepResult(Move(fs, dir, filename, dir, EMPTY + filename[|PENDING|..]), Emptied)
                   else StepResult(fs, EmptyRenameRaised)
            else if env.automation(filename) then
              r == if env.moveOk(filename) && cfg.completedDir in fs
                   then StepResult(Move(fs, dir, filename, cfg.completedDir, COMPLETED + filename[|PENDING|..]), Completed)
                   else StepResult(fs, CompleteMoveRaised)
            else
              r == if env.moveOk(filename) then StepResult(Move(fs, dir, filename, dir, FAILED + filename[|PENDING|..]), AutomationFailed)
                   else StepResult(fs, FailedRenameRaised)
  {
    RewrittenNameNotPending(filename, EMPTY);
    RewrittenNameNotPending(filename, COMPLETED);
    RewrittenNameNotPending(filename, FAILED);
  }

  /** One more file of the snapshot: the fold and the three counts take one step. */
  lemma RobotRunSnoc(cfg: RobotConfig, env: RobotEnv, files: seq<string>, fs: FileSystem, i: nat)
    requires cfg.promptsDir in fs && forall n :: n in files ==> IsPending(n)
    requires i < |files|
    ensures var prev := RobotRun(cfg, env, files[..i], fs);
            var step := RobotStep(cfg, env, prev.fs, files[i]);
            var next := RobotRun(cfg, env, files[..i + 1], fs);
            next == RobotOutcome(step.fs, prev.dispositions + [step.disposition])
            && ProcessedCount(next.dispositions) == ProcessedCount(prev.dispositions) + ProcessedDelta(step.disposition)
            && FailedCount(next.dispositions) == FailedCount(prev.dispositions) + FailedDelta(step.disposition)
            && FailedCountAsWritten(next.dispositions)
               == FailedCountAsWritten(prev.dispositions) + FailedDeltaAsWritten(step.disposition)
  {
    assert files[..i + 1][..i] == files[..i];
    var prev := RobotRun(cfg, env, files[..i], fs);
    var step := RobotStep(cfg, env, prev.fs, files[i]);
    assert (prev.dispositions + [step.disposition])[..|prev.dispositions|] == prev.dispositions;
  }

  /**
   * The body of the loop for one pending file, as written: returns the new
   * files and what it adds to each counter. The failure counter goes up before
   * an in-place rename, and once more in the handler when that rename raises.
   */
  method HandlePromptFileAsWritten(cfg: RobotConfig, env: RobotEnv, fs: FileSystem, filename: string)
    returns (fs': FileSystem, processedInc: nat, failedInc: nat)
    requires cfg.promptsDir in fs && IsPending(filename)
    ensures var step := RobotStep(cfg, env, fs, filename);
            fs' == step.fs && processedInc == ProcessedDelta(step.disposition)
            && failedInc == FailedDeltaAsWritten(step.disposition)
  {
    RobotStepUnfold(cfg, env, fs, filename);
    var dir := cfg.promptsDir;
    fs', processedInc, failedInc := fs, 0, 0;
    if filename !in fs[dir] || !env.readOk(filename) {
      failedInc := failedInc + 1;
      return;
    }
    var robotCommandContent := Strip(fs[dir][filename]);
    if robotCommandContent == "" {
      failedInc := failedInc + 1;
      var emptyFilename := Rewrite(filename, EMPTY);
      if env.moveOk(filename) {
        fs' := Move(fs, dir, filename, dir, emptyFilename);
      } else {
        failedInc := failedInc + 1;
      }
    } else if env.automation(filename) {
      var newFilename := Rewrite(filename, COMPLETED);
      if env.moveOk(filename) && cfg.completedDir in fs {
        fs' := Move(fs, dir, filename, cfg.completedDir, newFilename);
        processedInc := processedInc + 1;
      } else {
        failedInc := failedInc + 1;
      }
    } else {
      failedInc := failedInc + 1;
      var failedFilename := Rewrite(filename, FAILED);
      if env.moveOk(filename) {
        fs' := Move(fs, dir, filename, dir, failedFilename);
      } else {
        failedInc := failedInc + 1;
      }
    }
  }

  /** The body of the loop for one pending file with each failure counted once, after the move. */
  method HandlePromptFile(cfg: RobotConfig, env: RobotEnv, fs: FileSystem, filename: string)
    returns (fs': FileSystem, processedInc: nat, failedInc: nat)
    requires cfg.promptsDir in fs && IsPending(filename)
    ensures var step := RobotStep(cfg, env, fs, filename);
            fs' == step.fs && processedInc == ProcessedDelta(step.disposition)
            && failedInc == FailedDelta(step.disposition)
  {
    RobotStepUnfold(cfg, env, fs, filename);
    var dir := cfg.promptsDir;
    fs', processedInc, failedInc := fs, 0, 0;
    if filename !in fs[dir] || !env.readOk(filename) {
      failedInc := failedInc + 1;
      return;
    }
    var robotCommandContent := Strip(fs[dir][filename]);
    if robotCommandContent == "" {
      var emptyFilename := Rewrite(filename, EMPTY);
      if env.moveOk(filename) {
        fs' := Move(fs, dir, filename, dir, emptyFilename);
      }
      failedInc := failedInc + 1;
    } else if env.automation(filename) {
      var newFilename := Rewrite(filename, COMPLETED);
      if env.moveOk(filename) && cfg.completedDir in fs {
        fs' := Move(fs, dir, filename, cfg.completedDir, newFilename);
        processedInc := processedInc + 1;
      } else {
        failedInc := failedInc + 1;
      }
    } else {
      var failedFilename := Rewrite(filename, FAILED);
      if env.moveOk(filename) {
        fs' := Move(fs, dir, filename, dir, failedFilename);
      }
      failedInc := failedInc + 1;
    }
  }

  /**
   * process_all_pending_robot_prompts as written over `listing`, the names of
   * the prompts directory in the order os.listdir gives them. A missing prompts
   * directory or no pending file gives (0, 0) and changes nothing.
   */
  method ProcessAllPendingRobotPromptsAsWritten(cfg: RobotConfig, env: RobotEnv, fs: FileSystem, listing: seq<string>)
    returns (fs': FileSystem, processed: nat, failed: nat)
    requires cfg.promptsDir in fs ==> IsListingOf(listing, fs[cfg.promptsDir])
    ensures cfg.promptsDir !in fs ==> fs' == fs && processed == 0 && failed == 0
    ensures cfg.promptsDir in fs ==>
      var out := RobotRun(cfg, env, PendingPromptFiles(listing), fs);
      fs' == out.fs && processed == ProcessedCount(out.dispositions)
      && failed == FailedCountAsWritten(out.dispositions)
  {
    fs', processed, failed := fs, 0, 0;
    if cfg.promptsDir !in fs {
      return;
    }
    var pendingPromptFiles := PendingPromptFiles(listing);
    if pendingPromptFiles == [] {
      return;
    }
    var i := 0;
    while i < |pendingPromptFiles|
      invariant 0 <= i <= |pendingPromptFiles| && cfg.promptsDir in fs'
      invariant var out := RobotRun(cfg, env, pendingPromptFiles[..i], fs);
                fs' == out.fs && processed == ProcessedCount(out.dispositions)
                && failed == FailedCountAsWritten(out.dispositions)
    {
      RobotRunSnoc(cfg, env, pendingPromptFiles, fs, i);
      var processedInc, failedInc;
      fs', processedInc, failedInc := HandlePromptFileAsWritten(cfg, env, fs', pendingPromptFiles[i]);
      processed, failed := processed + processedInc, failed + failedInc;
      i := i + 1;
    }
    assert pendingPromptFiles[..i] == pendingPromptFiles;
  }

  /** The loop with the repaired counting; the files end up exactly as in the loop as written. */
  method ProcessAllPendingRobotPrompts(cfg: RobotConfig, env: RobotEnv, fs: FileSystem, listing: seq<string>)
    returns (fs': FileSystem, processed: nat, failed: nat)
    requires cfg.promptsDir in fs ==> IsListingOf(listing, fs[cfg.promptsDir])
    ensures cfg.promptsDir !in fs ==> fs' == fs && processed == 0 && failed == 0
    ensures cfg.promptsDir in fs ==>
      var out := RobotRun(cfg, env, PendingPromptFiles(listing), fs);
      fs' == out.fs && processed == ProcessedCount(out.dispositions)
      && failed == FailedCount(out.dispositions)
  {
    fs', processed, failed := fs, 0, 0;
    if cfg.promptsDir !in fs {
      return;
    }
    var pendingPromptFiles := PendingPromptFiles(listing);
    if pendingPromptFiles == [] {
      return;
    }
    var i := 0;
    while i < |pendingPromptFiles|
      invariant 0 <= i <= |pendingPromptFiles| && cfg.promptsDir in fs'
      invariant var out := RobotRun(cfg, env, pendingPromptFiles[..i], fs);
                fs' == out.fs && processed == ProcessedCount(out.dispositions)
                && failed == FailedCount(out.dispositions)
    {
      RobotRunSnoc(cfg, env, pendingPromptFiles, fs, i);
      var processedInc, failedInc;
      fs', processedInc, failedInc := HandlePromptFile(cfg, env, fs', pendingPromptFiles[i]);
      processed, failed := processed + processedInc, failed + failedInc;
      i := i + 1;
    }
    assert pendingPromptFiles[..i] == pendingPromptFiles;
  }

  // ---------------------------------------------------------------------------
  // What a step does to the files
  // ---------------------------------------------------------------------------

  /** An empty command: the file is renamed in the prompts directory, its first "processed_" becoming "empty_robot_command_". */
  lemma EmptyCommandRenamed(cfg: RobotConfig, env: RobotEnv, fs: FileSystem, filename: string)
    requires cfg.promptsDir in fs && IsPending(filename)
    requires filename in fs[cfg.promptsDir] && env.readOk(filename) && env.moveOk(filename)
    requires AllSpace(fs[cfg.promptsDir][filename])
    ensures var r := RobotStep(cfg, env, fs, filename);
            var target := EMPTY + filename[|PENDING|..];
            r.disposition == Emptied && filename !in r.fs[cfg.promptsDir]
            && target in r.fs[cfg.promptsDir] && r.fs[cfg.promptsDir][target] == fs[cfg.promptsDir][filename]
  {
    StripEmpty(fs[cfg.promptsDir][filename]);
    RobotStepUnfold(cfg, env, fs, filename);
  }

  /** A successful run: the file moves to the completed directory, "processed_" becoming "completed_". */
  lemma CompletedMovesToCompletedDir(cfg: RobotConfig, env: RobotEnv, fs: FileSystem, filename: string)
    requires cfg.promptsDir in fs && IsPending(filename) && cfg.completedDir in fs
    requires filename in fs[cfg.promptsDir] && env.readOk(filename) && env.moveOk(filename)
    requires !AllSpace(fs[cfg.promptsDir][filename]) && env.automation(filename)
    ensures var r := RobotStep(cfg, env, fs, filename);
            var target := COMPLETED + filename[|PENDING|..];
            r.disposition == Completed && filename !in r.fs[cfg.promptsDir]
            && target in r.fs[cfg.completedDir] && r.fs[cfg.completedDir][target] == fs[cfg.promptsDir][filename]
  {
    StripEmpty(fs[cfg.promptsDir][filename]);
    RobotStepUnfold(cfg, env, fs, filename);
  }

  /** A failed run: the file is renamed in place, "processed_" becoming "failed_robot_command_". */
  lemma FailedRenamedInPlace(cfg: RobotConfig, env: RobotEnv, fs: FileSystem, filename: string)
    requires cfg.promptsDir in fs && IsPending(filename)
    requires filename in fs[cfg.promptsDir] && env.readOk(filename) && env.moveOk(filename)
    requires !AllSpace(fs[cfg.promptsDir][filename]) && !env.automation(filename)
    ensures var r := RobotStep(cfg, env, fs, filename);
            var target := FAILED + filename[|PENDING|..];
            r.disposition == AutomationFailed && filename !in r.fs[cfg.promptsDir]
            && target in r.fs[cfg.promptsDir] && r.fs[cfg.promptsDir][target] == fs[cfg.promptsDir][filename]
  {
    StripEmpty(fs[cfg.promptsDir][filename]);
    RobotStepUnfold(cfg, env, fs, filename);
  }

  /**
   * A step that raises leaves every file as it was, the original still under
   * its "processed_" name; a step that does not raise takes the file out of
   * the prompts directory's pending names.
   */
  lemma RaisedLeavesFileInPlace(cfg: RobotConfig, env: RobotEnv, fs: FileSystem, filename: string)
    requires cfg.promptsDir in fs && IsPending(filename)
    ensures var r := RobotStep(cfg, env, fs, filename);
            (IsRaised(r.disposition) ==> r.fs == fs)
            && (!IsRaised(r.disposition) ==> filename in fs[cfg.promptsDir] && filename !in r.fs[cfg.promptsDir])
  {
    RobotStepUnfold(cfg, env, fs, filename);
  }

  /** The pending names after one step: the same, less the file itself unless the step raised. */
  lemma StepPending(cfg: RobotConfig, env: RobotEnv, fs: FileSystem, filename: string)
    requires cfg.promptsDir in fs && IsPending(filename)
    ensures var r := RobotStep(cfg, env, fs, filename);
            PendingSet(r.fs[cfg.promptsDir])
            == PendingSet(fs[cfg.promptsDir]) - (if IsRaised(r.disposition) then {} else {filename})
  {
    RobotStepUnfold(cfg, env, fs, filename);
    RewrittenNameNotPending(filename, EMPTY);
    RewrittenNameNotPending(filename, COMPLETED);
    RewrittenNameNotPending(filename, FAILED);
  }

  /** The files of the snapshot whose step did not raise. */
  function Settled(files: seq<string>, ds: seq<Disposition>): set<string>
    requires |ds| == |files|
  {
    set j | 0 <= j < |files| && !IsRaised(ds[j]) :: files[j]
  }

  /**
   * After a run the pending names of the prompts directory are the ones it
   * had, less every file whose step did not raise: no step creates a pending
   * name, and a file whose step raised is still pending.
   */
  lemma {:induction false} PendingAfterRun(cfg: RobotConfig, env: RobotEnv, files: seq<string>, fs: FileSystem)
    requires cfg.promptsDir in fs && forall n :: n in files ==> IsPending(n)
    ensures var out := RobotRun(cfg, env, files, fs);
            PendingSet(out.fs[cfg.promptsDir]) == PendingSet(fs[cfg.promptsDir]) - Settled(files, out.dispositions)
  {
    if files != [] {
      var init := files[..|files| - 1];
      var f := files[|files| - 1];
      PendingAfterRun(cfg, env, init, fs);
      var prev := RobotRun(cfg, env, init, fs);
      var step := RobotStep(cfg, env, prev.fs, f);
      var dir := cfg.promptsDir;
      var x: set<string> := if IsRaised(step.disposition) then {} else {f};
      StepPending(cfg, env, prev.fs, f);
      assert files == init + [f];
      SettledSnoc(init, f, prev.dispositions, step.disposition);
      var out := RobotRun(cfg, env, files, fs);
      assert out == RobotOutcome(step.fs, prev.dispositions + [step.disposition]);
      RemoveInTurn(PendingSet(out.fs[dir]), PendingSet(prev.fs[dir]), PendingSet(fs[dir]),
                   Settled(init, prev.dispositions), x, Settled(files, out.dispositions));
    }
  }

  /** Removing `s`, then `x`, is removing `s + x`. */
  lemma RemoveInTurn(after: set<string>, mid: set<string>, before: set<string>, s: set<string>, x: set<string>, t: set<string>)
    requires after == mid - x && mid == before - s && t == s + x
    ensures after == before - t
  {
  }

  /** One more file: it is settled exactly when its step did not raise. */
  lemma SettledSnoc(init: seq<string>, f: string, ds: seq<Disposition>, d: Disposition)
    requires |ds| == |init|
    ensures Settled(init + [f], ds + [d]) == Settled(init, ds) + (if IsRaised(d) then {} else {f})
  {
    var files := init + [f];
    var all := ds + [d];
    forall n | n in Settled(files, all)
      ensures n in Settled(init, ds) + (if IsRaised(d) then {} else {f})
    {
      var j :| 0 <= j < |files| && !IsRaised(all[j]) && files[j] == n;
      if j < |init| {
        assert init[j] == n && ds[j] == all[j];
      }
    }
    forall n | n in Settled(init, ds)
      ensures n in Settled(files, all)
    {
      var j :| 0 <= j < |init| && !IsRaised(ds[j]) && init[j] == n;
      assert files[j] == n && all[j] == ds[j];
    }
    if !IsRaised(d) {
      assert files[|init|] == f && all[|init|] == d;
    }
  }

  /** No step of a run raised. */
  predicate NoneRaised(ds: seq<Disposition>) {
    forall j :: 0 <= j < |ds| ==> !IsRaised(ds[j])
  }

  /**
   * A run over every pending file in which nothing raised leaves no pending
   * file behind, so discovering again finds nothing to do; the discovery
   * itself gives the same files in any listing order.
   */
  lemma RediscoveryAfterCleanRun(cfg: RobotConfig, env: RobotEnv, fs: FileSystem, listing: seq<string>)
    requires cfg.promptsDir in fs && IsListingOf(listing, fs[cfg.promptsDir])
    requires NoneRaised(RobotRun(cfg, env, PendingPromptFiles(listing), fs).dispositions)
    ensures PendingSet(RobotRun(cfg, env, PendingPromptFiles(listing), fs).fs[cfg.promptsDir]) == {}
  {
    var files := PendingPromptFiles(listing);
    var out := RobotRun(cfg, env, files, fs);
    assert |out.dispositions| == |files|;
    PendingAfterRun(cfg, env, files, fs);
    forall n | n in PendingSet(fs[cfg.promptsDir])
      ensures n in Settled(files, out.dispositions)
    {
      var j :| 0 <= j < |files| && files[j] == n;
      assert !IsRaised(out.dispositions[j]);
    }
  }

  /** The stage changes only the prompts and the completed directories. */
  lemma {:induction false} RobotRunFrame(cfg: RobotConfig, env: RobotEnv, files: seq<string>, fs: FileSystem, d: string)
    requires cfg.promptsDir in fs && forall n :: n in files ==> IsPending(n)
    requires d in fs && d != cfg.promptsDir && d != cfg.completedDir
    ensures RobotRun(cfg, env, files, fs).fs[d] == fs[d]
  {
    if files != [] {
      var init := files[..|files| - 1];
      RobotRunFrame(cfg, env, init, fs, d);
      RobotStepUnfold(cfg, env, RobotRun(cfg, env, init, fs).fs, files[|files| - 1]);
    }
  }

  /**
   * The double count, on one input: a single pending file with a command, a
   * robot that fails and a rename that raises. The file is counted as failed
   * twice, so the two counters add up to 2 for 1 pending file; counted once,
   * they add up to 1.
   */
  lemma AsWrittenDoubleCount()
    ensures var cfg := RobotConfig("savedprompts", "complete");
            var env := RobotEnv(_ => true, _ => false, _ => false);
            var fs := map["savedprompts" := map["processed_a.txt" := "go"]];
            var out := RobotRun(cfg, env, ["processed_a.txt"], fs);
            out.dispositions == [FailedRenameRaised]
            && ProcessedCount(out.dispositions) + FailedCountAsWritten(out.dispositions) == 2
            && ProcessedCount(out.dispositions) + FailedCount(out.dispositions) == 1
  {
    var cfg := RobotConfig("savedprompts", "complete");
    var env := RobotEnv(_ => true, _ => false, _ => false);
    var fs := map["savedprompts" := map["processed_a.txt" := "go"]];
    var f := "processed_a.txt";
    assert IsPending(f) by {
      assert f[..|PENDING|] == PENDING;
      assert f[|f| - 4..] == ".txt";
    }
    assert !AllSpace("go") by {
      assert "go"[0] == 'g';
    }
    StripEmpty("go");
    RobotStepUnfold(cfg, env, fs, f);
    assert f in fs[cfg.promptsDir] && fs[cfg.promptsDir][f] == "go";
    assert RobotStep(cfg, env, fs, f).disposition == FailedRenameRaised;
    assert [f][..0] == [];
    assert RobotRun(cfg, env, [], fs) == RobotOutcome(fs, []);
    var ds := RobotRun(cfg, env, [f], fs).dispositions;
    assert ds == [FailedRenameRaised];
    assert ds[..0] == [];
  }

  /** A sequence without repetitions has as many elements as the set of them. */
  lemma {:induction false} DistinctCard(s: seq<string>)
    requires Distinct(s)
    ensures |set n | n in s| == |s|
  {
    if s != [] {
      var t := s[1..];
      DistinctTail(s);
      DistinctCard(t);
      assert (set n | n in s) == (set n | n in t) + {s[0]} by {
        assert s == [s[0]] + t;
      }
    }
  }

  /**
   * Every pending file is counted once: with the repaired counting,
   * processed + failed is the number of pending files in the prompts
   * directory, in whatever order they were listed.
   */
  lemma ProcessedPlusFailedIsPending(cfg: RobotConfig, env: RobotEnv, fs: FileSystem, listing: seq<string>)
    requires cfg.promptsDir in fs && IsListingOf(listing, fs[cfg.promptsDir])
    ensures var out := RobotRun(cfg, env, PendingPromptFiles(listing), fs);
            ProcessedCount(out.dispositions) + FailedCount(out.dispositions) == |PendingSet(fs[cfg.promptsDir])|
  {
    var files := PendingPromptFiles(listing);
    CountsAddUp(RobotRun(cfg, env, files, fs).dispositions);
    DistinctCard(files);
    assert (set n | n in files) == PendingSet(fs[cfg.promptsDir]);
  }

  /** As written, the sum exceeds the number of pending files by the renames that raised. */
  lemma AsWrittenSumExceedsPending(cfg: RobotConfig, env: RobotEnv, fs: FileSystem, listing: seq<string>)
    requires cfg.promptsDir in fs && IsListingOf(listing, fs[cfg.promptsDir])
    ensures var out := RobotRun(cfg, env, PendingPromptFiles(listing), fs);
            ProcessedCount(out.dispositions) + FailedCountAsWritten(out.dispositions)
            == |PendingSet(fs[cfg.promptsDir])| + RenameRaisedCount(out.dispositions)
  {
    var files := PendingPromptFiles(listing);
    AsWrittenCountsOvershoot(RobotRun(cfg, env, files, fs).dispositions);
    DistinctCard(files);
    assert (set n | n in files) == PendingSet(fs[cfg.promptsDir]);
  }

  /** No pending file: nothing is counted and no file changes. */
  lemma NoPendingNothingDone(cfg: RobotConfig, env: RobotEnv, fs: FileSystem, listing: seq<string>)
    requires cfg.promptsDir in fs && IsListingOf(listing, fs[cfg.promptsDir])
    requires PendingSet(fs[cfg.promptsDir]) == {}
    ensures RobotRun(cfg, env, PendingPromptFiles(listing), fs) == RobotOutcome(fs, [])
  {
  }
}
