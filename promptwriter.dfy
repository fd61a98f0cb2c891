/**
 * The prompt stage (promptwriter.py): selects the fetched files of the
 * configured categories, turns each into a robot command through the
 * language model, archives the original under a "processed_" name and writes
 * the command to the prompts directory, counting successes and failures.
 *
 * The language model is an input: for each file it either returns a text or
 * raises. Reading the file, moving it and writing the prompt file may each
 * raise; whether they do is an input too.
 */
module PromptWriter {
  import opened Wrappers
  import opened Strings
  import opened FileSystem

  /** The two prefixes a later stage recognises: the archive prefix and the pending-prompt prefix. */
  const PROCESSED: string := "processed_"

  // ---------------------------------------------------------------------------
  // Selection of the fetched files (the list comprehension over os.listdir)
  // ---------------------------------------------------------------------------

  /** A name the stage picks up: it starts with one of the category prefixes and ends with ".txt". */
  predicate IsSelected(prefixes: seq<string>, name: string) {
    (exists i :: 0 <= i < |prefixes| && StartsWith(name, prefixes[i])) && EndsWith(name, ".txt")
  }

  /** The selected names, in the order of the listing. */
  function SelectEmailFiles(prefixes: seq<string>, listing: seq<string>): (r: seq<string>)
    ensures forall n :: n in r <==> n in listing && IsSelected(prefixes, n)
    ensures |r| <= |listing|
    ensures Distinct(listing) ==> Distinct(r)
  {
    if listing == [] then []
    else
      var rest := SelectEmailFiles(prefixes, listing[1..]);
      assert Distinct(listing) ==> Distinct(listing[1..]) by {
        if Distinct(listing) {
          DistinctTail(listing);
        }
      }
      if IsSelected(prefixes, listing[0]) then [listing[0]] + rest else rest
  }

  /**
   * The selection keeps the listing's order: selecting from two listings
   * one after the other is selecting from their concatenation.
   */
  lemma {:induction false} SelectionOfConcat(prefixes: seq<string>, a: seq<string>, b: seq<string>)
    ensures SelectEmailFiles(prefixes, a + b) == SelectEmailFiles(prefixes, a) + SelectEmailFiles(prefixes, b)
  {
    if a == [] {
      assert a + b == b;
    } else {
      var ab := a + b;
      assert ab != [] && ab[0] == a[0] && ab[1..] == a[1..] + b;
      SelectionOfConcat(prefixes, a[1..], b);
    }
  }

  /** A single name is kept exactly when it is selected. */
  lemma SelectionOfOne(prefixes: seq<string>, n: string)
    ensures SelectEmailFiles(prefixes, [n]) == if IsSelected(prefixes, n) then [n] else []
  {
    assert [n][1..] == [];
  }

  /** A listing without a selectable name selects nothing. */
  lemma {:induction false} NoneSelectable(prefixes: seq<string>, listing: seq<string>)
    requires forall n :: n in listing ==> !IsSelected(prefixes, n)
    ensures SelectEmailFiles(prefixes, listing) == []
  {
    if listing != [] {
      assert listing[0] in listing;
      NoneSelectable(prefixes, listing[1..]);
    }
  }

  /** `"processed_" + f` ends with ".txt" exactly when `f` does. */
  lemma ArchivedEndsWithTxt(f: string)
    ensures EndsWith(PROCESSED + f, ".txt") <==> EndsWith(f, ".txt")
  {
    var a := PROCESSED + f;
    if |f| >= 4 {
      assert a[|a| - 4..] == f[|f| - 4..];
    } else {
      assert a[|a| - 4] == PROCESSED[6 + |f|];
      assert PROCESSED[6 + |f|] != '.';
    }
  }

  /** `"processed_" + f` starts with `p` exactly when `p` is a prefix of "processed_" or extends it by a prefix of `f`. */
  lemma ArchivedStartsWith(f: string, p: string)
    ensures StartsWith(PROCESSED + f, p) <==> SelectsArchived(p, f)
  {
    var a := PROCESSED + f;
    if |p| <= |PROCESSED| {
      assert a[..|p|] == PROCESSED[..|p|];
    } else {
      if StartsWith(a, p) {
        assert p[..|PROCESSED|] == a[..|PROCESSED|];
        assert p[|PROCESSED|..] == a[|PROCESSED|..|p|];
        assert a[|PROCESSED|..|p|] == f[..|p| - |PROCESSED|];
      }
      if StartsWith(p, PROCESSED) && StartsWith(f, p[|PROCESSED|..]) {
        assert p == PROCESSED + p[|PROCESSED|..];
        assert a[..|p|] == PROCESSED + f[..|p| - |PROCESSED|];
      }
    }
  }


  /** A category prefix that can select an archived name: one that is a prefix of "processed_" or starts with it. */
  predicate OverlapsArchivePrefix(p: string) {
    StartsWith(PROCESSED, p) || StartsWith(p, PROCESSED)
  }

  /** The category prefix `p` selects the archived form of `f`, by the shape of `p` alone. */
  predicate SelectsArchived(p: string, f: string) {
    StartsWith(PROCESSED, p) || (StartsWith(p, PROCESSED) && StartsWith(f, p[|PROCESSED|..]))
  }

  /**
   * Archived names stay out of later runs exactly when the prefixes allow it:
   * the archived form of a ".txt" name is selected if and only if some
   * category prefix is a prefix of "processed_", or extends "processed_" by a
   * prefix of the original name.
   */
  lemma ArchivedSelectedIff(prefixes: seq<string>, f: string)
    ensures IsSelected(prefixes, PROCESSED + f) <==>
      EndsWith(f, ".txt") && exists i :: 0 <= i < |prefixes| && SelectsArchived(prefixes[i], f)
  {
    ArchivedEndsWithTxt(f);
    forall i | 0 <= i < |prefixes|
      ensures StartsWith(PROCESSED + f, prefixes[i]) <==> SelectsArchived(prefixes[i], f)
    {
      ArchivedStartsWith(f, prefixes[i]);
    }
  }

  /** With no prefix overlapping "processed_", no archived name is ever selected again. */
  lemma ArchivedNeverReselected(prefixes: seq<string>, f: string)
    requires forall i :: 0 <= i < |prefixes| ==> !OverlapsArchivePrefix(prefixes[i])
    ensures !IsSelected(prefixes, PROCESSED + f)
  {
    ArchivedSelectedIff(prefixes, f);
  }

  // ---------------------------------------------------------------------------
  // os.path.splitext and the two derived names
  // ---------------------------------------------------------------------------

  /** The index of the last '.' in `s`, or -1. */
  function LastDot(s: string): (r: int)
    ensures -1 <= r < |s|
    ensures r >= 0 ==> s[r] == '.'
    ensures forall j :: r < j < |s| ==> s[j] != '.'
  {
    if s == [] then -1
    else if s[|s| - 1] == '.' then |s| - 1
    else LastDot(s[..|s| - 1])
  }

  /** Some character before index `d` is not a dot: leading dots do not start an extension. */
  predicate HasNonDotBefore(s: string, d: int) {
    exists j :: 0 <= j < d && j < |s| && s[j] != '.'
  }

  /**
   * `os.path.splitext` on a name without directory separators: the extension
   * starts at the last dot, unless every character before that dot is a dot.
   */
  function SplitExt(name: string): (r: (string, string))
    ensures r.0 + r.1 == name
    ensures r.1 == [] || (r.1[0] == '.' && forall j :: 1 <= j < |r.1| ==> r.1[j] != '.')
    ensures r.1 != [] ==> HasNonDotBefore(name, |r.0|)
    ensures r.1 == [] ==> forall d :: 0 <= d < |name| && name[d] == '.' ==> !HasNonDotBefore(name, d)
  {
    var d := LastDot(name);
    if d >= 0 && HasNonDotBefore(name, d) then
      assert forall j :: 1 <= j < |name[d..]| ==> name[d..][j] == name[d + j];
      (name[..d], name[d..])
    else
      assert forall e :: 0 <= e < |name| && name[e] == '.' ==> e <= d && !HasNonDotBefore(name, e);
      (name, "")
  }

  /** A name ending in ".txt" with something other than dots before it splits into that stem and ".txt". */
  lemma SplitExtTxt(name: string)
    requires EndsWith(name, ".txt") && HasNonDotBefore(name, |name| - 4)
    ensures SplitExt(name) == (name[..|name| - 4], ".txt")
  {
    var d := |name| - 4;
    assert name[d..] == ".txt";
    assert name[d] == '.';
    assert LastDot(name) == d;
  }

  /** The archive name `f"processed_{name}{ext}"`, which is the original name behind "processed_". */
  function ArchiveName(f: string): (r: string)
    ensures r == PROCESSED + f
  {
    var (root, ext) := SplitExt(f);
    PROCESSED + root + ext
  }

  /** The prompt file `f"processed_{stem}_robot_command.txt"`: a name the automation stage takes as pending. */
  function PromptFileName(f: string): (r: string)
    ensures StartsWith(r, PROCESSED) && EndsWith(r, ".txt")
  {
    var r := PROCESSED + SplitExt(f).0 + "_robot_command.txt";
    assert r[..|PROCESSED|] == PROCESSED;
    assert r[|r| - 4..] == ".txt";
    r
  }

  /** For a selected ".txt" name the prompt file is its stem between "processed_" and "_robot_command.txt". */
  lemma PromptFileNameOfTxt(f: string)
    requires EndsWith(f, ".txt") && HasNonDotBefore(f, |f| - 4)
    ensures PromptFileName(f) == PROCESSED + f[..|f| - 4] + "_robot_command.txt"
  {
    SplitExtTxt(f);
  }

  // ---------------------------------------------------------------------------
  // One file through the model (generate_robot_prompt_from_content)
  // ---------------------------------------------------------------------------

  /** What the language model call does for one file: return a text, or raise. */
  datatype Generation = Generated(text: string) | GenerationRaised

  /**
   * The outside world, per file name: whether reading it succeeds, what the
   * model returns for it, whether the archive move succeeds and whether
   * writing its prompt file succeeds.
   */
  datatype PromptEnv = PromptEnv(
    readOk: string -> bool, generation: string -> Generation,
    moveOk: string -> bool, writeOk: string -> bool)

  /**
   * SAVED_MAILS_DIR, SAVED_PROMPTS_DIR, the category prefixes and
   * CONSTANT_APPEND_LINE (None when the variable is unset).
   */
  datatype PromptConfig = PromptConfig(
    mailsDir: string, promptsDir: string, prefixes: seq<string>, appendLine: Option<string>)

  /** The files after the call and what it returned: the composed output, or None for `False`. */
  datatype PromptOutcome = GenResult(fs: FileSystem, output: Option<string>)

  /**
   * Read the file, ask the model, strip its answer; an empty answer is a
   * failure. Otherwise compose the output (which raises when the append line
   * is unset), archive the original under its "processed_" name in the mails
   * directory and return the output. Any exception is a failure that leaves
   * the files as they were.
   */
  function GenerateRobotPrompt(cfg: PromptConfig, env: PromptEnv, fs: FileSystem, f: string): (r: PromptOutcome)
    requires cfg.mailsDir in fs
    ensures r.fs.Keys == fs.Keys
  {
    if f !in fs[cfg.mailsDir] || !env.readOk(f) then GenResult(fs, None)
    else match env.generation(f)
      case GenerationRaised => GenResult(fs, None)
      case Generated(text) =>
        var robotCommand := Strip(text);
        if robotCommand == "" then GenResult(fs, None)
        else if cfg.appendLine.None? then GenResult(fs, None)
        else
          var finalOutput := robotCommand + "\n" + cfg.appendLine.value;
          if env.moveOk(f) then
            GenResult(Move(fs, cfg.mailsDir, f, cfg.mailsDir, ArchiveName(f)), Some(finalOutput))
          else GenResult(fs, None)
  }

  /**
   * A call either fails and changes nothing, or returns the stripped answer,
   * a newline and the append line, having moved the file to its archive name.
   */
  lemma GenerateOutcome(cfg: PromptConfig, env: PromptEnv, fs: FileSystem, f: string)
    requires cfg.mailsDir in fs
    ensures var r := GenerateRobotPrompt(cfg, env, fs, f);
            (r.output.None? && r.fs == fs)
            || (f in fs[cfg.mailsDir] && env.readOk(f) && env.generation(f).Generated?
                && Strip(env.generation(f).text) != "" && cfg.appendLine.Some? && env.moveOk(f)
                && r.output == Some(Strip(env.generation(f).text) + "\n" + cfg.appendLine.value)
                && r.fs == Move(fs, cfg.mailsDir, f, cfg.mailsDir, PROCESSED + f))
  {
  }

  /** A successful call never returns an empty output, so the caller always takes it as success. */
  lemma GeneratedOutputNonEmpty(cfg: PromptConfig, env: PromptEnv, fs: FileSystem, f: string)
    requires cfg.mailsDir in fs
    requires GenerateRobotPrompt(cfg, env, fs, f).output.Some?
    ensures GenerateRobotPrompt(cfg, env, fs, f).output.value != ""
  {
    var out := GenerateRobotPrompt(cfg, env, fs, f).output.value;
    assert out[|Strip(env.generation(f).text)|] == '\n';
  }

  /** An answer that is empty after strip is a failure: the original stays in place. */
  lemma EmptyAnswerFails(cfg: PromptConfig, env: PromptEnv, fs: FileSystem, f: string)
    requires cfg.mailsDir in fs
    requires env.generation(f).Generated? && AllSpace(env.generation(f).text)
    ensures GenerateRobotPrompt(cfg, env, fs, f) == GenResult(fs, None)
  {
    StripEmpty(env.generation(f).text);
  }

  /** An unset append line makes the composition raise: a failure with nothing moved. */
  lemma MissingAppendLineFails(cfg: PromptConfig, env: PromptEnv, fs: FileSystem, f: string)
    requires cfg.mailsDir in fs && cfg.appendLine.None?
    ensures GenerateRobotPrompt(cfg, env, fs, f) == GenResult(fs, None)
  {
  }

  /** The step, spelled out in terms of the generator's result. */
  lemma PromptStepUnfold(cfg: PromptConfig, env: PromptEnv, st: PromptState, f: string)
    requires cfg.mailsDir in st.fs && cfg.promptsDir in st.fs
    ensures var g := GenerateRobotPrompt(cfg, env, st.fs, f);
            g.fs.Keys == st.fs.Keys
            && PromptStep(cfg, env, st, f)
               == if g.output.Some? && g.output.value != "" && env.writeOk(f)
                  then PromptState(WriteFile(g.fs, cfg.promptsDir, PromptFileName(f), g.output.value), st.processed + 1, st.failed)
                  else PromptState(g.fs, st.processed, st.failed + 1)
  {
  }

  // ---------------------------------------------------------------------------
  // The per-file loop (process_all_emails_for_prompts)
  // ---------------------------------------------------------------------------

  /** The files and the two counters. */
  datatype PromptState = PromptState(fs: FileSystem, processed: nat, failed: nat)

  /**
   * One selected file: a successful generation is written to its prompt file
   * (a success) unless that write raises (a failure, the original staying
   * archived); a failed generation is a failure.
   */
  function PromptStep(cfg: PromptConfig, env: PromptEnv, st: PromptState, f: string): (st': PromptState)
    requires cfg.mailsDir in st.fs && cfg.promptsDir in st.fs
    ensures st'.fs.Keys == st.fs.Keys
  {
    StepWithOutcome(cfg, env, st, f, GenerateRobotPrompt(cfg, env, st.fs, f))
  }

  /** The step once the generation's outcome `g` is known. */
  function StepWithOutcome(cfg: PromptConfig, env: PromptEnv, st: PromptState, f: string, g: PromptOutcome): (st': PromptState)
    requires cfg.promptsDir in g.fs && g.fs.Keys == st.fs.Keys
    ensures st'.fs.Keys == st.fs.Keys
  {
    if g.output.Some? && g.output.value != "" then
      if env.writeOk(f) then
        PromptState(WriteFile(g.fs, cfg.promptsDir, PromptFileName(f), g.output.value), st.processed + 1, st.failed)
      else PromptState(g.fs, st.processed, st.failed + 1)
    else PromptState(g.fs, st.processed, st.failed + 1)
  }

  /** The loop over the first files processed so far: the state after the last of them. */
  function PromptRun(cfg: PromptConfig, env: PromptEnv, files: seq<string>, st: PromptState): (st': PromptState)
    requires cfg.mailsDir in st.fs && cfg.promptsDir in st.fs
    ensures st'.fs.Keys == st.fs.Keys
  {
    if files == [] then st
    else PromptStep(cfg, env, PromptRun(cfg, env, files[..|files| - 1], st), files[|files| - 1])
  }

  /**
   * process_all_emails_for_prompts over `listing`, the names of the mails
   * directory in the order os.listdir gives them. A missing mails directory
   * gives (0, 0) and changes nothing; otherwise the prompts directory is
   * ensured and every selected file goes through one step.
   */
  method ProcessAllEmailsForPrompts(cfg: PromptConfig, env: PromptEnv, fs: FileSystem, listing: seq<string>)
    returns (fs': FileSystem, processed: nat, failed: nat)
    requires cfg.mailsDir in fs ==> IsListingOf(listing, fs[cfg.mailsDir])
    ensures cfg.mailsDir !in fs ==> fs' == fs && processed == 0 && failed == 0
    ensures cfg.mailsDir in fs ==>
      PromptState(fs', processed, failed)
      == PromptRun(cfg, env, SelectEmailFiles(cfg.prefixes, listing), PromptState(MakeDirs(fs, cfg.promptsDir), 0, 0))
  {
    if cfg.mailsDir !in fs {
      return fs, 0, 0;
    }
    fs' := MakeDirs(fs, cfg.promptsDir);
    processed, failed := 0, 0;
    var emailFiles := SelectEmailFiles(cfg.prefixes, listing);
    if emailFiles == [] {
      return;
    }
    ghost var start := PromptState(fs', 0, 0);
    var i := 0;
    while i < |emailFiles|
      invariant 0 <= i <= |emailFiles|
      invariant cfg.mailsDir in fs' && cfg.promptsDir in fs'
      invariant PromptState(fs', processed, failed) == PromptRun(cfg, env, emailFiles[..i], start)
    {
      assert emailFiles[..i + 1][..i] == emailFiles[..i];
      ghost var before := PromptState(fs', processed, failed);
      assert PromptRun(cfg, env, emailFiles[..i + 1], start) == PromptStep(cfg, env, before, emailFiles[i]);
      fs', processed, failed := HandleEmailFile(cfg, env, fs', processed, failed, emailFiles[i]);
      i := i + 1;
    }
    assert emailFiles[..i] == emailFiles;
  }

  /** The body of the loop for one selected file. */
  method HandleEmailFile(cfg: PromptConfig, env: PromptEnv, fs: FileSystem, processed: nat, failed: nat, filename: string)
    returns (fs': FileSystem, processed': nat, failed': nat)
    requires cfg.mailsDir in fs && cfg.promptsDir in fs
    ensures PromptState(fs', processed', failed') == PromptStep(cfg, env, PromptState(fs, processed, failed), filename)
  {
    PromptStepUnfold(cfg, env, PromptState(fs, processed, failed), filename);
    var g := GenerateRobotPrompt(cfg, env, fs, filename);
    fs', processed', failed' := g.fs, processed, failed;
    if g.output.Some? && g.output.value != "" {
      if env.writeOk(filename) {
        fs' := WriteFile(fs', cfg.promptsDir, PromptFileName(filename), g.output.value);
        processed' := processed' + 1;
      } else {
        failed' := failed' + 1;
      }
    } else {
      failed' := failed' + 1;
    }
  }

  // ---------------------------------------------------------------------------
  // Properties of the loop
  // ---------------------------------------------------------------------------

  /** Every selected file adds one to exactly one counter. */
  lemma {:induction false} PromptRunCounts(cfg: PromptConfig, env: PromptEnv, files: seq<string>, st: PromptState)
    requires cfg.mailsDir in st.fs && cfg.promptsDir in st.fs
    ensures var st' := PromptRun(cfg, env, files, st);
            st'.processed + st'.failed == st.processed + st.failed + |files|
            && st.processed <= st'.processed && st.failed <= st'.failed
  {
    if files != [] {
      PromptRunCounts(cfg, env, files[..|files| - 1], st);
    }
  }

  /** The stage returns counts that add up to the number of selected files. */
  lemma ProcessedPlusFailedIsSelected(cfg: PromptConfig, env: PromptEnv, fs: FileSystem, listing: seq<string>)
    requires cfg.mailsDir in fs
    ensures var st' := PromptRun(cfg, env, SelectEmailFiles(cfg.prefixes, listing), PromptState(MakeDirs(fs, cfg.promptsDir), 0, 0));
            st'.processed + st'.failed == |SelectEmailFiles(cfg.prefixes, listing)|
  {
    PromptRunCounts(cfg, env, SelectEmailFiles(cfg.prefixes, listing), PromptState(MakeDirs(fs, cfg.promptsDir), 0, 0));
  }

  /** With nothing selected the stage only ensures the prompts directory and returns (0, 0). */
  lemma NothingSelected(cfg: PromptConfig, env: PromptEnv, fs: FileSystem, listing: seq<string>)
    requires cfg.mailsDir in fs
    requires forall n :: n in listing ==> !IsSelected(cfg.prefixes, n)
    ensures PromptRun(cfg, env, SelectEmailFiles(cfg.prefixes, listing), PromptState(MakeDirs(fs, cfg.promptsDir), 0, 0))
         == PromptState(MakeDirs(fs, cfg.promptsDir), 0, 0)
  {
    NoneSelectable(cfg.prefixes, listing);
  }

  /** The stage changes only the mails and the prompts directories. */
  lemma {:induction false} PromptRunFrame(cfg: PromptConfig, env: PromptEnv, files: seq<string>, st: PromptState, d: string)
    requires cfg.mailsDir in st.fs && cfg.promptsDir in st.fs
    requires d in st.fs && d != cfg.mailsDir && d != cfg.promptsDir
    ensures PromptRun(cfg, env, files, st).fs[d] == st.fs[d]
  {
    if files != [] {
      PromptRunFrame(cfg, env, files[..|files| - 1], st, d);
    }
  }

  /**
   * A file that goes all the way through is archived as "processed_" + its
   * name in the mails directory and its prompt file holds the stripped answer
   * and the append line; the success counter goes up by one.
   */
  lemma PromptStepSucceeds(cfg: PromptConfig, env: PromptEnv, st: PromptState, f: string)
    requires cfg.mailsDir in st.fs && cfg.promptsDir in st.fs && cfg.mailsDir != cfg.promptsDir
    requires f in st.fs[cfg.mailsDir] && env.readOk(f) && env.moveOk(f) && env.writeOk(f)
    requires env.generation(f).Generated? && !AllSpace(env.generation(f).text) && cfg.appendLine.Some?
    ensures var st' := PromptStep(cfg, env, st, f);
            var mails' := st'.fs[cfg.mailsDir];
            f !in mails' && PROCESSED + f in mails' && mails'[PROCESSED + f] == st.fs[cfg.mailsDir][f]
            && st'.fs[cfg.promptsDir] == st.fs[cfg.promptsDir][PromptFileName(f) :=
                 Strip(env.generation(f).text) + "\n" + cfg.appendLine.value]
            && st'.processed == st.processed + 1 && st'.failed == st.failed
  {
    StripEmpty(env.generation(f).text);
    GeneratedOutputNonEmpty(cfg, env, st.fs, f);
  }

  /**
   * When the prompt file cannot be written after the original was archived,
   * the file is counted as failed and stays archived, and the prompts
   * directory is left as it was: the code does not restore the original.
   */
  lemma PromptWriteFailureLeavesArchived(cfg: PromptConfig, env: PromptEnv, st: PromptState, f: string)
    requires cfg.mailsDir in st.fs && cfg.promptsDir in st.fs && cfg.mailsDir != cfg.promptsDir
    requires f in st.fs[cfg.mailsDir] && env.readOk(f) && env.moveOk(f) && !env.writeOk(f)
    requires env.generation(f).Generated? && !AllSpace(env.generation(f).text) && cfg.appendLine.Some?
    ensures var st' := PromptStep(cfg, env, st, f);
            f !in st'.fs[cfg.mailsDir] && PROCESSED + f in st'.fs[cfg.mailsDir]
            && st'.fs[cfg.promptsDir] == st.fs[cfg.promptsDir]
            && st'.processed == st.processed && st'.failed == st.failed + 1
  {
    StripEmpty(env.generation(f).text);
    GeneratedOutputNonEmpty(cfg, env, st.fs, f);
  }

  /** A failed generation is counted as failed and leaves every file where it was. */
  lemma PromptStepGenerationFails(cfg: PromptConfig, env: PromptEnv, st: PromptState, f: string)
    requires cfg.mailsDir in st.fs && cfg.promptsDir in st.fs
    requires GenerateRobotPrompt(cfg, env, st.fs, f).output.None?
    ensures PromptStep(cfg, env, st, f) == PromptState(st.fs, st.processed, st.failed + 1)
  {
    GenerateOutcome(cfg, env, st.fs, f);
  }
}
