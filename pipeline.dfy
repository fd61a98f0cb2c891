/**
 * How the three stages fit together: the fetched files of the intake stage
 * are the input of the prompt stage, whose prompt files are the input of the
 * automation stage. Also what the configuration the repository ships with
 * does: the two subject patterns, the empty content markers and the two
 * hard-coded category prefixes of the prompt stage.
 */
module Pipeline {
  import opened Wrappers
  import opened Strings
  import opened FileSystem
  import MailFetcher
  import PromptWriter
  import RobotAutomator

  // ---------------------------------------------------------------------------
  // The shipped configuration
  // ---------------------------------------------------------------------------

  /** EMAIL_SUBJECT_PATTERNS, in its insertion order: a single space, then the empty pattern. */
  const SHIPPED_RULES: seq<MailFetcher.Rule> := [MailFetcher.Rule(" ", "tag"), MailFetcher.Rule("", "tag2")]

  /** CONTENT_MARKERS: both categories with an empty start and an empty end marker. */
  const SHIPPED_MARKERS: map<string, MailFetcher.Markers> :=
    map["tag" := MailFetcher.Markers("", ""), "tag2" := MailFetcher.Markers("", "")]

  /** The category prefixes the prompt stage hard-codes. */
  const SHIPPED_PREFIXES: seq<string> := ["agency 1", "agency 2"]

  /**
   * `re.match` on a pattern without metacharacters, which both shipped
   * patterns are: the subject starts with the pattern.
   */
  ghost predicate IsLiteralMatcher(matches: MailFetcher.Matcher) {
    forall p, s :: matches(p, s) == StartsWith(s, p)
  }

  /** The intake configuration as shipped, for any output directory and mark_as_read. */
  ghost predicate IsShippedIntake(cfg: MailFetcher.IntakeConfig) {
    cfg.rules == SHIPPED_RULES && IsLiteralMatcher(cfg.matches) && cfg.markers == SHIPPED_MARKERS
  }

  /**
   * The classifier matches the stripped subject, which never starts with a
   * space, so the first pattern never fires and the empty pattern always
   * does: every message is classified "tag2", none is skipped.
   */
  lemma ShippedRulesClassifyAsTag2(matches: MailFetcher.Matcher, subjectHeader: string)
    requires IsLiteralMatcher(matches)
    ensures MailFetcher.FirstMatchingTag(SHIPPED_RULES, matches, Strip(subjectHeader)) == Some("tag2")
  {
    var s := Strip(subjectHeader);
    StripSpec(subjectHeader);
    assert StartsWith(s, "") by {
      assert s[..0] == "";
    }
    assert SHIPPED_RULES[1..] == [MailFetcher.Rule("", "tag2")];
    assert SHIPPED_RULES[1..][1..] == [];
  }

  /**
   * With the empty markers the extract is empty whatever the body, so a
   * fetched file holds only its subject and date lines.
   */
  lemma ShippedContentIsHeaderOnly(cfg: MailFetcher.IntakeConfig, tag: string, msg: MailFetcher.Message)
    requires cfg.markers == SHIPPED_MARKERS && tag in SHIPPED_MARKERS
    ensures MailFetcher.TargetContent(cfg, tag, msg)
            == "Subject: " + Strip(msg.subjectHeader) + "\n" + "Date: " + MailFetcher.DateText(msg.dateHeader) + "\n\n"
  {
    MailFetcher.ExtractWithEmptyMarkers(MailFetcher.PreferredBody(msg.parts));
  }

  /**
   * A fetched file of either shipped category starts with "tag", and no
   * name that does is selected by the prefixes "agency 1" and "agency 2".
   */
  lemma ShippedPrefixesSelectNoFetchedFile(tag: string, day: string, ordinal: nat)
    requires tag == "tag" || tag == "tag2"
    ensures !PromptWriter.IsSelected(SHIPPED_PREFIXES, MailFetcher.FetchedFileName(tag, day, ordinal))
  {
    var name := MailFetcher.FetchedFileName(tag, day, ordinal);
    assert name[0] == 't';
    forall i | 0 <= i < |SHIPPED_PREFIXES|
      ensures !StartsWith(name, SHIPPED_PREFIXES[i])
    {
      assert SHIPPED_PREFIXES[i][0] == 'a';
    }
  }

  /**
   * With the category prefixes supplied as a parameter holding the tag, the
   * fetched files of that category are selected.
   */
  lemma FetchedFileSelectedByItsTag(prefixes: seq<string>, tag: string, day: string, ordinal: nat)
    requires tag in prefixes
    ensures PromptWriter.IsSelected(prefixes, MailFetcher.FetchedFileName(tag, day, ordinal))
  {
    var name := MailFetcher.FetchedFileName(tag, day, ordinal);
    var i :| 0 <= i < |prefixes| && prefixes[i] == tag;
    assert name[..|tag|] == tag;
    assert name[|name| - 4..] == ".txt";
  }

  /**
   * An intake run with the shipped configuration adds no name the shipped
   * prompt stage selects to an output directory that had none.
   */
  lemma {:induction false} ShippedIntakeAddsNothingSelectable(
    cfg: MailFetcher.IntakeConfig, msgs: seq<MailFetcher.Message>, writeOk: nat -> bool, k: nat, st: MailFetcher.IntakeState)
    requires IsShippedIntake(cfg) && k <= |msgs| && cfg.outputDir in st.fs
    requires forall n :: n in st.fs[cfg.outputDir] ==> !PromptWriter.IsSelected(SHIPPED_PREFIXES, n)
    ensures var out := MailFetcher.IntakeRun(cfg, msgs, writeOk, k, st);
            forall n :: n in out.fs[cfg.outputDir] ==> !PromptWriter.IsSelected(SHIPPED_PREFIXES, n)
    decreases |msgs| - k
  {
    if k < |msgs| {
      var msg := msgs[k];
      ShippedRulesClassifyAsTag2(cfg.matches, msg.subjectHeader);
      var name := MailFetcher.TargetName(st.fs[cfg.outputDir], "tag2", msg);
      ShippedPrefixesSelectNoFetchedFile("tag2", msg.day,
        MailFetcher.NextSequence(st.fs[cfg.outputDir], "tag2", msg.day, MailFetcher.SUFFIX_LEN));
      var next := MailFetcher.IntakeStep(cfg, msg, k, writeOk(k), st);
      assert forall n :: n in next.fs[cfg.outputDir] ==> n in st.fs[cfg.outputDir] || n == name;
      ShippedIntakeAddsNothingSelectable(cfg, msgs, writeOk, k + 1, next);
    }
  }

  /**
   * The shipped configuration stalls the pipeline: when the prompt stage
   * reads the intake's output directory and that directory held nothing it
   * selects, it selects nothing after the intake ran either, so every
   * fetched message stops there.
   */
  lemma ShippedPipelineStalls(
    cfg: MailFetcher.IntakeConfig, msgs: seq<MailFetcher.Message>, writeOk: nat -> bool,
    fs: FileSystem, listing: seq<string>)
    requires IsShippedIntake(cfg)
    requires cfg.outputDir in fs ==> forall n :: n in fs[cfg.outputDir] ==> !PromptWriter.IsSelected(SHIPPED_PREFIXES, n)
    requires IsListingOf(listing, MailFetcher.IntakeRun(cfg, msgs, writeOk, 0, MailFetcher.IntakeStart(cfg, fs)).fs[cfg.outputDir])
    ensures PromptWriter.SelectEmailFiles(SHIPPED_PREFIXES, listing) == []
  {
    var st := MailFetcher.IntakeStart(cfg, fs);
    ShippedIntakeAddsNothingSelectable(cfg, msgs, writeOk, 0, st);
    PromptWriter.NoneSelectable(SHIPPED_PREFIXES, listing);
  }

  // ---------------------------------------------------------------------------
  // The hand-over from the prompt stage to the automation stage
  // ---------------------------------------------------------------------------

  /**
   * Every prompt file the prompt stage writes is pending for the automation
   * stage: its name starts with "processed_" and ends with ".txt".
   */
  lemma PromptFileIsPending(f: string)
    ensures RobotAutomator.IsPending(PromptWriter.PromptFileName(f))
  {
  }

  /**
   * The archived copy of a selected file has the same shape as a prompt
   * file, "processed_" ... ".txt": the stages keep apart only because the
   * mails directory and the prompts directory are different directories. If
   * they were one, the automation stage would take archived messages for
   * commands.
   */
  lemma ArchivedFileLooksPending(prefixes: seq<string>, f: string)
    requires PromptWriter.IsSelected(prefixes, f)
    ensures RobotAutomator.IsPending(PromptWriter.ArchiveName(f))
  {
    PromptWriter.ArchivedEndsWithTxt(f);
    var a := PromptWriter.ArchiveName(f);
    assert a[..|PromptWriter.PROCESSED|] == PromptWriter.PROCESSED;
  }
}
