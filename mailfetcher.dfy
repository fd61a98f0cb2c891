/**
 * The intake stage (mailfetcher.py): subject classification, body-part
 * selection, marker-based content extraction, the per-day ordinal allocator,
 * the fetched-file name and header, and the per-message loop that writes one
 * file per classified message.
 *
 * The IMAP session is not modelled: the loop is given the messages already in
 * INTERNALDATE order, each with its calendar day already formatted as
 * YYYYMMDD, and the outcome of each file write. Marking a message read is an
 * event recorded as the message's position in that sequence.
 */
module MailFetcher {
  import opened Wrappers
  import opened Strings
  import opened FileSystem

  // ---------------------------------------------------------------------------
  // Content extractor (extract_content_between_markers)
  // ---------------------------------------------------------------------------

  /** Strip of a slice of `text` is itself a slice of `text`. */
  lemma StripOfSliceOccurs(text: string, lo: nat, hi: nat)
    requires lo <= hi <= |text|
    ensures Occurs(Strip(text[lo..hi]), text)
  {
    var t := text[lo..hi];
    var r := Strip(t);
    var a := LeadingSpace(t);
    StripSpec(t);
    assert a + |r| <= |t|;
    assert forall i :: 0 <= i < |r| ==> r[i] == t[a + i] == text[lo + a + i];
    assert text[lo + a..lo + a + |r|] == t[a..a + |r|];
    assert MatchAt(text, r, lo + a);
  }

  /**
   * The content between the first start marker and the first end marker after
   * it, stripped. Without a start marker the text comes back unchanged; with a
   * start marker and no end marker after it, everything after the start
   * marker, stripped.
   */
  function ExtractContentBetweenMarkers(text: string, startMarker: string, endMarker: string): string {
    ExtractFromIndex(text, startMarker, endMarker, Find(text, startMarker, 0))
  }

  /** The extractor once the start marker's search returned `startIndex`. */
  function ExtractFromIndex(text: string, startMarker: string, endMarker: string, startIndex: int): string
    requires startIndex == -1 || (0 <= startIndex && startIndex + |startMarker| <= |text|)
  {
    if startIndex == -1 then text
    else ContentFrom(text, startIndex + |startMarker|, endMarker)
  }

  /** The second half of the extractor: from the end of the start marker on. */
  function ContentFrom(text: string, startOfContent: nat, endMarker: string): string
    requires startOfContent <= |text|
  {
    ContentUpTo(text, startOfContent, Find(text, endMarker, startOfContent))
  }

  /** The second half once the end marker's search returned `endIndex`. */
  function ContentUpTo(text: string, startOfContent: nat, endIndex: int): string
    requires startOfContent <= |text|
    requires endIndex == -1 || (startOfContent <= endIndex <= |text|)
  {
    if endIndex == -1 then Strip(text[startOfContent..])
    else Strip(text[startOfContent..endIndex])
  }

  /** Without a start marker the text is returned unchanged, unstripped. */
  lemma ExtractWithoutStartMarker(text: string, startMarker: string, endMarker: string)
    requires !Occurs(startMarker, text)
    ensures ExtractContentBetweenMarkers(text, startMarker, endMarker) == text
  {
    FindFromZero(text, startMarker);
  }

  /** Once the start marker occurs, the result is a stripped substring of the text. */
  lemma ExtractedIsStrippedSubstring(text: string, startMarker: string, endMarker: string)
    requires Occurs(startMarker, text)
    ensures IsStripped(ExtractContentBetweenMarkers(text, startMarker, endMarker))
    ensures Occurs(ExtractContentBetweenMarkers(text, startMarker, endMarker), text)
  {
    FindFromZero(text, startMarker);
    var startOfContent := Find(text, startMarker, 0) + |startMarker|;
    var endIndex := Find(text, endMarker, startOfContent);
    if endIndex == -1 {
      ExtractAtEnd(text, startMarker, endMarker, startOfContent - |startMarker|);
      StripOfSliceOccurs(text, startOfContent, |text|);
      assert text[startOfContent..] == text[startOfContent..|text|];
      StripSpec(text[startOfContent..]);
    } else {
      ExtractAt(text, startMarker, endMarker, startOfContent - |startMarker|, endIndex);
      StripOfSliceOccurs(text, startOfContent, endIndex);
      StripSpec(text[startOfContent..endIndex]);
    }
  }

  /** The second half when the end marker is not found: the rest, stripped. */
  lemma ContentToEnd(text: string, startOfContent: nat, endMarker: string)
    requires startOfContent <= |text|
    requires Find(text, endMarker, startOfContent) == -1
    ensures ContentFrom(text, startOfContent, endMarker) == Strip(text[startOfContent..])
  {
  }

  /** The second half when the end marker is found at `end`: the text up to it, stripped. */
  lemma ContentToMarker(text: string, startOfContent: nat, endMarker: string, end: nat)
    requires startOfContent <= |text|
    requires Find(text, endMarker, startOfContent) == end
    ensures startOfContent <= end <= |text|
    ensures ContentFrom(text, startOfContent, endMarker) == Strip(text[startOfContent..end])
  {
  }

  /** Once the start marker is found at `start`, the extractor is its second half from the marker's end. */
  lemma ExtractFrom(text: string, startMarker: string, endMarker: string, start: nat)
    requires Find(text, startMarker, 0) == start
    ensures start + |startMarker| <= |text|
    ensures ExtractContentBetweenMarkers(text, startMarker, endMarker) == ContentFrom(text, start + |startMarker|, endMarker)
  {
  }

  /** The extractor in terms of the two searches' results, when no end marker is found. */
  lemma ExtractAtEnd(text: string, startMarker: string, endMarker: string, start: nat)
    requires Find(text, startMarker, 0) == start
    requires Find(text, endMarker, start + |startMarker|) == -1
    ensures start + |startMarker| <= |text|
    ensures ExtractContentBetweenMarkers(text, startMarker, endMarker) == Strip(text[start + |startMarker|..])
  {
    ContentToEnd(text, start + |startMarker|, endMarker);
  }

  /** The extractor in terms of the two searches' results, when both are found. */
  lemma ExtractAt(text: string, startMarker: string, endMarker: string, start: nat, end: nat)
    requires Find(text, startMarker, 0) == start
    requires Find(text, endMarker, start + |startMarker|) == end
    ensures start + |startMarker| <= end <= |text|
    ensures ExtractContentBetweenMarkers(text, startMarker, endMarker) == Strip(text[start + |startMarker|..end])
  {
    ExtractFrom(text, startMarker, endMarker, start);
    ContentToMarker(text, start + |startMarker|, endMarker, end);
  }

  /** `start` is where `marker` first occurs in `text`. */
  predicate FirstOccurrence(text: string, marker: string, start: nat) {
    MatchAt(text, marker, start) && forall i: nat :: i < start ==> !MatchAt(text, marker, i)
  }

  /** A start marker with no end marker after it: the rest of the text, stripped. */
  lemma ExtractWithoutEndMarker(text: string, startMarker: string, endMarker: string, start: nat)
    requires FirstOccurrence(text, startMarker, start)
    requires forall j: nat :: start + |startMarker| <= j ==> !MatchAt(text, endMarker, j)
    ensures ExtractContentBetweenMarkers(text, startMarker, endMarker) == Strip(text[start + |startMarker|..])
  {
    FindFirst(text, startMarker, 0, start);
    ExtractAtEnd(text, startMarker, endMarker, start);
  }

  /**
   * Both markers present: the text strictly between the first start marker
   * and the first end marker at or after its end, stripped.
   */
  lemma ExtractBetweenMarkers(text: string, startMarker: string, endMarker: string, start: nat, end: nat)
    requires FirstOccurrence(text, startMarker, start)
    requires start + |startMarker| <= end && MatchAt(text, endMarker, end)
    requires forall j: nat :: start + |startMarker| <= j < end ==> !MatchAt(text, endMarker, j)
    ensures ExtractContentBetweenMarkers(text, startMarker, endMarker) == Strip(text[start + |startMarker|..end])
  {
    FindFirst(text, startMarker, 0, start);
    FindFirst(text, endMarker, start + |startMarker|, end);
    ExtractAt(text, startMarker, endMarker, start, end);
  }

  /** The shipped configuration's empty markers extract the empty string from any text. */
  lemma ExtractWithEmptyMarkers(text: string)
    ensures ExtractContentBetweenMarkers(text, "", "") == ""
  {
    FindEmpty(text, 0);
  }

  // ---------------------------------------------------------------------------
  // Category classifier (the loop over EMAIL_SUBJECT_PATTERNS)
  // ---------------------------------------------------------------------------

  /** One entry of the ordered pattern-to-category mapping. */
  datatype Rule = Rule(pattern: string, tag: string)

  /** Whether `re.match(pattern, subject)` succeeds; the regex engine is an input. */
  type Matcher = (string, string) -> bool

  /** The tag of the first rule, in list order, whose pattern matches the subject. */
  function FirstMatchingTag(rules: seq<Rule>, matches: Matcher, subject: string): Option<string> {
    if rules == [] then None
    else if matches(rules[0].pattern, subject) then Some(rules[0].tag)
    else FirstMatchingTag(rules[1..], matches, subject)
  }

  /** The first matching rule decides, whatever the later rules say. */
  lemma {:induction false} FirstMatchWins(rules: seq<Rule>, matches: Matcher, subject: string, k: nat)
    requires k < |rules| && matches(rules[k].pattern, subject)
    requires forall j :: 0 <= j < k ==> !matches(rules[j].pattern, subject)
    ensures FirstMatchingTag(rules, matches, subject) == Some(rules[k].tag)
  {
    if k > 0 {
      FirstMatchWins(rules[1..], matches, subject, k - 1);
    }
  }

  /** There is no tag exactly when no rule matches. */
  lemma {:induction false} NoRuleMatches(rules: seq<Rule>, matches: Matcher, subject: string)
    ensures FirstMatchingTag(rules, matches, subject) == None
        <==> forall j :: 0 <= j < |rules| ==> !matches(rules[j].pattern, subject)
  {
    if rules != [] {
      NoRuleMatches(rules[1..], matches, subject);
      assert forall j :: 1 <= j < |rules| ==> rules[j] == rules[1..][j - 1];
    }
  }

  /** The classifier loop: the first matching rule sets the tag and ends the walk. */
  method ClassifySubject(rules: seq<Rule>, matches: Matcher, subject: string) returns (matched: Option<string>)
    ensures matched == FirstMatchingTag(rules, matches, subject)
  {
    matched := None;
    var i := 0;
    while i < |rules|
      invariant 0 <= i <= |rules|
      invariant FirstMatchingTag(rules, matches, subject) == FirstMatchingTag(rules[i..], matches, subject)
    {
      if matches(rules[i].pattern, subject) {
        matched := Some(rules[i].tag);
        break;
      }
      assert rules[i..][1..] == rules[i + 1..];
      i := i + 1;
    }
  }

  /** `if not matched_sender_type: continue` — no match, or a match whose tag is empty. */
  predicate IsSkipped(matched: Option<string>) {
    matched.None? || matched.value == ""
  }

  // ---------------------------------------------------------------------------
  // Body selection (the walk over the MIME parts)
  // ---------------------------------------------------------------------------

  /** A MIME part: its content type, its Content-Disposition header if any, its decoded payload. */
  datatype Part = Part(contentType: string, disposition: Option<string>, payload: string)

  predicate IsAttachment(p: Part) {
    p.disposition.Some? && StartsWith(p.disposition.value, "attachment")
  }

  /** A part eligible as the plain-text body. */
  predicate IsPlainBody(p: Part) {
    !IsAttachment(p) && p.contentType == "text/plain"
  }

  /** A part eligible as the HTML fallback body: non-attachment HTML with a non-empty payload. */
  predicate IsHtmlBody(p: Part) {
    !IsAttachment(p) && p.contentType == "text/html" && p.payload != ""
  }

  function FirstPlainPayload(parts: seq<Part>): Option<string> {
    if parts == [] then None
    else if IsPlainBody(parts[0]) then Some(parts[0].payload)
    else FirstPlainPayload(parts[1..])
  }

  function FirstHtmlPayload(parts: seq<Part>): string {
    if parts == [] then ""
    else if IsHtmlBody(parts[0]) then parts[0].payload
    else FirstHtmlPayload(parts[1..])
  }

  /**
   * The reference definition of the body: the first eligible plain-text part,
   * else the first eligible non-empty HTML part, else the empty string.
   */
  function PreferredBody(parts: seq<Part>): string {
    match FirstPlainPayload(parts)
    case Some(b) => b
    case None => FirstHtmlPayload(parts)
  }

  lemma {:induction false} FirstPlainAt(parts: seq<Part>, k: nat)
    requires k < |parts| && IsPlainBody(parts[k])
    requires forall j :: 0 <= j < k ==> !IsPlainBody(parts[j])
    ensures FirstPlainPayload(parts) == Some(parts[k].payload)
  {
    if k > 0 {
      FirstPlainAt(parts[1..], k - 1);
    }
  }

  lemma {:induction false} NoPlainPart(parts: seq<Part>)
    requires forall j :: 0 <= j < |parts| ==> !IsPlainBody(parts[j])
    ensures FirstPlainPayload(parts) == None
  {
    if parts != [] {
      NoPlainPart(parts[1..]);
    }
  }

  lemma {:induction false} FirstHtmlAt(parts: seq<Part>, k: nat)
    requires k < |parts| && IsHtmlBody(parts[k])
    requires forall j :: 0 <= j < k ==> !IsHtmlBody(parts[j])
    ensures FirstHtmlPayload(parts) == parts[k].payload
  {
    if k > 0 {
      FirstHtmlAt(parts[1..], k - 1);
    }
  }

  lemma {:induction false} NoHtmlPart(parts: seq<Part>)
    requires forall j :: 0 <= j < |parts| ==> !IsHtmlBody(parts[j])
    ensures FirstHtmlPayload(parts) == ""
  {
    if parts != [] {
      NoHtmlPart(parts[1..]);
    }
  }

  /** The first eligible plain-text part is the body, whatever follows it. */
  lemma PlainPartWins(parts: seq<Part>, k: nat)
    requires k < |parts| && IsPlainBody(parts[k])
    requires forall j :: 0 <= j < k ==> !IsPlainBody(parts[j])
    ensures PreferredBody(parts) == parts[k].payload
  {
    FirstPlainAt(parts, k);
  }

  /** Without a plain-text part, the first non-empty eligible HTML part is the body. */
  lemma HtmlPartFallback(parts: seq<Part>, k: nat)
    requires forall j :: 0 <= j < |parts| ==> !IsPlainBody(parts[j])
    requires k < |parts| && IsHtmlBody(parts[k])
    requires forall j :: 0 <= j < k ==> !IsHtmlBody(parts[j])
    ensures PreferredBody(parts) == parts[k].payload
  {
    NoPlainPart(parts);
    FirstHtmlAt(parts, k);
  }

  /** With neither, the body is empty. */
  lemma EmptyBodyFallback(parts: seq<Part>)
    requires forall j :: 0 <= j < |parts| ==> !IsPlainBody(parts[j]) && !IsHtmlBody(parts[j])
    ensures PreferredBody(parts) == ""
  {
    NoPlainPart(parts);
    NoHtmlPart(parts);
  }

  lemma {:induction false} AttachmentIgnoredByPlain(parts: seq<Part>, k: nat)
    requires k < |parts| && IsAttachment(parts[k])
    ensures FirstPlainPayload(parts) == FirstPlainPayload(parts[..k] + parts[k + 1..])
    ensures FirstHtmlPayload(parts) == FirstHtmlPayload(parts[..k] + parts[k + 1..])
  {
    var rest := parts[..k] + parts[k + 1..];
    if k == 0 {
      assert rest == parts[1..];
    } else {
      AttachmentIgnoredByPlain(parts[1..], k - 1);
      assert rest[0] == parts[0];
      assert rest[1..] == parts[1..][..k - 1] + parts[1..][k..];
    }
  }

  /** An attachment never contributes: removing it does not change the body. */
  lemma AttachmentIgnored(parts: seq<Part>, k: nat)
    requires k < |parts| && IsAttachment(parts[k])
    ensures PreferredBody(parts) == PreferredBody(parts[..k] + parts[k + 1..])
  {
    AttachmentIgnoredByPlain(parts, k);
  }

  /**
   * The part walk: a plain-text part sets the body and ends the walk; an HTML
   * part sets it only while it is still empty; attachments are passed over.
   */
  method SelectBody(parts: seq<Part>) returns (body: string)
    ensures body == PreferredBody(parts)
  {
    body := "";
    var i := 0;
    while i < |parts|
      invariant 0 <= i <= |parts|
      invariant FirstPlainPayload(parts) == FirstPlainPayload(parts[i..])
      invariant FirstHtmlPayload(parts) == if body != "" then body else FirstHtmlPayload(parts[i..])
    {
      var part := parts[i];
      assert parts[i..][0] == part && parts[i..][1..] == parts[i + 1..];
      if !IsAttachment(part) {
        if part.contentType == "text/plain" {
          body := part.payload;
          break;
        } else if part.contentType == "text/html" && body == "" {
          body := part.payload;
        }
      }
      i := i + 1;
    }
  }

  // ---------------------------------------------------------------------------
  // Per-day ordinal allocator (get_next_daily_sequence_from_files)
  // ---------------------------------------------------------------------------

  /** The name-length allowance after the prefix in the length check as written: `len(prefix) + 6`. */
  const AS_WRITTEN_SUFFIX_LEN: nat := 6

  /** The length after the prefix of the names actually written: three digits and ".txt". */
  const SUFFIX_LEN: nat := 7

  /** `f"{sender_type}_{date_for_filename}_"` */
  function SequencePrefix(tag: string, day: string): string {
    tag + "_" + day + "_"
  }

  /**
   * The ordinal the allocator reads from a listed name: the name must start
   * with the prefix, end with ".txt" and be exactly `suffixLen` longer than
   * the prefix; the three characters after the prefix must then parse.
   */
  function ParsedOrdinal(name: string, prefix: string, suffixLen: nat): Option<nat> {
    if StartsWith(name, prefix) && EndsWith(name, ".txt") && |name| == |prefix| + suffixLen then
      ParseInt(name[|prefix|..if |prefix| + 3 <= |name| then |prefix| + 3 else |name|])
    else None
  }

  /** The largest ordinal parsed from `names`, 0 if none parses. */
  ghost function MaxOrdinal(names: set<string>, prefix: string, suffixLen: nat): (m: nat)
    ensures forall n :: n in names && ParsedOrdinal(n, prefix, suffixLen).Some? ==>
              ParsedOrdinal(n, prefix, suffixLen).value <= m
    ensures m == 0 || exists n :: n in names && ParsedOrdinal(n, prefix, suffixLen) == Some(m)
    decreases names
  {
    if names == {} then 0
    else
      var n :| n in names;
      var rest := MaxOrdinal(names - {n}, prefix, suffixLen);
      match ParsedOrdinal(n, prefix, suffixLen)
      case Some(v) => if v > rest then v else rest
      case None => rest
  }

  /** The ordinal the allocator returns for a directory: one more than the largest parsed. */
  ghost function NextSequence(dir: Directory, tag: string, day: string, suffixLen: nat): nat {
    MaxOrdinal(dir.Keys, SequencePrefix(tag, day), suffixLen) + 1
  }

  /** A bound that every parsed ordinal respects and that is 0 or attained is the largest. */
  lemma MaxOrdinalUnique(names: set<string>, prefix: string, suffixLen: nat, m: nat)
    requires forall n :: n in names && ParsedOrdinal(n, prefix, suffixLen).Some? ==>
               ParsedOrdinal(n, prefix, suffixLen).value <= m
    requires m == 0 || exists n :: n in names && ParsedOrdinal(n, prefix, suffixLen) == Some(m)
    ensures MaxOrdinal(names, prefix, suffixLen) == m
  {
    var mx := MaxOrdinal(names, prefix, suffixLen);
    if mx != 0 {
      var n :| n in names && ParsedOrdinal(n, prefix, suffixLen) == Some(mx);
    }
  }

  /** Every ordinal parsed from `names` is at most `m`. */
  predicate OrdinalsAtMost(names: set<string>, prefix: string, suffixLen: nat, m: nat) {
    forall n :: n in names && ParsedOrdinal(n, prefix, suffixLen).Some? ==> ParsedOrdinal(n, prefix, suffixLen).value <= m
  }

  /** `m` is 0 or the ordinal of one of `names`. */
  predicate OrdinalAttained(names: set<string>, prefix: string, suffixLen: nat, m: nat) {
    m == 0 || exists n :: n in names && ParsedOrdinal(n, prefix, suffixLen) == Some(m)
  }

  /** One more name scanned: the running maximum, raised to its ordinal if that is larger, is still a maximum. */
  lemma ScanOne(seen: set<string>, name: string, prefix: string, suffixLen: nat, m: nat, m': nat)
    requires OrdinalsAtMost(seen, prefix, suffixLen, m) && OrdinalAttained(seen, prefix, suffixLen, m)
    requires var o := ParsedOrdinal(name, prefix, suffixLen);
             m' == if o.Some? && o.value > m then o.value else m
    ensures OrdinalsAtMost(seen + {name}, prefix, suffixLen, m') && OrdinalAttained(seen + {name}, prefix, suffixLen, m')
  {
    if m' != m {
      assert name in seen + {name};
    } else if m != 0 {
      var n :| n in seen && ParsedOrdinal(n, prefix, suffixLen) == Some(m);
      assert n in seen + {name};
    }
  }

  /**
   * Scans the listing of `outputDir` (in whatever order it comes) and returns
   * one more than the largest ordinal found; 1 when the directory is missing
   * or no name parses.
   */
  method GetNextDailySequence(fs: FileSystem, outputDir: string, tag: string, day: string, suffixLen: nat)
    returns (next: nat)
    ensures next >= 1
    ensures outputDir in fs ==> forall n :: n in fs[outputDir] && ParsedOrdinal(n, SequencePrefix(tag, day), suffixLen).Some? ==>
              ParsedOrdinal(n, SequencePrefix(tag, day), suffixLen).value < next
    ensures next == 1 || (outputDir in fs && exists n :: (n in fs[outputDir] &&
              ParsedOrdinal(n, SequencePrefix(tag, day), suffixLen) == Some(next - 1)))
    ensures outputDir in fs ==> next == NextSequence(fs[outputDir], tag, day, suffixLen)
  {
    var maxSequence := 0;
    var prefix := SequencePrefix(tag, day);
    if outputDir in fs {
      var remaining := fs[outputDir].Keys;
      while remaining != {}
        invariant remaining <= fs[outputDir].Keys
        invariant OrdinalsAtMost(fs[outputDir].Keys - remaining, prefix, suffixLen, maxSequence)
        invariant OrdinalAttained(fs[outputDir].Keys - remaining, prefix, suffixLen, maxSequence)
        decreases remaining
      {
        var filename :| filename in remaining;
        ghost var seen := fs[outputDir].Keys - remaining;
        ghost var before := maxSequence;
        var currentSequence := ParsedOrdinal(filename, prefix, suffixLen);
        if currentSequence.Some? && currentSequence.value > maxSequence {
          maxSequence := currentSequence.value;
        }
        ScanOne(seen, filename, prefix, suffixLen, before, maxSequence);
        assert fs[outputDir].Keys - (remaining - {filename}) == seen + {filename};
        remaining := remaining - {filename};
      }
      MaxOrdinalUnique(fs[outputDir].Keys, prefix, suffixLen, maxSequence);
    }
    next := maxSequence + 1;
  }

  /**
   * As written, the length check leaves room for only two digits, so the
   * three-character slice always ends in the '.' of ".txt" and never parses.
   */
  lemma AsWrittenNothingParses(name: string, prefix: string)
    ensures ParsedOrdinal(name, prefix, AS_WRITTEN_SUFFIX_LEN) == None
  {
    if StartsWith(name, prefix) && EndsWith(name, ".txt") && |name| == |prefix| + AS_WRITTEN_SUFFIX_LEN {
      var slice := name[|prefix|..|prefix| + 3];
      assert slice[2] == name[|name| - 4] == '.';
      assert !AllDigits(slice);
    }
  }

  /** Consequently the allocator as written returns 1 for every directory. */
  lemma AsWrittenSequenceAlwaysOne(dir: Directory, tag: string, day: string)
    ensures NextSequence(dir, tag, day, AS_WRITTEN_SUFFIX_LEN) == 1
  {
    forall n | n in dir.Keys
      ensures ParsedOrdinal(n, SequencePrefix(tag, day), AS_WRITTEN_SUFFIX_LEN) == None
    {
      AsWrittenNothingParses(n, SequencePrefix(tag, day));
    }
  }

  // ---------------------------------------------------------------------------
  // Fetched-file name and contents
  // ---------------------------------------------------------------------------

  /** `f"{tag}_{date}_{seq:03d}.txt"` */
  function FetchedFileName(tag: string, day: string, ordinal: nat): string {
    SequencePrefix(tag, day) + Pad3(ordinal) + ".txt"
  }

  /** The date header as the f-string renders it; a missing header prints as "None". */
  function DateText(dateHeader: Option<string>): string {
    match dateHeader
    case None => "None"
    case Some(d) => d
  }

  /** The three writes: the subject line, the date line and a blank line, then the content. */
  function FetchedFileContent(subject: string, dateHeader: Option<string>, content: string): string {
    "Subject: " + subject + "\n" + "Date: " + DateText(dateHeader) + "\n\n" + content
  }

  /** Below 1000, the allocator reads back from a written name exactly the ordinal written into it. */
  lemma FileNameParsesBack(tag: string, day: string, ordinal: nat)
    requires ordinal < 1000
    ensures ParsedOrdinal(FetchedFileName(tag, day, ordinal), SequencePrefix(tag, day), SUFFIX_LEN) == Some(ordinal)
  {
    var prefix := SequencePrefix(tag, day);
    var name := FetchedFileName(tag, day, ordinal);
    Pad3RoundTrip(ordinal);
    assert name[..|prefix|] == prefix;
    assert name[|name| - 4..] == ".txt";
    assert name[|prefix|..|prefix| + 3] == Pad3(ordinal);
  }

  /** The allocated name is not yet taken, so the write creates a new file. */
  lemma AllocatedNameIsFresh(dir: Directory, tag: string, day: string)
    requires NextSequence(dir, tag, day, SUFFIX_LEN) < 1000
    ensures FetchedFileName(tag, day, NextSequence(dir, tag, day, SUFFIX_LEN)) !in dir
  {
    var n := NextSequence(dir, tag, day, SUFFIX_LEN);
    FileNameParsesBack(tag, day, n);
  }

  /**
   * Ordinals are dense and increasing within a (tag, day): once the file with
   * the allocated ordinal n is written, the next allocation is n + 1.
   */
  lemma SequenceAfterWrite(dir: Directory, tag: string, day: string, content: string)
    requires NextSequence(dir, tag, day, SUFFIX_LEN) < 1000
    ensures var n := NextSequence(dir, tag, day, SUFFIX_LEN);
            NextSequence(dir[FetchedFileName(tag, day, n) := content], tag, day, SUFFIX_LEN) == n + 1
  {
    var n := NextSequence(dir, tag, day, SUFFIX_LEN);
    var name := FetchedFileName(tag, day, n);
    var prefix := SequencePrefix(tag, day);
    var dir' := dir[name := content];
    FileNameParsesBack(tag, day, n);
    assert dir'.Keys == dir.Keys + {name};
    MaxOrdinalUnique(dir'.Keys, prefix, SUFFIX_LEN, n);
  }

  /** As written, the second message of a day gets the first one's name, and its write replaces that file. */
  lemma AsWrittenSameDayCollides(dir: Directory, tag: string, day: string, content: string)
    ensures var first := FetchedFileName(tag, day, NextSequence(dir, tag, day, AS_WRITTEN_SUFFIX_LEN));
            FetchedFileName(tag, day, NextSequence(dir[first := content], tag, day, AS_WRITTEN_SUFFIX_LEN)) == first
  {
    var first := FetchedFileName(tag, day, NextSequence(dir, tag, day, AS_WRITTEN_SUFFIX_LEN));
    AsWrittenSequenceAlwaysOne(dir, tag, day);
    AsWrittenSequenceAlwaysOne(dir[first := content], tag, day);
  }

  // ---------------------------------------------------------------------------
  // The per-message loop (fetch_emails)
  // ---------------------------------------------------------------------------

  /**
   * A fetched message, as the loop sees it after INTERNALDATE ordering: the
   * raw Subject header, the Date header if present, the calendar day of the
   * parsed date (or of the clock when parsing fails) as YYYYMMDD, and the
   * MIME parts in walk order.
   */
  datatype Message = Message(subjectHeader: string, dateHeader: Option<string>, day: string, parts: seq<Part>)

  /** The start and end marker configured for one category. */
  datatype Markers = Markers(startMarker: string, endMarker: string)

  /**
   * The module-level configuration and the call's arguments: the ordered
   * subject rules, the regex engine, the per-category markers, the output
   * directory and mark_as_read.
   */
  datatype IntakeConfig = IntakeConfig(
    rules: seq<Rule>, matches: Matcher, markers: map<string, Markers>,
    outputDir: string, markAsRead: bool)

  /** What the loop has produced so far: the files, the saved paths, the messages marked read. */
  datatype IntakeState = IntakeState(fs: FileSystem, saved: seq<Path>, markedRead: seq<nat>)

  /** The category of a message: its stripped subject, classified. */
  function MessageTag(cfg: IntakeConfig, msg: Message): Option<string> {
    FirstMatchingTag(cfg.rules, cfg.matches, Strip(msg.subjectHeader))
  }

  /** The part of the body that is saved: the marker extract for a category with markers, else the whole body. */
  function RelevantContent(markers: map<string, Markers>, tag: string, body: string): string {
    if tag in markers then ExtractContentBetweenMarkers(body, markers[tag].startMarker, markers[tag].endMarker)
    else body
  }

  /** The fetched file a classified message is written to, under the current directory contents. */
  ghost function TargetName(dir: Directory, tag: string, msg: Message): string {
    FetchedFileName(tag, msg.day, NextSequence(dir, tag, msg.day, SUFFIX_LEN))
  }

  /** What that file holds. */
  function TargetContent(cfg: IntakeConfig, tag: string, msg: Message): string {
    FetchedFileContent(Strip(msg.subjectHeader), msg.dateHeader,
                       RelevantContent(cfg.markers, tag, PreferredBody(msg.parts)))
  }

  /**
   * One iteration of the loop, for the message at position `index` whose
   * write succeeds exactly when `written`: a skipped message changes nothing;
   * a classified one is written to its allocated name, its path recorded and,
   * with mark_as_read, the message marked read. A failed write changes nothing.
   */
  ghost function IntakeStep(cfg: IntakeConfig, msg: Message, index: nat, written: bool, st: IntakeState): (st': IntakeState)
    requires cfg.outputDir in st.fs
    ensures cfg.outputDir in st'.fs
  {
    StepWithTag(cfg, msg, index, written, st, MessageTag(cfg, msg))
  }

  /** The iteration once the message's category `matched` is known. */
  ghost function StepWithTag(cfg: IntakeConfig, msg: Message, index: nat, written: bool, st: IntakeState, matched: Option<string>): (st': IntakeState)
    requires cfg.outputDir in st.fs
    ensures cfg.outputDir in st'.fs
  {
    if IsSkipped(matched) || !written then st
    else
      var name := TargetName(st.fs[cfg.outputDir], matched.value, msg);
      IntakeState(
        WriteFile(st.fs, cfg.outputDir, name, TargetContent(cfg, matched.value, msg)),
        st.saved + [Path(cfg.outputDir, name)],
        if cfg.markAsRead then st.markedRead + [index] else st.markedRead)
  }

  /** The loop from message `k` on; `writeOk(i)` is whether the write for message `i` succeeds. */
  ghost function IntakeRun(cfg: IntakeConfig, msgs: seq<Message>, writeOk: nat -> bool, k: nat, st: IntakeState): (st': IntakeState)
    requires k <= |msgs| && cfg.outputDir in st.fs
    ensures cfg.outputDir in st'.fs
    decreases |msgs| - k
  {
    if k == |msgs| then st
    else IntakeRun(cfg, msgs, writeOk, k + 1, IntakeStep(cfg, msgs[k], k, writeOk(k), st))
  }

  /** The state the loop starts from: the output directory ensured, nothing saved or marked. */
  function IntakeStart(cfg: IntakeConfig, fs: FileSystem): (st: IntakeState)
    ensures cfg.outputDir in st.fs
  {
    IntakeState(MakeDirs(fs, cfg.outputDir), [], [])
  }

  /**
   * fetch_emails with the allocator repaired: ensures the output directory,
   * then classifies, allocates, selects, extracts and writes message by
   * message. Returns the new files, the saved paths and the positions of the
   * messages marked read.
   */
  method FetchEmails(cfg: IntakeConfig, msgs: seq<Message>, writeOk: nat -> bool, fs: FileSystem)
    returns (fs': FileSystem, saved: seq<Path>, markedRead: seq<nat>)
    ensures IntakeState(fs', saved, markedRead) == IntakeRun(cfg, msgs, writeOk, 0, IntakeStart(cfg, fs))
  {
    fs' := MakeDirs(fs, cfg.outputDir);
    saved := [];
    markedRead := [];
    var i := 0;
    while i < |msgs|
      invariant 0 <= i <= |msgs| && cfg.outputDir in fs'
      invariant IntakeRun(cfg, msgs, writeOk, 0, IntakeStart(cfg, fs))
             == IntakeRun(cfg, msgs, writeOk, i, IntakeState(fs', saved, markedRead))
    {
      fs', saved, markedRead := HandleMessage(cfg, msgs[i], i, writeOk(i), fs', saved, markedRead);
      i := i + 1;
    }
  }

  /** The body of the loop for the message at position `index`, whose write succeeds exactly when `written`. */
  method HandleMessage(cfg: IntakeConfig, msg: Message, index: nat, written: bool,
                       fs: FileSystem, saved: seq<Path>, markedRead: seq<nat>)
    returns (fs': FileSystem, saved': seq<Path>, markedRead': seq<nat>)
    requires cfg.outputDir in fs
    ensures IntakeState(fs', saved', markedRead') == IntakeStep(cfg, msg, index, written, IntakeState(fs, saved, markedRead))
  {
    fs', saved', markedRead' := fs, saved, markedRead;
    var subject := Strip(msg.subjectHeader);
    var matched := ClassifySubject(cfg.rules, cfg.matches, subject);
    if !IsSkipped(matched) {
      var tag := matched.value;
      var sequenceNumber := GetNextDailySequence(fs, cfg.outputDir, tag, msg.day, SUFFIX_LEN);
      var body := SelectBody(msg.parts);
      var relevant := RelevantContent(cfg.markers, tag, body);
      var filename := FetchedFileName(tag, msg.day, sequenceNumber);
      if written {
        fs' := WriteFile(fs, cfg.outputDir, filename, FetchedFileContent(subject, msg.dateHeader, relevant));
        saved' := saved + [Path(cfg.outputDir, filename)];
        if cfg.markAsRead {
          markedRead' := markedRead + [index];
        }
      }
    }
  }

  /**
   * fetch_emails as written: the allocator's prefix names a variable that does
   * not exist, so the first classified message raises before anything is
   * written and the outer handler ends the run with nothing saved. `aborted`
   * says whether that happened.
   */
  method FetchEmailsAsWritten(cfg: IntakeConfig, msgs: seq<Message>, fs: FileSystem)
    returns (fs': FileSystem, saved: seq<Path>, markedRead: seq<nat>, aborted: bool)
    ensures fs' == MakeDirs(fs, cfg.outputDir) && saved == [] && markedRead == []
    ensures aborted <==> exists k :: 0 <= k < |msgs| && !IsSkipped(MessageTag(cfg, msgs[k]))
  {
    fs' := MakeDirs(fs, cfg.outputDir);
    saved := [];
    markedRead := [];
    aborted := false;
    var i := 0;
    while i < |msgs|
      invariant 0 <= i <= |msgs|
      invariant forall k :: 0 <= k < i ==> IsSkipped(MessageTag(cfg, msgs[k]))
    {
      var matched := ClassifySubject(cfg.rules, cfg.matches, Strip(msgs[i].subjectHeader));
      if !IsSkipped(matched) {
        aborted := true;
        return;
      }
      i := i + 1;
    }
  }

  // ---------------------------------------------------------------------------
  // Properties of the loop
  // ---------------------------------------------------------------------------

  /** The number of messages from `k` on that are classified and whose write succeeds. */
  function CountWritten(cfg: IntakeConfig, msgs: seq<Message>, writeOk: nat -> bool, k: nat): nat
    requires k <= |msgs|
    decreases |msgs| - k
  {
    if k == |msgs| then 0
    else (if !IsSkipped(MessageTag(cfg, msgs[k])) && writeOk(k) then 1 else 0)
         + CountWritten(cfg, msgs, writeOk, k + 1)
  }

  /**
   * The loop touches only the output directory: no directory appears or
   * disappears, every other directory is unchanged, and no file in the output
   * directory is removed.
   */
  lemma {:induction false} IntakeRunFrame(cfg: IntakeConfig, msgs: seq<Message>, writeOk: nat -> bool, k: nat, st: IntakeState)
    requires k <= |msgs| && cfg.outputDir in st.fs
    ensures var st' := IntakeRun(cfg, msgs, writeOk, k, st);
            st'.fs.Keys == st.fs.Keys
            && (forall d :: d in st.fs && d != cfg.outputDir ==> st'.fs[d] == st.fs[d])
            && st.fs[cfg.outputDir].Keys <= st'.fs[cfg.outputDir].Keys
    decreases |msgs| - k
  {
    if k < |msgs| {
      StepFrame(cfg, msgs[k], k, writeOk(k), st);
      IntakeRunFrame(cfg, msgs, writeOk, k + 1, IntakeStep(cfg, msgs[k], k, writeOk(k), st));
    }
  }

  /** One step changes at most the output directory, and only by adding or replacing a file. */
  lemma StepFrame(cfg: IntakeConfig, msg: Message, index: nat, written: bool, st: IntakeState)
    requires cfg.outputDir in st.fs
    ensures var next := IntakeStep(cfg, msg, index, written, st);
            next.fs.Keys == st.fs.Keys
            && (forall d :: d in st.fs && d != cfg.outputDir ==> next.fs[d] == st.fs[d])
            && st.fs[cfg.outputDir].Keys <= next.fs[cfg.outputDir].Keys
  {
  }

  /**
   * One path is saved per classified message whose write succeeds; every
   * saved path names a file that exists in the output directory at the end.
   */
  lemma {:induction false} IntakeRunSaved(cfg: IntakeConfig, msgs: seq<Message>, writeOk: nat -> bool, k: nat, st: IntakeState)
    requires k <= |msgs| && cfg.outputDir in st.fs && SavedExist(cfg.outputDir, st)
    ensures var st' := IntakeRun(cfg, msgs, writeOk, k, st);
            |st'.saved| == |st.saved| + CountWritten(cfg, msgs, writeOk, k)
            && st.saved <= st'.saved && SavedExist(cfg.outputDir, st')
    decreases |msgs| - k
  {
    if k < |msgs| {
      var next := IntakeStep(cfg, msgs[k], k, writeOk(k), st);
      StepMarked(cfg, msgs[k], k, writeOk(k), st);
      StepKeepsSaved(cfg, msgs[k], k, writeOk(k), st);
      IntakeRunSaved(cfg, msgs, writeOk, k + 1, next);
      PrefixTrans(st.saved, next.saved, IntakeRun(cfg, msgs, writeOk, k + 1, next).saved);
    }
  }

  /** Every saved path is in the output directory and names a file there. */
  predicate SavedExist(dir: string, st: IntakeState)
    requires dir in st.fs
  {
    forall p :: p in st.saved ==> p.dir == dir && p.name in st.fs[dir]
  }

  /** One step keeps every saved path's file, and the file of the path it adds exists. */
  lemma StepKeepsSaved(cfg: IntakeConfig, msg: Message, index: nat, written: bool, st: IntakeState)
    requires cfg.outputDir in st.fs && SavedExist(cfg.outputDir, st)
    ensures SavedExist(cfg.outputDir, IntakeStep(cfg, msg, index, written, st))
  {
  }

  /**
   * With mark_as_read there is one mark per saved path; without it, nothing
   * is marked.
   */
  lemma {:induction false} IntakeRunMarkCount(cfg: IntakeConfig, msgs: seq<Message>, writeOk: nat -> bool, k: nat, st: IntakeState)
    requires k <= |msgs| && cfg.outputDir in st.fs
    ensures var st' := IntakeRun(cfg, msgs, writeOk, k, st);
            |st.markedRead| <= |st'.markedRead| && |st.saved| <= |st'.saved|
            && (cfg.markAsRead ==> |st'.markedRead| - |st.markedRead| == |st'.saved| - |st.saved|)
            && (!cfg.markAsRead ==> st'.markedRead == st.markedRead)
    decreases |msgs| - k
  {
    if k < |msgs| {
      StepMarked(cfg, msgs[k], k, writeOk(k), st);
      IntakeRunMarkCount(cfg, msgs, writeOk, k + 1, IntakeStep(cfg, msgs[k], k, writeOk(k), st));
    }
  }

  /** The positions in `s` strictly increase. */
  predicate Increasing(s: seq<nat>) {
    forall i, j :: 0 <= i < j < |s| ==> s[i] < s[j]
  }

  /** Every position in `s` is below `k`. */
  predicate AllBelow(s: seq<nat>, k: nat) {
    forall j :: 0 <= j < |s| ==> s[j] < k
  }

  /** A prefix of a prefix is a prefix. */
  lemma PrefixTrans<T>(a: seq<T>, b: seq<T>, c: seq<T>)
    requires a <= b && b <= c
    ensures a <= c
  {
    assert forall i :: 0 <= i < |a| ==> a[i] == b[i] == c[i];
  }

  /** Marking message `k` after marks all below it keeps the marks increasing and below `k + 1`. */
  lemma MarkNext(m: seq<nat>, k: nat)
    requires AllBelow(m, k) && Increasing(m)
    ensures AllBelow(m + [k], k + 1) && Increasing(m + [k])
  {
    var n := m + [k];
    forall i, j | 0 <= i < j < |n|
      ensures n[i] < n[j]
    {
      if j == |m| {
        assert n[i] == m[i];
      } else {
        assert n[i] == m[i] && n[j] == m[j];
      }
    }
  }

  /**
   * A message is marked read only after its file is saved: the marks already
   * made stay, and each new one is for a later message than the last, one
   * that was classified and whose write succeeded.
   */
  lemma {:induction false} IntakeRunMarked(cfg: IntakeConfig, msgs: seq<Message>, writeOk: nat -> bool, k: nat, st: IntakeState)
    requires k <= |msgs| && cfg.outputDir in st.fs
    requires AllBelow(st.markedRead, k) && Increasing(st.markedRead)
    ensures var st' := IntakeRun(cfg, msgs, writeOk, k, st);
            st.markedRead <= st'.markedRead
            && (forall j :: |st.markedRead| <= j < |st'.markedRead| ==>
                  k <= st'.markedRead[j] < |msgs| && !IsSkipped(MessageTag(cfg, msgs[st'.markedRead[j]]))
                  && writeOk(st'.markedRead[j]))
            && Increasing(st'.markedRead)
    decreases |msgs| - k
  {
    if k < |msgs| {
      var next := IntakeStep(cfg, msgs[k], k, writeOk(k), st);
      StepMarked(cfg, msgs[k], k, writeOk(k), st);
      if next.markedRead != st.markedRead {
        MarkNext(st.markedRead, k);
      } else {
        assert AllBelow(next.markedRead, k + 1);
      }
      IntakeRunMarked(cfg, msgs, writeOk, k + 1, next);
      var out := IntakeRun(cfg, msgs, writeOk, k + 1, next).markedRead;
      PrefixTrans(st.markedRead, next.markedRead, out);
      if next.markedRead != st.markedRead {
        assert out[|st.markedRead|] == k;
      }
    }
  }

  /** One step marks its message exactly when it saves its file and mark_as_read is set. */
  lemma StepMarked(cfg: IntakeConfig, msg: Message, index: nat, written: bool, st: IntakeState)
    requires cfg.outputDir in st.fs
    ensures var next := IntakeStep(cfg, msg, index, written, st);
            var saves := !IsSkipped(MessageTag(cfg, msg)) && written;
            |next.saved| == |st.saved| + (if saves then 1 else 0) && st.saved <= next.saved
            && next.markedRead == if saves && cfg.markAsRead then st.markedRead + [index] else st.markedRead
  {
  }

  /**
   * With the repaired allocator a classified message whose write succeeds
   * creates a new file while the ordinal stays below 1000: no earlier file is
   * overwritten and the output directory grows by exactly one file.
   */
  lemma IntakeStepWritesFreshFile(cfg: IntakeConfig, msg: Message, index: nat, st: IntakeState)
    requires cfg.outputDir in st.fs && !IsSkipped(MessageTag(cfg, msg))
    requires NextSequence(st.fs[cfg.outputDir], MessageTag(cfg, msg).value, msg.day, SUFFIX_LEN) < 1000
    ensures var dir := st.fs[cfg.outputDir];
            var name := TargetName(dir, MessageTag(cfg, msg).value, msg);
            var dir' := IntakeStep(cfg, msg, index, true, st).fs[cfg.outputDir];
            name !in dir && name in dir' && |dir'| == |dir| + 1
            && dir'[name] == TargetContent(cfg, MessageTag(cfg, msg).value, msg)
            && forall n :: n in dir ==> n in dir' && dir'[n] == dir[n]
  {
    var dir := st.fs[cfg.outputDir];
    AllocatedNameIsFresh(dir, MessageTag(cfg, msg).value, msg.day);
  }

  /** A run in which no message is classified changes nothing. */
  lemma {:induction false} IntakeRunNothingClassified(cfg: IntakeConfig, msgs: seq<Message>, writeOk: nat -> bool, k: nat, st: IntakeState)
    requires k <= |msgs| && cfg.outputDir in st.fs
    requires forall j :: k <= j < |msgs| ==> IsSkipped(MessageTag(cfg, msgs[j]))
    ensures IntakeRun(cfg, msgs, writeOk, k, st) == st
    decreases |msgs| - k
  {
    if k < |msgs| {
      IntakeRunNothingClassified(cfg, msgs, writeOk, k + 1, st);
    }
  }
}
