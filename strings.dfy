/**
 * The Python `str` operations the pipeline relies on, written out on
 * `seq<char>`: `startswith`, `endswith`, `find`, `strip`, `replace(target, replacement, 1)`,
 * `int()` on a digit string and the `%03d` format.
 */
module Strings {
  import opened Wrappers

  // ---------------------------------------------------------------------------
  // Prefixes, suffixes, occurrences
  // ---------------------------------------------------------------------------

  /** `s.startswith(p)` */
  predicate StartsWith(s: string, p: string) {
    |p| <= |s| && s[..|p|] == p
  }

  /** `s.endswith(q)` */
  predicate EndsWith(s: string, q: string) {
    |q| <= |s| && s[|s| - |q|..] == q
  }

  /** `pat` occurs in `text` starting at index `i`. */
  predicate MatchAt(text: string, pat: string, i: nat) {
    i + |pat| <= |text| && text[i..i + |pat|] == pat
  }

  /** `pat` occurs somewhere in `text`. */
  predicate Occurs(pat: string, text: string) {
    exists i: nat :: i <= |text| && MatchAt(text, pat, i)
  }

  /**
   * `text.find(pat, start)` for a non-negative `start`: the least index at or
   * after `start` where `pat` occurs, or -1. Like Python, a start beyond the
   * end of the text finds nothing, not even the empty pattern.
   */
  function Find(text: string, pat: string, start: nat): (r: int)
    ensures r == -1 || (start <= r && MatchAt(text, pat, r))
    decreases |text| + 1 - start
  {
    if start > |text| then -1
    else if MatchAt(text, pat, start) then start
    else Find(text, pat, start + 1)
  }

  /**
   * The index `Find` returns is the least one: there is no occurrence between
   * the start and it, and none at all after the start when it returns -1.
   */
  lemma {:induction false} FindLeast(text: string, pat: string, start: nat)
    ensures Find(text, pat, start) != -1 ==>
      forall i: nat :: start <= i < Find(text, pat, start) ==> !MatchAt(text, pat, i)
    ensures Find(text, pat, start) == -1 ==> forall i: nat :: start <= i ==> !MatchAt(text, pat, i)
    decreases |text| + 1 - start
  {
    if start <= |text| && !MatchAt(text, pat, start) {
      FindLeast(text, pat, start + 1);
    }
  }

  /** The pattern is found from 0 exactly when it occurs at all. */
  lemma FindFromZero(text: string, pat: string)
    ensures Find(text, pat, 0) == -1 <==> !Occurs(pat, text)
  {
    FindLeast(text, pat, 0);
    if Find(text, pat, 0) != -1 {
      var i: nat := Find(text, pat, 0);
      assert MatchAt(text, pat, i);
    }
  }

  /** A search finds the first occurrence at or after its start. */
  lemma {:induction false} FindFirst(text: string, pat: string, start: nat, i: nat)
    requires start <= i && MatchAt(text, pat, i)
    requires forall j: nat :: start <= j < i ==> !MatchAt(text, pat, j)
    ensures Find(text, pat, start) == i
    decreases i - start
  {
    if start < i {
      assert !MatchAt(text, pat, start);
      FindFirst(text, pat, start + 1, i);
    }
  }

  /** The empty pattern is found where the search starts (`"abc".find("", k) == k`). */
  lemma {:induction false} FindEmpty(text: string, start: nat)
    requires start <= |text|
    ensures Find(text, "", start) == start
  {
    assert MatchAt(text, "", start);
  }

  /**
   * `s.replace(target, replacement, 1)`: the first occurrence of `target`
   * replaced by `replacement`; `s` itself when `target` does not occur.
   */
  function ReplaceFirst(s: string, target: string, replacement: string): string {
    var i := Find(s, target, 0);
    if i < 0 then s else s[..i] + replacement + s[i + |target|..]
  }

  /** On a string that starts with `target`, the first occurrence is the prefix itself. */
  lemma ReplaceFirstOfPrefix(s: string, target: string, replacement: string)
    requires StartsWith(s, target)
    ensures ReplaceFirst(s, target, replacement) == replacement + s[|target|..]
  {
    assert MatchAt(s, target, 0);
  }

  // ---------------------------------------------------------------------------
  // Whitespace and strip()
  // ---------------------------------------------------------------------------

  /**
   * The characters for which Python's `str.isspace()` holds, which are the
   * ones `str.strip()` removes when called without an argument.
   */
  predicate IsSpace(c: char) {
    var k := c as int;
    (9 <= k <= 13) || (28 <= k <= 32) || k == 0x85 || k == 0xA0 || k == 0x1680
    || (0x2000 <= k <= 0x200A) || k == 0x2028 || k == 0x2029 || k == 0x202F
    || k == 0x205F || k == 0x3000
  }

  predicate AllSpace(s: string) {
    forall i :: 0 <= i < |s| ==> IsSpace(s[i])
  }

  /** Neither end of `s` is whitespace: what `strip()` returns. */
  predicate IsStripped(s: string) {
    s == [] || (!IsSpace(s[0]) && !IsSpace(s[|s| - 1]))
  }

  /** The first index at or after `i` that does not hold whitespace, or |s|. */
  function SkipSpace(s: string, i: nat): (r: nat)
    requires i <= |s|
    ensures i <= r <= |s|
    decreases |s| - i
  {
    if i == |s| || !IsSpace(s[i]) then i else SkipSpace(s, i + 1)
  }

  /** The end of `s[lo..j]` once its trailing whitespace is dropped. */
  function SkipSpaceBack(s: string, lo: nat, j: nat): (r: nat)
    requires lo <= j <= |s|
    ensures lo <= r <= j
    decreases j - lo
  {
    if j == lo || !IsSpace(s[j - 1]) then j else SkipSpaceBack(s, lo, j - 1)
  }

  /** Everything skipped is whitespace, and the scan stops at a non-space character or the end. */
  lemma {:induction false} SkipSpaceSpec(s: string, i: nat)
    requires i <= |s|
    ensures forall k :: i <= k < SkipSpace(s, i) ==> IsSpace(s[k])
    ensures SkipSpace(s, i) < |s| ==> !IsSpace(s[SkipSpace(s, i)])
    decreases |s| - i
  {
    if i < |s| && IsSpace(s[i]) {
      SkipSpaceSpec(s, i + 1);
    }
  }

  /** Everything dropped is whitespace, and the scan stops after a non-space character or at `lo`. */
  lemma {:induction false} SkipSpaceBackSpec(s: string, lo: nat, j: nat)
    requires lo <= j <= |s|
    ensures forall k :: SkipSpaceBack(s, lo, j) <= k < j ==> IsSpace(s[k])
    ensures SkipSpaceBack(s, lo, j) > lo ==> !IsSpace(s[SkipSpaceBack(s, lo, j) - 1])
    decreases j - lo
  {
    if j > lo && IsSpace(s[j - 1]) {
      SkipSpaceBackSpec(s, lo, j - 1);
    }
  }

  /** The number of whitespace characters at the start of `s`. */
  function LeadingSpace(s: string): (n: nat)
    ensures n <= |s|
  {
    SkipSpace(s, 0)
  }

  /**
   * `s.strip()`: `s` without its leading and trailing whitespace. The two
   * scans run over indices of `s` and never build a shorter string.
   */
  function Strip(s: string): string {
    var a := SkipSpace(s, 0);
    s[a..SkipSpaceBack(s, a, |s|)]
  }

  /**
   * What `strip()` promises: the result is the slice of `s` that starts after
   * the leading whitespace, what lies before and after it is all whitespace,
   * and neither of its ends is whitespace.
   */
  lemma StripSpec(s: string)
    ensures IsStripped(Strip(s))
    ensures LeadingSpace(s) + |Strip(s)| <= |s|
    ensures Strip(s) == s[LeadingSpace(s)..LeadingSpace(s) + |Strip(s)|]
    ensures AllSpace(s[..LeadingSpace(s)])
    ensures AllSpace(s[LeadingSpace(s) + |Strip(s)|..])
  {
    var a := SkipSpace(s, 0);
    var b := SkipSpaceBack(s, a, |s|);
    SkipSpaceSpec(s, 0);
    SkipSpaceBackSpec(s, a, |s|);
    assert forall k :: 0 <= k < |s[..a]| ==> s[..a][k] == s[k];
    assert forall k :: 0 <= k < |s[b..]| ==> s[b..][k] == s[b + k];
  }

  /** A string made of whitespace strips to the empty string, and only such a string. */
  lemma StripEmpty(s: string)
    ensures Strip(s) == [] <==> AllSpace(s)
  {
    var a := SkipSpace(s, 0);
    SkipSpaceSpec(s, 0);
    SkipSpaceBackSpec(s, a, |s|);
  }

  // ---------------------------------------------------------------------------
  // Decimal digits: int() on a digit string and the `%03d` format
  // ---------------------------------------------------------------------------

  predicate IsDigit(c: char) {
    '0' <= c <= '9'
  }

  predicate AllDigits(s: string) {
    forall i :: 0 <= i < |s| ==> IsDigit(s[i])
  }

  function DigitChar(d: nat): (c: char)
    requires d < 10
    ensures IsDigit(c)
  {
    ('0' as int + d) as char
  }

  function DigitValue(c: char): (d: nat)
    requires IsDigit(c)
    ensures d < 10 && DigitChar(d) == c
  {
    c as int - '0' as int
  }

  /** The value of a string of decimal digits. */
  function DecimalValue(s: string): nat
    requires AllDigits(s)
  {
    if s == [] then 0 else DecimalValue(s[..|s| - 1]) * 10 + DigitValue(s[|s| - 1])
  }

  /**
   * `int(s)` restricted to what the pipeline can meet: a non-empty string of
   * ASCII digits parses to its value, anything else raises (None).
   */
  function ParseInt(s: string): (r: Option<nat>)
    ensures r.Some? <==> s != [] && AllDigits(s)
  {
    if s != [] && AllDigits(s) then Some(DecimalValue(s)) else None
  }

  /**
   * A digit string without a leading zero, or a single digit, is what
   * `int()` reads from it written back out: `str(int(s)) == s`.
   */
  lemma {:induction false} ParseIntRoundTrip(s: string)
    requires s != [] && AllDigits(s) && (|s| == 1 || s[0] != '0')
    ensures ParseInt(s).Some? && Decimal(ParseInt(s).value) == s
    decreases |s|
  {
    if |s| > 1 {
      var p := s[..|s| - 1];
      assert p[0] == s[0];
      assert AllDigits(p);
      LeadingDigitNonZero(p);
      ParseIntRoundTrip(p);
      var d := DigitValue(s[|s| - 1]);
      var n := DecimalValue(p) * 10 + d;
      assert n / 10 == DecimalValue(p) && n % 10 == d;
      assert s == p + [s[|s| - 1]];
    }
  }

  /** A digit string that does not start with '0' has a positive value. */
  lemma {:induction false} LeadingDigitNonZero(s: string)
    requires s != [] && AllDigits(s) && s[0] != '0'
    ensures DecimalValue(s) >= 1
    decreases |s|
  {
    if |s| > 1 {
      var p := s[..|s| - 1];
      assert p[0] == s[0];
      assert AllDigits(p);
      LeadingDigitNonZero(p);
    }
  }

  /** `str(n)` for a natural number: its decimal digits, without leading zeros. */
  function Decimal(n: nat): (s: string)
    ensures s != [] && AllDigits(s)
  {
    if n < 10 then [DigitChar(n)] else Decimal(n / 10) + [DigitChar(n % 10)]
  }

  /** `f"{n:03d}"`: at least three digits, zero-padded on the left. */
  function Pad3(n: nat): (s: string)
    ensures AllDigits(s)
  {
    if n < 1000 then [DigitChar(n / 100), DigitChar(n / 10 % 10), DigitChar(n % 10)]
    else Decimal(n)
  }

  /** The decimal digits of a number are parsed back to the number. */
  lemma {:induction false} DecimalRoundTrip(n: nat)
    ensures DecimalValue(Decimal(n)) == n
  {
    if n >= 10 {
      DecimalRoundTrip(n / 10);
      var s := Decimal(n);
      assert s[..|s| - 1] == Decimal(n / 10);
    }
  }

  /** A number of four or more digits is written with four or more characters. */
  lemma {:induction false} DecimalLength(n: nat)
    requires n >= 1000
    ensures |Decimal(n)| >= 4
  {
    if n >= 10000 {
      DecimalLength(n / 10);
    } else {
      assert |Decimal(n)| == |Decimal(n / 10)| + 1;
      assert |Decimal(n / 10)| == |Decimal(n / 10 / 10)| + 1;
      assert |Decimal(n / 10 / 10)| == |Decimal(n / 10 / 10 / 10)| + 1;
    }
  }

  /** Below 1000, the padded form has exactly three digits and parses back to the number. */
  lemma Pad3RoundTrip(n: nat)
    requires n < 1000
    ensures |Pad3(n)| == 3 && ParseInt(Pad3(n)) == Some(n)
  {
    var a, b, c := n / 100, n / 10 % 10, n % 10;
    var s := Pad3(n);
    assert s == [DigitChar(a), DigitChar(b), DigitChar(c)];
    assert s[..2] == [DigitChar(a), DigitChar(b)];
    assert s[..2][..1] == [DigitChar(a)];
    assert DecimalValue(s[..2][..1]) == a;
    assert DecimalValue(s[..2]) == a * 10 + b;
    assert DecimalValue(s) == (a * 10 + b) * 10 + c;
    ThreeDigits(n);
  }

  /** A number below 1000 in terms of its hundreds, tens and units. */
  lemma ThreeDigits(n: nat)
    requires n < 1000
    ensures n == (n / 100 * 10 + n / 10 % 10) * 10 + n % 10
  {
    assert n == n / 10 * 10 + n % 10;
    assert n / 10 == n / 10 / 10 * 10 + n / 10 % 10;
    assert n / 10 / 10 == n / 100;
  }

  /** From 1000 on, the padded form is four digits or more long. */
  lemma Pad3Length(n: nat)
    ensures n < 1000 <==> |Pad3(n)| == 3
  {
    if n >= 1000 {
      DecimalLength(n);
    }
  }
}
