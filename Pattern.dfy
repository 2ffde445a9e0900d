/**
 * The fixed code pattern `[A-Za-z]{2,}[-_ ]?\d{1,}[A-Za-z0-9]*` under
 * IGNORECASE, as `re.finditer` applies it: a scan from left to right that,
 * at each position, tries the pattern and on success resumes after the
 * match. With `bounded` set the pattern is wrapped in `\b ... \b`, which is
 * the default content pattern of the index builders.
 *
 * Greedy matching with backtracking reduces to maximal runs here: a letter
 * run can only be followed by a separator or digit when it is maximal, and
 * `\d{1,}[A-Za-z0-9]*` takes the maximal alphanumeric run that starts with
 * a digit.
 */
module Pattern {
  import opened Text
  import opened Wrappers

  predicate IsSeparator(c: char) { c == '-' || c == '_' || c == ' ' }

  /** `m[..k]` is all letters. */
  predicate LettersBefore(m: string, k: nat) {
    k <= |m| && forall j :: 0 <= j < k ==> IsLetter(m[j])
  }

  /** `m[d..]` is an alphanumeric run that starts with a digit: `\d{1,}[A-Za-z0-9]*`. */
  predicate DigitLedFrom(m: string, d: nat) {
    d < |m| && IsDigit(m[d]) && forall j :: d <= j < |m| ==> IsAlnum(m[j])
  }

  /**
   * The shape of one match, stated without reference to the scanner:
   * at least two letters, at most one separator, then a digit-led
   * alphanumeric run.
   */
  ghost predicate IsCodeShape(m: string) {
    exists k :: 2 <= k < |m| && LettersBefore(m, k) &&
      (DigitLedFrom(m, k) || (IsSeparator(m[k]) && DigitLedFrom(m, k + 1)))
  }

  function LetterRun(s: string, i: nat): (n: nat)
    requires i <= |s|
    ensures i + n <= |s|
    ensures forall k :: i <= k < i + n ==> IsLetter(s[k])
    ensures i + n == |s| || !IsLetter(s[i + n])
    decreases |s| - i
  {
    if i < |s| && IsLetter(s[i]) then 1 + LetterRun(s, i + 1) else 0
  }

  function AlnumRun(s: string, i: nat): (n: nat)
    requires i <= |s|
    ensures i + n <= |s|
    ensures forall k :: i <= k < i + n ==> IsAlnum(s[k])
    ensures i + n == |s| || !IsAlnum(s[i + n])
    decreases |s| - i
  {
    if i < |s| && IsAlnum(s[i]) then 1 + AlnumRun(s, i + 1) else 0
  }

  /** The end of the digit-led run at `d`, unless a trailing `\b` fails there. */
  function CloseAt(s: string, d: nat, bounded: bool): (r: Option<nat>)
    requires d < |s| && IsDigit(s[d])
    ensures r.Some? ==> d < r.value <= |s| && forall j :: d <= j < r.value ==> IsAlnum(s[j])
  {
    var e := d + AlnumRun(s, d);
    if bounded && e < |s| && IsWordChar(s[e]) then None else Some(e)
  }

  /** Where a match starting at `i` ends, if one starts there. */
  function MatchAt(s: string, i: nat, bounded: bool): (r: Option<nat>)
    requires i <= |s|
    ensures r.Some? ==> i < r.value <= |s| && IsCodeShape(s[i..r.value])
  {
    var k := LetterRun(s, i);
    var j := i + k;
    if k < 2 || (bounded && i > 0 && IsWordChar(s[i - 1])) then None
    else if j < |s| && IsDigit(s[j]) then
      var r := CloseAt(s, j, bounded);
      if r.Some? then
        SliceHasCodeShape(s, i, k, j, r.value);
        r
      else r
    else if j + 1 < |s| && IsSeparator(s[j]) && IsDigit(s[j + 1]) then
      var r := CloseAt(s, j + 1, bounded);
      if r.Some? then
        SliceHasCodeShape(s, i, k, j + 1, r.value);
        r
      else r
    else None
  }

  lemma SliceHasCodeShape(s: string, i: nat, k: nat, d: nat, e: nat)
    requires 2 <= k && i + k < d + 1 && d < e <= |s|
    requires forall p :: i <= p < i + k ==> IsLetter(s[p])
    requires d == i + k || (d == i + k + 1 && IsSeparator(s[i + k]))
    requires IsDigit(s[d]) && forall p :: d <= p < e ==> IsAlnum(s[p])
    ensures IsCodeShape(s[i..e])
  {
    var m := s[i..e];
    assert LettersBefore(m, k);
    if d == i + k {
      assert DigitLedFrom(m, k);
    } else {
      assert IsSeparator(m[k]) && DigitLedFrom(m, k + 1);
    }
  }

  /** `[m.group(0) for m in pattern.finditer(s, pos)]`: the scan starts at `pos`, and the leading `\b` still sees `s[pos - 1]`. */
  function FindAll(s: string, pos: nat, bounded: bool): (ms: seq<string>)
    requires pos <= |s|
    ensures forall t :: 0 <= t < |ms| ==> IsCodeShape(ms[t])
    decreases |s| - pos
  {
    if pos == |s| then []
    else
      match MatchAt(s, pos, bounded)
      case Some(e) => [s[pos..e]] + FindAll(s, e, bounded)
      case None => FindAll(s, pos + 1, bounded)
  }

  /** The fixed filename pattern of `extract_codes_from_filename`. */
  function FilenameMatches(s: string): seq<string> {
    FindAll(s, 0, false)
  }

  /** The default content pattern, the filename pattern between word boundaries. */
  function DefaultMatches(s: string): seq<string> {
    FindAll(s, 0, true)
  }

  /** Every match holds a digit, so text without digits yields no match. */
  lemma {:induction false} NoDigitNoMatch(s: string, pos: nat, bounded: bool)
    requires pos <= |s|
    requires forall k :: pos <= k < |s| ==> !IsDigit(s[k])
    ensures FindAll(s, pos, bounded) == []
    decreases |s| - pos
  {
    if pos < |s| {
      NoDigitNoMatch(s, pos + 1, bounded);
    }
  }

  /** Positions where no match starts are skipped one by one. */
  lemma {:induction false} SkipNoMatch(s: string, pos: nat, q: nat, bounded: bool)
    requires pos <= q <= |s|
    requires forall p :: pos <= p < q ==> MatchAt(s, p, bounded) == None
    ensures FindAll(s, pos, bounded) == FindAll(s, q, bounded)
    decreases q - pos
  {
    if pos < q {
      SkipNoMatch(s, pos + 1, q, bounded);
    }
  }

  /**
   * Conversely, a string of exactly the code shape is found whole, as one
   * match, by both patterns.
   */
  lemma CodeShapeMatchedWhole(m: string, bounded: bool)
    requires IsCodeShape(m)
    ensures FindAll(m, 0, bounded) == [m]
  {
    var k, d := ShapeParts(m);
    MatchWhole(m, k, d, bounded);
    assert m[0..|m|] == m;
  }

  lemma ShapeParts(m: string) returns (k: nat, d: nat)
    requires IsCodeShape(m)
    ensures 2 <= k < |m| && d < |m|
    ensures forall j :: 0 <= j < k ==> IsLetter(m[j])
    ensures (d == k && IsDigit(m[k])) || (d == k + 1 && IsSeparator(m[k]) && IsDigit(m[d]))
    ensures forall j :: d <= j < |m| ==> IsAlnum(m[j])
  {
    k :| 2 <= k < |m| && LettersBefore(m, k) &&
      (DigitLedFrom(m, k) || (IsSeparator(m[k]) && DigitLedFrom(m, k + 1)));
    d := if DigitLedFrom(m, k) then k else k + 1;
  }

  lemma MatchWhole(m: string, k: nat, d: nat, bounded: bool)
    requires 2 <= k < |m| && d < |m|
    requires forall j :: 0 <= j < k ==> IsLetter(m[j])
    requires (d == k && IsDigit(m[k])) || (d == k + 1 && IsSeparator(m[k]) && IsDigit(m[d]))
    requires forall j :: d <= j < |m| ==> IsAlnum(m[j])
    ensures MatchAt(m, 0, bounded) == Some(|m|)
  {
    assert !IsLetter(m[k]);
    assert LetterRun(m, 0) == k;
    assert AlnumRun(m, d) == |m| - d;
    assert CloseAt(m, d, bounded) == Some(|m|);
  }

  /**
   * A code-shaped word inside longer text is found. The match starts where
   * the word does, because it is preceded by a character that is not part
   * of a word, and it ends where the word does, for the same reason.
   */
  lemma MatchInside(s: string, i: nat, m: string, bounded: bool)
    requires IsCodeShape(m)
    requires i + |m| <= |s| && s[i..i + |m|] == m
    requires i == 0 || !IsWordChar(s[i - 1])
    requires i + |m| == |s| || !IsWordChar(s[i + |m|])
    ensures MatchAt(s, i, bounded) == Some(i + |m|)
  {
    var k, d := ShapeParts(m);
    var e := i + |m|;
    forall j | i <= j < i + k ensures IsLetter(s[j]) {
      assert s[j] == m[j - i];
    }
    forall j | i + d <= j < e ensures IsAlnum(s[j]) {
      assert s[j] == m[j - i];
    }
    assert s[i + k] == m[k];
    assert s[i + d] == m[d];
    MatchAtFrom(s, i, k, i + d, e, bounded);
  }

  /**
   * The scanner at `i` on a letter run of length `k` and a digit-led run
   * from `d` to `e`, directly after the letters or after one separator,
   * with no word character on either side.
   */
  lemma MatchAtFrom(s: string, i: nat, k: nat, d: nat, e: nat, bounded: bool)
    requires 2 <= k && i + k <= d < e <= |s|
    requires forall j :: i <= j < i + k ==> IsLetter(s[j])
    requires (d == i + k && IsDigit(s[d])) || (d == i + k + 1 && IsSeparator(s[i + k]) && IsDigit(s[d]))
    requires forall j :: d <= j < e ==> IsAlnum(s[j])
    requires i == 0 || !IsWordChar(s[i - 1])
    requires e == |s| || !IsWordChar(s[e])
    ensures MatchAt(s, i, bounded) == Some(e)
  {
    LetterRunAt(s, i, k);
    CloseAtEnd(s, d, e, bounded);
    if d == i + k {
      MatchAtDigit(s, i, k, e, bounded);
    } else {
      MatchAtSeparator(s, i, k, e, bounded);
    }
  }

  lemma LetterRunAt(s: string, i: nat, k: nat)
    requires i + k < |s| && !IsLetter(s[i + k])
    requires forall j :: i <= j < i + k ==> IsLetter(s[j])
    ensures LetterRun(s, i) == k
  {
  }

  lemma CloseAtEnd(s: string, d: nat, e: nat, bounded: bool)
    requires d < e <= |s| && IsDigit(s[d])
    requires forall j :: d <= j < e ==> IsAlnum(s[j])
    requires e == |s| || !IsWordChar(s[e])
    ensures CloseAt(s, d, bounded) == Some(e)
  {
    assert AlnumRun(s, d) == e - d;
  }

  lemma MatchAtDigit(s: string, i: nat, k: nat, e: nat, bounded: bool)
    requires 2 <= k && i + k < e <= |s|
    requires LetterRun(s, i) == k && IsDigit(s[i + k])
    requires CloseAt(s, i + k, bounded) == Some(e)
    requires i == 0 || !IsWordChar(s[i - 1])
    ensures MatchAt(s, i, bounded) == Some(e)
  {
  }

  lemma MatchAtSeparator(s: string, i: nat, k: nat, e: nat, bounded: bool)
    requires 2 <= k && i + k + 1 < e <= |s|
    requires LetterRun(s, i) == k && IsSeparator(s[i + k]) && IsDigit(s[i + k + 1])
    requires CloseAt(s, i + k + 1, bounded) == Some(e)
    requires i == 0 || !IsWordChar(s[i - 1])
    ensures MatchAt(s, i, bounded) == Some(e)
  {
  }

  /**
   * When no match starting before `q` runs past `q`, the scan from `pos`
   * passes through `q`, so it finds every match the scan from `q` finds.
   */
  lemma {:induction false} ScanReaches(s: string, pos: nat, q: nat, bounded: bool)
    requires pos <= q <= |s|
    requires forall p :: pos <= p < q && MatchAt(s, p, bounded).Some? ==> MatchAt(s, p, bounded).value <= q
    ensures forall x :: x in FindAll(s, q, bounded) ==> x in FindAll(s, pos, bounded)
    decreases q - pos
  {
    if pos < q {
      match MatchAt(s, pos, bounded)
      case Some(e) => ScanReaches(s, e, q, bounded);
      case None => ScanReaches(s, pos + 1, q, bounded);
    }
  }

  /**
   * A match cannot run through a space that is followed by a letter: its
   * letter run and its digit-led run both stop at the space, and a
   * separator must be followed by a digit.
   */
  lemma StopsAtSpace(s: string, p: nat, q: nat, bounded: bool)
    requires p < q < |s| && s[q - 1] == ' ' && IsLetter(s[q])
    requires MatchAt(s, p, bounded).Some?
    ensures MatchAt(s, p, bounded).value < q
  {
    var k := LetterRun(s, p);
    assert p + k < q;
  }

  /** A code-shaped word between spaces is one of the matches, whatever surrounds it. */
  lemma SpacedCodeFound(a: string, m: string, b: string, bounded: bool)
    requires IsCodeShape(m)
    ensures m in FindAll(a + " " + m + " " + b, 0, bounded)
  {
    var s := a + " " + m + " " + b;
    var q := |a| + 1;
    assert s[q..q + |m|] == m;
    assert s[q - 1] == ' ' && s[q + |m|] == ' ';
    FoundBetweenSpaces(s, q, m, bounded);
  }

  lemma FoundBetweenSpaces(s: string, q: nat, m: string, bounded: bool)
    requires IsCodeShape(m)
    requires 0 < q && q + |m| < |s| && s[q..q + |m|] == m
    requires s[q - 1] == ' ' && s[q + |m|] == ' '
    ensures m in FindAll(s, 0, bounded)
  {
    var k, d := ShapeParts(m);
    assert IsLetter(s[q]) by {
      assert s[q] == m[0];
    }
    forall p | 0 <= p < q && MatchAt(s, p, bounded).Some?
      ensures MatchAt(s, p, bounded).value <= q
    {
      StopsAtSpace(s, p, q, bounded);
    }
    MatchInside(s, q, m, bounded);
    FoundAt(s, q, q + |m|, bounded);
    assert m in FindAll(s, q, bounded);
    ScanReaches(s, 0, q, bounded);
  }

  /** A match that starts where the scan stands is the scan's first match. */
  lemma FoundAt(s: string, q: nat, e: nat, bounded: bool)
    requires q <= |s| && MatchAt(s, q, bounded) == Some(e)
    ensures s[q..e] in FindAll(s, q, bounded)
  {
  }
}
