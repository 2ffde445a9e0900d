/**
 * Code normalisation shared by both extractors: a raw match is upper-cased
 * and every whitespace, `_` and `-` character is removed
 * (`re.sub(r"[\s_-]", "", code.upper())`); the codes of one filename or one
 * text are the normalised matches without duplicates, in order of first
 * occurrence (`list(dict.fromkeys(codes))`).
 */
module Codes {
  import opened Text
  import opened Sequences

  /** A character the normaliser deletes. */
  predicate IsDropped(c: char) { IsSpace(c) || c == '_' || c == '-' }

  function RemoveDropped(s: string): (r: string)
    ensures |r| <= |s|
    ensures forall i :: 0 <= i < |r| ==> !IsDropped(r[i]) && r[i] in s
  {
    if s == [] then []
    else (if IsDropped(s[0]) then [] else [s[0]]) + RemoveDropped(s[1..])
  }

  /** A code in canonical form: no lower-case letter and nothing the normaliser deletes. */
  predicate IsCanonical(code: string) {
    forall i :: 0 <= i < |code| ==> !IsLowerLetter(code[i]) && !IsDropped(code[i])
  }

  function Normalize(raw: string): (code: string)
    ensures IsCanonical(code)
    ensures |code| <= |raw|
  {
    RemoveDropped(UpperAscii(raw))
  }

  lemma {:induction false} RemoveDroppedKeepsClean(s: string)
    requires forall i :: 0 <= i < |s| ==> !IsDropped(s[i])
    ensures RemoveDropped(s) == s
  {
    if s != [] {
      RemoveDroppedKeepsClean(s[1..]);
    }
  }

  lemma {:induction false} UpperAsciiKeepsUpper(s: string)
    requires forall i :: 0 <= i < |s| ==> !IsLowerLetter(s[i])
    ensures UpperAscii(s) == s
  {
  }

  /** A string is left unchanged by normalisation exactly when it is already canonical. */
  lemma NormalizeFixedPoints(s: string)
    ensures Normalize(s) == s <==> IsCanonical(s)
  {
    if IsCanonical(s) {
      UpperAsciiKeepsUpper(s);
      RemoveDroppedKeepsClean(s);
    }
  }

  /** Normalisation is idempotent. */
  lemma NormalizeIdempotent(s: string)
    ensures Normalize(Normalize(s)) == Normalize(s)
  {
    NormalizeFixedPoints(Normalize(s));
  }

  lemma {:induction false} RemoveDroppedAppend(a: string, b: string)
    ensures RemoveDropped(a + b) == RemoveDropped(a) + RemoveDropped(b)
  {
    if a != [] {
      assert (a + b)[1..] == a[1..] + b;
      RemoveDroppedAppend(a[1..], b);
    } else {
      assert a + b == b;
    }
  }

  /**
   * Two raw matches that differ only in the case of their letters give the
   * same code.
   */
  lemma {:induction false} NormalizeIgnoresCase(s: string, t: string)
    requires |s| == |t|
    requires forall i :: 0 <= i < |s| ==> Upper(s[i]) == Upper(t[i])
    ensures Normalize(s) == Normalize(t)
  {
    assert UpperAscii(s) == UpperAscii(t);
  }

  /** Normalises every match, in order. */
  function NormalizeAll(matches: seq<string>): (codes: seq<string>)
    ensures |codes| == |matches|
    ensures forall i :: 0 <= i < |matches| ==> codes[i] == Normalize(matches[i])
  {
    if matches == [] then []
    else NormalizeAll(matches[..|matches| - 1]) + [Normalize(matches[|matches| - 1])]
  }

  /** The codes a sequence of raw matches yields. */
  function CodesOf(matches: seq<string>): seq<string> {
    Unique(NormalizeAll(matches))
  }

  /**
   * The loop over `finditer` matches followed by `list(dict.fromkeys(codes))`:
   * every code is canonical, there are no duplicates, every match is
   * represented and nothing else, in order of first occurrence.
   */
  method CollectCodes(matches: seq<string>) returns (codes: seq<string>)
    ensures codes == CodesOf(matches)
    ensures NoDuplicates(codes)
    ensures forall c :: c in codes ==> IsCanonical(c)
    ensures forall i :: 0 <= i < |matches| ==> Normalize(matches[i]) in codes
    ensures forall c :: c in codes ==> exists i :: 0 <= i < |matches| && Normalize(matches[i]) == c
  {
    var found: seq<string> := [];
    var i := 0;
    while i < |matches|
      invariant 0 <= i <= |matches|
      invariant found == NormalizeAll(matches[..i])
    {
      assert matches[..i + 1][..i] == matches[..i];
      found := found + [Normalize(matches[i])];
      i := i + 1;
    }
    assert matches[..i] == matches;
    codes := Unique(found);
    forall c | c in codes ensures exists i :: 0 <= i < |matches| && Normalize(matches[i]) == c {
      var k :| 0 <= k < |found| && found[k] == c;
      assert Normalize(matches[k]) == c;
    }
  }

  /** The codes keep the order in which their first matches occur. */
  lemma CodesKeepFirstOccurrenceOrder(matches: seq<string>)
    ensures forall i, j :: 0 <= i < j < |CodesOf(matches)| ==>
      IndexOf(NormalizeAll(matches), CodesOf(matches)[i]) < IndexOf(NormalizeAll(matches), CodesOf(matches)[j])
  {
    UniqueKeepsFirstOccurrenceOrder(NormalizeAll(matches));
  }

  /** Every match contributes its code. */
  lemma NormalizedMatchIn(matches: seq<string>, m: string)
    requires m in matches
    ensures Normalize(m) in CodesOf(matches)
  {
    var i :| 0 <= i < |matches| && matches[i] == m;
    assert NormalizeAll(matches)[i] == Normalize(m);
  }

  /** Upper-case letters, one dropped character, then digits normalise to the letters and the digits. */
  lemma NormalizeJoined(a: string, c: char, d: string)
    requires forall i :: 0 <= i < |a| ==> IsUpperLetter(a[i])
    requires IsDropped(c)
    requires forall i :: 0 <= i < |d| ==> IsDigit(d[i])
    ensures Normalize(a + [c] + d) == a + d
  {
    var s := a + [c] + d;
    assert s == a + ([c] + d);
    UpperAsciiKeepsUpper(s);
    RemoveDroppedAppend(a, [c] + d);
    RemoveDroppedAppend([c], d);
    RemoveDroppedKeepsClean(a);
    RemoveDroppedKeepsClean(d);
    assert RemoveDropped([c]) == [];
    calc {
      Normalize(s);
      RemoveDropped(UpperAscii(s));
      RemoveDropped(s);
      RemoveDropped(a) + (RemoveDropped([c]) + RemoveDropped(d));
      a + ([] + d);
      { assert [] + d == d; }
      a + d;
    }
  }
}
