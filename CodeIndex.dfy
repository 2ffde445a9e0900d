/**
 * The values the index builders work on: hits, the `by_code` dictionary
 * (an association list that keeps keys in insertion order, as a Python
 * `dict` does), the PDF files given to the builders, and their debug log.
 */
module CodeIndex {
  import opened Wrappers
  import opened Sequences

  datatype Source = Filename | Content

  /** The string stored in a hit's "source" field; it is what the merge sorts on. */
  function SourceName(s: Source): string {
    match s
    case Filename => "filename"
    case Content => "content"
  }

  /** `{"file": ..., "page": ..., "source": ...}`. */
  datatype Hit = Hit(file: string, page: nat, source: Source)

  /** `by_code`: code -> hits, in key insertion order. */
  type ByCode = seq<(string, seq<Hit>)>

  /**
   * A PDF as the builders see it: its name, and its pages' text unless the
   * file cannot be opened (`None`). A page whose text extraction raised is
   * `None`.
   */
  datatype PdfFile = PdfFile(name: string, pages: Option<seq<Option<string>>>)

  /** The debug log; one constructor per kind of line (the message wording is not modelled). */
  datatype LogEntry =
    | CodesInName(file: string, count: nat)
    | PatternError
    | UsingDefaultPattern
    | Processing(file: string, totalPages: nat, scanning: int)
    | FileError(file: string)
    | CodesInContent(file: string, count: nat)
    | HybridBanner
    | NameStep
    | ContentStep
    | CombineStep
    | SummaryTotal(count: nat)
    | SummaryNameKeys(count: nat)
    | SummaryContentKeys(count: nat)
    | SummaryCombined(count: nat)

  function Names(files: seq<PdfFile>): (ns: seq<string>)
    ensures |ns| == |files|
    ensures forall i :: 0 <= i < |files| ==> ns[i] == files[i].name
  {
    if files == [] then [] else Names(files[..|files| - 1]) + [files[|files| - 1].name]
  }

  /** `[h["file"] for h in hits]`. */
  function FilesOf(hits: seq<Hit>): (fs: seq<string>)
    ensures |fs| == |hits|
    ensures forall i :: 0 <= i < |hits| ==> fs[i] == hits[i].file
  {
    if hits == [] then [] else FilesOf(hits[..|hits| - 1]) + [hits[|hits| - 1].file]
  }

  function Keys(m: ByCode): (ks: seq<string>)
    ensures |ks| == |m|
    ensures forall i :: 0 <= i < |m| ==> ks[i] == m[i].0
  {
    if m == [] then [] else [m[0].0] + Keys(m[1..])
  }

  /** A file no hit names is not among the files of the hits. */
  lemma FileNotNamed(hits: seq<Hit>, f: string)
    requires forall h :: h in hits ==> h.file != f
    ensures f !in FilesOf(hits)
  {
    forall k | 0 <= k < |hits| ensures FilesOf(hits)[k] != f {
      assert hits[k] in hits;
    }
  }

  /** A dictionary has each key once. */
  predicate ValidByCode(m: ByCode) {
    NoDuplicates(Keys(m))
  }

  /** `by_code.get(code, [])`. */
  function Lookup(m: ByCode, code: string): seq<Hit> {
    if m == [] then []
    else if m[0].0 == code then m[0].1
    else Lookup(m[1..], code)
  }

  /** A missing key reads as the empty list. */
  lemma {:induction false} LookupAbsent(m: ByCode, code: string)
    requires code !in Keys(m)
    ensures Lookup(m, code) == []
  {
    if m != [] {
      assert Keys(m)[0] == m[0].0;
      assert Keys(m[1..]) == Keys(m)[1..];
      LookupAbsent(m[1..], code);
    }
  }

  /** `by_code[code] = hits`: replaces the value in place, or adds the key last. */
  function Put(m: ByCode, code: string, hits: seq<Hit>): (r: ByCode)
    ensures Keys(r) == if code in Keys(m) then Keys(m) else Keys(m) + [code]
  {
    if m == [] then [(code, hits)]
    else if m[0].0 == code then
      assert ([(code, hits)] + m[1..])[1..] == m[1..];
      [(code, hits)] + m[1..]
    else
      var r := [m[0]] + Put(m[1..], code, hits);
      assert r[1..] == Put(m[1..], code, hits);
      r
  }

  /** After a put, the key reads the new list and every other key reads what it did before. */
  lemma {:induction false} PutLookup(m: ByCode, code: string, hits: seq<Hit>, c: string)
    ensures Lookup(Put(m, code, hits), c) == if c == code then hits else Lookup(m, c)
  {
    if m != [] && m[0].0 != code {
      PutLookup(m[1..], code, hits, c);
    }
  }

  /** Putting keeps the keys distinct. */
  lemma PutValid(m: ByCode, code: string, hits: seq<Hit>)
    requires ValidByCode(m)
    ensures ValidByCode(Put(m, code, hits))
  {
    var ks := Keys(m);
    if code !in ks {
      forall i, j | 0 <= i < j < |ks| + 1 ensures (ks + [code])[i] != (ks + [code])[j] {
        if j == |ks| { assert (ks + [code])[i] == ks[i]; }
      }
    }
  }

  /** `by_code.setdefault(code, [])`. */
  function SetDefault(m: ByCode, code: string): ByCode {
    if code in Keys(m) then m else Put(m, code, [])
  }

  /** `by_code.setdefault(code, []).append(h)`. */
  function AppendHit(m: ByCode, code: string, h: Hit): ByCode {
    Put(m, code, Lookup(m, code) + [h])
  }

  /** Setting a key twice leaves what setting it once to the second value leaves. */
  lemma {:induction false} PutTwice(m: ByCode, code: string, first: seq<Hit>, second: seq<Hit>)
    ensures Put(Put(m, code, first), code, second) == Put(m, code, second)
  {
    if m != [] && m[0].0 != code {
      PutTwice(m[1..], code, first, second);
      var r := Put(m, code, first);
      assert r[0] == m[0] && r[1..] == Put(m[1..], code, first);
    }
  }

  /** `setdefault(code, []).append(h)` is one `Put` of the extended list. */
  lemma SetDefaultThenAppend(m: ByCode, code: string, h: Hit)
    ensures AppendHit(SetDefault(m, code), code, h) == AppendHit(m, code, h)
  {
    if code !in Keys(m) {
      var m' := Put(m, code, []);
      PutLookup(m, code, [], code);
      LookupAbsent(m, code);
      assert Lookup(m', code) + [h] == [h];
      assert Lookup(m, code) + [h] == [h];
      PutTwice(m, code, [], [h]);
    }
  }

  /** A new key is added last. */
  lemma {:induction false} PutNew(m: ByCode, code: string, hits: seq<Hit>)
    requires code !in Keys(m)
    ensures Put(m, code, hits) == m + [(code, hits)]
  {
    if m != [] {
      assert code != m[0].0 && code !in Keys(m[1..]) by {
        assert Keys(m)[0] == m[0].0;
        assert Keys(m[1..]) == Keys(m)[1..];
      }
      var tail := Put(m[1..], code, hits);
      assert Put(m, code, hits) == [m[0]] + tail;
      PutNew(m[1..], code, hits);
      AppendAssoc([m[0]], m[1..], [(code, hits)]);
      assert [m[0]] + m[1..] == m;
    }
  }

  /** Writing back the list a key already holds changes nothing. */
  lemma {:induction false} PutSame(m: ByCode, code: string)
    requires code in Keys(m)
    ensures Put(m, code, Lookup(m, code)) == m
  {
    assert Keys(m)[0] == m[0].0;
    assert m == [m[0]] + m[1..];
    if m[0].0 != code {
      assert code in Keys(m[1..]) by {
        assert Keys(m[1..]) == Keys(m)[1..];
      }
      PutSame(m[1..], code);
      assert Put(m, code, Lookup(m, code)) == [m[0]] + Put(m[1..], code, Lookup(m[1..], code));
    }
  }

  /** `setdefault` followed by an assignment to the same key is the assignment alone. */
  lemma PutOfSetDefault(m: ByCode, code: string, hits: seq<Hit>)
    ensures Put(SetDefault(m, code), code, hits) == Put(m, code, hits)
    ensures code in Keys(SetDefault(m, code))
  {
    if code !in Keys(m) {
      PutTwice(m, code, [], hits);
    }
  }

  lemma KeysSnoc(m: ByCode, code: string, hits: seq<Hit>)
    ensures Keys(m + [(code, hits)]) == Keys(m) + [code]
  {
  }

  /** Appending a new key to a dictionary reads like `Put`. */
  lemma LookupSnocNew(m: ByCode, code: string, hits: seq<Hit>, c: string)
    requires code !in Keys(m)
    ensures Lookup(m + [(code, hits)], c) == if c == code then hits else Lookup(m, c)
  {
    PutNew(m, code, hits);
    PutLookup(m, code, hits, c);
  }

  /** In a dictionary, the key at position `i` is not among the keys before it. */
  lemma KeyFreshInPrefix(m: ByCode, i: nat)
    requires ValidByCode(m) && i < |m|
    ensures m[i].0 !in Keys(m[..i])
  {
    forall k | 0 <= k < i ensures Keys(m[..i])[k] != m[i].0 {
      assert Keys(m)[k] != Keys(m)[i];
    }
  }

  /** A dictionary's prefix is a dictionary without its last key. */
  lemma ValidSnoc(m: ByCode, code: string, hits: seq<Hit>)
    requires ValidByCode(m + [(code, hits)])
    ensures ValidByCode(m) && code !in Keys(m)
  {
    var ks := Keys(m + [(code, hits)]);
    KeysSnoc(m, code, hits);
    forall k | 0 <= k < |m| ensures Keys(m)[k] != code {
      assert ks[k] != ks[|m|];
    }
    forall i, j | 0 <= i < j < |m| ensures Keys(m)[i] != Keys(m)[j] {
      assert ks[i] != ks[j];
    }
  }

  /** Every code present maps to at least one hit. */
  predicate NoEmptyLists(m: ByCode) {
    forall i :: 0 <= i < |m| ==> m[i].1 != []
  }

  /** Storing a non-empty list keeps every list non-empty. */
  lemma {:induction false} PutNoEmpty(m: ByCode, code: string, hits: seq<Hit>)
    requires NoEmptyLists(m) && hits != []
    ensures NoEmptyLists(Put(m, code, hits))
  {
    if m != [] && m[0].0 != code {
      PutNoEmpty(m[1..], code, hits);
      var tail := Put(m[1..], code, hits);
      assert Put(m, code, hits) == [m[0]] + tail;
      forall i | 0 < i < |tail| + 1 ensures ([m[0]] + tail)[i].1 != [] {
        assert ([m[0]] + tail)[i] == tail[i - 1];
      }
    } else if m != [] {
      var r := Put(m, code, hits);
      assert r == [(code, hits)] + m[1..];
      forall i | 0 < i < |r| ensures r[i].1 != [] {
        assert r[i] == m[i];
      }
    }
  }

  /** An append leaves every list non-empty. */
  lemma AppendHitNoEmpty(m: ByCode, code: string, h: Hit)
    requires NoEmptyLists(m)
    ensures NoEmptyLists(AppendHit(m, code, h))
  {
    PutNoEmpty(m, code, Lookup(m, code) + [h]);
  }

  /** When no list is empty, every present key reads a non-empty list. */
  lemma {:induction false} NoEmptyLookup(m: ByCode, c: string)
    requires NoEmptyLists(m) && c in Keys(m)
    ensures Lookup(m, c) != []
  {
    assert Keys(m)[0] == m[0].0;
    if m[0].0 != c {
      assert Keys(m[1..]) == Keys(m)[1..];
      assert NoEmptyLists(m[1..]) by {
        forall i | 0 <= i < |m| - 1 ensures m[1..][i].1 != [] {
          assert m[1..][i] == m[i + 1];
        }
      }
      NoEmptyLookup(m[1..], c);
    }
  }
}
