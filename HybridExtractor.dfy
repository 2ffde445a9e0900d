/**
 * Hybrid mode (pdf_extractor_hybrid.py): the filename index and the
 * content index are built over the same files, then merged code by code.
 * The filename lists are copied first; a content hit is then appended to
 * its code's list only when no hit already there names the same file.
 */
module HybridExtractor {
  import opened Wrappers
  import opened Sequences
  import opened CodeIndex
  import opened FilenameExtractor
  import opened ContentExtractor

  /**
   * The entry loop for one content code: each entry is appended unless the
   * list (as it stands, earlier admissions included) already has its file.
   */
  function AdmitAll(acc: seq<Hit>, entries: seq<Hit>): seq<Hit> {
    if entries == [] then acc
    else
      var a := AdmitAll(acc, entries[..|entries| - 1]);
      var e := entries[|entries| - 1];
      if e.file in FilesOf(a) then a else a + [e]
  }

  /** The content loop: every content key is merged into the combined index in key order. */
  function Combine(combined: ByCode, content: ByCode): ByCode {
    if content == [] then combined
    else
      var m := Combine(combined, content[..|content| - 1]);
      var (code, entries) := content[|content| - 1];
      Put(m, code, AdmitAll(Lookup(m, code), entries))
  }

  /** The `by_code` that `build_hybrid_index` returns. */
  function HybridIndex(files: seq<PdfFile>, matcher: Matcher, maxPages: int): ByCode {
    Combine(FilenameIndex(files), ContentIndex(files, matcher, maxPages))
  }

  /** The `debug_log` that `build_hybrid_index` returns. */
  function HybridLog(files: seq<PdfFile>, patternLog: seq<LogEntry>, matcher: Matcher, maxPages: int): seq<LogEntry> {
    var combined := HybridIndex(files, matcher, maxPages);
    [HybridBanner, NameStep] + FilenameLog(files) + [ContentStep] + (patternLog + ContentLog(files, matcher, maxPages))
      + [CombineStep, SummaryTotal(|combined|), SummaryNameKeys(|FilenameIndex(files)|),
         SummaryContentKeys(|ContentIndex(files, matcher, maxPages)|), SummaryCombined(|combined|)]
  }

  /** The copy loop: `by_code_combined[code] = entries.copy()` for every filename key. */
  method CopyIndex(byCodeFilename: ByCode) returns (combined: ByCode)
    requires ValidByCode(byCodeFilename)
    ensures combined == byCodeFilename
  {
    combined := [];
    var i := 0;
    while i < |byCodeFilename|
      invariant 0 <= i <= |byCodeFilename|
      invariant combined == byCodeFilename[..i]
    {
      var (code, entries) := byCodeFilename[i];
      KeyFreshInPrefix(byCodeFilename, i);
      PutNew(combined, code, entries);
      combined := Put(combined, code, entries);
      assert byCodeFilename[..i + 1] == byCodeFilename[..i] + [byCodeFilename[i]];
      i := i + 1;
    }
    assert byCodeFilename[..i] == byCodeFilename;
  }

  /** The entry loop for one content code, appending to the combined list in place. */
  method AdmitEntries(m: ByCode, code: string, entries: seq<Hit>) returns (combined: ByCode)
    ensures combined == Put(m, code, AdmitAll(Lookup(m, code), entries))
  {
    combined := SetDefault(m, code);
    ghost var base := combined;
    assert Lookup(base, code) == Lookup(m, code) by {
      if code !in Keys(m) {
        LookupAbsent(m, code);
        PutLookup(m, code, [], code);
      }
    }
    PutOfSetDefault(m, code, Lookup(m, code));
    assert combined == Put(base, code, AdmitAll(Lookup(m, code), entries[..0])) by {
      PutSame(base, code);
    }
    var j := 0;
    while j < |entries|
      invariant 0 <= j <= |entries|
      invariant combined == Put(base, code, AdmitAll(Lookup(m, code), entries[..j]))
    {
      var entry := entries[j];
      ghost var admitted := AdmitAll(Lookup(m, code), entries[..j]);
      assert AdmitAll(Lookup(m, code), entries[..j + 1])
          == (if entry.file in FilesOf(admitted) then admitted else admitted + [entry]) by {
        assert entries[..j + 1][..j] == entries[..j];
      }
      PutLookup(base, code, admitted, code);
      var existingFiles := FilesOf(Lookup(combined, code));
      if entry.file !in existingFiles {
        PutTwice(base, code, admitted, admitted + [entry]);
        combined := AppendHit(combined, code, entry);
      }
      j := j + 1;
    }
    assert entries[..j] == entries;
    PutOfSetDefault(m, code, AdmitAll(Lookup(m, code), entries));
  }

  /** The content loop of `build_hybrid_index`. */
  method MergeContent(m: ByCode, byCodeContent: ByCode) returns (combined: ByCode)
    ensures combined == Combine(m, byCodeContent)
  {
    combined := m;
    var i := 0;
    while i < |byCodeContent|
      invariant 0 <= i <= |byCodeContent|
      invariant combined == Combine(m, byCodeContent[..i])
    {
      var (code, entries) := byCodeContent[i];
      assert Combine(m, byCodeContent[..i + 1]) == Put(combined, code, AdmitAll(Lookup(combined, code), entries)) by {
        assert byCodeContent[..i + 1][..i] == byCodeContent[..i];
      }
      combined := AdmitEntries(combined, code, entries);
      i := i + 1;
    }
    assert byCodeContent[..i] == byCodeContent;
  }

  /** `build_hybrid_index`. */
  method BuildHybridIndex(files: seq<PdfFile>, patternStr: string, compile: string -> Option<Matcher>, maxPages: int)
    returns (byCode: ByCode, log: seq<LogEntry>)
    ensures byCode == HybridIndex(files, SelectMatcher(patternStr, compile).0, maxPages)
    ensures log == HybridLog(files, SelectMatcher(patternStr, compile).1, SelectMatcher(patternStr, compile).0, maxPages)
  {
    var byCodeFilename, logFilename := BuildFilenameIndex(files, maxPages);
    var byCodeContent, logContent := BuildContentIndex(files, patternStr, compile, maxPages);
    FilenameIndexKeysCanonical(files);
    var combined := CopyIndex(byCodeFilename);
    combined := MergeContent(combined, byCodeContent);
    var totalCodes := |combined|;
    var filenameOnly := |byCodeFilename|;
    var contentOnly := |byCodeContent|;
    log := [HybridBanner, NameStep] + logFilename + [ContentStep] + logContent
      + [CombineStep, SummaryTotal(totalCodes), SummaryNameKeys(filenameOnly),
         SummaryContentKeys(contentOnly), SummaryCombined(totalCodes)];
    byCode := combined;
  }

  /**
   * Reference definition of the entry loop, read front to back: keep an
   * entry when its file is neither in `seen` nor taken by an earlier kept
   * entry.
   */
  function FirstPerFile(s: seq<Hit>, seen: seq<string>): seq<Hit> {
    if s == [] then []
    else if s[0].file in seen then FirstPerFile(s[1..], seen)
    else [s[0]] + FirstPerFile(s[1..], seen + [s[0].file])
  }

  lemma FilesOfAppend(a: seq<Hit>, b: seq<Hit>)
    ensures FilesOf(a + b) == FilesOf(a) + FilesOf(b)
  {
  }

  /** Extending the input by one entry extends the kept entries by at most that entry. */
  lemma {:induction false} FirstPerFileSnoc(s: seq<Hit>, e: Hit, seen: seq<string>)
    ensures FirstPerFile(s + [e], seen)
      == FirstPerFile(s, seen) + (if e.file in seen + FilesOf(FirstPerFile(s, seen)) then [] else [e])
  {
    if s == [] {
      assert [e][1..] == [];
    } else {
      assert (s + [e])[0] == s[0];
      assert (s + [e])[1..] == s[1..] + [e];
      if s[0].file in seen {
        FirstPerFileSnoc(s[1..], e, seen);
      } else {
        var seen' := seen + [s[0].file];
        var rest := FirstPerFile(s[1..], seen');
        FirstPerFileSnoc(s[1..], e, seen');
        FilesOfAppend([s[0]], rest);
        assert e.file in seen + FilesOf([s[0]] + rest) <==> e.file in seen' + FilesOf(rest);
        AppendAssoc([s[0]], rest, if e.file in seen' + FilesOf(rest) then [] else [e]);
      }
    }
  }

  /**
   * The entry loop keeps the list it starts from and appends, in entry
   * order, the first entry of each file the list does not yet have.
   */
  lemma {:induction false} AdmitAllIsFirstPerFile(acc: seq<Hit>, entries: seq<Hit>)
    ensures AdmitAll(acc, entries) == acc + FirstPerFile(entries, FilesOf(acc))
  {
    if entries == [] {
      assert acc + [] == acc;
    } else {
      var init, e := entries[..|entries| - 1], entries[|entries| - 1];
      var fa := FilesOf(acc);
      var kept := FirstPerFile(init, fa);
      assert entries == init + [e];
      AdmitAllIsFirstPerFile(acc, init);
      FirstPerFileSnoc(init, e, fa);
      AdmitStep(acc, kept, e);
    }
  }

  lemma AdmitStep(acc: seq<Hit>, kept: seq<Hit>, e: Hit)
    ensures (if e.file in FilesOf(acc + kept) then acc + kept else (acc + kept) + [e])
      == acc + (kept + (if e.file in FilesOf(acc) + FilesOf(kept) then [] else [e]))
  {
    FilesOfAppend(acc, kept);
    AppendAssoc(acc, kept, [e]);
    assert kept + [] == kept;
  }

  /** The kept entries name distinct files. */
  lemma {:induction false} FirstPerFileDistinct(s: seq<Hit>, seen: seq<string>)
    ensures NoDuplicates(FilesOf(FirstPerFile(s, seen)))
  {
    if s != [] {
      if s[0].file in seen {
        FirstPerFileDistinct(s[1..], seen);
      } else {
        var seen' := seen + [s[0].file];
        var rest := FirstPerFile(s[1..], seen');
        FirstPerFileDistinct(s[1..], seen');
        FirstPerFileOrigin(s[1..], seen');
        FileNotNamed(rest, s[0].file);
        FilesOfAppend([s[0]], rest);
        assert FilesOf([s[0]]) == [s[0].file];
        DistinctCons(s[0].file, FilesOf(rest));
      }
    }
  }

  /** The kept entries come from the input and name files outside `seen`. */
  lemma {:induction false} FirstPerFileOrigin(s: seq<Hit>, seen: seq<string>)
    ensures forall h :: h in FirstPerFile(s, seen) ==> h in s && h.file !in seen
  {
    if s != [] {
      if s[0].file in seen {
        FirstPerFileOrigin(s[1..], seen);
      } else {
        FirstPerFileOrigin(s[1..], seen + [s[0].file]);
      }
    }
  }

  /** Every input entry's file is in `seen` or named by a kept entry. */
  lemma {:induction false} FirstPerFileCovers(s: seq<Hit>, seen: seq<string>)
    ensures forall h :: h in s ==> h.file in seen || h.file in FilesOf(FirstPerFile(s, seen))
  {
    if s != [] {
      if s[0].file in seen {
        FirstPerFileCovers(s[1..], seen);
      } else {
        var seen' := seen + [s[0].file];
        var rest := FirstPerFile(s[1..], seen');
        FirstPerFileCovers(s[1..], seen');
        FilesOfAppend([s[0]], rest);
      }
    }
  }

  /**
   * What the entry loop does to one code's list: the old list stays a
   * prefix, distinct files stay distinct, every result hit is an old hit or
   * an entry, every entry's file ends up in the list, and what is appended
   * names files the old list did not have.
   */
  lemma AdmitAllFacts(acc: seq<Hit>, entries: seq<Hit>)
    ensures acc <= AdmitAll(acc, entries)
    ensures NoDuplicates(FilesOf(acc)) ==> NoDuplicates(FilesOf(AdmitAll(acc, entries)))
    ensures forall h :: h in AdmitAll(acc, entries) ==> h in acc || h in entries
    ensures forall h :: h in entries ==> h.file in FilesOf(AdmitAll(acc, entries))
    ensures forall h :: h in AdmitAll(acc, entries)[|acc|..] ==> h in entries && h.file !in FilesOf(acc)
  {
    var fa := FilesOf(acc);
    var kept := FirstPerFile(entries, fa);
    AdmitAllIsFirstPerFile(acc, entries);
    FirstPerFileOrigin(entries, fa);
    FirstPerFileCovers(entries, fa);
    FilesOfAppend(acc, kept);
    assert (acc + kept)[|acc|..] == kept;
    if NoDuplicates(fa) {
      FirstPerFileDistinct(entries, fa);
      DistinctAppend(fa, FilesOf(kept));
    }
  }

  /** Two duplicate-free lists with no common element concatenate to a duplicate-free list. */
  lemma DistinctAppend(a: seq<string>, b: seq<string>)
    requires NoDuplicates(a) && NoDuplicates(b)
    requires forall x :: x in b ==> x !in a
    ensures NoDuplicates(a + b)
  {
    var ab := a + b;
    forall i, j | 0 <= i < j < |ab| ensures ab[i] != ab[j] {
      if j >= |a| {
        assert ab[j] == b[j - |a|];
        if i >= |a| {
          assert ab[i] == b[i - |a|];
        } else {
          assert b[j - |a|] in b;
        }
      }
    }
  }

  /**
   * Per code, the merged list is the filename list with the content entries
   * admitted when the content index has the code, and the filename list
   * unchanged otherwise.
   */
  lemma {:induction false} CombineLookup(fn: ByCode, ct: ByCode, c: string)
    requires ValidByCode(ct)
    ensures Lookup(Combine(fn, ct), c)
      == if c in Keys(ct) then AdmitAll(Lookup(fn, c), Lookup(ct, c)) else Lookup(fn, c)
  {
    if ct != [] {
      var init := ct[..|ct| - 1];
      var (code, entries) := ct[|ct| - 1];
      assert ct == init + [(code, entries)];
      ValidSnoc(init, code, entries);
      var m := Combine(fn, init);
      assert Combine(fn, ct) == Put(m, code, AdmitAll(Lookup(m, code), entries));
      CombineLookup(fn, init, c);
      CombineLookup(fn, init, code);
      PutLookup(m, code, AdmitAll(Lookup(m, code), entries), c);
      LookupSnocNew(init, code, entries, c);
    }
  }

  lemma KeysRegroup(k: seq<string>, a: seq<string>, b: seq<string>, d: string)
    requires k == Unique((a + b) + [d])
    ensures k == Unique(a + (b + [d]))
  {
    AppendAssoc(a, b, [d]);
  }

  /** The merged keys are the filename keys followed by the content keys not among them. */
  lemma {:induction false} CombineKeys(fn: ByCode, ct: ByCode)
    requires ValidByCode(fn)
    ensures Keys(Combine(fn, ct)) == Unique(Keys(fn) + Keys(ct))
  {
    if ct == [] {
      UniqueOfDistinct(Keys(fn));
      assert Keys(fn) + Keys(ct) == Keys(fn);
    } else {
      var init := ct[..|ct| - 1];
      var (code, entries) := ct[|ct| - 1];
      assert ct == init + [(code, entries)];
      KeysSnoc(init, code, entries);
      var m := Combine(fn, init);
      var kf, ki := Keys(fn), Keys(init);
      CombineKeys(fn, init);
      assert Combine(fn, ct) == Put(m, code, AdmitAll(Lookup(m, code), entries));
      UniqueSnoc(kf + ki, code);
      KeysRegroup(Keys(Combine(fn, ct)), kf, ki, code);
    }
  }

  /** The hybrid keys are the filename keys followed by the content keys not among them, each once. */
  lemma HybridKeys(files: seq<PdfFile>, matcher: Matcher, maxPages: int)
    ensures Keys(HybridIndex(files, matcher, maxPages))
      == Unique(Keys(FilenameIndex(files)) + Keys(ContentIndex(files, matcher, maxPages)))
    ensures ValidByCode(HybridIndex(files, matcher, maxPages))
  {
    FilenameIndexKeysCanonical(files);
    CombineKeys(FilenameIndex(files), ContentIndex(files, matcher, maxPages));
  }

  /**
   * Per code, the merged list starts with the whole filename list, keeps
   * files distinct, and holds only filename or content hits.
   */
  lemma CombineKeeps(fn: ByCode, ct: ByCode, c: string)
    requires ValidByCode(ct)
    requires NoDuplicates(FilesOf(Lookup(fn, c)))
    ensures Lookup(fn, c) <= Lookup(Combine(fn, ct), c)
    ensures NoDuplicates(FilesOf(Lookup(Combine(fn, ct), c)))
    ensures forall h :: h in Lookup(Combine(fn, ct), c) ==> h in Lookup(fn, c) || h in Lookup(ct, c)
  {
    CombineLookup(fn, ct, c);
    if c in Keys(ct) {
      AdmitAllFacts(Lookup(fn, c), Lookup(ct, c));
    }
  }

  /**
   * Per code, the merged list covers every file either list names, and
   * continues only with content hits, in content order, of files the
   * filename list lacks.
   */
  lemma CombineAdds(fn: ByCode, ct: ByCode, c: string)
    requires ValidByCode(ct)
    ensures |Lookup(fn, c)| <= |Lookup(Combine(fn, ct), c)|
    ensures forall h :: h in Lookup(fn, c) || h in Lookup(ct, c) ==> h.file in FilesOf(Lookup(Combine(fn, ct), c))
    ensures forall h :: h in Lookup(Combine(fn, ct), c)[|Lookup(fn, c)|..] ==>
      h in Lookup(ct, c) && h.file !in FilesOf(Lookup(fn, c))
    ensures IsSubsequence(Lookup(Combine(fn, ct), c)[|Lookup(fn, c)|..], Lookup(ct, c))
  {
    CombineLookup(fn, ct, c);
    var a, e := Lookup(fn, c), Lookup(ct, c);
    if c !in Keys(ct) {
      LookupAbsent(ct, c);
    }
    assert Lookup(Combine(fn, ct), c) == AdmitAll(a, e);
    AdmitAllAdds(a, e);
  }

  /**
   * The entry loop's list names every file of the old list and of the
   * entries; past the old list come entries, in entry order, of files the
   * old list lacks.
   */
  lemma AdmitAllAdds(acc: seq<Hit>, entries: seq<Hit>)
    ensures |acc| <= |AdmitAll(acc, entries)|
    ensures forall h :: h in acc || h in entries ==> h.file in FilesOf(AdmitAll(acc, entries))
    ensures forall h :: h in AdmitAll(acc, entries)[|acc|..] ==> h in entries && h.file !in FilesOf(acc)
    ensures IsSubsequence(AdmitAll(acc, entries)[|acc|..], entries)
  {
    var r := AdmitAll(acc, entries);
    AdmitAllFacts(acc, entries);
    AdmitAllInOrder(acc, entries);
    forall h | h in acc ensures h.file in FilesOf(r) {
      var k :| 0 <= k < |acc| && acc[k] == h;
      assert r[k] == h;
      assert FilesOf(r)[k] == h.file;
    }
  }

  /**
   * Per code, the hybrid list starts with all filename hits, has one hit
   * per file, holds only filename or content hits of the code, covers every
   * file either mode found, and what follows the filename hits are content
   * hits of files the filename hits do not name.
   */
  lemma HybridLookup(files: seq<PdfFile>, matcher: Matcher, maxPages: int, c: string)
    ensures Lookup(FilenameIndex(files), c) <= Lookup(HybridIndex(files, matcher, maxPages), c)
    ensures NoDuplicates(FilesOf(Lookup(HybridIndex(files, matcher, maxPages), c)))
    ensures forall h :: h in Lookup(HybridIndex(files, matcher, maxPages), c) ==>
      h in Lookup(FilenameIndex(files), c) || h in Lookup(ContentIndex(files, matcher, maxPages), c)
    ensures forall h :: h in Lookup(FilenameIndex(files), c) || h in Lookup(ContentIndex(files, matcher, maxPages), c) ==>
      h.file in FilesOf(Lookup(HybridIndex(files, matcher, maxPages), c))
    ensures forall h :: h in Lookup(HybridIndex(files, matcher, maxPages), c)[|Lookup(FilenameIndex(files), c)|..] ==>
      h in Lookup(ContentIndex(files, matcher, maxPages), c) && h.file !in FilesOf(Lookup(FilenameIndex(files), c))
    ensures IsSubsequence(Lookup(HybridIndex(files, matcher, maxPages), c)[|Lookup(FilenameIndex(files), c)|..],
                          Lookup(ContentIndex(files, matcher, maxPages), c))
  {
    ContentIndexKeysCanonical(files, matcher, maxPages);
    FilenameHits(files, c);
    CombineKeeps(FilenameIndex(files), ContentIndex(files, matcher, maxPages), c);
    CombineAdds(FilenameIndex(files), ContentIndex(files, matcher, maxPages), c);
  }

  /** Admitting at least one entry, or starting from a non-empty list, gives a non-empty list. */
  lemma AdmitAllNonEmpty(acc: seq<Hit>, entries: seq<Hit>)
    requires acc != [] || entries != []
    ensures AdmitAll(acc, entries) != []
  {
    if entries != [] {
      var a := AdmitAll(acc, entries[..|entries| - 1]);
      if entries[|entries| - 1].file in FilesOf(a) {
        assert |FilesOf(a)| > 0;
      }
    }
  }

  lemma {:induction false} CombineNoEmpty(fn: ByCode, ct: ByCode)
    requires NoEmptyLists(fn) && NoEmptyLists(ct)
    ensures NoEmptyLists(Combine(fn, ct))
  {
    if ct != [] {
      var init := ct[..|ct| - 1];
      var (code, entries) := ct[|ct| - 1];
      assert NoEmptyLists(init) by {
        forall i | 0 <= i < |init| ensures init[i].1 != [] {
          assert init[i] == ct[i];
        }
      }
      CombineNoEmpty(fn, init);
      var m := Combine(fn, init);
      AdmitAllNonEmpty(Lookup(m, code), entries);
      PutNoEmpty(m, code, AdmitAll(Lookup(m, code), entries));
    }
  }

  /** Every code of the hybrid index maps to at least one hit. */
  lemma HybridNoEmpty(files: seq<PdfFile>, matcher: Matcher, maxPages: int)
    ensures NoEmptyLists(HybridIndex(files, matcher, maxPages))
    ensures forall c :: c in Keys(HybridIndex(files, matcher, maxPages)) ==>
      Lookup(HybridIndex(files, matcher, maxPages), c) != []
  {
    var hy := HybridIndex(files, matcher, maxPages);
    FilenameIndexNoEmpty(files);
    ContentIndexNoEmpty(files, matcher, maxPages);
    CombineNoEmpty(FilenameIndex(files), ContentIndex(files, matcher, maxPages));
    forall c | c in Keys(hy) ensures Lookup(hy, c) != [] {
      NoEmptyLookup(hy, c);
    }
  }

  /** The admitted entries appear in the order they had among the entries. */
  lemma {:induction false} AdmitAllInOrder(acc: seq<Hit>, entries: seq<Hit>)
    ensures |acc| <= |AdmitAll(acc, entries)|
    ensures IsSubsequence(AdmitAll(acc, entries)[|acc|..], entries)
  {
    if entries != [] {
      var init, e := entries[..|entries| - 1], entries[|entries| - 1];
      var a := AdmitAll(acc, init);
      AdmitAllInOrder(acc, init);
      assert entries == init + [e];
      if e.file in FilesOf(a) {
        SubsequenceSnoc(a[|acc|..], init, e);
      } else {
        SliceSnoc(a, |acc|, e);
        SubsequenceBothSnoc(a[|acc|..], init, e);
      }
    }
  }
}
