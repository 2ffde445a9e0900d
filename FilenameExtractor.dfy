/**
 * Filename mode (pdf_extractor_filename.py): codes are read from each
 * file's name with the fixed pattern, and every code gets one hit per file,
 * `{file: name, page: 0, source: "filename"}`, where page 0 stands for the
 * whole document.
 */
module FilenameExtractor {
  import opened Wrappers
  import opened Sequences
  import opened Codes
  import opened Pattern
  import opened CodeIndex

  /** The codes found in a file name. */
  function FilenameCodes(name: string): seq<string> {
    CodesOf(FilenameMatches(name))
  }

  /** `extract_codes_from_filename`. */
  method ExtractCodesFromFilename(name: string) returns (codes: seq<string>)
    ensures codes == FilenameCodes(name)
    ensures NoDuplicates(codes)
    ensures forall c :: c in codes ==> IsCanonical(c)
    ensures forall c :: c in codes ==>
      exists i :: 0 <= i < |FilenameMatches(name)| && IsCodeShape(FilenameMatches(name)[i])
                  && Normalize(FilenameMatches(name)[i]) == c
  {
    codes := CollectCodes(FilenameMatches(name));
  }

  /** The file-level duplicate check and append for one code of one file. */
  function AddNameHit(m: ByCode, name: string, code: string): ByCode {
    var m' := SetDefault(m, code);
    if name in FilesOf(Lookup(m', code)) then m' else AppendHit(m', code, Hit(name, 0, Filename))
  }

  /** The inner loop over the codes of one file name. */
  function AddNameHits(m: ByCode, name: string, codes: seq<string>): ByCode {
    if codes == [] then m
    else AddNameHit(AddNameHits(m, name, codes[..|codes| - 1]), name, codes[|codes| - 1])
  }

  /** The `by_code` that `build_filename_index` returns. */
  function FilenameIndex(files: seq<PdfFile>): ByCode {
    if files == [] then []
    else
      var f := files[|files| - 1];
      AddNameHits(FilenameIndex(files[..|files| - 1]), f.name, FilenameCodes(f.name))
  }

  /** The `debug_log` that `build_filename_index` returns. */
  function FilenameLog(files: seq<PdfFile>): seq<LogEntry> {
    if files == [] then []
    else
      var f := files[|files| - 1];
      var codes := FilenameCodes(f.name);
      FilenameLog(files[..|files| - 1]) + (if codes != [] then [CodesInName(f.name, |codes|)] else [])
  }

  /** The inner loop of `build_filename_index`: one file's codes. */
  method AddCodesOfName(m: ByCode, name: string, codesInName: seq<string>) returns (byCode: ByCode)
    ensures byCode == AddNameHits(m, name, codesInName)
  {
    byCode := m;
    var j := 0;
    while j < |codesInName|
      invariant 0 <= j <= |codesInName|
      invariant byCode == AddNameHits(m, name, codesInName[..j])
    {
      var code := codesInName[j];
      assert AddNameHits(m, name, codesInName[..j + 1]) == AddNameHit(byCode, name, code) by {
        assert codesInName[..j + 1][..j] == codesInName[..j];
      }
      ghost var prev := byCode;
      byCode := SetDefault(byCode, code);
      if name !in FilesOf(Lookup(byCode, code)) {
        byCode := AppendHit(byCode, code, Hit(name, 0, Filename));
      }
      assert byCode == AddNameHit(prev, name, code);
      j := j + 1;
    }
    assert codesInName[..j] == codesInName;
  }

  /**
   * `build_filename_index`: its result is a function of the file names
   * alone; `maxPages` is accepted and never read.
   */
  method BuildFilenameIndex(files: seq<PdfFile>, maxPages: int) returns (byCode: ByCode, log: seq<LogEntry>)
    ensures byCode == FilenameIndex(files)
    ensures log == FilenameLog(files)
  {
    byCode, log := [], [];
    var i := 0;
    while i < |files|
      invariant 0 <= i <= |files|
      invariant byCode == FilenameIndex(files[..i])
      invariant log == FilenameLog(files[..i])
    {
      var name := files[i].name;
      var codesInName := ExtractCodesFromFilename(name);
      assert FilenameIndex(files[..i + 1]) == AddNameHits(byCode, name, codesInName)
          && FilenameLog(files[..i + 1]) == log + (if codesInName != [] then [CodesInName(name, |codesInName|)] else []) by {
        assert files[..i + 1][..i] == files[..i];
      }
      byCode := AddCodesOfName(byCode, name, codesInName);
      if codesInName != [] {
        log := log + [CodesInName(name, |codesInName|)];
      }
      i := i + 1;
    }
    assert files[..i] == files;
  }

  /** The names of the files whose name yields `code`, in input order. */
  function FilesNaming(files: seq<PdfFile>, code: string): seq<string> {
    if files == [] then []
    else
      var f := files[|files| - 1];
      FilesNaming(files[..|files| - 1], code) + (if code in FilenameCodes(f.name) then [f.name] else [])
  }

  /** The codes of all file names, one name after another. */
  function AllNameCodes(files: seq<PdfFile>): seq<string> {
    if files == [] then []
    else AllNameCodes(files[..|files| - 1]) + FilenameCodes(files[|files| - 1].name)
  }

  /** One whole-document hit per name. */
  function NameHits(names: seq<string>): (hits: seq<Hit>)
    ensures |hits| == |names|
    ensures forall i :: 0 <= i < |names| ==> hits[i] == Hit(names[i], 0, Filename)
  {
    if names == [] then [] else NameHits(names[..|names| - 1]) + [Hit(names[|names| - 1], 0, Filename)]
  }

  /** What one file does to the hit list of a code its name yields. */
  function AddFile(hits: seq<Hit>, name: string): seq<Hit> {
    if name in FilesOf(hits) then hits else hits + [Hit(name, 0, Filename)]
  }

  lemma AddNameHitLookup(m: ByCode, name: string, d: string, c: string)
    ensures Lookup(AddNameHit(m, name, d), c) == if c == d then AddFile(Lookup(m, c), name) else Lookup(m, c)
  {
    var m' := SetDefault(m, d);
    if d !in Keys(m) {
      LookupAbsent(m, d);
      PutLookup(m, d, [], c);
      PutLookup(m, d, [], d);
    }
    PutLookup(m', d, Lookup(m', d) + [Hit(name, 0, Filename)], c);
  }

  lemma {:induction false} AddNameHitsLookup(m: ByCode, name: string, codes: seq<string>, c: string)
    ensures Lookup(AddNameHits(m, name, codes), c) == if c in codes then AddFile(Lookup(m, c), name) else Lookup(m, c)
  {
    if codes != [] {
      var init, d := codes[..|codes| - 1], codes[|codes| - 1];
      assert codes == init + [d];
      AddNameHitsLookup(m, name, init, c);
      AddNameHitLookup(AddNameHits(m, name, init), name, d, c);
    }
  }

  lemma NameHitsFiles(names: seq<string>)
    ensures FilesOf(NameHits(names)) == names
  {
  }

  /**
   * Per code, filename mode keeps one whole-document hit for each distinct
   * file whose name yields the code, in input order.
   */
  lemma {:induction false} FilenameIndexLookup(files: seq<PdfFile>, c: string)
    ensures Lookup(FilenameIndex(files), c) == NameHits(Unique(FilesNaming(files, c)))
  {
    if files != [] {
      var init, f := files[..|files| - 1], files[|files| - 1];
      FilenameIndexLookup(init, c);
      AddNameHitsLookup(FilenameIndex(init), f.name, FilenameCodes(f.name), c);
      var u := Unique(FilesNaming(init, c));
      NameHitsFiles(u);
      if c in FilenameCodes(f.name) {
        var w := FilesNaming(files, c);
        assert w[..|w| - 1] == FilesNaming(init, c);
        if f.name !in u {
          assert (u + [f.name])[..|u|] == u;
        }
      } else {
        assert FilesNaming(files, c) == FilesNaming(init, c);
      }
    }
  }

  lemma AddNameHitKeys(m: ByCode, name: string, d: string)
    ensures Keys(AddNameHit(m, name, d)) == if d in Keys(m) then Keys(m) else Keys(m) + [d]
  {
  }

  lemma AddNameHitUniqueKeys(x: ByCode, name: string, d: string, seen: seq<string>)
    requires Keys(x) == Unique(seen)
    ensures Keys(AddNameHit(x, name, d)) == Unique(seen + [d])
  {
    AddNameHitKeys(x, name, d);
    UniqueSnoc(seen, d);
  }

  lemma {:induction false} AddNameHitsKeys(m: ByCode, name: string, codes: seq<string>, before: seq<string>)
    requires Keys(m) == Unique(before)
    ensures Keys(AddNameHits(m, name, codes)) == Unique(before + codes)
  {
    if codes == [] {
      assert before + codes == before;
    } else {
      var init, d := codes[..|codes| - 1], codes[|codes| - 1];
      assert before + codes == (before + init) + [d] by { assert codes == init + [d]; }
      AddNameHitsKeys(m, name, init, before);
      AddNameHitUniqueKeys(AddNameHits(m, name, init), name, d, before + init);
    }
  }

  /**
   * New keys appear in file order, and within a file in the order the
   * codes occur in its name.
   */
  lemma {:induction false} FilenameIndexKeys(files: seq<PdfFile>)
    ensures Keys(FilenameIndex(files)) == Unique(AllNameCodes(files))
  {
    if files != [] {
      var init, f := files[..|files| - 1], files[|files| - 1];
      FilenameIndexKeys(init);
      AddNameHitsKeys(FilenameIndex(init), f.name, FilenameCodes(f.name), AllNameCodes(init));
    }
  }

  lemma {:induction false} FilesNamingFacts(files: seq<PdfFile>, c: string)
    ensures forall n :: n in FilesNaming(files, c) ==> n in Names(files) && c in FilenameCodes(n)
    ensures forall i :: 0 <= i < |files| && c in FilenameCodes(files[i].name) ==> files[i].name in FilesNaming(files, c)
  {
    if files != [] {
      var init := files[..|files| - 1];
      FilesNamingFacts(init, c);
      assert Names(files) == Names(init) + [files[|files| - 1].name];
      forall i | 0 <= i < |files| - 1 ensures files[i] == init[i] { }
    }
  }

  /**
   * Every hit of filename mode is `{file, page: 0, source: "filename"}` for a
   * file whose name yields the code; no two hits of a code share a file;
   * every such file has its hit.
   */
  lemma FilenameHits(files: seq<PdfFile>, c: string)
    ensures forall h :: h in Lookup(FilenameIndex(files), c) ==>
      h.page == 0 && h.source == Filename && c in FilenameCodes(h.file) && h.file in Names(files)
    ensures NoDuplicates(FilesOf(Lookup(FilenameIndex(files), c)))
    ensures forall i :: 0 <= i < |files| && c in FilenameCodes(files[i].name) ==>
      files[i].name in FilesOf(Lookup(FilenameIndex(files), c))
  {
    FilenameIndexLookup(files, c);
    var u := Unique(FilesNaming(files, c));
    var hits := Lookup(FilenameIndex(files), c);
    NameHitsFiles(u);
    FilesNamingFacts(files, c);
    forall h | h in hits
      ensures h.page == 0 && h.source == Filename && c in FilenameCodes(h.file) && h.file in Names(files)
    {
      var k :| 0 <= k < |hits| && hits[k] == h;
      assert h == Hit(u[k], 0, Filename);
      assert u[k] in FilesNaming(files, c);
    }
    forall i | 0 <= i < |files| && c in FilenameCodes(files[i].name)
      ensures files[i].name in FilesOf(hits)
    {
      assert files[i].name in u;
    }
  }

  /** The keys of filename mode are distinct canonical codes. */
  lemma FilenameIndexKeysCanonical(files: seq<PdfFile>)
    ensures ValidByCode(FilenameIndex(files))
    ensures forall c :: c in Keys(FilenameIndex(files)) ==> IsCanonical(c)
  {
    FilenameIndexKeys(files);
    AllNameCodesCanonical(files);
  }

  lemma AllNameCodesCanonical(files: seq<PdfFile>)
    ensures forall c :: c in AllNameCodes(files) ==> IsCanonical(c)
  {
    if files != [] {
      AllNameCodesCanonical(files[..|files| - 1]);
      var codes := FilenameCodes(files[|files| - 1].name);
      forall c | c in codes ensures IsCanonical(c) {
        var k :| 0 <= k < |NormalizeAll(FilenameMatches(files[|files| - 1].name))| && NormalizeAll(FilenameMatches(files[|files| - 1].name))[k] == c;
      }
    }
  }

  /** Recording a name under a code leaves no code with an empty list. */
  lemma AddNameHitNoEmpty(m: ByCode, name: string, d: string)
    requires NoEmptyLists(m)
    ensures NoEmptyLists(AddNameHit(m, name, d))
  {
    var h := Hit(name, 0, Filename);
    if d in Keys(m) {
      AppendHitNoEmpty(m, d, h);
    } else {
      var m' := Put(m, d, []);
      assert SetDefault(m, d) == m';
      PutLookup(m, d, [], d);
      assert Lookup(m', d) + [h] == [h];
      assert AddNameHit(m, name, d) == Put(m', d, [h]);
      PutTwice(m, d, [], [h]);
      PutNoEmpty(m, d, [h]);
    }
  }

  lemma {:induction false} AddNameHitsNoEmpty(m: ByCode, name: string, codes: seq<string>)
    requires NoEmptyLists(m)
    ensures NoEmptyLists(AddNameHits(m, name, codes))
  {
    if codes != [] {
      AddNameHitsNoEmpty(m, name, codes[..|codes| - 1]);
      AddNameHitNoEmpty(AddNameHits(m, name, codes[..|codes| - 1]), name, codes[|codes| - 1]);
    }
  }

  /** No code of the filename index has an empty list of hits. */
  lemma {:induction false} FilenameIndexNoEmpty(files: seq<PdfFile>)
    ensures NoEmptyLists(FilenameIndex(files))
  {
    if files != [] {
      var f := files[|files| - 1];
      FilenameIndexNoEmpty(files[..|files| - 1]);
      AddNameHitsNoEmpty(FilenameIndex(files[..|files| - 1]), f.name, FilenameCodes(f.name));
    }
  }

  /** One letter before the digits is no code, since the pattern needs two: `A1-001.pdf` yields nothing. */
  lemma OneLetterPrefixNoCode()
    ensures FilenameCodes("A1-001.pdf") == []
  {
    var s := "A1-001.pdf";
    forall p | 0 <= p < |s| ensures MatchAt(s, p, false) == None {
      if p < 7 { assert LetterRun(s, p) < 2; } else { assert p + LetterRun(s, p) == |s|; }
    }
    SkipNoMatch(s, 0, |s|, false);
  }

  /** Likewise with an underscore after the digit: `B2_2.pdf` yields nothing. */
  lemma OneLetterUnderscoreNoCode()
    ensures FilenameCodes("B2_2.pdf") == []
  {
    var s := "B2_2.pdf";
    forall p | 0 <= p < |s| ensures MatchAt(s, p, false) == None {
      if p < 5 { assert LetterRun(s, p) < 2; } else { assert p + LetterRun(s, p) == |s|; }
    }
    SkipNoMatch(s, 0, |s|, false);
  }

  /** A name without digits yields no code. */
  lemma NoDigitNameNoCode()
    ensures FilenameCodes("documento_sin_codigo.pdf") == []
  {
    NoDigitNoMatch("documento_sin_codigo.pdf", 0, false);
  }

  /** A code-shaped word between spaces in a file name is one of its codes. */
  lemma SpacedCodeInName(a: string, m: string, b: string)
    requires IsCodeShape(m)
    ensures Normalize(m) in FilenameCodes(a + " " + m + " " + b)
  {
    SpacedCodeFound(a, m, b, false);
    NormalizedMatchIn(FilenameMatches(a + " " + m + " " + b), m);
  }
}
