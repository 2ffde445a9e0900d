/**
 * The helpers of main.py that work on upload names: `_safe_pdf_name`,
 * `_find_parts`, and the file selection and mode dispatch of `build_index`.
 * A folder listing is a sequence of entries in the order the file system
 * returns them; a PDF's content is what an `open` function returns for its
 * name (None when it cannot be opened).
 */
module Uploads {
  import opened Wrappers
  import opened Text
  import opened Sequences
  import opened Sorting
  import opened Codes
  import opened CodeIndex
  import opened FilenameExtractor
  import opened ContentExtractor
  import opened HybridExtractor

  /** An entry of the uploads folder: its name and whether it is a regular file. */
  datatype DirEntry = DirEntry(name: string, isFile: bool)

  // ----- _safe_pdf_name -----

  /** `str.lstrip()`: the leading whitespace is removed and nothing else. */
  function StripStart(s: string): (r: string)
    ensures |r| <= |s| && r == s[|s| - |r|..]
    ensures forall k :: 0 <= k < |s| - |r| ==> IsSpace(s[k])
    ensures r == [] || !IsSpace(r[0])
  {
    if s != [] && IsSpace(s[0]) then StripStart(s[1..]) else s
  }

  /** `str.rstrip()`: the trailing whitespace is removed and nothing else. */
  function StripEnd(s: string): (r: string)
    ensures |r| <= |s| && r == s[..|r|]
    ensures forall k :: |r| <= k < |s| ==> IsSpace(s[k])
    ensures r == [] || !IsSpace(r[|r| - 1])
  {
    if s != [] && IsSpace(s[|s| - 1]) then StripEnd(s[..|s| - 1]) else s
  }

  /** `str.strip()`. */
  function Strip(s: string): string {
    StripEnd(StripStart(s))
  }

  /** A string without whitespace at either end is its own `strip()`. */
  lemma StripUnchanged(s: string)
    requires s == [] || (!IsSpace(s[0]) && !IsSpace(s[|s| - 1]))
    ensures Strip(s) == s
  {
    if s != [] {
      var t := StripStart(s);
      assert |t| == |s|;
      assert t == s;
      var u := StripEnd(s);
      assert |u| == |s|;
    }
  }

  /** `strip()` leaves no whitespace at either end. */
  lemma StripEnds(s: string)
    ensures Strip(s) == [] || (!IsSpace(Strip(s)[0]) && !IsSpace(Strip(s)[|Strip(s)| - 1]))
  {
    var t := StripStart(s);
    var u := StripEnd(t);
    if u != [] {
      assert u[0] == t[0];
    }
  }

  /** `s.replace(a, b)` for one-character `a` and `b`. */
  function ReplaceChar(s: string, a: char, b: char): (r: string)
    ensures |r| == |s|
    ensures forall i :: 0 <= i < |s| ==> r[i] == (if s[i] == a then b else s[i])
  {
    if s == [] then [] else [if s[0] == a then b else s[0]] + ReplaceChar(s[1..], a, b)
  }

  /** The name before the suffix check: stripped, with both kinds of slash turned into `_`. */
  function CleanName(name: string): string {
    ReplaceChar(ReplaceChar(Strip(name), '\\', '_'), '/', '_')
  }

  /** The cleaned name has no slash of either kind and no whitespace at either end. */
  lemma CleanNameFacts(name: string)
    ensures '/' !in CleanName(name) && '\\' !in CleanName(name)
    ensures CleanName(name) == [] || (!IsSpace(CleanName(name)[0]) && !IsSpace(CleanName(name)[|CleanName(name)| - 1]))
  {
    var st := Strip(name);
    var r1 := ReplaceChar(st, '\\', '_');
    var r2 := ReplaceChar(r1, '/', '_');
    StripEnds(name);
    forall i | 0 <= i < |r2| ensures r2[i] != '/' && r2[i] != '\\' && (IsSpace(r2[i]) <==> IsSpace(st[i])) {
      assert r1[i] == (if st[i] == '\\' then '_' else st[i]);
      assert r2[i] == (if r1[i] == '/' then '_' else r1[i]);
    }
  }

  /** The suffix step of `_safe_pdf_name`: `.pdf` is appended unless the name already ends that way in any case. */
  function WithPdfSuffix(s: string): string {
    if EndsWith(LowerAscii(s), ".pdf") then s else s + ".pdf"
  }

  /** `_safe_pdf_name`. */
  function SafePdfName(name: string): string {
    WithPdfSuffix(CleanName(name))
  }

  lemma LowerAsciiPdf()
    ensures LowerAscii(".pdf") == ".pdf"
  {
    var l := LowerAscii(".pdf");
    assert l[0] == '.' && l[1] == 'p' && l[2] == 'd' && l[3] == 'f';
  }

  /**
   * The suffix step yields a name ending in `.pdf` in any case that starts
   * with the given name, and changes the name exactly when it did not
   * already end that way; the only characters it adds are those of `.pdf`.
   */
  lemma WithPdfSuffixFacts(s: string)
    ensures EndsWith(LowerAscii(WithPdfSuffix(s)), ".pdf")
    ensures s <= WithPdfSuffix(s)
    ensures WithPdfSuffix(s) == s <==> EndsWith(LowerAscii(s), ".pdf")
    ensures forall c :: c in WithPdfSuffix(s) ==> c in s || c == '.' || IsLowerLetter(c)
  {
    if !EndsWith(LowerAscii(s), ".pdf") {
      var r := s + ".pdf";
      forall c | c in r ensures c in s || c == '.' || IsLowerLetter(c) {
        var k :| 0 <= k < |r| && r[k] == c;
        if k >= |s| {
          assert c == ".pdf"[k - |s|];
        }
      }
      LowerAsciiAppend(s, ".pdf");
      LowerAsciiPdf();
      var l := LowerAscii(s) + ".pdf";
      assert l[|l| - 4..] == ".pdf";
      assert |r| != |s|;
    }
  }

  /** The suffix step's result does not start or end with whitespace when its input does not. */
  lemma WithPdfSuffixEnds(s: string)
    requires s == [] || (!IsSpace(s[0]) && !IsSpace(s[|s| - 1]))
    ensures var r := WithPdfSuffix(s); r != [] && !IsSpace(r[0]) && !IsSpace(r[|r| - 1])
  {
    var r := WithPdfSuffix(s);
    if EndsWith(LowerAscii(s), ".pdf") {
      var l := LowerAscii(s);
      assert l[|l| - 1] == ".pdf"[3];
      assert Lower(s[|s| - 1]) == 'f';
    } else {
      assert r[|r| - 1] == 'f';
      if s == [] {
        assert r[0] == '.';
      } else {
        assert r[0] == s[0];
      }
    }
  }

  /** Replacing a character that does not occur changes nothing. */
  lemma ReplaceCharAbsent(s: string, a: char, b: char)
    requires a !in s
    ensures ReplaceChar(s, a, b) == s
  {
    var r := ReplaceChar(s, a, b);
    forall i | 0 <= i < |s| ensures r[i] == s[i] {
      assert s[i] in s;
    }
  }

  /** A safe name has no slash of either kind and ends in `.pdf` in any letter case. */
  lemma SafePdfNameFacts(name: string)
    ensures '/' !in SafePdfName(name) && '\\' !in SafePdfName(name)
    ensures EndsWith(LowerAscii(SafePdfName(name)), ".pdf")
    ensures CleanName(name) <= SafePdfName(name)
  {
    var cleaned := CleanName(name);
    CleanNameFacts(name);
    WithPdfSuffixFacts(cleaned);
    assert '/' !in WithPdfSuffix(cleaned);
    assert '\\' !in WithPdfSuffix(cleaned);
  }

  /** A name that is already safe is left as it is. */
  lemma SafePdfNameKeepsSafeNames(name: string)
    requires '/' !in name && '\\' !in name
    requires name == [] || (!IsSpace(name[0]) && !IsSpace(name[|name| - 1]))
    requires EndsWith(LowerAscii(name), ".pdf")
    ensures SafePdfName(name) == name
  {
    CleanNameUnchanged(name);
  }

  lemma CleanNameUnchanged(name: string)
    requires '/' !in name && '\\' !in name
    requires name == [] || (!IsSpace(name[0]) && !IsSpace(name[|name| - 1]))
    ensures CleanName(name) == name
  {
    StripUnchanged(name);
    ReplaceCharAbsent(name, '\\', '_');
    ReplaceCharAbsent(name, '/', '_');
  }

  /** `_safe_pdf_name` is idempotent. */
  lemma SafePdfNameIdempotent(name: string)
    ensures SafePdfName(SafePdfName(name)) == SafePdfName(name)
  {
    var r := SafePdfName(name);
    SafePdfNameFacts(name);
    CleanNameFacts(name);
    WithPdfSuffixEnds(CleanName(name));
    SafePdfNameKeepsSafeNames(r);
  }

  // ----- _find_parts -----

  /** `p.suffix.lower() == ".pdf"`: the last dot starts `.pdf` and is not the first character. */
  predicate HasPdfSuffix(name: string) {
    |name| > 4 && EndsWith(LowerAscii(name), ".pdf")
  }

  predicate AllDigits(s: string) {
    forall i :: 0 <= i < |s| ==> IsDigit(s[i])
  }

  /** `int(s)` on ASCII digits. */
  function DigitsValue(s: string): nat
    requires AllDigits(s)
  {
    if s == [] then 0 else DigitsValue(s[..|s| - 1]) * 10 + (s[|s| - 1] as int - '0' as int)
  }

  /** The decimal digits of `n` without leading zeros: `str(n)`. */
  function NatDigits(n: nat): (s: string)
    ensures s != [] && AllDigits(s)
  {
    if n < 10 then [('0' as int + n) as char] else NatDigits(n / 10) + [('0' as int + n % 10) as char]
  }

  /** `int(str(n)) == n`. */
  lemma {:induction false} DigitsValueOfNatDigits(n: nat)
    ensures DigitsValue(NatDigits(n)) == n
  {
    if n >= 10 {
      var s := NatDigits(n);
      DigitsValueOfNatDigits(n / 10);
      assert s[..|s| - 1] == NatDigits(n / 10);
    }
  }

  /**
   * The number `N` when `name` matches `^{re.escape(base)}_(\d+)\.pdf$`
   * ignoring letter case, and None otherwise.
   */
  function PartNumber(base: string, name: string): Option<nat> {
    var l, b := LowerAscii(name), LowerAscii(base);
    if |l| >= |b| + 6 && l[..|b|] == b && l[|b|] == '_' && l[|l| - 4..] == ".pdf"
      && AllDigits(l[|b| + 1..|l| - 4])
    then Some(DigitsValue(l[|b| + 1..|l| - 4]))
    else None
  }

  /** `base_N.pdf`, spelt in any letter case, is part `N` of `base`. */
  lemma PartNumberOfPartName(base: string, name: string, n: nat)
    requires LowerAscii(name) == LowerAscii(base) + "_" + NatDigits(n) + ".pdf"
    ensures PartNumber(base, name) == Some(n)
  {
    var l, b, d := LowerAscii(name), LowerAscii(base), NatDigits(n);
    assert l[..|b|] == b;
    assert l[|b| + 1..|l| - 4] == d;
    assert l[|l| - 4..] == ".pdf";
    DigitsValueOfNatDigits(n);
  }

  /** Whatever `_find_parts` accepts also passes its suffix check. */
  lemma PartNameHasPdfSuffix(base: string, name: string)
    requires PartNumber(base, name).Some?
    ensures HasPdfSuffix(name)
  {
    var l := LowerAscii(name);
    assert l[|l| - 4..] == ".pdf";
  }

  /** The entries `_find_parts` keeps. */
  predicate IsPart(base: string, e: DirEntry) {
    e.isFile && HasPdfSuffix(e.name) && PartNumber(base, e.name).Some?
  }

  /** `candidatos` after the folder loop: (N, name) for each part, in folder order. */
  function Candidates(base: string, folder: seq<DirEntry>): seq<(nat, string)> {
    if folder == [] then []
    else
      var e := folder[|folder| - 1];
      Candidates(base, folder[..|folder| - 1]) + (if IsPart(base, e) then [(PartNumber(base, e.name).value, e.name)] else [])
  }

  /** The sort key of `candidatos`: the number alone. */
  predicate NumberLe(a: (nat, string), b: (nat, string)) {
    a.0 <= b.0
  }

  /** `[p for _, p in candidatos]`. */
  function Seconds(cs: seq<(nat, string)>): (names: seq<string>)
    ensures |names| == |cs|
    ensures forall i :: 0 <= i < |cs| ==> names[i] == cs[i].1
  {
    if cs == [] then [] else Seconds(cs[..|cs| - 1]) + [cs[|cs| - 1].1]
  }

  /** What `_find_parts` returns. */
  function Parts(base: string, folder: seq<DirEntry>): seq<string> {
    Seconds(SortBy(Candidates(base, folder), NumberLe))
  }

  /** `_find_parts`. */
  method FindParts(base: string, folder: seq<DirEntry>) returns (parts: seq<string>)
    ensures parts == Parts(base, folder)
  {
    var candidates: seq<(nat, string)> := [];
    var i := 0;
    while i < |folder|
      invariant 0 <= i <= |folder|
      invariant candidates == Candidates(base, folder[..i])
    {
      var p := folder[i];
      assert folder[..i + 1][..i] == folder[..i];
      if p.isFile && HasPdfSuffix(p.name) {
        var m := PartNumber(base, p.name);
        if m.Some? {
          candidates := candidates + [(m.value, p.name)];
        }
      }
      i := i + 1;
    }
    assert folder[..i] == folder;
    candidates := SortBy(candidates, NumberLe);
    parts := Seconds(candidates);
  }

  /** Every candidate carries its name's part number. */
  lemma {:induction false} CandidatesNumbers(base: string, folder: seq<DirEntry>)
    ensures forall c :: c in Candidates(base, folder) ==> PartNumber(base, c.1) == Some(c.0)
  {
    if folder != [] {
      CandidatesNumbers(base, folder[..|folder| - 1]);
    }
  }

  /** Every candidate is a part with its number, and every part of the folder is a candidate. */
  lemma {:induction false} CandidatesFacts(base: string, folder: seq<DirEntry>)
    ensures forall c :: c in Candidates(base, folder) ==>
      PartNumber(base, c.1) == Some(c.0) && exists k :: 0 <= k < |folder| && folder[k].name == c.1 && IsPart(base, folder[k])
    ensures forall k :: 0 <= k < |folder| && IsPart(base, folder[k]) ==>
      (PartNumber(base, folder[k].name).value, folder[k].name) in Candidates(base, folder)
  {
    if folder != [] {
      var init := folder[..|folder| - 1];
      CandidatesFacts(base, init);
      forall k | 0 <= k < |init| ensures folder[k] == init[k] { }
    }
  }

  /** A name `_find_parts` returns is a regular file of the folder named `base_N.pdf`. */
  lemma FindPartsSound(base: string, folder: seq<DirEntry>, n: string)
    requires n in Parts(base, folder)
    ensures exists k :: 0 <= k < |folder| && folder[k].name == n && IsPart(base, folder[k])
  {
    var cs := Candidates(base, folder);
    var sorted := SortBy(cs, NumberLe);
    var ps := Seconds(sorted);
    var i :| 0 <= i < |ps| && ps[i] == n;
    SortByMembers(cs, NumberLe);
    assert sorted[i] in cs;
    CandidatesFacts(base, folder);
  }

  /** Every regular file of the folder named `base_N.pdf` is returned by `_find_parts`. */
  lemma FindPartsComplete(base: string, folder: seq<DirEntry>, k: int)
    requires 0 <= k < |folder| && IsPart(base, folder[k])
    ensures folder[k].name in Parts(base, folder)
  {
    var cs := Candidates(base, folder);
    var sorted := SortBy(cs, NumberLe);
    var c := (PartNumber(base, folder[k].name).value, folder[k].name);
    CandidatesFacts(base, folder);
    SortByMembers(cs, NumberLe);
    assert c in sorted;
    var i :| 0 <= i < |sorted| && sorted[i] == c;
    assert Seconds(sorted)[i] == folder[k].name;
  }

  /** `_find_parts` returns exactly the regular files named `base_N.pdf`, in any letter case. */
  lemma FindPartsSelects(base: string, folder: seq<DirEntry>)
    ensures forall n :: n in Parts(base, folder) <==>
      exists k :: 0 <= k < |folder| && folder[k].name == n && IsPart(base, folder[k])
  {
    forall n ensures n in Parts(base, folder) <==> exists k :: 0 <= k < |folder| && folder[k].name == n && IsPart(base, folder[k]) {
      if n in Parts(base, folder) {
        FindPartsSound(base, folder, n);
      }
      if exists k :: 0 <= k < |folder| && folder[k].name == n && IsPart(base, folder[k]) {
        var k :| 0 <= k < |folder| && folder[k].name == n && IsPart(base, folder[k]);
        FindPartsComplete(base, folder, k);
      }
    }
  }

  /** The parts come ordered by their number; equal numbers keep folder order. */
  lemma FindPartsOrdered(base: string, folder: seq<DirEntry>)
    ensures forall i :: 0 <= i < |Parts(base, folder)| ==> PartNumber(base, Parts(base, folder)[i]).Some?
    ensures forall i, j :: 0 <= i < j < |Parts(base, folder)| ==>
      PartNumber(base, Parts(base, folder)[i]).value <= PartNumber(base, Parts(base, folder)[j]).value
  {
    var cs := Candidates(base, folder);
    var sorted := SortBy(cs, NumberLe);
    var ps := Seconds(sorted);
    CandidatesNumbers(base, folder);
    SortByMembers(cs, NumberLe);
    assert IsTotalPreorder(NumberLe);
    SortBySorted(cs, NumberLe);
    forall i | 0 <= i < |ps| ensures PartNumber(base, ps[i]) == Some(sorted[i].0) {
      assert sorted[i] in cs;
    }
    forall i, j | 0 <= i < j < |ps| ensures PartNumber(base, ps[i]).value <= PartNumber(base, ps[j]).value {
      assert NumberLe(sorted[i], sorted[j]);
    }
  }

  // ----- build_index -----

  /** The `scan_mode` values. */
  datatype ScanMode = ContentScan | FilenameScan | BothScans

  datatype IndexRequest = IndexRequest(pattern: string, scanMode: ScanMode, maxPages: int)

  datatype IndexError = NoPdfsUploaded

  /** The saved index: `by_code` and the processed file names. */
  datatype Index = Index(byCode: ByCode, files: seq<string>)

  /** `up_dir.glob("*.pdf")`: every entry whose name ends in `.pdf`, letter case included. */
  function GlobPdf(folder: seq<DirEntry>): seq<string> {
    if folder == [] then []
    else
      var e := folder[|folder| - 1];
      GlobPdf(folder[..|folder| - 1]) + (if EndsWith(e.name, ".pdf") then [e.name] else [])
  }

  /** The sort key of `build_index`: the lower-cased name. */
  predicate LowerNameLe(a: string, b: string) {
    StrLe(LowerAscii(a), LowerAscii(b))
  }

  lemma LowerNameLeIsTotalPreorder()
    ensures IsTotalPreorder(LowerNameLe)
  {
    forall a, b ensures LowerNameLe(a, b) || LowerNameLe(b, a) {
      StrLeTotal(LowerAscii(a), LowerAscii(b));
    }
    forall a, b, c | LowerNameLe(a, b) && LowerNameLe(b, c) ensures LowerNameLe(a, c) {
      StrLeTransitive(LowerAscii(a), LowerAscii(b), LowerAscii(c));
    }
  }

  /** The files `build_index` runs over, in the order it runs over them. */
  function UploadOrder(folder: seq<DirEntry>): seq<string> {
    SortBy(GlobPdf(folder), LowerNameLe)
  }

  /** Each name paired with what opening it yields. */
  function OpenAll(names: seq<string>, open: string -> Option<seq<Option<string>>>): (files: seq<PdfFile>)
    ensures |files| == |names|
    ensures forall i :: 0 <= i < |names| ==> files[i] == PdfFile(names[i], open(names[i]))
  {
    if names == [] then [] else OpenAll(names[..|names| - 1], open) + [PdfFile(names[|names| - 1], open(names[|names| - 1]))]
  }

  /** The index of one scan mode over opened files. */
  function ModeIndex(files: seq<PdfFile>, req: IndexRequest, compile: string -> Option<Matcher>): ByCode {
    var matcher := SelectMatcher(req.pattern, compile).0;
    match req.scanMode
    case FilenameScan => FilenameIndex(files)
    case ContentScan => ContentIndex(files, matcher, req.maxPages)
    case BothScans => HybridIndex(files, matcher, req.maxPages)
  }

  /** The debug log of one scan mode over opened files. */
  function ModeLog(files: seq<PdfFile>, req: IndexRequest, compile: string -> Option<Matcher>): seq<LogEntry> {
    var (matcher, patternLog) := SelectMatcher(req.pattern, compile);
    match req.scanMode
    case FilenameScan => FilenameLog(files)
    case ContentScan => patternLog + ContentLog(files, matcher, req.maxPages)
    case BothScans => HybridLog(files, patternLog, matcher, req.maxPages)
  }

  /** What `build_index` saves, or the error it raises. */
  function IndexOutcome(folder: seq<DirEntry>, open: string -> Option<seq<Option<string>>>,
                        compile: string -> Option<Matcher>, req: IndexRequest): Result<Index, IndexError> {
    var names := UploadOrder(folder);
    if names == [] then Failure(NoPdfsUploaded)
    else Success(Index(ModeIndex(OpenAll(names, open), req, compile), names))
  }

  /** `build_index`, without the index and log files it writes. */
  method BuildIndex(folder: seq<DirEntry>, open: string -> Option<seq<Option<string>>>,
                    compile: string -> Option<Matcher>, req: IndexRequest)
    returns (outcome: Result<Index, IndexError>, log: seq<LogEntry>)
    ensures outcome == IndexOutcome(folder, open, compile, req)
    ensures log == if outcome.Failure? then [] else ModeLog(OpenAll(UploadOrder(folder), open), req, compile)
  {
    var files := SortBy(GlobPdf(folder), LowerNameLe);
    if files == [] {
      return Failure(NoPdfsUploaded), [];
    }
    var pdfs := OpenAll(files, open);
    var byCode: ByCode;
    match req.scanMode {
      case FilenameScan =>
        byCode, log := BuildFilenameIndex(pdfs, req.maxPages);
      case ContentScan =>
        byCode, log := BuildContentIndex(pdfs, req.pattern, compile, req.maxPages);
      case BothScans =>
        byCode, log := BuildHybridIndex(pdfs, req.pattern, compile, req.maxPages);
    }
    outcome := Success(Index(byCode, files));
  }

  /**
   * `build_index` fails exactly when no `.pdf` name was uploaded; otherwise
   * it lists every such name once per entry, ordered by lower-cased name
   * with ties in folder order.
   */
  lemma IndexFiles(folder: seq<DirEntry>, open: string -> Option<seq<Option<string>>>,
                   compile: string -> Option<Matcher>, req: IndexRequest)
    ensures IndexOutcome(folder, open, compile, req).Failure? <==> GlobPdf(folder) == []
    ensures IndexOutcome(folder, open, compile, req).Success? ==>
      var files := IndexOutcome(folder, open, compile, req).value.files;
      && files != []
      && multiset(files) == multiset(GlobPdf(folder))
      && SortedBy(files, LowerNameLe)
      && forall y :: EquivalentTo(files, y, LowerNameLe) == EquivalentTo(GlobPdf(folder), y, LowerNameLe)
  {
    LowerNameLeIsTotalPreorder();
    SortBySorted(GlobPdf(folder), LowerNameLe);
    forall y ensures EquivalentTo(UploadOrder(folder), y, LowerNameLe) == EquivalentTo(GlobPdf(folder), y, LowerNameLe) {
      SortByStable(GlobPdf(folder), y, LowerNameLe);
    }
  }

  /** Every scan mode saves a dictionary whose keys are distinct canonical codes. */
  lemma IndexKeysCanonical(files: seq<PdfFile>, req: IndexRequest, compile: string -> Option<Matcher>)
    ensures ValidByCode(ModeIndex(files, req, compile))
    ensures forall c :: c in Keys(ModeIndex(files, req, compile)) ==> IsCanonical(c)
  {
    var matcher := SelectMatcher(req.pattern, compile).0;
    FilenameIndexKeysCanonical(files);
    ContentIndexKeysCanonical(files, matcher, req.maxPages);
    if req.scanMode == BothScans {
      HybridKeys(files, matcher, req.maxPages);
    }
  }
}
