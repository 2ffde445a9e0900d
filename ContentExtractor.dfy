/**
 * Content mode (pdf_extractor_content.py): every scanned page's text is
 * searched with a caller-supplied pattern (or the default bounded pattern
 * when it does not compile), and every code a page yields gets one hit
 * `{file, page, source: "content"}`, page counted from 0.
 *
 * The regular-expression engine is not modelled: a compiled pattern is a
 * `Matcher`, the list of raw matches `finditer` yields for a text, and
 * `re.compile` is the parameter `compile`, which answers `None` where
 * Python raises `re.error`.
 */
module ContentExtractor {
  import opened Wrappers
  import opened Sequences
  import opened Codes
  import opened Pattern
  import opened CodeIndex

  type Matcher = string -> seq<string>

  /**
   * `pattern_str.replace('\\\\', '\\')`: every pair of backslashes, taken
   * left to right without overlap, becomes one backslash.
   */
  function CollapseBackslashes(s: string): (r: string)
    ensures |r| <= |s|
  {
    if |s| >= 2 && s[0] == '\\' && s[1] == '\\' then ['\\'] + CollapseBackslashes(s[2..])
    else if s == [] then []
    else [s[0]] + CollapseBackslashes(s[1..])
  }

  /** What a front end that escapes backslashes sends: every backslash doubled. */
  function EscapeBackslashes(s: string): (r: string)
    ensures |r| >= |s|
  {
    if s == [] then []
    else (if s[0] == '\\' then ['\\', '\\'] else [s[0]]) + EscapeBackslashes(s[1..])
  }

  /** Collapsing undoes the front end's doubling, so the pattern the user wrote is compiled. */
  lemma {:induction false} CollapseUndoesEscape(s: string)
    ensures CollapseBackslashes(EscapeBackslashes(s)) == s
  {
    if s != [] {
      CollapseUndoesEscape(s[1..]);
      var e := EscapeBackslashes(s);
      if s[0] == '\\' {
        assert e[2..] == EscapeBackslashes(s[1..]);
      } else {
        assert e[1..] == EscapeBackslashes(s[1..]);
      }
    }
  }

  /** A pattern without doubled backslashes is compiled as written. */
  lemma {:induction false} CollapseKeepsSingleBackslashes(s: string)
    requires forall i :: 0 <= i < |s| - 1 ==> !(s[i] == '\\' && s[i + 1] == '\\')
    ensures CollapseBackslashes(s) == s
  {
    if s != [] {
      CollapseKeepsSingleBackslashes(s[1..]);
    }
  }

  /**
   * The pattern-compilation step: the caller's pattern after collapsing,
   * or, when `compile` reports `re.error` as `None`, the default bounded
   * pattern together with the two log lines that announce the fallback.
   */
  function SelectMatcher(patternStr: string, compile: string -> Option<Matcher>): (r: (Matcher, seq<LogEntry>))
    ensures compile(CollapseBackslashes(patternStr)).Some? ==>
      r.1 == [] && forall t :: r.0(t) == compile(CollapseBackslashes(patternStr)).value(t)
    ensures compile(CollapseBackslashes(patternStr)).None? ==>
      r.1 == [PatternError, UsingDefaultPattern] && forall t :: r.0(t) == DefaultMatches(t)
  {
    match compile(CollapseBackslashes(patternStr))
    case Some(matcher) => (matcher, [])
    case None => (DefaultMatches, [PatternError, UsingDefaultPattern])
  }

  /** `page.extract_text() or ""`, where a page whose extraction raised is `None` and also reads as "". */
  function PageText(page: Option<string>): string {
    page.GetOr("")
  }

  /** The codes of one page. */
  function PageCodes(page: Option<string>, matcher: Matcher): seq<string> {
    CodesOf(matcher(PageText(page)))
  }

  /** `extract_codes_from_text`. */
  method ExtractCodesFromText(text: string, matcher: Matcher) returns (codes: seq<string>)
    ensures codes == CodesOf(matcher(text))
    ensures NoDuplicates(codes)
    ensures forall c :: c in codes ==> IsCanonical(c)
    ensures forall i :: 0 <= i < |matcher(text)| ==> Normalize(matcher(text)[i]) in codes
    ensures forall c :: c in codes ==> exists i :: 0 <= i < |matcher(text)| && Normalize(matcher(text)[i]) == c
  {
    codes := CollectCodes(matcher(text));
  }

  /** `extract_codes_from_page`: a page that cannot be read is searched as "". */
  method ExtractCodesFromPage(page: Option<string>, matcher: Matcher) returns (codes: seq<string>)
    ensures codes == PageCodes(page, matcher)
    ensures page.None? ==> codes == CodesOf(matcher(""))
  {
    var text := if page.Some? then page.value else "";
    codes := ExtractCodesFromText(text, matcher);
  }

  /** A page's codes are distinct and canonical, whatever the pattern. */
  predicate WellFormedCodes(codes: seq<string>) {
    NoDuplicates(codes) && forall c :: c in codes ==> IsCanonical(c)
  }

  lemma PageCodesWellFormed(page: Option<string>, matcher: Matcher)
    ensures WellFormedCodes(PageCodes(page, matcher))
  {
    var matches := matcher(PageText(page));
    forall c | c in PageCodes(page, matcher) ensures IsCanonical(c) {
      var k :| 0 <= k < |NormalizeAll(matches)| && NormalizeAll(matches)[k] == c;
    }
  }

  /** The codes of every page of a file, page by page. */
  function PageCodeLists(pages: seq<Option<string>>, matcher: Matcher): (lists: seq<seq<string>>)
    ensures |lists| == |pages|
  {
    if pages == [] then []
    else PageCodeLists(pages[..|pages| - 1], matcher) + [PageCodes(pages[|pages| - 1], matcher)]
  }

  lemma {:induction false} PageCodeListsAt(pages: seq<Option<string>>, matcher: Matcher, i: nat)
    requires i < |pages|
    ensures PageCodeLists(pages, matcher)[i] == PageCodes(pages[i], matcher)
  {
    var init := pages[..|pages| - 1];
    if i < |init| {
      PageCodeListsAt(init, matcher, i);
    }
  }

  lemma PageCodeListsWellFormed(pages: seq<Option<string>>, matcher: Matcher)
    ensures forall i :: 0 <= i < |pages| ==> WellFormedCodes(PageCodeLists(pages, matcher)[i])
  {
    forall i | 0 <= i < |pages| ensures WellFormedCodes(PageCodeLists(pages, matcher)[i]) {
      PageCodeListsAt(pages, matcher, i);
      PageCodesWellFormed(pages[i], matcher);
    }
  }

  /** With the default pattern an unreadable page yields no code. */
  lemma UnreadablePageDefault()
    ensures PageCodes(None, DefaultMatches) == []
  {
    assert FindAll("", 0, true) == [];
  }

  /** `range(min(len(reader.pages), max_pages))` has this many elements. */
  function ScannedPages(total: nat, maxPages: int): (n: nat)
    ensures n <= total
    ensures maxPages <= 0 ==> n == 0
    ensures 0 < maxPages ==> n == if total < maxPages then total else maxPages
  {
    if maxPages <= 0 then 0 else if total < maxPages then total else maxPages
  }

  /** The number the log line reports as scanned: `min(len(pages), max_pages)`, negative when `max_pages` is. */
  function ReportedScan(total: nat, maxPages: int): int {
    if total < maxPages then total else maxPages
  }

  /** The hits of one page: one per code, in the page's code order. */
  function AddPageHits(m: ByCode, name: string, page: nat, codes: seq<string>): ByCode {
    if codes == [] then m
    else AppendHit(AddPageHits(m, name, page, codes[..|codes| - 1]), codes[|codes| - 1], Hit(name, page, Content))
  }

  /** The hits of the first `n` pages of one file, given each page's codes. */
  function ScanPages(m: ByCode, name: string, lists: seq<seq<string>>, n: nat): ByCode
    requires n <= |lists|
  {
    if n == 0 then m
    else AddPageHits(ScanPages(m, name, lists, n - 1), name, n - 1, lists[n - 1])
  }

  /** The codes of the first `n` pages, page after page. */
  function PagesCodes(lists: seq<seq<string>>, n: nat): seq<string>
    requires n <= |lists|
  {
    if n == 0 then [] else PagesCodes(lists, n - 1) + lists[n - 1]
  }

  /** `file_codes` after a page: its codes that were not there yet are appended in order. */
  function AddNew(fileCodes: seq<string>, codes: seq<string>): seq<string> {
    if codes == [] then fileCodes
    else
      var acc := AddNew(fileCodes, codes[..|codes| - 1]);
      if codes[|codes| - 1] in acc then acc else acc + [codes[|codes| - 1]]
  }

  /** `file_codes` after the first `n` pages. */
  function FileCodes(lists: seq<seq<string>>, n: nat): seq<string>
    requires n <= |lists|
  {
    if n == 0 then [] else AddNew(FileCodes(lists, n - 1), lists[n - 1])
  }

  /** The `by_code` that `build_content_index` returns for a matcher. */
  function ContentIndex(files: seq<PdfFile>, matcher: Matcher, maxPages: int): ByCode {
    if files == [] then []
    else IndexFile(ContentIndex(files[..|files| - 1], matcher, maxPages), files[|files| - 1], matcher, maxPages)
  }

  /** What one file adds: nothing when it cannot be opened. */
  function IndexFile(m: ByCode, f: PdfFile, matcher: Matcher, maxPages: int): ByCode {
    match f.pages
    case None => m
    case Some(pages) => ScanPages(m, f.name, PageCodeLists(pages, matcher), ScannedPages(|pages|, maxPages))
  }

  /** The log lines of one file. */
  function FileLog(f: PdfFile, matcher: Matcher, maxPages: int): seq<LogEntry> {
    match f.pages
    case None => [FileError(f.name)]
    case Some(pages) =>
      var fileCodes := FileCodes(PageCodeLists(pages, matcher), ScannedPages(|pages|, maxPages));
      [Processing(f.name, |pages|, ReportedScan(|pages|, maxPages))]
        + (if fileCodes != [] then [CodesInContent(f.name, |fileCodes|)] else [])
  }

  /** The per-file part of the `debug_log` of `build_content_index`. */
  function ContentLog(files: seq<PdfFile>, matcher: Matcher, maxPages: int): seq<LogEntry> {
    if files == [] then []
    else ContentLog(files[..|files| - 1], matcher, maxPages) + FileLog(files[|files| - 1], matcher, maxPages)
  }

  /**
   * The loop over one page's codes: a hit per code, and `file_codes`
   * gains the codes it did not hold yet.
   */
  method AddCodesOfPage(m: ByCode, fileCodes0: seq<string>, name: string, page: nat, codes: seq<string>)
    returns (byCode: ByCode, fileCodes: seq<string>)
    ensures byCode == AddPageHits(m, name, page, codes)
    ensures fileCodes == AddNew(fileCodes0, codes)
  {
    byCode, fileCodes := m, fileCodes0;
    var j := 0;
    while j < |codes|
      invariant 0 <= j <= |codes|
      invariant byCode == AddPageHits(m, name, page, codes[..j])
      invariant fileCodes == AddNew(fileCodes0, codes[..j])
    {
      var code := codes[j];
      assert AddPageHits(m, name, page, codes[..j + 1]) == AppendHit(byCode, code, Hit(name, page, Content))
          && AddNew(fileCodes0, codes[..j + 1]) == (if code in fileCodes then fileCodes else fileCodes + [code]) by {
        assert codes[..j + 1][..j] == codes[..j];
      }
      SetDefaultThenAppend(byCode, code, Hit(name, page, Content));
      byCode := SetDefault(byCode, code);
      byCode := AppendHit(byCode, code, Hit(name, page, Content));
      if code !in fileCodes {
        fileCodes := fileCodes + [code];
      }
      j := j + 1;
    }
    assert codes[..j] == codes;
  }

  /** The page loop of one file that could be opened. */
  method ScanFile(m: ByCode, name: string, pages: seq<Option<string>>, matcher: Matcher, pageCount: nat)
    returns (byCode: ByCode, fileCodes: seq<string>)
    requires pageCount <= |pages|
    ensures byCode == ScanPages(m, name, PageCodeLists(pages, matcher), pageCount)
    ensures fileCodes == FileCodes(PageCodeLists(pages, matcher), pageCount)
  {
    ghost var lists := PageCodeLists(pages, matcher);
    byCode, fileCodes := m, [];
    var p := 0;
    while p < pageCount
      invariant 0 <= p <= pageCount
      invariant byCode == ScanPages(m, name, lists, p)
      invariant fileCodes == FileCodes(lists, p)
    {
      var codes := ExtractCodesFromPage(pages[p], matcher);
      PageCodeListsAt(pages, matcher, p);
      assert ScanPages(m, name, lists, p + 1) == AddPageHits(byCode, name, p, codes);
      assert FileCodes(lists, p + 1) == AddNew(fileCodes, codes);
      byCode, fileCodes := AddCodesOfPage(byCode, fileCodes, name, p, codes);
      p := p + 1;
    }
  }

  /**
   * `build_content_index`: the log starts with the pattern fallback lines,
   * if any, then has the lines of each file in turn.
   */
  method BuildContentIndex(files: seq<PdfFile>, patternStr: string, compile: string -> Option<Matcher>, maxPages: int)
    returns (byCode: ByCode, log: seq<LogEntry>)
    ensures byCode == ContentIndex(files, SelectMatcher(patternStr, compile).0, maxPages)
    ensures log == SelectMatcher(patternStr, compile).1 + ContentLog(files, SelectMatcher(patternStr, compile).0, maxPages)
  {
    var matcher: Matcher, patternLog := SelectMatcher(patternStr, compile).0, SelectMatcher(patternStr, compile).1;
    byCode, log := [], patternLog;
    var i := 0;
    while i < |files|
      invariant 0 <= i <= |files|
      invariant byCode == ContentIndex(files[..i], matcher, maxPages)
      invariant log == patternLog + ContentLog(files[..i], matcher, maxPages)
    {
      assert ContentIndex(files[..i + 1], matcher, maxPages) == IndexFile(byCode, files[i], matcher, maxPages)
          && ContentLog(files[..i + 1], matcher, maxPages) == ContentLog(files[..i], matcher, maxPages) + FileLog(files[i], matcher, maxPages) by {
        assert files[..i + 1][..i] == files[..i];
      }
      var entries;
      byCode, entries := ProcessFile(byCode, files[i], matcher, maxPages);
      AppendAssoc(patternLog, ContentLog(files[..i], matcher, maxPages), entries);
      log := log + entries;
      i := i + 1;
    }
    assert files[..i] == files;
  }

  /** One iteration of the file loop of `build_content_index`. */
  method ProcessFile(m: ByCode, f: PdfFile, matcher: Matcher, maxPages: int) returns (byCode: ByCode, entries: seq<LogEntry>)
    ensures byCode == IndexFile(m, f, matcher, maxPages)
    ensures entries == FileLog(f, matcher, maxPages)
  {
    match f.pages {
      case None =>
        byCode, entries := m, [FileError(f.name)];
      case Some(pages) =>
        var pageCount := ScannedPages(|pages|, maxPages);
        entries := [Processing(f.name, |pages|, ReportedScan(|pages|, maxPages))];
        var fileCodes;
        byCode, fileCodes := ScanFile(m, f.name, pages, matcher, pageCount);
        if fileCodes != [] {
          entries := entries + [CodesInContent(f.name, |fileCodes|)];
        }
    }
  }

  // Properties of the content index.

  /** A code's hits within one file: one per scanned page whose codes hold it. */
  function PageHits(name: string, lists: seq<seq<string>>, n: nat, code: string): seq<Hit>
    requires n <= |lists|
  {
    if n == 0 then []
    else PageHits(name, lists, n - 1, code) + (if code in lists[n - 1] then [Hit(name, n - 1, Content)] else [])
  }

  /**
   * A reference definition of a code's hit list: one hit for every
   * (opened file, scanned page) whose text yields the code, files in input
   * order, pages ascending.
   */
  function ContentHits(files: seq<PdfFile>, matcher: Matcher, maxPages: int, code: string): seq<Hit> {
    if files == [] then []
    else ContentHits(files[..|files| - 1], matcher, maxPages, code) + FileContentHits(files[|files| - 1], matcher, maxPages, code)
  }

  /** A code's hits within one file; none when the file cannot be opened. */
  function FileContentHits(f: PdfFile, matcher: Matcher, maxPages: int, code: string): seq<Hit> {
    match f.pages
    case None => []
    case Some(pages) => PageHits(f.name, PageCodeLists(pages, matcher), ScannedPages(|pages|, maxPages), code)
  }

  lemma {:induction false} AddPageHitsLookup(m: ByCode, name: string, page: nat, codes: seq<string>, c: string)
    requires NoDuplicates(codes)
    ensures Lookup(AddPageHits(m, name, page, codes), c) == Lookup(m, c) + (if c in codes then [Hit(name, page, Content)] else [])
  {
    if codes != [] {
      var init, d := codes[..|codes| - 1], codes[|codes| - 1];
      assert codes == init + [d];
      AddPageHitsLookup(m, name, page, init, c);
      var x := AddPageHits(m, name, page, init);
      PutLookup(x, d, Lookup(x, d) + [Hit(name, page, Content)], c);
      if c == d {
        assert c !in init;
      }
    }
  }

  lemma ScanPagesLookupStep(m: ByCode, name: string, lists: seq<seq<string>>, page: nat, c: string)
    requires page < |lists|
    requires NoDuplicates(lists[page])
    requires Lookup(ScanPages(m, name, lists, page), c) == Lookup(m, c) + PageHits(name, lists, page, c)
    ensures Lookup(ScanPages(m, name, lists, page + 1), c) == Lookup(m, c) + PageHits(name, lists, page + 1, c)
  {
    var extra := if c in lists[page] then [Hit(name, page, Content)] else [];
    ScanPagesSucc(m, name, lists, page, c);
    AddPageHitsLookup(ScanPages(m, name, lists, page), name, page, lists[page], c);
    AppendAssoc(Lookup(m, c), PageHits(name, lists, page, c), extra);
  }

  /** One more page: its hits are added after those of the pages before it. */
  lemma ScanPagesSucc(m: ByCode, name: string, lists: seq<seq<string>>, page: nat, c: string)
    requires page < |lists|
    ensures ScanPages(m, name, lists, page + 1) == AddPageHits(ScanPages(m, name, lists, page), name, page, lists[page])
    ensures PageHits(name, lists, page + 1, c) ==
      PageHits(name, lists, page, c) + if c in lists[page] then [Hit(name, page, Content)] else []
  {
  }

  lemma {:induction false} ScanPagesLookup(m: ByCode, name: string, lists: seq<seq<string>>, n: nat, c: string)
    requires n <= |lists|
    requires forall i :: 0 <= i < n ==> NoDuplicates(lists[i])
    ensures Lookup(ScanPages(m, name, lists, n), c) == Lookup(m, c) + PageHits(name, lists, n, c)
  {
    if n == 0 {
      assert Lookup(m, c) + [] == Lookup(m, c);
    } else {
      var page: nat := n - 1;
      ScanPagesLookup(m, name, lists, page, c);
      ScanPagesLookupStep(m, name, lists, page, c);
    }
  }

  /** The content index holds, for every code, exactly its reference hit list. */
  lemma {:induction false} ContentIndexLookup(files: seq<PdfFile>, matcher: Matcher, maxPages: int, c: string)
    ensures Lookup(ContentIndex(files, matcher, maxPages), c) == ContentHits(files, matcher, maxPages, c)
  {
    if files != [] {
      var init, f := files[..|files| - 1], files[|files| - 1];
      ContentIndexLookup(init, matcher, maxPages, c);
      match f.pages {
        case None =>
        case Some(pages) =>
          PageCodeListsWellFormed(pages, matcher);
          ScanPagesLookup(ContentIndex(init, matcher, maxPages), f.name, PageCodeLists(pages, matcher), ScannedPages(|pages|, maxPages), c);
      }
    }
  }

  /**
   * Within one file, a code's hits have pages in strictly ascending order,
   * each a scanned page whose codes hold the code, and every such page has
   * its hit.
   */
  lemma {:induction false} PageHitsFacts(name: string, lists: seq<seq<string>>, n: nat, code: string)
    requires n <= |lists|
    ensures forall h :: h in PageHits(name, lists, n, code) ==>
      h.file == name && h.source == Content && h.page < n && code in lists[h.page]
    ensures forall k, l :: 0 <= k < l < |PageHits(name, lists, n, code)| ==>
      PageHits(name, lists, n, code)[k].page < PageHits(name, lists, n, code)[l].page
    ensures forall p :: 0 <= p < n && code in lists[p] ==> Hit(name, p, Content) in PageHits(name, lists, n, code)
  {
    if n > 0 {
      PageHitsFacts(name, lists, n - 1, code);
      var prev := PageHits(name, lists, n - 1, code);
      var hs := PageHits(name, lists, n, code);
      forall k | 0 <= k < |prev| ensures hs[k] == prev[k] { }
    }
  }

  /**
   * Every content hit of a code is `{file, page, source: "content"}` for an
   * opened file and one of its scanned pages whose text yields the code,
   * and every such page of every opened file has its hit.
   */
  lemma {:induction false} ContentHitsFacts(files: seq<PdfFile>, matcher: Matcher, maxPages: int, c: string)
    ensures forall h :: h in ContentHits(files, matcher, maxPages, c) ==>
      h.source == Content && exists i :: 0 <= i < |files| && IsScannedPageWith(files[i], h.file, h.page, matcher, maxPages, c)
    ensures forall i, p :: 0 <= i < |files| && IsScannedPageWith(files[i], files[i].name, p, matcher, maxPages, c) ==>
      Hit(files[i].name, p, Content) in ContentHits(files, matcher, maxPages, c)
  {
    ContentHitsSound(files, matcher, maxPages, c);
    forall i, p | 0 <= i < |files| && IsScannedPageWith(files[i], files[i].name, p, matcher, maxPages, c)
      ensures Hit(files[i].name, p, Content) in ContentHits(files, matcher, maxPages, c)
    {
      ContentHitsComplete(files, matcher, maxPages, c, i, p);
    }
  }

  /** One file's hits are exactly its scanned pages whose text yields the code. */
  lemma FileContentHitsFacts(f: PdfFile, matcher: Matcher, maxPages: int, c: string)
    ensures forall h :: h in FileContentHits(f, matcher, maxPages, c) ==>
      h.source == Content && IsScannedPageWith(f, h.file, h.page, matcher, maxPages, c)
    ensures forall p :: IsScannedPageWith(f, f.name, p, matcher, maxPages, c) ==>
      Hit(f.name, p, Content) in FileContentHits(f, matcher, maxPages, c)
  {
    if f.pages.Some? {
      var pages := f.pages.value;
      var lists := PageCodeLists(pages, matcher);
      var n := ScannedPages(|pages|, maxPages);
      PageHitsFacts(f.name, lists, n, c);
      forall p | 0 <= p < n ensures lists[p] == PageCodes(pages[p], matcher) {
        PageCodeListsAt(pages, matcher, p);
      }
    }
  }

  lemma {:induction false} ContentHitsSound(files: seq<PdfFile>, matcher: Matcher, maxPages: int, c: string)
    ensures forall h :: h in ContentHits(files, matcher, maxPages, c) ==>
      h.source == Content && exists i :: 0 <= i < |files| && IsScannedPageWith(files[i], h.file, h.page, matcher, maxPages, c)
  {
    if files != [] {
      var init, f := files[..|files| - 1], files[|files| - 1];
      ContentHitsSound(init, matcher, maxPages, c);
      FileContentHitsFacts(f, matcher, maxPages, c);
      var prev, here := ContentHits(init, matcher, maxPages, c), FileContentHits(f, matcher, maxPages, c);
      forall h: Hit | h in prev + here
        ensures h.source == Content && exists i :: 0 <= i < |files| && IsScannedPageWith(files[i], h.file, h.page, matcher, maxPages, c)
      {
        if h in prev {
          var i :| 0 <= i < |init| && IsScannedPageWith(init[i], h.file, h.page, matcher, maxPages, c);
          assert files[i] == init[i];
        } else {
          assert IsScannedPageWith(files[|files| - 1], h.file, h.page, matcher, maxPages, c);
        }
      }
    }
  }

  lemma {:induction false} ContentHitsComplete(files: seq<PdfFile>, matcher: Matcher, maxPages: int, c: string, i: nat, p: nat)
    requires i < |files| && IsScannedPageWith(files[i], files[i].name, p, matcher, maxPages, c)
    ensures Hit(files[i].name, p, Content) in ContentHits(files, matcher, maxPages, c)
  {
    var init, f := files[..|files| - 1], files[|files| - 1];
    var prev, here := ContentHits(init, matcher, maxPages, c), FileContentHits(f, matcher, maxPages, c);
    assert ContentHits(files, matcher, maxPages, c) == prev + here;
    if i < |init| {
      assert files[i] == init[i];
      ContentHitsComplete(init, matcher, maxPages, c, i, p);
    } else {
      FileContentHitsFacts(f, matcher, maxPages, c);
    }
  }

  /** `f` is an opened file called `name` whose page `p` is scanned and yields `code`. */
  predicate IsScannedPageWith(f: PdfFile, name: string, p: nat, matcher: Matcher, maxPages: int, code: string) {
    f.name == name && f.pages.Some? && p < ScannedPages(|f.pages.value|, maxPages)
      && code in PageCodes(f.pages.value[p], matcher)
  }

  /** The codes of every scanned page of every opened file, in order. */
  function AllContentCodes(files: seq<PdfFile>, matcher: Matcher, maxPages: int): seq<string> {
    if files == [] then []
    else
      var f := files[|files| - 1];
      AllContentCodes(files[..|files| - 1], matcher, maxPages) +
        match f.pages
        case None => []
        case Some(pages) => PagesCodes(PageCodeLists(pages, matcher), ScannedPages(|pages|, maxPages))
  }

  lemma AppendHitUniqueKeys(x: ByCode, d: string, h: Hit, seen: seq<string>)
    requires Keys(x) == Unique(seen)
    ensures Keys(AppendHit(x, d, h)) == Unique(seen + [d])
  {
    UniqueSnoc(seen, d);
  }

  lemma {:induction false} AddPageHitsKeys(m: ByCode, name: string, page: nat, codes: seq<string>, before: seq<string>)
    requires Keys(m) == Unique(before)
    ensures Keys(AddPageHits(m, name, page, codes)) == Unique(before + codes)
  {
    if codes == [] {
      assert before + codes == before;
    } else {
      var init, d := codes[..|codes| - 1], codes[|codes| - 1];
      assert before + codes == (before + init) + [d] by { assert codes == init + [d]; }
      AddPageHitsKeys(m, name, page, init, before);
      AppendHitUniqueKeys(AddPageHits(m, name, page, init), d, Hit(name, page, Content), before + init);
    }
  }

  lemma KeysTransfer(a: ByCode, b: ByCode, x: seq<string>, y: seq<string>)
    requires a == b && Keys(b) == Unique(x) && x == y
    ensures Keys(a) == Unique(y)
  {
  }

  lemma {:induction false} ScanPagesKeysStep(sm: ByCode, name: string, page: nat, codes: seq<string>, before: seq<string>, prev: seq<string>)
    requires Keys(sm) == Unique(before + prev)
    ensures Keys(AddPageHits(sm, name, page, codes)) == Unique(before + (prev + codes))
  {
    AddPageHitsKeys(sm, name, page, codes, before + prev);
    AppendAssoc(before, prev, codes);
  }

  lemma {:induction false} ScanPagesKeys(m: ByCode, name: string, lists: seq<seq<string>>, n: nat, before: seq<string>)
    requires n <= |lists|
    requires Keys(m) == Unique(before)
    ensures Keys(ScanPages(m, name, lists, n)) == Unique(before + PagesCodes(lists, n))
  {
    if n == 0 {
      assert before + PagesCodes(lists, n) == before;
    } else {
      var page: nat, codes := n - 1, lists[n - 1];
      var sm, prev := ScanPages(m, name, lists, page), PagesCodes(lists, page);
      ScanPagesKeys(m, name, lists, page, before);
      ScanPagesKeysStep(sm, name, page, codes, before, prev);
      KeysTransfer(ScanPages(m, name, lists, n), AddPageHits(sm, name, page, codes),
        before + (prev + codes), before + PagesCodes(lists, n));
    }
  }


  lemma {:induction false} AddNewUnique(seen: seq<string>, codes: seq<string>)
    ensures AddNew(Unique(seen), codes) == Unique(seen + codes)
  {
    if codes == [] {
      assert seen + codes == seen;
    } else {
      var init, d := codes[..|codes| - 1], codes[|codes| - 1];
      AddNewUnique(seen, init);
      assert codes == init + [d];
      AppendAssoc(seen, init, [d]);
      UniqueSnoc(seen + init, d);
    }
  }

  /** A file's `file_codes` are its scanned pages' codes without duplicates, in order of first occurrence. */
  lemma {:induction false} FileCodesUnique(lists: seq<seq<string>>, n: nat)
    requires n <= |lists|
    ensures FileCodes(lists, n) == Unique(PagesCodes(lists, n))
  {
    if n == 0 {
    } else {
      FileCodesUnique(lists, n - 1);
      AddNewUnique(PagesCodes(lists, n - 1), lists[n - 1]);
    }
  }

  /** Keys appear in the order their codes first occur, file by file and page by page. */
  lemma {:induction false} ContentIndexKeys(files: seq<PdfFile>, matcher: Matcher, maxPages: int)
    ensures Keys(ContentIndex(files, matcher, maxPages)) == Unique(AllContentCodes(files, matcher, maxPages))
  {
    if files != [] {
      var init, f := files[..|files| - 1], files[|files| - 1];
      ContentIndexKeys(init, matcher, maxPages);
      match f.pages {
        case None =>
          assert AllContentCodes(files, matcher, maxPages) == AllContentCodes(init, matcher, maxPages);
        case Some(pages) =>
          ScanPagesKeys(ContentIndex(init, matcher, maxPages), f.name, PageCodeLists(pages, matcher), ScannedPages(|pages|, maxPages),
            AllContentCodes(init, matcher, maxPages));
      }
    }
  }

  lemma {:induction false} PagesCodesCanonical(lists: seq<seq<string>>, n: nat)
    requires n <= |lists|
    requires forall i :: 0 <= i < n ==> WellFormedCodes(lists[i])
    ensures forall c :: c in PagesCodes(lists, n) ==> IsCanonical(c)
  {
    if n > 0 {
      PagesCodesCanonical(lists, n - 1);
    }
  }

  lemma {:induction false} AllContentCodesCanonical(files: seq<PdfFile>, matcher: Matcher, maxPages: int)
    ensures forall c :: c in AllContentCodes(files, matcher, maxPages) ==> IsCanonical(c)
  {
    if files != [] {
      AllContentCodesCanonical(files[..|files| - 1], matcher, maxPages);
      match files[|files| - 1].pages {
        case None =>
        case Some(pages) =>
          PageCodeListsWellFormed(pages, matcher);
          PagesCodesCanonical(PageCodeLists(pages, matcher), ScannedPages(|pages|, maxPages));
      }
    }
  }

  /** Whatever the pattern, the keys of content mode are distinct canonical codes. */
  lemma ContentIndexKeysCanonical(files: seq<PdfFile>, matcher: Matcher, maxPages: int)
    ensures ValidByCode(ContentIndex(files, matcher, maxPages))
    ensures forall c :: c in Keys(ContentIndex(files, matcher, maxPages)) ==> IsCanonical(c)
  {
    ContentIndexKeys(files, matcher, maxPages);
    AllContentCodesCanonical(files, matcher, maxPages);
  }

  /** With `max_pages <= 0` no page is scanned and the index is empty. */
  lemma {:induction false} NoPagesNoIndex(files: seq<PdfFile>, matcher: Matcher, maxPages: int)
    requires maxPages <= 0
    ensures ContentIndex(files, matcher, maxPages) == []
  {
    if files != [] {
      NoPagesNoIndex(files[..|files| - 1], matcher, maxPages);
    }
  }

  lemma {:induction false} AddPageHitsNoEmpty(m: ByCode, name: string, page: nat, codes: seq<string>)
    requires NoEmptyLists(m)
    ensures NoEmptyLists(AddPageHits(m, name, page, codes))
  {
    if codes != [] {
      AddPageHitsNoEmpty(m, name, page, codes[..|codes| - 1]);
      AppendHitNoEmpty(AddPageHits(m, name, page, codes[..|codes| - 1]), codes[|codes| - 1], Hit(name, page, Content));
    }
  }

  lemma {:induction false} ScanPagesNoEmpty(m: ByCode, name: string, lists: seq<seq<string>>, n: nat)
    requires n <= |lists|
    requires NoEmptyLists(m)
    ensures NoEmptyLists(ScanPages(m, name, lists, n))
  {
    if n > 0 {
      var page: nat := n - 1;
      ScanPagesNoEmpty(m, name, lists, page);
      AddPageHitsNoEmpty(ScanPages(m, name, lists, page), name, page, lists[page]);
    }
  }

  /** No code of the content index has an empty list of hits. */
  lemma {:induction false} ContentIndexNoEmpty(files: seq<PdfFile>, matcher: Matcher, maxPages: int)
    ensures NoEmptyLists(ContentIndex(files, matcher, maxPages))
  {
    if files != [] {
      var f := files[|files| - 1];
      var m := ContentIndex(files[..|files| - 1], matcher, maxPages);
      ContentIndexNoEmpty(files[..|files| - 1], matcher, maxPages);
      if f.pages.Some? {
        var pages := f.pages.value;
        ScanPagesNoEmpty(m, f.name, PageCodeLists(pages, matcher), ScannedPages(|pages|, maxPages));
      }
    }
  }

  /** Under the default pattern, a code-shaped word between spaces in page text is one of its codes. */
  lemma SpacedCodeInText(a: string, m: string, b: string)
    requires IsCodeShape(m)
    ensures Normalize(m) in CodesOf(DefaultMatches(a + " " + m + " " + b))
  {
    SpacedCodeFound(a, m, b, true);
    NormalizedMatchIn(DefaultMatches(a + " " + m + " " + b), m);
  }

  /** The page text `ref MIA-000123 end` yields the code `MIA000123` under the default pattern. */
  lemma DefaultPatternExample()
    ensures "MIA000123" in CodesOf(DefaultMatches("ref MIA-000123 end"))
  {
    var m := "MIA-000123";
    ExampleText(m);
    ExampleShape(m);
    SpacedCodeInText("ref", m, "end");
    ExampleCode(m);
  }

  lemma ExampleText(m: string)
    requires m == "MIA-000123"
    ensures "ref MIA-000123 end" == "ref" + " " + m + " " + "end"
  {
  }

  lemma ExampleShape(m: string)
    requires m == "MIA-000123"
    ensures IsCodeShape(m)
  {
    assert LettersBefore(m, 3);
    assert IsSeparator(m[3]);
    assert DigitLedFrom(m, 4);
  }

  lemma ExampleCode(m: string)
    requires m == "MIA-000123"
    ensures Normalize(m) == "MIA000123"
  {
    var a, d := "MIA", "000123";
    assert m == a + ['-'] + d;
    assert a + d == "MIA000123";
    NormalizeJoined(a, '-', d);
  }
}
