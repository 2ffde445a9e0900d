/**
 * The planning logic of the two merge endpoints: which pages of which
 * uploaded PDFs go into the merged document, in which order, and when the
 * request fails instead of writing it. The PDF library is replaced by the
 * page count of each upload (`None` when the file cannot be read), and the
 * merged document by the list of (file, page) references handed to the
 * writer.
 */
module Merge {
  import opened Wrappers
  import opened Text
  import opened Sequences
  import opened Sorting
  import opened Codes
  import opened CodeIndex
  import opened Uploads

  datatype PagesPerCode = FirstHit | AllHits
  datatype OnMissing = SkipMissing | FailOnMissing
  datatype SourceFilter = AnySource | OnlyFrom(source: Source)
  datatype FilenameBehavior = FirstPage | EntirePdf

  datatype MergeByCodeRequest = MergeByCodeRequest(
    order: seq<string>,
    outputName: string,
    pagesPerCode: PagesPerCode,
    onMissing: OnMissing,
    sourceFilter: SourceFilter,
    filenameBehavior: FilenameBehavior)

  datatype MergeByBaseRequest = MergeByBaseRequest(bases: seq<string>, outputName: string)

  /** One call of `add_page` (a single page) or `add_entire_pdf` / `add_pdf` (every page). */
  datatype Op = CopyPage(file: string, page: nat) | CopyWhole(file: string)

  /** A page handed to the writer: page `page` of upload `file`. */
  datatype PageRef = PageRef(file: string, page: nat)

  datatype MergeError =
    | CodeNotFound(code: string)                            // 404
    | CodeNotFromSource(code: string, filter: SourceFilter) // 404
    | UnreadablePdf(file: string)                           // raised by the PDF reader
    | NoPagesAdded                                          // 400

  /** A successful merge: the output name, the pages written, and `total_pages`. */
  datatype Merged = Merged(output: string, document: seq<PageRef>, pages: nat)

  /** What the PDF reader reports for an upload: its page count, or `None` when it cannot read it. */
  type PageCount = string -> Option<nat>

  // ----- merge_by_code: choosing the hits -----

  /** The sort key `(source, file.lower(), page)`, compared as a Python tuple. */
  predicate HitLe(a: Hit, b: Hit) {
    if SourceName(a.source) != SourceName(b.source) then StrLe(SourceName(a.source), SourceName(b.source))
    else if LowerAscii(a.file) != LowerAscii(b.file) then StrLe(LowerAscii(a.file), LowerAscii(b.file))
    else a.page <= b.page
  }

  /** One level of a tuple comparison: an unequal component decides, an equal one passes on. */
  lemma LexChain(x: string, y: string, z: string)
    requires x != y ==> StrLe(x, y)
    requires y != z ==> StrLe(y, z)
    ensures StrLe(x, z)
    ensures x == z ==> x == y
  {
    StrLeTotal(x, z);
    if x != y && y != z {
      StrLeTransitive(x, y, z);
      if x == z {
        StrLeAntisymmetric(x, y);
      }
    }
  }

  lemma HitLeTransitive(a: Hit, b: Hit, c: Hit)
    requires HitLe(a, b) && HitLe(b, c)
    ensures HitLe(a, c)
  {
    LexChain(SourceName(a.source), SourceName(b.source), SourceName(c.source));
    if SourceName(a.source) == SourceName(c.source) {
      LexChain(LowerAscii(a.file), LowerAscii(b.file), LowerAscii(c.file));
    }
  }

  /** The tuple order is a total preorder, so the stable sort is well behaved. */
  lemma HitLeIsTotalPreorder()
    ensures IsTotalPreorder(HitLe)
  {
    forall a, b ensures HitLe(a, b) || HitLe(b, a) {
      StrLeTotal(SourceName(a.source), SourceName(b.source));
      StrLeTotal(LowerAscii(a.file), LowerAscii(b.file));
    }
    forall a, b, c | HitLe(a, b) && HitLe(b, c) ensures HitLe(a, c) {
      HitLeTransitive(a, b, c);
    }
  }

  /** `[h for h in hits if h.get("source") == source]`. */
  function FromSource(hits: seq<Hit>, source: Source): (kept: seq<Hit>)
    ensures forall h :: h in kept <==> h in hits && h.source == source
    ensures IsSubsequence(kept, hits)
  {
    if hits == [] then []
    else
      var init := hits[..|hits| - 1];
      var h := hits[|hits| - 1];
      assert hits == init + [h];
      var k := FromSource(init, source);
      if h.source == source then
        SubsequenceBothSnoc(k, init, h);
        k + [h]
      else
        SubsequenceSnoc(k, init, h);
        k
  }

  /** The hits the source filter keeps. */
  function Filtered(hits: seq<Hit>, filter: SourceFilter): seq<Hit> {
    match filter
    case AnySource => hits
    case OnlyFrom(s) => FromSource(hits, s)
  }

  /** `sorted(hits, key=lambda h: (h["source"], h["file"].lower(), h["page"]))`. */
  function SortedHits(hits: seq<Hit>): seq<Hit> {
    SortBy(hits, HitLe)
  }

  /** What the merge does with one hit. */
  function HitOp(h: Hit, behavior: FilenameBehavior): Op {
    if h.source == Filename && behavior == EntirePdf then CopyWhole(h.file) else CopyPage(h.file, h.page)
  }

  function HitOps(hits: seq<Hit>, behavior: FilenameBehavior): (ops: seq<Op>)
    ensures |ops| == |hits|
    ensures forall i :: 0 <= i < |hits| ==> ops[i] == HitOp(hits[i], behavior)
  {
    if hits == [] then [] else HitOps(hits[..|hits| - 1], behavior) + [HitOp(hits[|hits| - 1], behavior)]
  }

  /** The operations one requested code yields, or the 404 it raises. */
  function PlanCode(byCode: ByCode, req: MergeByCodeRequest, code: string): Result<seq<Op>, MergeError> {
    var hits := Lookup(byCode, code);
    if hits == [] then
      if req.onMissing == FailOnMissing then Failure(CodeNotFound(code)) else Success([])
    else
      var kept := Filtered(hits, req.sourceFilter);
      if kept == [] then
        if req.onMissing == FailOnMissing then Failure(CodeNotFromSource(code, req.sourceFilter)) else Success([])
      else
        var sorted := SortedHits(kept);
        match req.pagesPerCode
        case FirstHit => Success([HitOp(sorted[0], req.filenameBehavior)])
        case AllHits => Success(HitOps(sorted, req.filenameBehavior))
  }

  /** The plan of each requested item, in request order. */
  function Plans<X>(plan: X -> Result<seq<Op>, MergeError>, xs: seq<X>): (plans: seq<Result<seq<Op>, MergeError>>)
    ensures |plans| == |xs|
    ensures forall i :: 0 <= i < |xs| ==> plans[i] == plan(xs[i])
  {
    if xs == [] then [] else Plans(plan, xs[..|xs| - 1]) + [plan(xs[|xs| - 1])]
  }

  function CodePlans(byCode: ByCode, req: MergeByCodeRequest, codes: seq<string>): seq<Result<seq<Op>, MergeError>> {
    Plans(c => PlanCode(byCode, req, c), codes)
  }

  // ----- executing the operations -----

  /** The pages written so far followed by the next step's pages; the first error wins. */
  function Then(done: Result<seq<PageRef>, MergeError>, next: Result<seq<PageRef>, MergeError>): Result<seq<PageRef>, MergeError> {
    if done.Failure? then done
    else if next.Failure? then next
    else Success(done.value + next.value)
  }

  /** Every page of a document of `n` pages, in order. */
  function WholeDocument(file: string, n: nat): (ps: seq<PageRef>)
    ensures |ps| == n
    ensures forall i :: 0 <= i < n ==> ps[i] == PageRef(file, i)
  {
    if n == 0 then [] else WholeDocument(file, n - 1) + [PageRef(file, n - 1)]
  }

  /**
   * The pages one operation hands to the writer. The reader is opened first,
   * so an unreadable file fails even when the page would be skipped; a page
   * past the end is skipped silently.
   */
  function OpPages(op: Op, pageCount: PageCount): Result<seq<PageRef>, MergeError> {
    match pageCount(op.file)
    case None => Failure(UnreadablePdf(op.file))
    case Some(n) =>
      match op
      case CopyPage(f, p) => Success(if p < n then [PageRef(f, p)] else [])
      case CopyWhole(f) => Success(WholeDocument(f, n))
  }

  function RunOps(ops: seq<Op>, pageCount: PageCount): Result<seq<PageRef>, MergeError> {
    if ops == [] then Success([])
    else Then(RunOps(ops[..|ops| - 1], pageCount), OpPages(ops[|ops| - 1], pageCount))
  }

  function PlanPages(plan: Result<seq<Op>, MergeError>, pageCount: PageCount): Result<seq<PageRef>, MergeError> {
    if plan.Failure? then Failure(plan.error) else RunOps(plan.value, pageCount)
  }

  /** The requested items handled one after the other, as the endpoint's loop does. */
  function RunAll(plans: seq<Result<seq<Op>, MergeError>>, pageCount: PageCount): Result<seq<PageRef>, MergeError> {
    if plans == [] then Success([])
    else Then(RunAll(plans[..|plans| - 1], pageCount), PlanPages(plans[|plans| - 1], pageCount))
  }

  /** The 400 when no page was added; otherwise the response. */
  function Finish(outputName: string, run: Result<seq<PageRef>, MergeError>): Result<Merged, MergeError> {
    if run.Failure? then Failure(run.error)
    else if run.value == [] then Failure(NoPagesAdded)
    else Success(Merged(SafePdfName(outputName), run.value, |run.value|))
  }

  /** What `merge_by_code` writes and returns, or the error it raises. */
  function MergeByCodeOutcome(byCode: ByCode, req: MergeByCodeRequest, pageCount: PageCount): Result<Merged, MergeError> {
    Finish(req.outputName, RunAll(CodePlans(byCode, req, req.order), pageCount))
  }

  // ----- merge_by_bases -----

  /** `(up_dir / name).exists()`: some entry of the folder, file or directory, has the name. */
  predicate HasEntry(folder: seq<DirEntry>, name: string) {
    folder != [] && (folder[|folder| - 1].name == name || HasEntry(folder[..|folder| - 1], name))
  }

  function WholeCopies(names: seq<string>): (ops: seq<Op>)
    ensures |ops| == |names|
    ensures forall i :: 0 <= i < |names| ==> ops[i] == CopyWhole(names[i])
  {
    if names == [] then [] else WholeCopies(names[..|names| - 1]) + [CopyWhole(names[|names| - 1])]
  }

  /** The documents one base contributes: its numbered parts, else `base.pdf`, else nothing. */
  function BasePlan(folder: seq<DirEntry>, base: string): seq<Op> {
    var parts := Parts(base, folder);
    if parts != [] then WholeCopies(parts)
    else if HasEntry(folder, base + ".pdf") then [CopyWhole(base + ".pdf")]
    else []
  }

  function BasePlans(folder: seq<DirEntry>, bases: seq<string>): seq<Result<seq<Op>, MergeError>> {
    Plans(b => Success(BasePlan(folder, b)), bases)
  }

  /** What `merge_by_bases` writes and returns, or the error it raises. */
  function MergeByBasesOutcome(folder: seq<DirEntry>, req: MergeByBaseRequest, pageCount: PageCount): Result<Merged, MergeError> {
    Finish(req.outputName, RunAll(BasePlans(folder, req.bases), pageCount))
  }

  // ----- the endpoints' loops -----

  /** `add_page`: opens the file, then copies the page only when it exists. */
  method AddPage(file: string, page: nat, pageCount: PageCount) returns (added: Result<seq<PageRef>, MergeError>)
    ensures added == OpPages(CopyPage(file, page), pageCount)
  {
    var n := pageCount(file);
    if n.None? {
      return Failure(UnreadablePdf(file));
    }
    if page < n.value {
      added := Success([PageRef(file, page)]);
    } else {
      added := Success([]);
    }
  }

  /** `add_entire_pdf` and `add_pdf`: every page of the file, one after the other. */
  method AddEntirePdf(file: string, pageCount: PageCount) returns (added: Result<seq<PageRef>, MergeError>)
    ensures added == OpPages(CopyWhole(file), pageCount)
  {
    var n := pageCount(file);
    if n.None? {
      return Failure(UnreadablePdf(file));
    }
    var pages: seq<PageRef> := [];
    var k := 0;
    while k < n.value
      invariant 0 <= k <= n.value
      invariant pages == WholeDocument(file, k)
    {
      pages := pages + [PageRef(file, k)];
      k := k + 1;
    }
    added := Success(pages);
  }

  /** The branch on a hit's source and `filename_behavior`. */
  method AddHit(h: Hit, behavior: FilenameBehavior, pageCount: PageCount) returns (added: Result<seq<PageRef>, MergeError>)
    ensures added == OpPages(HitOp(h, behavior), pageCount)
  {
    if h.source == Filename && behavior == EntirePdf {
      added := AddEntirePdf(h.file, pageCount);
    } else {
      added := AddPage(h.file, h.page, pageCount);
    }
  }

  /** The "all" loop: every sorted hit in turn. */
  method AddHits(sorted: seq<Hit>, behavior: FilenameBehavior, pageCount: PageCount) returns (added: Result<seq<PageRef>, MergeError>)
    ensures added == RunOps(HitOps(sorted, behavior), pageCount)
  {
    ghost var ops := HitOps(sorted, behavior);
    var pages: seq<PageRef> := [];
    var j := 0;
    while j < |sorted|
      invariant 0 <= j <= |sorted|
      invariant RunOps(ops[..j], pageCount) == Success(pages)
    {
      var step := AddHit(sorted[j], behavior, pageCount);
      RunOpsSnoc(ops, j, pageCount);
      if step.Failure? {
        RunOpsStops(ops, j + 1, pageCount);
        return Failure(step.error);
      }
      pages := pages + step.value;
      j := j + 1;
    }
    assert ops[..j] == ops;
    added := Success(pages);
  }

  /** The body of `merge_by_code`'s loop for one requested code. */
  method AddCode(byCode: ByCode, req: MergeByCodeRequest, code: string, pageCount: PageCount) returns (added: Result<seq<PageRef>, MergeError>)
    ensures added == PlanPages(PlanCode(byCode, req, code), pageCount)
  {
    var hits := Lookup(byCode, code);
    if hits == [] {
      if req.onMissing == FailOnMissing {
        return Failure(CodeNotFound(code));
      }
      return Success([]);
    }
    if req.sourceFilter.OnlyFrom? {
      hits := FromSource(hits, req.sourceFilter.source);
      if hits == [] {
        if req.onMissing == FailOnMissing {
          return Failure(CodeNotFromSource(code, req.sourceFilter));
        }
        return Success([]);
      }
    }
    var sorted := SortedHits(hits);
    if req.pagesPerCode == FirstHit {
      added := AddHit(sorted[0], req.filenameBehavior, pageCount);
      RunOpsSingle(HitOp(sorted[0], req.filenameBehavior), pageCount);
    } else {
      added := AddHits(sorted, req.filenameBehavior, pageCount);
    }
  }

  /** `merge_by_code`, with the writer replaced by the list of pages it receives. */
  method MergeByCode(byCode: ByCode, req: MergeByCodeRequest, pageCount: PageCount) returns (outcome: Result<Merged, MergeError>)
    ensures outcome == MergeByCodeOutcome(byCode, req, pageCount)
  {
    var outName := SafePdfName(req.outputName);
    ghost var plans := CodePlans(byCode, req, req.order);
    var written: seq<PageRef> := [];
    var total := 0;
    var i := 0;
    while i < |req.order|
      invariant 0 <= i <= |req.order|
      invariant RunAll(plans[..i], pageCount) == Success(written)
      invariant total == |written|
    {
      var added := AddCode(byCode, req, req.order[i], pageCount);
      RunAllSnoc(plans, i, pageCount);
      if added.Failure? {
        RunAllStops(plans, i + 1, pageCount);
        return Failure(added.error);
      }
      written := written + added.value;
      total := total + |added.value|;
      i := i + 1;
    }
    assert plans[..i] == plans;
    if total == 0 {
      return Failure(NoPagesAdded);
    }
    outcome := Success(Merged(outName, written, total));
  }

  /** The parts loop of `merge_by_bases`: every part in turn, whole. */
  method AddWholes(names: seq<string>, pageCount: PageCount) returns (added: Result<seq<PageRef>, MergeError>)
    ensures added == RunOps(WholeCopies(names), pageCount)
  {
    ghost var ops := WholeCopies(names);
    var pages: seq<PageRef> := [];
    var j := 0;
    while j < |names|
      invariant 0 <= j <= |names|
      invariant RunOps(ops[..j], pageCount) == Success(pages)
    {
      var step := AddEntirePdf(names[j], pageCount);
      RunOpsSnoc(ops, j, pageCount);
      if step.Failure? {
        RunOpsStops(ops, j + 1, pageCount);
        return Failure(step.error);
      }
      pages := pages + step.value;
      j := j + 1;
    }
    assert ops[..j] == ops;
    added := Success(pages);
  }

  /** The body of `merge_by_bases`'s loop for one base. */
  method AddBase(folder: seq<DirEntry>, base: string, pageCount: PageCount) returns (added: Result<seq<PageRef>, MergeError>)
    ensures added == RunOps(BasePlan(folder, base), pageCount)
  {
    var parts := FindParts(base, folder);
    if parts == [] {
      var simple := base + ".pdf";
      if HasEntry(folder, simple) {
        added := AddEntirePdf(simple, pageCount);
        RunOpsSingle(CopyWhole(simple), pageCount);
      } else {
        added := Success([]);
      }
    } else {
      added := AddWholes(parts, pageCount);
    }
  }

  /** `merge_by_bases`, with the writer replaced by the list of pages it receives. */
  method MergeByBases(folder: seq<DirEntry>, req: MergeByBaseRequest, pageCount: PageCount) returns (outcome: Result<Merged, MergeError>)
    ensures outcome == MergeByBasesOutcome(folder, req, pageCount)
  {
    var outName := SafePdfName(req.outputName);
    ghost var plans := BasePlans(folder, req.bases);
    var written: seq<PageRef> := [];
    var total := 0;
    var i := 0;
    while i < |req.bases|
      invariant 0 <= i <= |req.bases|
      invariant RunAll(plans[..i], pageCount) == Success(written)
      invariant total == |written|
    {
      var added := AddBase(folder, req.bases[i], pageCount);
      RunAllSnoc(plans, i, pageCount);
      if added.Failure? {
        RunAllStops(plans, i + 1, pageCount);
        return Failure(added.error);
      }
      written := written + added.value;
      total := total + |added.value|;
      i := i + 1;
    }
    assert plans[..i] == plans;
    if total == 0 {
      return Failure(NoPagesAdded);
    }
    outcome := Success(Merged(outName, written, total));
  }

  // ----- properties of the fold -----

  lemma RunOpsSnoc(ops: seq<Op>, j: nat, pageCount: PageCount)
    requires j < |ops|
    ensures RunOps(ops[..j + 1], pageCount) == Then(RunOps(ops[..j], pageCount), OpPages(ops[j], pageCount))
  {
    assert ops[..j + 1][..j] == ops[..j];
  }

  lemma RunOpsSingle(op: Op, pageCount: PageCount)
    ensures RunOps([op], pageCount) == OpPages(op, pageCount)
  {
    assert [op][..0] == [];
    var r := OpPages(op, pageCount);
    if r.Success? {
      assert [] + r.value == r.value;
    }
  }

  lemma RunAllSnoc(plans: seq<Result<seq<Op>, MergeError>>, i: nat, pageCount: PageCount)
    requires i < |plans|
    ensures RunAll(plans[..i + 1], pageCount) == Then(RunAll(plans[..i], pageCount), PlanPages(plans[i], pageCount))
  {
    assert plans[..i + 1][..i] == plans[..i];
  }

  lemma ThenEmpty(x: Result<seq<PageRef>, MergeError>)
    ensures Then(x, Success([])) == x
    ensures Then(Success([]), x) == x
  {
    if x.Success? {
      assert x.value + [] == x.value;
      assert [] + x.value == x.value;
    }
  }

  lemma ThenAssociative(x: Result<seq<PageRef>, MergeError>, y: Result<seq<PageRef>, MergeError>, z: Result<seq<PageRef>, MergeError>)
    ensures Then(Then(x, y), z) == Then(x, Then(y, z))
  {
    if x.Success? && y.Success? && z.Success? {
      assert (x.value + y.value) + z.value == x.value + (y.value + z.value);
    }
  }

  /** Running two lists of operations one after the other writes the first's pages, then the second's. */
  lemma {:induction false} RunOpsAppend(a: seq<Op>, b: seq<Op>, pageCount: PageCount)
    ensures RunOps(a + b, pageCount) == Then(RunOps(a, pageCount), RunOps(b, pageCount))
  {
    if b == [] {
      assert a + b == a;
      ThenEmpty(RunOps(a, pageCount));
    } else {
      var init := b[..|b| - 1];
      assert (a + b)[..|a + b| - 1] == a + init;
      RunOpsAppend(a, init, pageCount);
      ThenAssociative(RunOps(a, pageCount), RunOps(init, pageCount), OpPages(b[|b| - 1], pageCount));
    }
  }

  /** Handling two lists of requested items one after the other writes the first's pages, then the second's. */
  lemma {:induction false} RunAllAppend(a: seq<Result<seq<Op>, MergeError>>, b: seq<Result<seq<Op>, MergeError>>, pageCount: PageCount)
    ensures RunAll(a + b, pageCount) == Then(RunAll(a, pageCount), RunAll(b, pageCount))
  {
    if b == [] {
      assert a + b == a;
      ThenEmpty(RunAll(a, pageCount));
    } else {
      var init := b[..|b| - 1];
      assert (a + b)[..|a + b| - 1] == a + init;
      RunAllAppend(a, init, pageCount);
      ThenAssociative(RunAll(a, pageCount), RunAll(init, pageCount), PlanPages(b[|b| - 1], pageCount));
    }
  }

  /** An error ends the run: nothing after it is looked at. */
  lemma RunOpsStops(ops: seq<Op>, k: nat, pageCount: PageCount)
    requires k <= |ops|
    requires RunOps(ops[..k], pageCount).Failure?
    ensures RunOps(ops, pageCount) == RunOps(ops[..k], pageCount)
  {
    assert ops == ops[..k] + ops[k..];
    RunOpsAppend(ops[..k], ops[k..], pageCount);
  }

  lemma RunAllStops(plans: seq<Result<seq<Op>, MergeError>>, k: nat, pageCount: PageCount)
    requires k <= |plans|
    requires RunAll(plans[..k], pageCount).Failure?
    ensures RunAll(plans, pageCount) == RunAll(plans[..k], pageCount)
  {
    assert plans == plans[..k] + plans[k..];
    RunAllAppend(plans[..k], plans[k..], pageCount);
  }

  // ----- properties of merge_by_code -----

  /**
   * The stable sort puts every "content" hit before every "filename" hit,
   * keeps exactly the hits it was given, orders them by the tuple key and
   * leaves hits with equal keys in index order.
   */
  lemma SortedHitsFacts(hits: seq<Hit>)
    ensures multiset(SortedHits(hits)) == multiset(hits)
    ensures SortedBy(SortedHits(hits), HitLe)
    ensures forall y :: EquivalentTo(SortedHits(hits), y, HitLe) == EquivalentTo(hits, y, HitLe)
    ensures forall i, j :: 0 <= i < j < |SortedHits(hits)| ==>
      !(SortedHits(hits)[i].source == Filename && SortedHits(hits)[j].source == Content)
  {
    HitLeIsTotalPreorder();
    SortBySorted(hits, HitLe);
    forall y ensures EquivalentTo(SortedHits(hits), y, HitLe) == EquivalentTo(hits, y, HitLe) {
      SortByStable(hits, y, HitLe);
    }
    var s := SortedHits(hits);
    forall i, j | 0 <= i < j < |s| ensures !(s[i].source == Filename && s[j].source == Content) {
      assert HitLe(s[i], s[j]);
    }
  }

  /**
   * A code fails the request exactly when `on_missing` is "error" and the
   * source filter leaves it no hit; the error says which of the two checks
   * failed. With "skip" such a code contributes no operation.
   */
  lemma PlanCodeMissing(byCode: ByCode, req: MergeByCodeRequest, code: string)
    ensures PlanCode(byCode, req, code).Failure? <==>
      req.onMissing == FailOnMissing && Filtered(Lookup(byCode, code), req.sourceFilter) == []
    ensures PlanCode(byCode, req, code).Failure? ==>
      PlanCode(byCode, req, code).error ==
        if Lookup(byCode, code) == [] then CodeNotFound(code) else CodeNotFromSource(code, req.sourceFilter)
    ensures PlanCode(byCode, req, code) == Success([]) <==>
      req.onMissing == SkipMissing && Filtered(Lookup(byCode, code), req.sourceFilter) == []
  {
    if Lookup(byCode, code) == [] {
      assert Filtered(Lookup(byCode, code), req.sourceFilter) == [];
    }
  }

  /**
   * The code is looked up as written: when every key is a normalised code,
   * a request for a code that is not (say, in lower case) finds nothing.
   */
  lemma PlanCodeVerbatim(byCode: ByCode, req: MergeByCodeRequest, code: string)
    requires forall k :: k in Keys(byCode) ==> IsCanonical(k)
    requires !IsCanonical(code)
    ensures PlanCode(byCode, req, code) ==
      if req.onMissing == FailOnMissing then Failure(CodeNotFound(code)) else Success([])
  {
    LookupAbsent(byCode, code);
  }

  /**
   * "first" yields one operation, for a hit the filter kept whose key is
   * least among them all.
   */
  lemma PlanCodeFirst(byCode: ByCode, req: MergeByCodeRequest, code: string)
    requires req.pagesPerCode == FirstHit
    requires Filtered(Lookup(byCode, code), req.sourceFilter) != []
    ensures PlanCode(byCode, req, code).Success?
    ensures |PlanCode(byCode, req, code).value| == 1
    ensures exists h ::
      && h in Filtered(Lookup(byCode, code), req.sourceFilter)
      && PlanCode(byCode, req, code).value[0] == HitOp(h, req.filenameBehavior)
      && forall g :: g in Filtered(Lookup(byCode, code), req.sourceFilter) ==> HitLe(h, g)
    ensures exists k ::
      && 0 <= k < |Filtered(Lookup(byCode, code), req.sourceFilter)|
      && PlanCode(byCode, req, code)
         == Success([HitOp(Filtered(Lookup(byCode, code), req.sourceFilter)[k], req.filenameBehavior)])
      && (forall g :: g in Filtered(Lookup(byCode, code), req.sourceFilter) ==>
            HitLe(Filtered(Lookup(byCode, code), req.sourceFilter)[k], g))
      && forall j :: 0 <= j < k ==>
           !HitLe(Filtered(Lookup(byCode, code), req.sourceFilter)[j], Filtered(Lookup(byCode, code), req.sourceFilter)[k])
  {
    var kept := Filtered(Lookup(byCode, code), req.sourceFilter);
    assert Lookup(byCode, code) != [];
    SortedHeadEarliest(kept);
    assert PlanCode(byCode, req, code) == Success([HitOp(SortedHits(kept)[0], req.filenameBehavior)]);
  }

  /**
   * The head of the stable sort is a least hit, and the earliest least hit
   * of the input: every hit before it has a greater key.
   */
  lemma SortedHeadEarliest(kept: seq<Hit>)
    requires kept != []
    ensures |SortedHits(kept)| == |kept|
    ensures forall g :: g in kept ==> HitLe(SortedHits(kept)[0], g)
    ensures exists k ::
      && 0 <= k < |kept|
      && kept[k] == SortedHits(kept)[0]
      && forall j :: 0 <= j < k ==> !HitLe(kept[j], kept[k])
  {
    var s := SortedHits(kept);
    SortedHitsFacts(kept);
    HitLeIsTotalPreorder();
    forall g | g in kept ensures HitLe(s[0], g) {
      assert g in multiset(s);
      var j :| 0 <= j < |s| && s[j] == g;
    }
    StableHead(kept, s, HitLe);
  }

  /**
   * "all" yields one operation per kept hit, in the sorted order: the whole
   * document for a "filename" hit under "entire_pdf", its page otherwise.
   */
  lemma PlanCodeAll(byCode: ByCode, req: MergeByCodeRequest, code: string)
    requires req.pagesPerCode == AllHits
    requires Filtered(Lookup(byCode, code), req.sourceFilter) != []
    ensures PlanCode(byCode, req, code).Success?
    ensures |PlanCode(byCode, req, code).value| == |Filtered(Lookup(byCode, code), req.sourceFilter)|
    ensures forall i :: 0 <= i < |PlanCode(byCode, req, code).value| ==>
      var h := SortedHits(Filtered(Lookup(byCode, code), req.sourceFilter))[i];
      var op := PlanCode(byCode, req, code).value[i];
      && op.file == h.file
      && (op.CopyWhole? <==> h.source == Filename && req.filenameBehavior == EntirePdf)
      && (op.CopyPage? ==> op.page == h.page)
  {
    assert Lookup(byCode, code) != [];
  }

  /**
   * What one operation writes: an unreadable file is an error; a single
   * page is written when it exists and silently skipped otherwise; a whole
   * document is written page by page from the first.
   */
  lemma OpPagesFacts(op: Op, pageCount: PageCount)
    ensures OpPages(op, pageCount).Failure? <==> pageCount(op.file).None?
    ensures OpPages(op, pageCount).Failure? ==> OpPages(op, pageCount).error == UnreadablePdf(op.file)
    ensures OpPages(op, pageCount).Success? ==>
      forall r :: r in OpPages(op, pageCount).value ==> r.file == op.file && r.page < pageCount(op.file).value
    ensures op.CopyPage? && pageCount(op.file).Some? ==>
      OpPages(op, pageCount).value == if op.page < pageCount(op.file).value then [PageRef(op.file, op.page)] else []
    ensures op.CopyWhole? && pageCount(op.file).Some? ==>
      |OpPages(op, pageCount).value| == pageCount(op.file).value &&
      forall i :: 0 <= i < pageCount(op.file).value ==> OpPages(op, pageCount).value[i].page == i
  {
  }

  /** Every page written exists in the file it is taken from. */
  lemma {:induction false} RunOpsInRange(ops: seq<Op>, pageCount: PageCount)
    ensures RunOps(ops, pageCount).Success? ==>
      forall r :: r in RunOps(ops, pageCount).value ==> pageCount(r.file).Some? && r.page < pageCount(r.file).value
  {
    if ops != [] {
      RunOpsInRange(ops[..|ops| - 1], pageCount);
      OpPagesFacts(ops[|ops| - 1], pageCount);
    }
  }

  lemma {:induction false} RunAllInRange(plans: seq<Result<seq<Op>, MergeError>>, pageCount: PageCount)
    ensures RunAll(plans, pageCount).Success? ==>
      forall r :: r in RunAll(plans, pageCount).value ==> pageCount(r.file).Some? && r.page < pageCount(r.file).value
  {
    if plans != [] {
      RunAllInRange(plans[..|plans| - 1], pageCount);
      var last := plans[|plans| - 1];
      if last.Success? {
        RunOpsInRange(last.value, pageCount);
      }
    }
  }

  /**
   * A merge succeeds only with at least one page, reports as many pages as
   * it wrote, and names its output with `_safe_pdf_name`; it fails with the
   * 400 exactly when every step succeeded and none added a page.
   */
  lemma FinishFacts(outputName: string, run: Result<seq<PageRef>, MergeError>)
    ensures Finish(outputName, run).Success? ==>
      var m := Finish(outputName, run).value;
      && m.document == run.value
      && m.document != []
      && m.pages == |m.document|
      && m.output == SafePdfName(outputName)
      && EndsWith(LowerAscii(m.output), ".pdf")
    ensures Finish(outputName, run) == Failure(NoPagesAdded) <==> run == Success([]) || run == Failure(NoPagesAdded)
  {
    SafePdfNameFacts(outputName);
  }

  /** The document `merge_by_code` writes holds only pages that exist. */
  lemma MergeByCodePagesExist(byCode: ByCode, req: MergeByCodeRequest, pageCount: PageCount)
    ensures MergeByCodeOutcome(byCode, req, pageCount).Success? ==>
      var m := MergeByCodeOutcome(byCode, req, pageCount).value;
      && m.document != []
      && m.pages == |m.document|
      && forall r :: r in m.document ==> pageCount(r.file).Some? && r.page < pageCount(r.file).value
  {
    var run := RunAll(CodePlans(byCode, req, req.order), pageCount);
    RunAllInRange(CodePlans(byCode, req, req.order), pageCount);
    FinishFacts(req.outputName, run);
  }

  /** A failing step makes the whole run fail. */
  lemma RunAllFailsAt(plans: seq<Result<seq<Op>, MergeError>>, k: nat, pageCount: PageCount)
    requires k < |plans| && plans[k].Failure?
    ensures RunAll(plans, pageCount).Failure?
  {
    RunAllSnoc(plans, k, pageCount);
    RunAllStops(plans, k + 1, pageCount);
  }

  /**
   * With `on_missing` "error", a requested code the filter leaves without
   * hits makes the request fail before anything is written: with its 404
   * unless an earlier code already failed, and never with the zero-page 400.
   */
  lemma MergeByCodeFailsOnMissing(byCode: ByCode, req: MergeByCodeRequest, pageCount: PageCount, k: nat)
    requires req.onMissing == FailOnMissing
    requires k < |req.order|
    requires Filtered(Lookup(byCode, req.order[k]), req.sourceFilter) == []
    ensures MergeByCodeOutcome(byCode, req, pageCount).Failure?
    ensures MergeByCodeOutcome(byCode, req, pageCount).error != NoPagesAdded
  {
    var plans := CodePlans(byCode, req, req.order);
    PlanCodeMissing(byCode, req, req.order[k]);
    RunAllFailsAt(plans, k, pageCount);
    forall i | 0 <= i < |plans| && plans[i].Failure? ensures plans[i].error != NoPagesAdded {
      PlanCodeMissing(byCode, req, req.order[i]);
    }
    RunAllNoEmptyError(plans, pageCount);
  }

  /**
   * When every code before the `k`-th succeeds and the `k`-th has no usable
   * hit under "error", the request fails with that code's 404: "not found"
   * when the index lacks it, "not from this source" when the filter empties it.
   */
  lemma MergeByCodeMissingError(byCode: ByCode, req: MergeByCodeRequest, pageCount: PageCount, k: nat)
    requires req.onMissing == FailOnMissing
    requires k < |req.order|
    requires Filtered(Lookup(byCode, req.order[k]), req.sourceFilter) == []
    requires RunAll(CodePlans(byCode, req, req.order)[..k], pageCount).Success?
    ensures MergeByCodeOutcome(byCode, req, pageCount) == Failure(
      if Lookup(byCode, req.order[k]) == [] then CodeNotFound(req.order[k])
      else CodeNotFromSource(req.order[k], req.sourceFilter))
  {
    var plans := CodePlans(byCode, req, req.order);
    PlanCodeMissing(byCode, req, req.order[k]);
    RunAllSnoc(plans, k, pageCount);
    RunAllStops(plans, k + 1, pageCount);
  }

  /** The steps' own errors are never the 400. */
  lemma {:induction false} RunAllNoEmptyError(plans: seq<Result<seq<Op>, MergeError>>, pageCount: PageCount)
    requires forall i :: 0 <= i < |plans| ==> plans[i].Failure? ==> plans[i].error != NoPagesAdded
    ensures RunAll(plans, pageCount).Failure? ==> RunAll(plans, pageCount).error != NoPagesAdded
  {
    if plans != [] {
      RunAllNoEmptyError(plans[..|plans| - 1], pageCount);
      var last := plans[|plans| - 1];
      if last.Success? {
        RunOpsNoEmptyError(last.value, pageCount);
      }
    }
  }

  lemma {:induction false} RunOpsNoEmptyError(ops: seq<Op>, pageCount: PageCount)
    ensures RunOps(ops, pageCount).Failure? ==> RunOps(ops, pageCount).error != NoPagesAdded
  {
    if ops != [] {
      RunOpsNoEmptyError(ops[..|ops| - 1], pageCount);
    }
  }

  /** The plans of two lists of items one after the other are the plans of their concatenation. */
  lemma PlansAppend<X>(plan: X -> Result<seq<Op>, MergeError>, a: seq<X>, b: seq<X>)
    ensures Plans(plan, a + b) == Plans(plan, a) + Plans(plan, b)
  {
    var l, r := Plans(plan, a + b), Plans(plan, a) + Plans(plan, b);
    forall i | 0 <= i < |l| ensures l[i] == r[i] {
      if i < |a| { assert (a + b)[i] == a[i]; } else { assert (a + b)[i] == b[i - |a|]; }
    }
  }

  /** A step that adds nothing and does not fail leaves the run as it was. */
  lemma RunAllSkip(pa: seq<Result<seq<Op>, MergeError>>, pb: seq<Result<seq<Op>, MergeError>>, pageCount: PageCount)
    ensures RunAll(pa + [Success([])] + pb, pageCount) == RunAll(pa + pb, pageCount)
  {
    var skip: Result<seq<Op>, MergeError> := Success([]);
    RunAllAppend(pa + [skip], pb, pageCount);
    RunAllAppend(pa, [skip], pageCount);
    RunAllAppend(pa, pb, pageCount);
    assert [skip][..0] == [];
    ThenEmpty(PlanPages(skip, pageCount));
    assert RunAll([skip], pageCount) == Success([]);
    ThenEmpty(RunAll(pa, pageCount));
  }

  /**
   * With `on_missing` "skip", a requested code the filter leaves without
   * hits changes nothing: the outcome is that of the other codes alone.
   */
  lemma MergeByCodeSkipsMissing(byCode: ByCode, req: MergeByCodeRequest, pageCount: PageCount,
                                before: seq<string>, code: string, after: seq<string>)
    requires req.order == before + [code] + after
    requires req.onMissing == SkipMissing
    requires Filtered(Lookup(byCode, code), req.sourceFilter) == []
    ensures MergeByCodeOutcome(byCode, req, pageCount) ==
            Finish(req.outputName, RunAll(CodePlans(byCode, req, before + after), pageCount))
  {
    var plan := c => PlanCode(byCode, req, c);
    PlanCodeMissing(byCode, req, code);
    PlansAppend(plan, before + [code], after);
    PlansAppend(plan, before, [code]);
    PlansAppend(plan, before, after);
    assert Plans(plan, [code]) == [Success([])];
    RunAllSkip(Plans(plan, before), Plans(plan, after), pageCount);
  }

  // ----- properties of merge_by_bases -----

  /** No entry of the folder is a numbered part of the base. */
  predicate NoParts(folder: seq<DirEntry>, base: string) {
    forall k :: 0 <= k < |folder| ==> !IsPart(base, folder[k])
  }

  lemma PartsEmpty(folder: seq<DirEntry>, base: string)
    ensures Parts(base, folder) == [] <==> NoParts(folder, base)
  {
    if Parts(base, folder) != [] {
      FindPartsSound(base, folder, Parts(base, folder)[0]);
    } else {
      forall k | 0 <= k < |folder| ensures !IsPart(base, folder[k]) {
        if IsPart(base, folder[k]) {
          FindPartsComplete(base, folder, k);
        }
      }
    }
  }

  /**
   * A base adds nothing exactly when the folder holds neither a numbered
   * part of it nor an entry named `base.pdf`.
   */
  lemma BasePlanEmpty(folder: seq<DirEntry>, base: string)
    ensures BasePlan(folder, base) == [] <==> NoParts(folder, base) && !HasEntry(folder, base + ".pdf")
  {
    PartsEmpty(folder, base);
  }

  /**
   * Each base yields whole documents only: numbered parts of it, or
   * `base.pdf` when it has no part.
   */
  lemma BasePlanOrigin(folder: seq<DirEntry>, base: string)
    ensures forall op :: op in BasePlan(folder, base) ==> op.CopyWhole?
    ensures forall op :: op in BasePlan(folder, base) ==>
      (exists k :: 0 <= k < |folder| && folder[k].name == op.file && IsPart(base, folder[k])) ||
      (NoParts(folder, base) && op.file == base + ".pdf")
  {
    var parts := Parts(base, folder);
    PartsEmpty(folder, base);
    if parts != [] {
      forall op | op in BasePlan(folder, base)
        ensures op.CopyWhole? && exists k :: 0 <= k < |folder| && folder[k].name == op.file && IsPart(base, folder[k])
      {
        var i :| 0 <= i < |parts| && WholeCopies(parts)[i] == op;
        FindPartsSound(base, folder, parts[i]);
      }
    }
  }

  /** A base's parts are written in ascending order of their number. */
  lemma BasePlanOrdered(folder: seq<DirEntry>, base: string)
    ensures Parts(base, folder) != [] ==>
      forall i :: 0 <= i < |BasePlan(folder, base)| ==> PartNumber(base, BasePlan(folder, base)[i].file).Some?
    ensures Parts(base, folder) != [] ==>
      forall i, j :: 0 <= i < j < |BasePlan(folder, base)| ==>
        PartNumber(base, BasePlan(folder, base)[i].file).value <= PartNumber(base, BasePlan(folder, base)[j].file).value
  {
    FindPartsOrdered(base, folder);
  }

  /** The document `merge_by_bases` writes holds only pages that exist. */
  lemma MergeByBasesPagesExist(folder: seq<DirEntry>, req: MergeByBaseRequest, pageCount: PageCount)
    ensures MergeByBasesOutcome(folder, req, pageCount).Success? ==>
      var m := MergeByBasesOutcome(folder, req, pageCount).value;
      && m.document != []
      && m.pages == |m.document|
      && forall r :: r in m.document ==> pageCount(r.file).Some? && r.page < pageCount(r.file).value
  {
    var run := RunAll(BasePlans(folder, req.bases), pageCount);
    RunAllInRange(BasePlans(folder, req.bases), pageCount);
    FinishFacts(req.outputName, run);
  }

  /**
   * When every document the bases name can be read, `merge_by_bases`
   * fails only with the 400, and exactly when no base found a document
   * with a page.
   */
  lemma MergeByBasesReadable(folder: seq<DirEntry>, req: MergeByBaseRequest, pageCount: PageCount)
    requires forall b, op :: b in req.bases && op in BasePlan(folder, b) ==> pageCount(op.file).Some?
    ensures RunAll(BasePlans(folder, req.bases), pageCount).Success?
    ensures MergeByBasesOutcome(folder, req, pageCount).Failure? <==>
      RunAll(BasePlans(folder, req.bases), pageCount).value == []
    ensures MergeByBasesOutcome(folder, req, pageCount).Failure? ==>
      MergeByBasesOutcome(folder, req, pageCount).error == NoPagesAdded
  {
    var plans := BasePlans(folder, req.bases);
    forall i, op | 0 <= i < |plans| && op in plans[i].value
      ensures pageCount(op.file).Some?
    {
      assert plans[i].value == BasePlan(folder, req.bases[i]);
      assert req.bases[i] in req.bases;
    }
    RunAllReadable(plans, pageCount);
    FinishFacts(req.outputName, RunAll(plans, pageCount));
  }

  /** A run whose plans all succeed and name readable documents succeeds. */
  lemma {:induction false} RunAllReadable(plans: seq<Result<seq<Op>, MergeError>>, pageCount: PageCount)
    requires forall i :: 0 <= i < |plans| ==> plans[i].Success?
    requires forall i, op :: 0 <= i < |plans| && op in plans[i].value ==> pageCount(op.file).Some?
    ensures RunAll(plans, pageCount).Success?
  {
    if plans != [] {
      RunAllReadable(plans[..|plans| - 1], pageCount);
      RunOpsReadable(plans[|plans| - 1].value, pageCount);
    }
  }

  lemma {:induction false} RunOpsReadable(ops: seq<Op>, pageCount: PageCount)
    requires forall op :: op in ops ==> pageCount(op.file).Some?
    ensures RunOps(ops, pageCount).Success?
  {
    if ops != [] {
      RunOpsReadable(ops[..|ops| - 1], pageCount);
      assert ops[|ops| - 1] in ops;
    }
  }
}
