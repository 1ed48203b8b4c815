/**
 * main.py: item extraction that skips malformed matches, the choice of the
 * content source, the PDF decision and the page loop of the endpoint.
 * The regular-expression engine, the download, the PDF renderer and OCR
 * are parameters.
 */
module MainApi {
  import opened Results
  import opened Text
  import opened Decimal
  import opened Parser
  import opened Pages

  /** The item pattern of main.py, with a lazy name group. */
  const ItemPattern: string := @"([A-Za-z0-9\/\-\(\) ]+?)\s+(\d+(?:\.\d+)?)\s+([\d,.]+)\s+([\d,.]+)"

  /** `re.findall(pattern, text)` for a pattern with four groups. */
  type FindAll = (string, string) -> seq<ItemMatch>

  // ---------------------------------------------------------------------------
  // Items

  /** The results of the elements that convert, in order; the others are skipped. */
  function KeepOk<X, Y>(xs: seq<X>, convert: X -> Outcome<Y>): seq<Y> {
    if xs == [] then []
    else
      var last := convert(xs[|xs| - 1]);
      KeepOk(xs[..|xs| - 1], convert) + (if last.Ok? then [last.value] else [])
  }

  /** The items of the matches that convert, in match order. */
  function KeptItems(ms: seq<ItemMatch>): seq<BillItem> {
    KeepOk(ms, ConvertMatch)
  }

  /** extract_items: collapse whitespace, find the matches, keep those that convert. */
  method ExtractItems(text: string, findAll: FindAll) returns (items: seq<BillItem>)
    ensures items == KeptItems(findAll(ItemPattern, CollapseSpaces(text)))
  {
    var collapsed := CollapseSpaces(text);
    var ms := findAll(ItemPattern, collapsed);
    items := [];
    for i := 0 to |ms|
      invariant items == KeepOk(ms[..i], ConvertMatch)
    {
      KeepOkStep(ms, i, ConvertMatch);
      var converted := ConvertMatch(ms[i]);
      if converted.ValueError? {
        continue;
      }
      items := items + [converted.value];
    }
    assert ms[..|ms|] == ms;
  }

  lemma {:induction false} KeepOkStep<X, Y>(xs: seq<X>, i: nat, convert: X -> Outcome<Y>)
    requires i < |xs|
    ensures KeepOk(xs[..i + 1], convert) ==
      KeepOk(xs[..i], convert) + (if convert(xs[i]).Ok? then [convert(xs[i]).value] else [])
  {
    assert xs[..i + 1][..i] == xs[..i];
  }

  lemma {:induction false} KeepOkAppend<X, Y>(a: seq<X>, b: seq<X>, convert: X -> Outcome<Y>)
    ensures KeepOk(a + b, convert) == KeepOk(a, convert) + KeepOk(b, convert)
    decreases |b|
  {
    if b == [] {
      assert a + b == a;
    } else {
      assert (a + b)[..|a + b| - 1] == a + b[..|b| - 1];
      assert (a + b)[|a + b| - 1] == b[|b| - 1];
      KeepOkAppend(a, b[..|b| - 1], convert);
    }
  }

  /**
   * Exactly the elements that convert give results, in order: result k
   * comes from element idx[k], and an element is among idx exactly when it
   * converts.
   */
  lemma {:induction false} KeepOkSources<X, Y>(xs: seq<X>, convert: X -> Outcome<Y>) returns (idx: seq<nat>)
    ensures |idx| == |KeepOk(xs, convert)|
    ensures forall k :: 0 <= k < |idx| ==> idx[k] < |xs| && convert(xs[idx[k]]) == Ok(KeepOk(xs, convert)[k])
    ensures forall k, l :: 0 <= k < l < |idx| ==> idx[k] < idx[l]
    ensures forall j :: 0 <= j < |xs| ==> (convert(xs[j]).Ok? <==> j in idx)
  {
    if xs == [] {
      idx := [];
    } else {
      var n := |xs| - 1;
      var init := xs[..n];
      var idx0 := KeepOkSources(init, convert);
      assert init + [xs[n]] == xs;
      if convert(xs[n]).Ok? {
        idx := SourcesKept(init, xs[n], KeepOk(init, convert), idx0, convert);
      } else {
        SourcesSkipped(init, xs[n], KeepOk(init, convert), idx0, convert);
        idx := idx0;
      }
    }
  }

  /** idx lists, in increasing order, the positions of the elements of xs that convert, and ys holds their results. */
  ghost predicate IsSources<X, Y>(xs: seq<X>, ys: seq<Y>, idx: seq<nat>, convert: X -> Outcome<Y>) {
    && |idx| == |ys|
    && (forall k :: 0 <= k < |idx| ==> idx[k] < |xs| && convert(xs[idx[k]]) == Ok(ys[k]))
    && (forall k, l :: 0 <= k < l < |idx| ==> idx[k] < idx[l])
    && (forall j :: 0 <= j < |xs| ==> (convert(xs[j]).Ok? <==> j in idx))
  }

  /** A last element that converts adds its position and its result. */
  lemma {:induction false} SourcesKept<X, Y>(init: seq<X>, x: X, ys: seq<Y>, idx0: seq<nat>, convert: X -> Outcome<Y>)
    returns (idx: seq<nat>)
    requires IsSources(init, ys, idx0, convert) && convert(x).Ok?
    ensures idx == idx0 + [|init|] && IsSources(init + [x], ys + [convert(x).value], idx, convert)
  {
    var xs := init + [x];
    idx := idx0 + [|init|];
    assert forall j :: 0 <= j < |init| ==> xs[j] == init[j];
    assert forall k :: 0 <= k < |idx0| ==> idx[k] == idx0[k];
    assert forall j :: 0 <= j < |init| ==> (j in idx <==> j in idx0);
  }

  /** A last element that does not convert changes nothing. */
  lemma {:induction false} SourcesSkipped<X, Y>(init: seq<X>, x: X, ys: seq<Y>, idx: seq<nat>, convert: X -> Outcome<Y>)
    requires IsSources(init, ys, idx, convert) && !convert(x).Ok?
    ensures IsSources(init + [x], ys, idx, convert)
  {
    var xs := init + [x];
    assert forall j :: 0 <= j < |init| ==> xs[j] == init[j];
    assert |init| !in idx;
  }

  /** Skipping never invents results: there are at most as many as elements. */
  lemma {:induction false} KeepOkAtMost<X, Y>(xs: seq<X>, convert: X -> Outcome<Y>)
    ensures |KeepOk(xs, convert)| <= |xs|
  {
    if xs != [] {
      KeepOkAtMost(xs[..|xs| - 1], convert);
    }
  }

  /** Every match that converts gives an item and none that fails does; the items keep match order. */
  lemma {:induction false} KeptItemsSources(ms: seq<ItemMatch>) returns (idx: seq<nat>)
    ensures |idx| == |KeptItems(ms)| <= |ms|
    ensures forall k :: 0 <= k < |idx| ==> idx[k] < |ms| && ConvertMatch(ms[idx[k]]) == Ok(KeptItems(ms)[k])
    ensures forall k, l :: 0 <= k < l < |idx| ==> idx[k] < idx[l]
    ensures forall j :: 0 <= j < |ms| ==> (ConvertMatch(ms[j]).Ok? <==> j in idx)
  {
    idx := KeepOkSources(ms, ConvertMatch);
    KeepOkAtMost(ms, ConvertMatch);
  }

  // ---------------------------------------------------------------------------
  // The request

  datatype Upload = Upload(filename: string, content: Bytes)

  /** The JSON body (its `document` URL), the uploaded file, or both, or neither. */
  datatype Request = Request(document: Option<string>, file: Option<Upload>)

  /**
   * Where the content comes from: an uploaded file wins; otherwise a
   * non-empty URL is downloaded, an exception or an error status being
   * rejected; with neither the request is rejected.
   */
  function ChooseContent(req: Request, fetch: string -> Fetched): (r: Result<Bytes, HttpError>)
    ensures req.file.Some? ==> r == Success(req.file.value.content)
    ensures (req.file.None? && (req.document.None? || req.document.value == [])) <==>
      r == Failure(HttpError(400, "No document provided"))
    ensures req.file.None? && req.document.Some? && req.document.value != [] ==>
      (r.Failure? <==> fetch(req.document.value).FetchFailed? || 400 <= fetch(req.document.value).status < 600)
    ensures req.file.None? && req.document.Some? && req.document.value != [] ==>
      var f := fetch(req.document.value);
      && (f.Fetched? && !(400 <= f.status < 600) ==> r == Success(f.content))
      && (f.FetchFailed? || 400 <= f.status < 600 ==> r == Failure(HttpError(400, "Unable to fetch document from URL")))
    ensures r.Failure? ==> r.error.status == 400
  {
    if req.file.Some? then Success(req.file.value.content)
    else if req.document.Some? && req.document.value != [] then
      match fetch(req.document.value)
      case FetchFailed => Failure(HttpError(400, "Unable to fetch document from URL"))
      case Fetched(status, content) =>
        if 400 <= status < 600 then Failure(HttpError(400, "Unable to fetch document from URL"))
        else Success(content)
    else Failure(HttpError(400, "No document provided"))
  }

  /** The two rejection texts differ, so a failed download is never reported as a missing document. */
  lemma {:induction false} RejectionsDistinct()
    ensures "Unable to fetch document from URL" != "No document provided"
  {
    assert "Unable to fetch document from URL"[0] == 'U';
  }

  /**
   * The PDF decision: the uploaded file's name ends in ".pdf", or the URL
   * does, in any case; either one is enough.
   */
  predicate IsPdfRequest(req: Request) {
    (req.file.Some? && EndsWith(Lower(req.file.value.filename), ".pdf"))
    || (req.document.Some? && EndsWith(Lower(req.document.value), ".pdf"))
  }

  /**
   * An uploaded image together with a URL ending in ".pdf" is rendered as a
   * PDF, even though the content is the uploaded file's.
   */
  lemma {:induction false} UploadWithPdfUrl(req: Request, fetch: string -> Fetched)
    requires req.file.Some? && !EndsWith(Lower(req.file.value.filename), ".pdf")
    requires req.document.Some? && EndsWith(Lower(req.document.value), ".pdf")
    ensures IsPdfRequest(req)
    ensures ChooseContent(req, fetch) == Success(req.file.value.content)
  {
  }

  // ---------------------------------------------------------------------------
  // The endpoint

  /** The entry of the page at position idx: its number, its type and its items. */
  function PageAt(findAll: FindAll, idx: nat, text: string): PageEntry {
    PageEntry(PageNumber(idx), DetectPageType(text), KeptItems(findAll(ItemPattern, CollapseSpaces(text))))
  }

  /** `f(k, xs[k])` for every position k, in order. */
  function MapIndexed<X, Y>(xs: seq<X>, f: (nat, X) -> Y): (r: seq<Y>)
    ensures |r| == |xs|
    ensures forall k :: 0 <= k < |xs| ==> r[k] == f(k, xs[k])
  {
    if xs == [] then []
    else
      var init := xs[..|xs| - 1];
      assert forall k :: 0 <= k < |init| ==> init[k] == xs[k];
      MapIndexed(init, f) + [f(|xs| - 1, xs[|xs| - 1])]
  }

  lemma {:induction false} MapIndexedStep<X, Y>(xs: seq<X>, i: nat, f: (nat, X) -> Y)
    requires i < |xs|
    ensures MapIndexed(xs[..i + 1], f) == MapIndexed(xs[..i], f) + [f(i, xs[i])]
  {
    assert xs[..i + 1][..i] == xs[..i];
  }

  /** PageAt for a fixed pattern engine, as a function of the position and the text. */
  function PageFor(findAll: FindAll): (nat, string) -> PageEntry {
    (idx: nat, text: string) => PageAt(findAll, idx, text)
  }

  /** The page entries for the OCR texts of the pages, numbered from 1. */
  function PagesOf(texts: seq<string>, findAll: FindAll): (r: seq<PageEntry>)
    ensures |r| == |texts|
    ensures forall k :: 0 <= k < |texts| ==> r[k] == PageAt(findAll, k, texts[k])
  {
    MapIndexed(texts, PageFor(findAll))
  }

  lemma {:induction false} PagesOfStep(texts: seq<string>, idx: nat, findAll: FindAll)
    requires idx < |texts|
    ensures PagesOf(texts[..idx + 1], findAll) == PagesOf(texts[..idx], findAll) + [PageAt(findAll, idx, texts[idx])]
  {
    MapIndexedStep(texts, idx, PageFor(findAll));
  }

  /**
   * extract_bill_data: choose the content, turn it into page texts, and give
   * every page its number, type and items; the count adds up the items and
   * every token counter is 0.
   */
  method ExtractBillData(req: Request, fetch: string -> Fetched, pdfPages: Bytes -> seq<string>,
                         imageText: Bytes -> string, findAll: FindAll)
    returns (r: Result<BillResponse, HttpError>)
    ensures r.Failure? <==> ChooseContent(req, fetch).Failure?
    ensures r.Failure? ==> r.error == ChooseContent(req, fetch).error
    ensures r.Success? ==>
      var texts := PageTexts(IsPdfRequest(req), ChooseContent(req, fetch).value, pdfPages, imageText);
      && r.value.isSuccess
      && r.value.tokenUsage == TokenUsage(0, 0, 0)
      && r.value.pagewiseLineItems == PagesOf(texts, findAll)
      && r.value.totalItemCount == TotalItemCount(r.value.pagewiseLineItems)
  {
    var source := ChooseContent(req, fetch);
    if source.Failure? {
      return Failure(source.error);
    }
    var content := source.value;
    var texts := PageTexts(IsPdfRequest(req), content, pdfPages, imageText);
    var pages: seq<PageEntry> := [];
    for idx := 0 to |texts|
      invariant pages == PagesOf(texts[..idx], findAll)
    {
      var text := texts[idx];
      var items := ExtractItems(text, findAll);
      var pageType := DetectPageType(text);
      PagesOfStep(texts, idx, findAll);
      assert PageEntry(PageNumber(idx), pageType, items) == PageAt(findAll, idx, text);
      pages := pages + [PageEntry(PageNumber(idx), pageType, items)];
    }
    assert texts[..|texts|] == texts;
    r := Success(BillResponse(true, TokenUsage(0, 0, 0), pages, TotalItemCount(pages)));
  }

  /** The response's pages are numbered "1", "2", ... in order, with no number repeated. */
  lemma {:induction false} PagesNumbered(texts: seq<string>, findAll: FindAll)
    ensures forall k :: 0 <= k < |texts| ==> DigitsValue(PagesOf(texts, findAll)[k].pageNo) == k + 1
    ensures forall j, k :: 0 <= j < k < |texts| ==> PagesOf(texts, findAll)[j].pageNo != PagesOf(texts, findAll)[k].pageNo
    ensures forall k :: 0 <= k < |texts| ==>
      AllDigits(PagesOf(texts, findAll)[k].pageNo) && PagesOf(texts, findAll)[k].pageNo[0] != '0'
  {
  }
}
