/**
 * app.py: the earlier endpoint. Item extraction has no guard, so the first
 * malformed match aborts the request; the download is not checked for an
 * error status; the PDF decision looks at the URL only. The
 * regular-expression engine, the download, the PDF renderer and OCR are
 * parameters.
 */
module AppApi {
  import opened Results
  import opened Text
  import opened Parser
  import opened Pages
  import opened MainApi

  /** The item pattern of app.py, with a greedy name group. */
  const AppItemPattern: string := @"([A-Za-z0-9\/\-\(\) ]+)\s+(\d+(?:\.\d+)?)\s+([\d,.]+)\s+([\d,.]+)"

  // ---------------------------------------------------------------------------
  // Items

  /** Converting every element in order; the first failure is the result. */
  function ConvertAll<X, Y>(xs: seq<X>, convert: X -> Outcome<Y>): Outcome<seq<Y>> {
    if xs == [] then Ok([])
    else
      var done :- ConvertAll(xs[..|xs| - 1], convert);
      var last :- convert(xs[|xs| - 1]);
      Ok(done + [last])
  }

  lemma {:induction false} ConvertAllStep<X, Y>(xs: seq<X>, i: nat, convert: X -> Outcome<Y>)
    requires i < |xs|
    ensures ConvertAll(xs[..i + 1], convert) ==
      match ConvertAll(xs[..i], convert)
      case ValueError(t) => ValueError(t)
      case Ok(done) =>
        match convert(xs[i])
        case ValueError(t) => ValueError(t)
        case Ok(y) => Ok(done + [y])
  {
    assert xs[..i + 1][..i] == xs[..i];
  }

  /** Once an element fails, converting any longer prefix fails in the same way. */
  lemma {:induction false} ConvertAllStopsAt<X, Y>(xs: seq<X>, n: nat, m: nat, convert: X -> Outcome<Y>)
    requires n <= m <= |xs|
    requires ConvertAll(xs[..n], convert).ValueError?
    ensures ConvertAll(xs[..m], convert) == ConvertAll(xs[..n], convert)
    decreases m
  {
    if m > n {
      ConvertAllStopsAt(xs, n, m - 1, convert);
      ConvertAllStep(xs, m - 1, convert);
    }
  }

  /**
   * Converting everything succeeds exactly when every element converts, and
   * then gives what skipping the failures would give.
   */
  lemma {:induction false} ConvertAllOk<X, Y>(xs: seq<X>, convert: X -> Outcome<Y>)
    ensures ConvertAll(xs, convert).Ok? <==> forall j :: 0 <= j < |xs| ==> convert(xs[j]).Ok?
    ensures ConvertAll(xs, convert).Ok? ==> ConvertAll(xs, convert).value == KeepOk(xs, convert)
  {
    if xs != [] {
      var init := xs[..|xs| - 1];
      ConvertAllOk(init, convert);
      assert forall j :: 0 <= j < |init| ==> xs[j] == init[j];
    }
  }

  /** A failure is the failure of the first element that does not convert. */
  lemma {:induction false} ConvertAllFirstError<X, Y>(xs: seq<X>, convert: X -> Outcome<Y>) returns (j: nat)
    requires ConvertAll(xs, convert).ValueError?
    ensures j < |xs| && convert(xs[j]).ValueError?
    ensures forall i :: 0 <= i < j ==> convert(xs[i]).Ok?
    ensures ConvertAll(xs, convert).text == convert(xs[j]).text
  {
    var init := xs[..|xs| - 1];
    assert forall i :: 0 <= i < |init| ==> xs[i] == init[i];
    if ConvertAll(init, convert).ValueError? {
      j := ConvertAllFirstError(init, convert);
    } else {
      ConvertAllOk(init, convert);
      j := |xs| - 1;
    }
  }

  /** The items of all matches, or the error of the first that does not convert. */
  function AllItems(ms: seq<ItemMatch>): Outcome<seq<BillItem>> {
    ConvertAll(ms, ConvertMatch)
  }

  /** extract_items: find the matches and convert each one; a ValueError escapes. */
  method ExtractItems(text: string, findAll: FindAll) returns (r: Outcome<seq<BillItem>>)
    ensures r == AllItems(findAll(AppItemPattern, text))
  {
    var ms := findAll(AppItemPattern, text);
    var items: seq<BillItem> := [];
    for i := 0 to |ms|
      invariant ConvertAll(ms[..i], ConvertMatch) == Ok(items)
    {
      var converted := ConvertMatch(ms[i]);
      if converted.ValueError? {
        ConvertAllFailsAt(ms, i, ConvertMatch, items);
        return ValueError(converted.text);
      }
      ConvertAllOkAt(ms, i, ConvertMatch, items);
      items := items + [converted.value];
    }
    assert ms[..|ms|] == ms;
    r := Ok(items);
  }

  /** An element that converts extends a prefix that converted. */
  lemma {:induction false} ConvertAllOkAt<X, Y>(xs: seq<X>, i: nat, convert: X -> Outcome<Y>, done: seq<Y>)
    requires i < |xs| && ConvertAll(xs[..i], convert) == Ok(done) && convert(xs[i]).Ok?
    ensures ConvertAll(xs[..i + 1], convert) == Ok(done + [convert(xs[i]).value])
  {
    ConvertAllStep(xs, i, convert);
  }

  /** The first element that fails after a prefix that converted is the failure of the whole. */
  lemma {:induction false} ConvertAllFailsAt<X, Y>(xs: seq<X>, i: nat, convert: X -> Outcome<Y>, done: seq<Y>)
    requires i < |xs| && ConvertAll(xs[..i], convert) == Ok(done) && convert(xs[i]).ValueError?
    ensures ConvertAll(xs, convert) == ValueError(convert(xs[i]).text)
  {
    ConvertAllStep(xs, i, convert);
    ConvertAllStopsAt(xs, i + 1, |xs|, convert);
    assert xs[..|xs|] == xs;
  }

  /**
   * Over the same matches, the unguarded extraction either agrees with the
   * guarded one of main.py or fails with the first failing match's error.
   */
  lemma {:induction false} UnguardedAgreesWithGuarded(ms: seq<ItemMatch>)
    ensures AllItems(ms).Ok? <==> forall j :: 0 <= j < |ms| ==> ConvertMatch(ms[j]).Ok?
    ensures AllItems(ms).Ok? ==> AllItems(ms).value == KeptItems(ms)
    ensures AllItems(ms).ValueError? ==>
      exists j :: 0 <= j < |ms| && ConvertMatch(ms[j]).ValueError? && AllItems(ms).text == ConvertMatch(ms[j]).text
        && forall i :: 0 <= i < j ==> ConvertMatch(ms[i]).Ok?
  {
    ConvertAllOk(ms, ConvertMatch);
    if AllItems(ms).ValueError? {
      var j := ConvertAllFirstError(ms, ConvertMatch);
    }
  }

  // ---------------------------------------------------------------------------
  // The endpoint

  /** How the endpoint ends: a response, an HTTPException, or a ValueError nobody catches. */
  datatype AppResult = Responded(response: BillResponse) | Rejected(error: HttpError) | Raised(text: string)

  /** The PDF decision: the URL ends in ".pdf", in any case. */
  predicate IsPdfDocument(document: string) {
    EndsWith(Lower(document), ".pdf")
  }

  /** Each page text beside its position. */
  function Indexed(texts: seq<string>): (r: seq<(nat, string)>)
    ensures |r| == |texts|
    ensures forall k :: 0 <= k < |texts| ==> r[k] == (k, texts[k])
  {
    seq(|texts|, k requires 0 <= k < |texts| => (k, texts[k]))
  }

  /** The entry of the page at a position: its number, type and items, or the items' error. */
  function PageOf(findAll: FindAll): ((nat, string)) -> Outcome<PageEntry> {
    (page: (nat, string)) =>
      var items :- AllItems(findAll(AppItemPattern, page.1));
      Ok(PageEntry(PageNumber(page.0), DetectPageType(page.1), items))
  }

  lemma {:induction false} PageOfAt(findAll: FindAll, idx: nat, text: string)
    ensures PageOf(findAll)((idx, text)) ==
      match AllItems(findAll(AppItemPattern, text))
      case ValueError(t) => ValueError(t)
      case Ok(items) => Ok(PageEntry(PageNumber(idx), DetectPageType(text), items))
  {
  }

  /** The page entries for the page texts, numbered from 1; the first page whose items fail ends it. */
  function AppPages(texts: seq<string>, findAll: FindAll): Outcome<seq<PageEntry>> {
    ConvertAll(Indexed(texts), PageOf(findAll))
  }

  /** A successful conversion has one result per element, each that element's conversion. */
  lemma {:induction false} ConvertAllValues<X, Y>(xs: seq<X>, convert: X -> Outcome<Y>)
    requires ConvertAll(xs, convert).Ok?
    ensures |ConvertAll(xs, convert).value| == |xs|
    ensures forall k :: 0 <= k < |xs| ==> convert(xs[k]).Ok? && ConvertAll(xs, convert).value[k] == convert(xs[k]).value
  {
    if xs != [] {
      var init := xs[..|xs| - 1];
      ConvertAllValues(init, convert);
      assert forall k :: 0 <= k < |init| ==> xs[k] == init[k];
    }
  }

  /**
   * The pages succeed exactly when every page's items do; then there is one
   * entry per text, numbered from 1, with its type and items.
   */
  lemma {:induction false} AppPagesContents(texts: seq<string>, findAll: FindAll)
    ensures AppPages(texts, findAll).Ok? <==>
      forall k :: 0 <= k < |texts| ==> AllItems(findAll(AppItemPattern, texts[k])).Ok?
    ensures AppPages(texts, findAll).Ok? ==>
      var pages := AppPages(texts, findAll).value;
      && |pages| == |texts|
      && forall k :: 0 <= k < |texts| ==>
        pages[k] == PageEntry(PageNumber(k), DetectPageType(texts[k]), AllItems(findAll(AppItemPattern, texts[k])).value)
  {
    var xs := Indexed(texts);
    ConvertAllOk(xs, PageOf(findAll));
    assert forall k :: 0 <= k < |texts| ==>
      (PageOf(findAll)(xs[k]).Ok? <==> AllItems(findAll(AppItemPattern, texts[k])).Ok?);
    if AppPages(texts, findAll).Ok? {
      ConvertAllValues(xs, PageOf(findAll));
    }
  }

  /** One page of the loop: its entry joins the pages, or its items' error is the error of all pages. */
  lemma {:induction false} PagesLoopStep(texts: seq<string>, idx: nat, findAll: FindAll, pages: seq<PageEntry>)
    requires idx < |texts|
    requires ConvertAll(Indexed(texts)[..idx], PageOf(findAll)) == Ok(pages)
    ensures AllItems(findAll(AppItemPattern, texts[idx])).Ok? ==>
      ConvertAll(Indexed(texts)[..idx + 1], PageOf(findAll)) ==
        Ok(pages + [PageEntry(PageNumber(idx), DetectPageType(texts[idx]), AllItems(findAll(AppItemPattern, texts[idx])).value)])
    ensures AllItems(findAll(AppItemPattern, texts[idx])).ValueError? ==>
      AppPages(texts, findAll) == ValueError(AllItems(findAll(AppItemPattern, texts[idx])).text)
  {
    var indexed := Indexed(texts);
    ConvertAllStep(indexed, idx, PageOf(findAll));
    assert indexed[idx] == (idx, texts[idx]);
    PageOfAt(findAll, idx, texts[idx]);
    if AllItems(findAll(AppItemPattern, texts[idx])).ValueError? {
      ConvertAllStopsAt(indexed, idx + 1, |texts|, PageOf(findAll));
      assert indexed[..|texts|] == indexed;
    }
  }

  /** The response for the assembled pages, or the ValueError that escaped; no token was counted. */
  function Finish(pages: Outcome<seq<PageEntry>>): (r: AppResult)
    ensures pages.ValueError? ==> r == Raised(pages.text)
    ensures pages.Ok? ==> r.Responded? && r.response.isSuccess && r.response.pagewiseLineItems == pages.value
    ensures pages.Ok? ==> r.response.tokenUsage == TokenUsage(0, 0, 0)
    ensures pages.Ok? ==> r.response.totalItemCount == TotalItemCount(pages.value)
  {
    match pages
    case ValueError(t) => Raised(t)
    case Ok(p) => Responded(BillResponse(true, TokenUsage(0, 0, 0), p, TotalItemCount(p)))
  }

  /**
   * The page loop of extract_bill_data: each text in turn gets its items and
   * its type; a malformed item match on any page escapes as a ValueError.
   */
  method BuildPages(texts: seq<string>, findAll: FindAll) returns (res: Outcome<seq<PageEntry>>)
    ensures res == AppPages(texts, findAll)
  {
    var pagesText: seq<string> := [];
    var pages: seq<PageEntry> := [];
    ghost var indexed := Indexed(texts);
    for idx := 0 to |texts|
      invariant ConvertAll(indexed[..idx], PageOf(findAll)) == Ok(pages)
    {
      var text := texts[idx];
      pagesText := pagesText + [text];
      PagesLoopStep(texts, idx, findAll, pages);
      var items := ExtractItems(text, findAll);
      if items.ValueError? {
        return ValueError(items.text);
      }
      var pageType := DetectPageType(text);
      pages := pages + [PageEntry(PageNumber(idx), pageType, items.value)];
    }
    assert indexed[..|texts|] == indexed;
    res := Ok(pages);
  }

  /**
   * extract_bill_data: download the document (any exception is a 400), turn
   * it into page texts, and build every page's entry; a malformed item match
   * on any page escapes as a ValueError. Both token counters stay 0 and the
   * total is their sum.
   */
  method ExtractBillData(document: string, fetch: string -> Fetched, pdfPages: Bytes -> seq<string>,
                         imageText: Bytes -> string, findAll: FindAll)
    returns (r: AppResult)
    ensures fetch(document).FetchFailed? ==> r == Rejected(HttpError(400, "Unable to fetch document"))
    ensures fetch(document).Fetched? ==>
      r == Finish(AppPages(PageTexts(IsPdfDocument(document), fetch(document).content, pdfPages, imageText), findAll))
    ensures r.Rejected? <==> fetch(document).FetchFailed?
    ensures r.Responded? ==>
      r.response.tokenUsage.totalTokens == r.response.tokenUsage.inputTokens + r.response.tokenUsage.outputTokens
  {
    var fetched := fetch(document);
    if fetched.FetchFailed? {
      return Rejected(HttpError(400, "Unable to fetch document"));
    }
    var texts := PageTexts(IsPdfDocument(document), fetched.content, pdfPages, imageText);
    var tokenIn, tokenOut := 0, 0;
    var pages := BuildPages(texts, findAll);
    if pages.ValueError? {
      return Raised(pages.text);
    }
    r := Responded(BillResponse(true, TokenUsage(tokenIn + tokenOut, tokenIn, tokenOut), pages.value, TotalItemCount(pages.value)));
  }
}
