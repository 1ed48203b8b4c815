/**
 * What main.py and app.py share: the page classifier, the conversion of one
 * item match into a bill item, page numbering, the item count and the shape
 * of the response.
 */
module Pages {
  import opened Results
  import opened Text
  import opened Decimal
  import opened Parser

  // ---------------------------------------------------------------------------
  // Page classification

  datatype PageType = Pharmacy | FinalBill | BillDetail {
    /** The label written into the response. */
    function Label(): string {
      match this
      case Pharmacy => "Pharmacy"
      case FinalBill => "Final Bill"
      case BillDetail => "Bill Detail"
    }
  }

  predicate HasPharmacyWord(lower: string) {
    Contains(lower, "pharmacy") || Contains(lower, "drug") || Contains(lower, "medicine")
  }

  predicate HasFinalWords(lower: string) {
    Contains(lower, "total") && Contains(lower, "final")
  }

  /**
   * detect_page_type: a pharmacy word anywhere (in any case) makes a pharmacy
   * page; otherwise "total" and "final" together make a final bill; anything
   * else is a bill detail page.
   */
  function DetectPageType(text: string): (r: PageType)
    ensures r == Pharmacy <==> HasPharmacyWord(Lower(text))
    ensures r == FinalBill <==> !HasPharmacyWord(Lower(text)) && HasFinalWords(Lower(text))
    ensures r == BillDetail <==> !HasPharmacyWord(Lower(text)) && !HasFinalWords(Lower(text))
  {
    var lower := Lower(text);
    if HasPharmacyWord(lower) then Pharmacy
    else if HasFinalWords(lower) then FinalBill
    else BillDetail
  }

  /** The classification ignores case. */
  lemma {:induction false} DetectPageTypeIgnoresCase(text: string)
    ensures DetectPageType(Lower(text)) == DetectPageType(text)
  {
    LowerIdempotent(text);
  }

  /** A text inside another stays inside it once both are lower-cased. */
  lemma {:induction false} LowerContains(s: string, t: string)
    requires Contains(s, t)
    ensures Contains(Lower(s), Lower(t))
  {
    var i := ContainsWitness(s, t);
    assert Lower(s)[i..i + |t|] == Lower(t);
    ContainsAt(Lower(s), Lower(t), i);
  }

  /** Every word found in a part of a text is found in the whole text. */
  lemma {:induction false} WordPersists(s: string, t: string, w: string)
    requires Contains(s, t) && Contains(Lower(t), w)
    ensures Contains(Lower(s), w)
  {
    LowerContains(s, t);
    ContainsTransitive(Lower(s), Lower(t), w);
  }

  /**
   * More text never demotes a page: a text containing a pharmacy page's text
   * is a pharmacy page, and one containing a final bill's text is not a
   * bill detail page.
   */
  lemma {:induction false} PageTypeOfLargerText(s: string, t: string)
    requires Contains(s, t)
    ensures DetectPageType(t) == Pharmacy ==> DetectPageType(s) == Pharmacy
    ensures DetectPageType(t) == FinalBill ==> DetectPageType(s) != BillDetail
  {
    var lt := Lower(t);
    if Contains(lt, "pharmacy") { WordPersists(s, t, "pharmacy"); }
    if Contains(lt, "drug") { WordPersists(s, t, "drug"); }
    if Contains(lt, "medicine") { WordPersists(s, t, "medicine"); }
    if Contains(lt, "total") { WordPersists(s, t, "total"); }
    if Contains(lt, "final") { WordPersists(s, t, "final"); }
  }

  /** The three labels are distinct, so the label determines the page type. */
  lemma {:induction false} LabelsDistinct(a: PageType, b: PageType)
    requires a.Label() == b.Label()
    ensures a == b
  {
    assert "Pharmacy"[0] == 'P' && "Final Bill"[0] == 'F' && "Bill Detail"[0] == 'B';
  }

  // ---------------------------------------------------------------------------
  // Items of a page

  /** One entry of `bill_items`. */
  datatype BillItem = BillItem(itemName: string, itemQuantity: real, itemRate: real, itemAmount: real)

  /** The four groups of one item-pattern match: name, quantity, rate and amount. */
  datatype ItemMatch = ItemMatch(name: string, quantity: string, rate: string, amount: string)

  /**
   * Converting one match: the stripped name, `float()` of the quantity, and
   * `float()` of the rate and of the amount once their commas are removed;
   * the first of the three that fails is the error.
   */
  function ConvertMatch(m: ItemMatch): (r: Outcome<BillItem>)
    ensures r.Ok? <==>
      ParseFloat(m.quantity).Some? && ParseFloat(RemoveChar(m.rate, ',')).Some? && ParseFloat(RemoveChar(m.amount, ',')).Some?
    ensures r.Ok? ==> r.value.itemName == Strip(m.name)
    ensures r.Ok? ==> r.value.itemQuantity == ParseFloat(m.quantity).value
    ensures r.Ok? ==> r.value.itemRate == ParseFloat(RemoveChar(m.rate, ',')).value
    ensures r.Ok? ==> r.value.itemAmount == ParseFloat(RemoveChar(m.amount, ',')).value
    ensures r.ValueError? ==> r.text in [m.quantity, RemoveChar(m.rate, ','), RemoveChar(m.amount, ',')]
  {
    var qty :- FloatOf(m.quantity);
    var rate :- FloatOf(RemoveChar(m.rate, ','));
    var amount :- FloatOf(RemoveChar(m.amount, ','));
    Ok(BillItem(Strip(m.name), qty, rate, amount))
  }

  /** A rate and an amount written with thousands separators convert to the numbers they denote. */
  lemma {:induction false} ConvertGrouped(name: string, q: string, rate: nat, amount: nat)
    requires q != [] && AllDigits(q)
    ensures ConvertMatch(ItemMatch(name, q, GroupThousands(rate), GroupThousands(amount))) ==
      Ok(BillItem(Strip(name), DigitsValue(q) as real, rate as real, amount as real))
  {
    ParseFloatDigits(q);
    GroupThousandsDigits(rate);
    GroupThousandsDigits(amount);
    ParseFloatDigits(RemoveChar(GroupThousands(rate), ','));
    ParseFloatDigits(RemoveChar(GroupThousands(amount), ','));
  }

  /** A rate with two decimal points, which `[\d,.]+` admits, makes the conversion fail. */
  lemma {:induction false} ConvertRejectsTwoPointRate(m: ItemMatch, a: string, b: string, c: string)
    requires AllDigits(a) && AllDigits(b) && AllDigits(c)
    requires RemoveChar(m.rate, ',') == a + "." + b + "." + c
    ensures ConvertMatch(m).ValueError?
  {
    ParseFloatRejectsTwoPoints(a, b, c);
  }

  // ---------------------------------------------------------------------------
  // Pages and the response

  /** Python's `str(idx + 1)`: the 1-based page number as text. */
  function PageNumber(idx: nat): (r: string)
    ensures AllDigits(r) && DigitsValue(r) == idx + 1
    ensures r[0] != '0'
  {
    NatToDigitsRoundTrip(idx + 1);
    var r := NatToDigits(idx + 1);
    assert |r| == 1 ==> r == [r[0]] && DigitsValue([r[0]]) == DigitValue(r[0]);
    r
  }

  /** Different pages get different numbers. */
  lemma {:induction false} PageNumbersDistinct(j: nat, k: nat)
    requires PageNumber(j) == PageNumber(k)
    ensures j == k
  {
  }

  /** One entry of `pagewise_line_items`. */
  datatype PageEntry = PageEntry(pageNo: string, pageType: PageType, billItems: seq<BillItem>)

  /** The number of items over all pages, as `total_item_count` adds them up. */
  function TotalItemCount(pages: seq<PageEntry>): nat {
    if pages == [] then 0 else TotalItemCount(pages[..|pages| - 1]) + |pages[|pages| - 1].billItems|
  }

  lemma {:induction false} TotalItemCountAppend(a: seq<PageEntry>, b: seq<PageEntry>)
    ensures TotalItemCount(a + b) == TotalItemCount(a) + TotalItemCount(b)
    decreases |b|
  {
    if b == [] {
      assert a + b == a;
    } else {
      assert (a + b)[..|a + b| - 1] == a + b[..|b| - 1];
      TotalItemCountAppend(a, b[..|b| - 1]);
    }
  }

  /** The count is zero exactly when no page has an item, and each page's items are counted. */
  lemma {:induction false} TotalItemCountBounds(pages: seq<PageEntry>)
    ensures TotalItemCount(pages) == 0 <==> forall k :: 0 <= k < |pages| ==> pages[k].billItems == []
    ensures forall k :: 0 <= k < |pages| ==> |pages[k].billItems| <= TotalItemCount(pages)
  {
    if pages != [] {
      var init := pages[..|pages| - 1];
      TotalItemCountBounds(init);
      assert forall k :: 0 <= k < |init| ==> init[k] == pages[k];
    }
  }

  datatype TokenUsage = TokenUsage(totalTokens: int, inputTokens: int, outputTokens: int)

  /** The successful response: `is_success`, `token_usage` and the `data` part. */
  datatype BillResponse = BillResponse(
    isSuccess: bool,
    tokenUsage: TokenUsage,
    pagewiseLineItems: seq<PageEntry>,
    totalItemCount: nat)

  /** An HTTPException: its status code and detail text. */
  datatype HttpError = HttpError(status: int, detail: string)

  /** The document's bytes. */
  type Bytes = seq<bv8>

  /** What `requests.get` gives: a response with its status and body, or an exception. */
  datatype Fetched = Fetched(status: int, content: Bytes) | FetchFailed

  /** The OCR text of every page of the document, either as a PDF or as one image. */
  function PageTexts(isPdf: bool, content: Bytes, pdfPages: Bytes -> seq<string>, imageText: Bytes -> string): (r: seq<string>)
    ensures !isPdf ==> |r| == 1
  {
    if isPdf then pdfPages(content) else [imageText(content)]
  }
}
