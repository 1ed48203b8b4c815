/**
 * services/parser.py: money normalisation, the header fields, line-by-line
 * item parsing with its summary-line filter and three strategies, and the
 * printed totals.
 */
module Parser {
  import opened Results
  import opened Text
  import opened Decimal
  import opened Patterns
  import opened Schema

  // ---------------------------------------------------------------------------
  // Numbers

  /** `float(t)`: the value of the text, or ValueError carrying the rejected text. */
  function FloatOf(t: string): (r: Outcome<real>)
    ensures r.Ok? <==> ParseFloat(t).Some?
    ensures r.Ok? ==> r.value == ParseFloat(t).value && r.value >= 0.0
    ensures r.ValueError? ==> r.text == t
  {
    match ParseFloat(t)
    case Some(v) => Ok(v)
    case None => ValueError(t)
  }

  /** norm_money: drop every comma, strip surrounding whitespace, then `float()`. */
  function NormMoney(s: string): (r: Outcome<real>)
    ensures r.Ok? ==> r.value >= 0.0
  {
    FloatOf(Strip(RemoveChar(s, ',')))
  }

  /** Python's `s[1:]`. */
  function DropFirst(s: string): (r: string)
    ensures s != [] ==> r == s[1..]
  {
    if s == [] then [] else s[1..]
  }

  predicate IsWhole(x: real) {
    x.Floor as real == x
  }

  /** A plain digit string is read as the whole number it denotes. */
  lemma {:induction false} FloatOfDigits(d: string)
    requires d != [] && AllDigits(d)
    ensures FloatOf(Strip(d)) == Ok(DigitsValue(d) as real)
  {
    assert !IsSpace(d[0]) && !IsSpace(d[|d| - 1]);
    assert Strip(d) == d;
    ParseFloatDigits(d);
  }

  /** A number written with thousands separators normalises back to that number. */
  lemma {:induction false} NormMoneyOfGrouped(n: nat)
    ensures NormMoney(GroupThousands(n)) == Ok(n as real)
  {
    GroupThousandsDigits(n);
    FloatOfDigits(RemoveChar(GroupThousands(n), ','));
  }

  /**
   * A text that reads as digits, a point and digits once its commas are gone
   * normalises to the whole part plus the fraction, as "12,345.50" does to 12345.50.
   */
  lemma {:induction false} NormMoneyOfPointed(x: string, d: string, f: string)
    requires d != [] && AllDigits(d) && AllDigits(f)
    requires RemoveChar(x, ',') == d + "." + f
    ensures NormMoney(x) == Ok(DigitsValue(d) as real + FractionValue(f))
  {
    var s := d + "." + f;
    ParseFloatPointed(d, f);
    NormMoneyOfTrimmed(x, s);
  }

  /** When the comma-free text needs no stripping, `norm_money` is `float()` of it. */
  lemma {:induction false} NormMoneyOfTrimmed(x: string, s: string)
    requires RemoveChar(x, ',') == s && Strip(s) == s
    ensures NormMoney(x) == FloatOf(s)
  {
  }

  /**
   * A `[\d,]+` capture normalises to the whole number its digits denote, and
   * fails, on the empty text, exactly when it holds no digit.
   */
  lemma {:induction false} NormMoneyOfDigitsAndCommas(s: string)
    requires forall k :: 0 <= k < |s| ==> IsDigitOrComma(s[k])
    ensures AllDigits(RemoveChar(s, ','))
    ensures NormMoney(s).ValueError? <==> RemoveChar(s, ',') == []
    ensures NormMoney(s).ValueError? ==> NormMoney(s).text == []
    ensures NormMoney(s).Ok? ==> NormMoney(s).value == DigitsValue(RemoveChar(s, ',')) as real
    ensures NormMoney(s).Ok? ==> IsWhole(NormMoney(s).value)
  {
    var d := RemoveChar(s, ',');
    CommaFreeDigits(s);
    if d != [] {
      FloatOfDigits(d);
    } else {
      assert Strip(d) == [];
      assert LeadingRun([], IsAsciiDigit) == 0;
    }
  }

  /** Removing the commas from a `[\d,]*` text leaves only digits. */
  lemma {:induction false} CommaFreeDigits(s: string)
    requires forall k :: 0 <= k < |s| ==> IsDigitOrComma(s[k])
    ensures AllDigits(RemoveChar(s, ','))
  {
    var d := RemoveChar(s, ',');
    forall k | 0 <= k < |d| ensures IsAsciiDigit(d[k]) {
      assert d[k] in d;
      assert d[k] in s;
    }
  }

  // ---------------------------------------------------------------------------
  // Header fields

  /**
   * A regular-expression engine: `re.search(pattern, text, re.IGNORECASE)`,
   * giving the text of group 1 of the first match, or None.
   */
  type RegexSearch = (string, string) -> Option<string>

  /** The header keys and their patterns, in the order the source lists them. */
  const HeaderPatterns: seq<(string, string)> := [
    ("bill_no", @"Bill\s*No\.?\s*[:\-]\s*([A-Za-z0-9/\\\-]+)"),
    ("bill_date", @"Bill\s*Date\s*[:\-]\s*([0-9]{1,2}[-/][A-Za-z]{3}[-/][0-9]{2,4}|[0-9]{2}[-/][0-9]{2}[-/][0-9]{4})"),
    ("patient_name", @"Name\s*of\s*Patient\s*[:\-]\s*(.+)")
  ]

  const HeaderKeys: set<string> := {"bill_no", "bill_date", "patient_name"}

  /** The three header keys are distinct. */
  lemma {:induction false} HeaderKeysDistinct()
    ensures forall j, l :: 0 <= j < l < |HeaderPatterns| ==> HeaderPatterns[j].0 != HeaderPatterns[l].0
  {
    assert "bill_no"[5] != "bill_date"[5];
    assert "bill_no"[0] != "patient_name"[0];
    assert "bill_date"[0] != "patient_name"[0];
  }

  /**
   * extract_header_fields: for each key whose pattern matches, the stripped
   * capture; keys whose pattern does not match are absent.
   */
  method ExtractHeaderFields(text: string, search: RegexSearch) returns (fields: map<string, string>)
    ensures fields.Keys <= HeaderKeys
    ensures forall i :: 0 <= i < |HeaderPatterns| ==>
      (HeaderPatterns[i].0 in fields <==> search(HeaderPatterns[i].1, text).Some?)
    ensures forall i :: 0 <= i < |HeaderPatterns| && HeaderPatterns[i].0 in fields ==>
      fields[HeaderPatterns[i].0] == Strip(search(HeaderPatterns[i].1, text).value)
  {
    HeaderKeysDistinct();
    fields := map[];
    for i := 0 to |HeaderPatterns|
      invariant fields.Keys <= HeaderKeys
      invariant forall j :: i <= j < |HeaderPatterns| ==> HeaderPatterns[j].0 !in fields
      invariant forall j :: 0 <= j < i ==>
        (HeaderPatterns[j].0 in fields <==> search(HeaderPatterns[j].1, text).Some?)
      invariant forall j :: 0 <= j < i && HeaderPatterns[j].0 in fields ==>
        fields[HeaderPatterns[j].0] == Strip(search(HeaderPatterns[j].1, text).value)
    {
      var key, pattern := HeaderPatterns[i].0, HeaderPatterns[i].1;
      assert forall j :: 0 <= j < |HeaderPatterns| && j != i ==> HeaderPatterns[j].0 != key;
      var m := search(pattern, text);
      if m.Some? {
        fields := fields[key := Strip(m.value)];
      }
    }
  }

  // ---------------------------------------------------------------------------
  // Line items

  /** The characters `strip(":- ")` removes from descriptions. */
  const DescriptionTrim: set<char> := {':', '-', ' '}

  /** Strategy 1: description, unit price, quantity and amount from the quantity pattern. */
  function QuantityItem(m: QuantityCapture): (r: Outcome<Option<LineItem>>)
    ensures r.Ok? ==> r.value.Some? && r.value.value.unitPrice.Some? && r.value.value.quantity.Some?
  {
    var unit :- NormMoney(DropFirst(m.unitPrice));
    var qty :- FloatOf(m.quantity);
    var amount :- NormMoney(DropFirst(m.amount));
    Ok(Some(LineItem(StripChars(m.description, DescriptionTrim), Some(unit), Some(qty), amount)))
  }

  /** Strategy 2: description and the trailing amount; no unit price or quantity. */
  function TrailingItem(t: TrailingCapture): (r: Outcome<Option<LineItem>>)
    ensures r.Ok? ==> r.value.Some? && r.value.value.unitPrice.None? && r.value.value.quantity.None?
  {
    var amount :- NormMoney(RemoveChar(t.amount, Rupee));
    Ok(Some(LineItem(StripChars(t.description, DescriptionTrim), None, None, amount)))
  }

  /**
   * Strategy 3: the last AMOUNT_RE match is the amount, and the line with every
   * match removed is the description; no match at all means no item.
   */
  function FallbackItem(line: string): (r: Outcome<Option<LineItem>>)
    ensures r.Ok? && r.value.Some? ==> r.value.value.unitPrice.None? && r.value.value.quantity.None?
    ensures AmountTokens(line) == [] ==> r == Ok(None)
  {
    var tokens := AmountTokens(line);
    if tokens == [] then Ok(None)
    else
      var amount :- NormMoney(tokens[|tokens| - 1].number);
      Ok(Some(LineItem(StripChars(WithoutAmounts(line), DescriptionTrim), None, None, amount)))
  }

  /** One line: nothing from a summary line, otherwise the first strategy whose pattern matches. */
  function ParseLine(line: string): Outcome<Option<LineItem>> {
    if IsSummaryLine(line) then Ok(None)
    else
      match QuantityMatch(line)
      case Some(m) => QuantityItem(m)
      case None =>
        match TrailingAmount(line)
        case Some(t) => TrailingItem(t)
        case None => FallbackItem(line)
  }

  /** Collecting line outcomes in order: the first ValueError ends the collection. */
  function Collect<T>(outs: seq<Outcome<Option<T>>>): Outcome<seq<T>> {
    if outs == [] then Ok([])
    else
      var items :- Collect(outs[..|outs| - 1]);
      var item :- outs[|outs| - 1];
      Ok(items + (if item.Some? then [item.value] else []))
  }

  /** What each line yields on its own. */
  function ParsedLines(lines: seq<string>): (r: seq<Outcome<Option<LineItem>>>)
    ensures |r| == |lines|
    ensures forall k :: 0 <= k < |lines| ==> r[k] == ParseLine(lines[k])
  {
    MapEach(lines, ParseLine)
  }

  /** `f` applied to every element, in order. */
  function MapEach<X, Y>(xs: seq<X>, f: X -> Y): (r: seq<Y>)
    ensures |r| == |xs|
    ensures forall k :: 0 <= k < |xs| ==> r[k] == f(xs[k])
  {
    seq(|xs|, k requires 0 <= k < |xs| => f(xs[k]))
  }

  lemma {:induction false} MapEachAppend<X, Y>(a: seq<X>, b: seq<X>, f: X -> Y)
    ensures MapEach(a + b, f) == MapEach(a, f) + MapEach(b, f)
  {
    assert forall k :: 0 <= k < |a| ==> (a + b)[k] == a[k];
    assert forall k :: |a| <= k < |a| + |b| ==> (a + b)[k] == b[k - |a|];
  }

  /** The items of a list of lines, in line order; the first ValueError ends the parse. */
  function ItemsOfLines(lines: seq<string>): Outcome<seq<LineItem>> {
    Collect(ParsedLines(lines))
  }

  /** parse_line_items: the items of the non-empty stripped lines of the text. */
  method ParseLineItems(text: string) returns (r: Outcome<seq<LineItem>>)
    ensures r == ItemsOfLines(Lines(text))
  {
    var items: seq<LineItem> := [];
    var lines := Lines(text);
    ghost var outs := ParsedLines(lines);
    var i := 0;
    while i < |lines|
      invariant 0 <= i <= |lines|
      invariant Collect(outs[..i]) == Ok(items)
    {
      var item := ParseLine(lines[i]);
      if item.ValueError? {
        CollectFailsAt(outs, i, items);
        return ValueError(item.text);
      }
      CollectOkAt(outs, i, items);
      if item.value.Some? {
        items := items + [item.value.value];
      } else {
        assert items + [] == items;
      }
      i := i + 1;
    }
    assert outs[..i] == outs;
    r := Ok(items);
  }

  /** An outcome that is not an error adds its item, if any, to the items so far. */
  lemma {:induction false} CollectOkAt<T>(outs: seq<Outcome<Option<T>>>, i: nat, items: seq<T>)
    requires i < |outs| && Collect(outs[..i]) == Ok(items) && outs[i].Ok?
    ensures Collect(outs[..i + 1]) ==
      Ok(items + (if outs[i].value.Some? then [outs[i].value.value] else []))
  {
    CollectStep(outs, i);
  }

  /** An error after a prefix that collected is the result of the whole collection. */
  lemma {:induction false} CollectFailsAt<T>(outs: seq<Outcome<Option<T>>>, i: nat, items: seq<T>)
    requires i < |outs| && Collect(outs[..i]) == Ok(items) && outs[i].ValueError?
    ensures Collect(outs) == ValueError(outs[i].text)
  {
    CollectStopsAt(outs, i);
  }

  /** One more outcome: the items so far, then what that outcome adds. */
  lemma {:induction false} CollectStep<T>(outs: seq<Outcome<Option<T>>>, i: nat)
    requires i < |outs|
    ensures Collect(outs[..i + 1]) ==
      match Collect(outs[..i])
      case ValueError(t) => ValueError(t)
      case Ok(x) =>
        match outs[i]
        case ValueError(t) => ValueError(t)
        case Ok(item) => Ok(x + (if item.Some? then [item.value] else []))
  {
    assert outs[..i + 1][..i] == outs[..i];
  }

  /** Collecting two runs one after the other: the first run's items, then the second's. */
  lemma {:induction false} CollectAppend<T>(a: seq<Outcome<Option<T>>>, b: seq<Outcome<Option<T>>>)
    ensures Collect(a + b) ==
      match Collect(a)
      case ValueError(t) => ValueError(t)
      case Ok(x) =>
        match Collect(b)
        case ValueError(t) => ValueError(t)
        case Ok(y) => Ok(x + y)
    decreases |b|
  {
    if b == [] {
      assert a + b == a;
      if Collect(a).Ok? {
        assert Collect(a).value + [] == Collect(a).value;
      }
    } else {
      var b' := b[..|b| - 1];
      assert (a + b)[..|a + b| - 1] == a + b';
      assert (a + b)[|a + b| - 1] == b[|b| - 1];
      CollectAppend(a, b');
      if Collect(a).Ok? && Collect(b').Ok? && b[|b| - 1].Ok? {
        var x, y := Collect(a).value, Collect(b').value;
        var item := b[|b| - 1].value;
        var z := if item.Some? then [item.value] else [];
        assert (x + y) + z == x + (y + z);
      }
    }
  }

  /** The first outcome that is a ValueError decides the whole collection. */
  lemma {:induction false} CollectStopsAt<T>(outs: seq<Outcome<Option<T>>>, i: nat)
    requires i < |outs| && Collect(outs[..i]).Ok? && outs[i].ValueError?
    ensures Collect(outs) == ValueError(outs[i].text)
  {
    CollectStep(outs, i);
    CollectAppend(outs[..i + 1], outs[i + 1..]);
    assert outs[..i + 1] + outs[i + 1..] == outs;
  }

  /** Parsing two runs of lines one after the other: items of the first run, then items of the second. */
  lemma {:induction false} ItemsOfLinesAppend(a: seq<string>, b: seq<string>)
    ensures ItemsOfLines(a + b) ==
      match ItemsOfLines(a)
      case ValueError(t) => ValueError(t)
      case Ok(x) =>
        match ItemsOfLines(b)
        case ValueError(t) => ValueError(t)
        case Ok(y) => Ok(x + y)
  {
    MapEachAppend(a, b, ParseLine);
    CollectAppend(ParsedLines(a), ParsedLines(b));
  }

  /** The items of two texts joined by a newline are the items of the first followed by those of the second. */
  lemma {:induction false} ItemsOfJoinedText(t1: string, t2: string)
    requires ItemsOfLines(Lines(t1)).Ok? && ItemsOfLines(Lines(t2)).Ok?
    ensures ItemsOfLines(Lines(t1 + "\n" + t2)) == Ok(ItemsOfLines(Lines(t1)).value + ItemsOfLines(Lines(t2)).value)
  {
    LinesAppend(t1, '\n', t2);
    ItemsOfLinesAppend(Lines(t1), Lines(t2));
  }

  /**
   * Each collected item comes from its own outcome: the positions that
   * produced the items, in increasing order.
   */
  lemma {:induction false} CollectSources<T>(outs: seq<Outcome<Option<T>>>) returns (idx: seq<nat>)
    requires Collect(outs).Ok?
    ensures var items := Collect(outs).value;
      && |idx| == |items|
      && (forall k :: 0 <= k < |idx| ==> idx[k] < |outs| && outs[idx[k]] == Ok(Some(items[k])))
      && (forall k, l :: 0 <= k < l < |idx| ==> idx[k] < idx[l])
  {
    if outs == [] {
      idx := [];
    } else {
      var init := outs[..|outs| - 1];
      idx := CollectSources(init);
      assert forall k :: 0 <= k < |idx| ==> outs[idx[k]] == init[idx[k]];
      var item := outs[|outs| - 1].value;
      if item.Some? {
        idx := idx + [|outs| - 1];
      }
    }
  }

  /** A line that yields an item is not a summary line. */
  lemma {:induction false} ItemLineIsNotSummary(line: string)
    requires ParseLine(line).Ok? && ParseLine(line).value.Some?
    ensures !IsSummaryLine(line)
  {
  }

  /**
   * Each item comes from its own line: the lines that produced the items, in
   * increasing order, none of them a summary line, each parsing to the item.
   */
  lemma {:induction false} ItemSources(lines: seq<string>) returns (idx: seq<nat>)
    requires ItemsOfLines(lines).Ok?
    ensures var items := ItemsOfLines(lines).value;
      && |idx| == |items|
      && (forall k :: 0 <= k < |idx| ==> idx[k] < |lines| && !IsSummaryLine(lines[idx[k]]))
      && (forall k :: 0 <= k < |idx| ==> ParseLine(lines[idx[k]]) == Ok(Some(items[k])))
      && (forall k, l :: 0 <= k < l < |idx| ==> idx[k] < idx[l])
  {
    idx := CollectSources(ParsedLines(lines));
    forall k | 0 <= k < |idx| ensures !IsSummaryLine(lines[idx[k]]) {
      ItemLineIsNotSummary(lines[idx[k]]);
    }
  }

  /** Only the quantity strategy fills in unit price and quantity, and it always fills in both. */
  lemma {:induction false} OnlyQuantityStrategySetsUnitPrice(line: string)
    requires ParseLine(line).Ok? && ParseLine(line).value.Some?
    ensures !IsSummaryLine(line)
    ensures var item := ParseLine(line).value.value;
      && (item.unitPrice.Some? <==> QuantityMatch(line).Some?)
      && (item.quantity.Some? <==> QuantityMatch(line).Some?)
  {
  }

  /** When neither of the first two patterns matches, the last amount on the line is the item's amount. */
  lemma {:induction false} FallbackTakesLastAmount(line: string)
    requires !IsSummaryLine(line) && QuantityMatch(line).None? && TrailingAmount(line).None?
    requires AmountTokens(line) != []
    ensures var last := AmountTokens(line)[|AmountTokens(line)| - 1];
      ParseLine(line) ==
        match NormMoney(last.number)
        case ValueError(t) => ValueError(t)
        case Ok(v) => Ok(Some(LineItem(StripChars(WithoutAmounts(line), DescriptionTrim), None, None, v)))
  {
  }

  lemma {:induction false} LowerSummaryKeywords()
    ensures Lower(SummaryKeywords[0]) == "total" && Lower(SummaryKeywords[1]) == "subtotal"
    ensures Lower(SummaryKeywords[2]) == "grand total" && Lower(SummaryKeywords[3]) == "discount"
    ensures Lower(SummaryKeywords[4]) == "cgst" && Lower(SummaryKeywords[5]) == "sgst"
    ensures Lower(SummaryKeywords[6]) == "round off"
  {
    LowerWord("Total", "total");
    LowerWord("Subtotal", "subtotal");
    LowerWord("Grand Total", "grand total");
    LowerWord("Discount", "discount");
    LowerWord("CGST", "cgst");
    LowerWord("SGST", "sgst");
    LowerWord("Round Off", "round off");
  }

  lemma {:induction false} LowerWord(w: string, l: string)
    requires |w| == |l| && forall i :: 0 <= i < |w| ==> LowerChar(w[i]) == l[i]
    ensures Lower(w) == l
  {
  }

  /** "Subtotal" and "Grand Total" both contain "total". */
  lemma {:induction false} LongerTotalsContainTotal(l: string)
    ensures Contains(l, "subtotal") ==> Contains(l, "total")
    ensures Contains(l, "grand total") ==> Contains(l, "total")
  {
    if Contains(l, "subtotal") {
      assert "subtotal"[3..8] == "total";
      ContainsAt("subtotal", "total", 3);
      ContainsTransitive(l, "subtotal", "total");
    }
    if Contains(l, "grand total") {
      assert "grand total"[6..11] == "total";
      ContainsAt("grand total", "total", 6);
      ContainsTransitive(l, "grand total", "total");
    }
  }

  /** The summary filter: the seven keywords reduce to five, because "Subtotal" and "Grand Total" contain "Total". */
  lemma {:induction false} SummaryLineKeywords(line: string)
    ensures IsSummaryLine(line) <==>
      || Contains(Lower(line), "total") || Contains(Lower(line), "discount")
      || Contains(Lower(line), "cgst") || Contains(Lower(line), "sgst") || Contains(Lower(line), "round off")
  {
    LowerSummaryKeywords();
    LongerTotalsContainTotal(Lower(line));
  }

  // ---------------------------------------------------------------------------
  // Printed totals

  /** The keys of the totals mapping; KeyName gives the text of each key. */
  datatype TotalKey =
    | TotalAmount | Discount | Cgst | Sgst | Igst | TotalTax | GrandTotal | RoundOff | FinalAmountPrinted

  function KeyName(k: TotalKey): string {
    match k
    case TotalAmount => "total_amount"
    case Discount => "discount"
    case Cgst => "CGST"
    case Sgst => "SGST"
    case Igst => "IGST"
    case TotalTax => "total_tax"
    case GrandTotal => "grand_total"
    case RoundOff => "round_off"
    case FinalAmountPrinted => "final_amount_printed"
  }

  /** The labels searched for and the keys their amounts are stored under, in search order. */
  const TotalsTable: seq<(string, TotalKey)> := [
    ("Total Amount", TotalAmount),
    ("Discount", Discount),
    ("CGST", Cgst),
    ("SGST", Sgst),
    ("IGST", Igst),
    ("Total Tax", TotalTax),
    ("Grand Total", GrandTotal),
    ("Round Off", RoundOff),
    ("Final Amount", FinalAmountPrinted)
  ]

  /** The position of each key's entry in the table. */
  function KeyIndex(k: TotalKey): nat {
    match k
    case TotalAmount => 0
    case Discount => 1
    case Cgst => 2
    case Sgst => 3
    case Igst => 4
    case TotalTax => 5
    case GrandTotal => 6
    case RoundOff => 7
    case FinalAmountPrinted => 8
  }

  /** No key is stored by two entries of a table. */
  predicate DistinctKeys<X>(table: seq<(X, TotalKey)>) {
    forall j, l :: 0 <= j < l < |table| ==> table[j].1 != table[l].1
  }

  function KeysOf<X>(table: seq<(X, TotalKey)>): set<TotalKey> {
    set j | 0 <= j < |table| :: table[j].1
  }

  /** Every key has exactly one entry in the table. */
  lemma {:induction false} TotalsTableKeys()
    ensures DistinctKeys(TotalsTable)
    ensures forall k: TotalKey :: k in KeysOf(TotalsTable)
  {
    assert forall j :: 0 <= j < |TotalsTable| ==> KeyIndex(TotalsTable[j].1) == j;
    forall k: TotalKey ensures k in KeysOf(TotalsTable) {
      assert TotalsTable[KeyIndex(k)].1 == k;
    }
  }

  /** A `₹[\d,]+` capture, as the amount patterns return it. */
  predicate IsRupeeCapture(a: string) {
    |a| >= 1 && a[0] == Rupee && forall k :: 1 <= k < |a| ==> IsDigitOrComma(a[k])
  }

  /** The whole number a rupee capture denotes: its digits in order, the commas ignored. */
  function CaptureNumber(a: string): nat
    requires IsRupeeCapture(a)
  {
    AmountCaptureDigits(a);
    CommaFreeDigits(RemoveChar(a, Rupee));
    DigitsValue(RemoveChar(RemoveChar(a, Rupee), ','))
  }

  /** No character of the text is a digit. */
  predicate NoDigits(a: string) {
    forall k :: 0 <= k < |a| ==> !IsAsciiDigit(a[k])
  }

  /** A rupee capture loses every character to the two removals exactly when it has no digit. */
  lemma {:induction false} CaptureDigitsEmpty(a: string)
    requires IsRupeeCapture(a)
    ensures RemoveChar(RemoveChar(a, Rupee), ',') == [] <==> NoDigits(a)
  {
    var d := RemoveChar(RemoveChar(a, Rupee), ',');
    if d == [] {
      forall k | 0 <= k < |a| ensures !IsAsciiDigit(a[k]) {
        assert a[k] in a;
      }
    } else {
      assert d[0] in RemoveChar(a, Rupee) && d[0] != ',';
      assert d[0] in a && d[0] != Rupee;
      var k :| 0 <= k < |a| && a[k] == d[0];
      assert IsAsciiDigit(a[k]);
    }
  }

  /** The value the first amount after `name` gives when there is one. */
  function FirstAmount(text: string, name: string): Option<real> {
    match LabelledAmount(text, [name])
    case None => None
    case Some(c) => Some(CaptureNumber(c.amount) as real)
  }

  /** The first amount after `name` has no digit in it. */
  predicate CaptureWithoutDigits(text: string, name: string) {
    LabelledAmount(text, [name]).Some? && NoDigits(LabelledAmount(text, [name]).value.amount)
  }

  /**
   * One `find(label, key)`: the first amount after the label, if any, as a
   * whole number; a capture with no digit makes `float("")` fail.
   */
  function FindTotal(text: string, name: string): (r: Outcome<Option<real>>)
    ensures r.Ok? ==> (r.value.Some? <==> LabelledAmount(text, [name]).Some?)
    ensures r.Ok? && r.value.Some? ==> r.value.value >= 0.0 && IsWhole(r.value.value)
    ensures r.ValueError? ==> r.text == []
    ensures r.Ok? ==> r.value == FirstAmount(text, name)
    ensures r.ValueError? <==> CaptureWithoutDigits(text, name)
  {
    match LabelledAmount(text, [name])
    case None => Ok(None)
    case Some(c) =>
      var digits := RemoveChar(c.amount, Rupee);
      AmountCaptureDigits(c.amount);
      NormMoneyOfDigitsAndCommas(digits);
      CaptureDigitsEmpty(c.amount);
      var v :- NormMoney(digits);
      Ok(Some(v))
  }

  /** A `₹[\d,]+` capture without its rupee sign holds only digits and commas. */
  lemma {:induction false} AmountCaptureDigits(a: string)
    requires |a| >= 1 && a[0] == Rupee
    requires forall k :: 1 <= k < |a| ==> IsDigitOrComma(a[k])
    ensures forall k :: 0 <= k < |RemoveChar(a, Rupee)| ==> IsDigitOrComma(RemoveChar(a, Rupee)[k])
  {
    var digits := RemoveChar(a, Rupee);
    forall k | 0 <= k < |digits| ensures IsDigitOrComma(digits[k]) {
      assert digits[k] in digits;
      assert digits[k] in a;
      var j :| 0 <= j < |a| && a[j] == digits[k];
      assert j != 0;
    }
  }

  /** Each entry's find, beside the key its amount is stored under. */
  function FindsOf(text: string, table: seq<(string, TotalKey)>): (r: seq<(Outcome<Option<real>>, TotalKey)>)
    ensures |r| == |table|
    ensures forall j :: 0 <= j < |table| ==> r[j] == (FindTotal(text, table[j].0), table[j].1)
  {
    seq(|table|, j requires 0 <= j < |table| => (FindTotal(text, table[j].0), table[j].1))
  }

  /** Storing the found amounts in order; the first failing find ends it. */
  function Store(finds: seq<(Outcome<Option<real>>, TotalKey)>): Outcome<map<TotalKey, real>> {
    if finds == [] then Ok(map[])
    else
      var totals :- Store(finds[..|finds| - 1]);
      var found :- finds[|finds| - 1].0;
      Ok(if found.Some? then totals[finds[|finds| - 1].1 := found.value] else totals)
  }

  /** The totals map after the finds of a table's entries, in order. */
  function TotalsOver(text: string, table: seq<(string, TotalKey)>): Outcome<map<TotalKey, real>> {
    Store(FindsOf(text, table))
  }

  /** One more find: the amounts so far, then that find's amount. */
  lemma {:induction false} StoreStep(finds: seq<(Outcome<Option<real>>, TotalKey)>, i: nat)
    requires i < |finds|
    ensures Store(finds[..i + 1]) ==
      match Store(finds[..i])
      case ValueError(t) => ValueError(t)
      case Ok(totals) =>
        match finds[i].0
        case ValueError(t) => ValueError(t)
        case Ok(found) => Ok(if found.Some? then totals[finds[i].1 := found.value] else totals)
  {
    assert finds[..i + 1][..i] == finds[..i];
  }

  /** Once a find fails, storing any longer prefix fails in the same way. */
  lemma {:induction false} StoreErrorPersists(finds: seq<(Outcome<Option<real>>, TotalKey)>, n: nat, m: nat)
    requires n <= m <= |finds|
    requires Store(finds[..n]).ValueError?
    ensures Store(finds[..m]) == Store(finds[..n])
    decreases m
  {
    if m > n {
      StoreErrorPersists(finds, n, m - 1);
      StoreStep(finds, m - 1);
    }
  }

  /**
   * With distinct keys, a key is stored exactly when its find found an
   * amount, and holds that amount; no other key is stored.
   */
  lemma {:induction false} StoreContents(finds: seq<(Outcome<Option<real>>, TotalKey)>)
    requires DistinctKeys(finds) && Store(finds).Ok?
    ensures var totals := Store(finds).value;
      && totals.Keys <= KeysOf(finds)
      && (forall j :: 0 <= j < |finds| ==> finds[j].0.Ok?)
      && (forall j :: 0 <= j < |finds| ==> (finds[j].1 in totals <==> finds[j].0.value.Some?))
      && (forall j :: 0 <= j < |finds| && finds[j].1 in totals ==> totals[finds[j].1] == finds[j].0.value.value)
    decreases |finds|
  {
    if finds != [] {
      var init := finds[..|finds| - 1];
      var last := finds[|finds| - 1];
      assert forall j :: 0 <= j < |init| ==> init[j] == finds[j] && init[j].1 != last.1;
      assert DistinctKeys(init);
      StoreContents(init);
      var before := Store(init).value;
      assert last.1 !in before;
      var found := last.0.value;
      var totals := Store(finds).value;
      assert totals == if found.Some? then before[last.1 := found.value] else before;
      forall j | 0 <= j < |finds|
        ensures finds[j].0.Ok? && (finds[j].1 in totals <==> finds[j].0.value.Some?)
        ensures finds[j].1 in totals ==> totals[finds[j].1] == finds[j].0.value.value
      {
        if j < |init| {
          assert finds[j] == init[j] && finds[j].1 != last.1;
        }
      }
      assert KeysOf(finds) == KeysOf(init) + {last.1} by {
        KeysOfStep(init, last);
        assert init + [last] == finds;
      }
    }
  }

  lemma {:induction false} KeysOfStep<X>(table: seq<(X, TotalKey)>, e: (X, TotalKey))
    ensures KeysOf(table + [e]) == KeysOf(table) + {e.1}
  {
    var t := table + [e];
    assert forall j :: 0 <= j < |table| ==> t[j] == table[j];
    assert t[|table|] == e;
  }

  /** What each find says: it fails only on a capture without digits, finds exactly when the label has an amount after it, and finds whole numbers. */
  lemma {:induction false} FindsOfFacts(text: string, table: seq<(string, TotalKey)>)
    ensures var finds := FindsOf(text, table);
      forall j :: 0 <= j < |finds| && finds[j].0.Ok? ==>
        && (finds[j].0.value.Some? <==> LabelledAmount(text, [table[j].0]).Some?)
        && (finds[j].0.value.Some? ==> finds[j].0.value.value >= 0.0 && IsWhole(finds[j].0.value.value))
        && finds[j].0.value == FirstAmount(text, table[j].0)
  {
  }

  /** Storing succeeds exactly when every find does. */
  lemma {:induction false} StoreOk(finds: seq<(Outcome<Option<real>>, TotalKey)>)
    ensures Store(finds).Ok? <==> forall j :: 0 <= j < |finds| ==> finds[j].0.Ok?
    decreases |finds|
  {
    if finds != [] {
      var init := finds[..|finds| - 1];
      assert forall j :: 0 <= j < |init| ==> init[j] == finds[j];
      StoreOk(init);
    }
  }

  /** The totals fail exactly when the first amount after one of the labels has no digit. */
  lemma {:induction false} TotalsFail(text: string)
    ensures TotalsOver(text, TotalsTable).Ok? <==>
      forall i :: 0 <= i < |TotalsTable| ==> !CaptureWithoutDigits(text, TotalsTable[i].0)
  {
    StoreOk(FindsOf(text, TotalsTable));
  }

  /** Whatever every find promises of its amount, every stored amount satisfies. */
  lemma {:induction false} StoreValues(finds: seq<(Outcome<Option<real>>, TotalKey)>, p: real -> bool)
    requires Store(finds).Ok?
    requires forall j :: 0 <= j < |finds| && finds[j].0.Ok? && finds[j].0.value.Some? ==> p(finds[j].0.value.value)
    ensures forall k :: k in Store(finds).value ==> p(Store(finds).value[k])
    decreases |finds|
  {
    if finds != [] {
      StoreValues(finds[..|finds| - 1], p);
    }
  }

  /**
   * extract_totals: each key present exactly when its label is followed by an
   * amount, holding a non-negative whole number.
   */
  method ExtractTotals(text: string) returns (r: Outcome<map<TotalKey, real>>)
    ensures r == TotalsOver(text, TotalsTable)
    ensures r.Ok? ==> forall i :: 0 <= i < |TotalsTable| ==>
      (TotalsTable[i].1 in r.value <==> LabelledAmount(text, [TotalsTable[i].0]).Some?)
    ensures r.Ok? ==> forall k :: k in r.value ==> r.value[k] >= 0.0 && IsWhole(r.value[k])
    ensures r.Ok? ==> forall i :: 0 <= i < |TotalsTable| && TotalsTable[i].1 in r.value ==>
      Some(r.value[TotalsTable[i].1]) == FirstAmount(text, TotalsTable[i].0)
    ensures r.Ok? <==> forall i :: 0 <= i < |TotalsTable| ==> !CaptureWithoutDigits(text, TotalsTable[i].0)
    ensures r.ValueError? ==> r.text == []
  {
    ghost var finds := FindsOf(text, TotalsTable);
    var totals: map<TotalKey, real> := map[];
    for i := 0 to |TotalsTable|
      invariant Store(finds[..i]) == Ok(totals)
    {
      var name, key := TotalsTable[i].0, TotalsTable[i].1;
      var found := FindTotal(text, name);
      assert finds[i] == (found, key);
      if found.ValueError? {
        StoreFailsAt(finds, i, totals);
        TotalsFail(text);
        return ValueError(found.text);
      }
      StoreFoundAt(finds, i, totals);
      if found.value.Some? {
        totals := totals[key := found.value.value];
      }
    }
    assert finds[..|finds|] == finds;
    r := Ok(totals);
    TotalsContents(text, totals);
    TotalsFail(text);
  }

  /** A find that succeeds after the earlier ones did: its amount, if any, joins the totals. */
  lemma {:induction false} StoreFoundAt(finds: seq<(Outcome<Option<real>>, TotalKey)>, i: nat, totals: map<TotalKey, real>)
    requires i < |finds| && Store(finds[..i]) == Ok(totals) && finds[i].0.Ok?
    ensures var found := finds[i].0.value;
      Store(finds[..i + 1]) == Ok(if found.Some? then totals[finds[i].1 := found.value] else totals)
  {
    StoreStep(finds, i);
  }

  /** A find that fails after the earlier ones succeeded: its failure is the failure of all. */
  lemma {:induction false} StoreFailsAt(finds: seq<(Outcome<Option<real>>, TotalKey)>, i: nat, totals: map<TotalKey, real>)
    requires i < |finds| && Store(finds[..i]) == Ok(totals) && finds[i].0.ValueError?
    ensures Store(finds) == ValueError(finds[i].0.text)
  {
    StoreStep(finds, i);
    StoreErrorPersists(finds, i + 1, |finds|);
    assert finds[..|finds|] == finds;
  }

  lemma {:induction false} TotalsContents(text: string, totals: map<TotalKey, real>)
    requires TotalsOver(text, TotalsTable) == Ok(totals)
    ensures forall i :: 0 <= i < |TotalsTable| ==>
      (TotalsTable[i].1 in totals <==> LabelledAmount(text, [TotalsTable[i].0]).Some?)
    ensures forall k :: k in totals ==> totals[k] >= 0.0 && IsWhole(totals[k])
    ensures forall i :: 0 <= i < |TotalsTable| && TotalsTable[i].1 in totals ==>
      Some(totals[TotalsTable[i].1]) == FirstAmount(text, TotalsTable[i].0)
  {
    TotalsTableKeys();
    TableContents(text, TotalsTable, totals);
  }

  /** What the totals map of any table with distinct keys holds. */
  lemma {:induction false} TableContents(text: string, table: seq<(string, TotalKey)>, totals: map<TotalKey, real>)
    requires DistinctKeys(table) && TotalsOver(text, table) == Ok(totals)
    ensures forall i :: 0 <= i < |table| ==>
      (table[i].1 in totals <==> LabelledAmount(text, [table[i].0]).Some?)
    ensures forall k :: k in totals ==> totals[k] >= 0.0 && IsWhole(totals[k])
    ensures forall i :: 0 <= i < |table| && table[i].1 in totals ==>
      Some(totals[table[i].1]) == FirstAmount(text, table[i].0)
  {
    var finds := FindsOf(text, table);
    assert DistinctKeys(finds);
    FindsOfFacts(text, table);
    var wanted := seq(|table|, j requires 0 <= j < |table| => FirstAmount(text, table[j].0));
    StoreAgrees(finds, wanted);
    StoreValues(finds, x => x >= 0.0 && IsWhole(x));
  }

  /** When every find that succeeds finds what `wanted` says, the stored map is `wanted` keyed by the entries' keys. */
  lemma {:induction false} StoreAgrees(finds: seq<(Outcome<Option<real>>, TotalKey)>, wanted: seq<Option<real>>)
    requires DistinctKeys(finds) && Store(finds).Ok? && |wanted| == |finds|
    requires forall j :: 0 <= j < |finds| && finds[j].0.Ok? ==> finds[j].0.value == wanted[j]
    ensures forall j :: 0 <= j < |finds| ==> (finds[j].1 in Store(finds).value <==> wanted[j].Some?)
    ensures forall j :: 0 <= j < |finds| && finds[j].1 in Store(finds).value ==>
      Some(Store(finds).value[finds[j].1]) == wanted[j]
  {
    StoreContents(finds);
  }
}
