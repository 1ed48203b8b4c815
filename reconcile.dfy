/**
 * services/reconcile.py: de-duplication of line items, their rounded sum,
 * the final-total policy, the tax breakdown built from the printed totals,
 * and the subtotal search.
 */
module Reconcile {
  import opened Results
  import opened Text
  import opened Decimal
  import opened Patterns
  import opened Schema
  import opened Parser

  // ---------------------------------------------------------------------------
  // Deduplication

  /** What makes two items the same: the description lower-cased then stripped, and the amount rounded to cents. */
  type ItemKey = (string, real)

  function KeyOf(it: LineItem): (k: ItemKey)
    ensures RoundsToCents(it.amount, k.1)
  {
    (Strip(Lower(it.description)), Round2(it.amount))
  }

  /** The keys of a sequence under a key function. */
  function KeysBy<T, K(==)>(s: seq<T>, key: T -> K): set<K> {
    set j | 0 <= j < |s| :: key(s[j])
  }

  predicate UniqueBy<T, K(==)>(s: seq<T>, key: T -> K) {
    forall j, l :: 0 <= j < l < |s| ==> key(s[j]) != key(s[l])
  }

  /** The elements kept: in order, each one whose key no earlier element had. */
  function DedupBy<T, K(==)>(s: seq<T>, key: T -> K): (r: seq<T>)
    ensures |r| <= |s|
  {
    if s == [] then []
    else
      var init := s[..|s| - 1];
      var last := s[|s| - 1];
      if key(last) in KeysBy(init, key) then DedupBy(init, key) else DedupBy(init, key) + [last]
  }

  /** The items deduplicate_items keeps. */
  function Dedup(items: seq<LineItem>): seq<LineItem> {
    DedupBy(items, KeyOf)
  }

  /** deduplicate_items: one pass with the set of keys seen so far. */
  method DeduplicateItems(items: seq<LineItem>) returns (out: seq<LineItem>)
    ensures out == Dedup(items)
  {
    var seen: set<ItemKey> := {};
    out := [];
    for i := 0 to |items|
      invariant seen == KeysBy(items[..i], KeyOf)
      invariant out == DedupBy(items[..i], KeyOf)
    {
      var it := items[i];
      var key := (Strip(Lower(it.description)), Round2(it.amount));
      assert key == KeyOf(it);
      DedupStep(items, i, KeyOf);
      if key !in seen {
        seen := seen + {key};
        out := out + [it];
      }
    }
    assert items[..|items|] == items;
  }

  /** One more element: its key joins the keys, and it is kept exactly when its key is new. */
  lemma {:induction false} DedupStep<T, K>(s: seq<T>, i: nat, key: T -> K)
    requires i < |s|
    ensures KeysBy(s[..i + 1], key) == KeysBy(s[..i], key) + {key(s[i])}
    ensures DedupBy(s[..i + 1], key) ==
      if key(s[i]) in KeysBy(s[..i], key) then DedupBy(s[..i], key) else DedupBy(s[..i], key) + [s[i]]
  {
    assert s[..i + 1][..i] == s[..i];
    KeysStep(s[..i], s[i], key);
    assert s[..i + 1] == s[..i] + [s[i]];
  }

  lemma {:induction false} KeysStep<T, K>(s: seq<T>, x: T, key: T -> K)
    ensures KeysBy(s + [x], key) == KeysBy(s, key) + {key(x)}
  {
    var t := s + [x];
    assert forall j :: 0 <= j < |s| ==> t[j] == s[j];
    assert t[|s|] == x;
  }

  /** Every key of the input is the key of some kept element, and no other key is. */
  lemma {:induction false} DedupKeys<T, K>(s: seq<T>, key: T -> K)
    ensures KeysBy(DedupBy(s, key), key) == KeysBy(s, key)
  {
    if s != [] {
      var init := s[..|s| - 1];
      var last := s[|s| - 1];
      assert s == init + [last];
      KeysStep(init, last, key);
      DedupKeys(init, key);
      if key(last) !in KeysBy(init, key) {
        KeysStep(DedupBy(init, key), last, key);
      }
    }
  }

  /** No two kept elements share a key. */
  lemma {:induction false} DedupUnique<T, K>(s: seq<T>, key: T -> K)
    ensures UniqueBy(DedupBy(s, key), key)
  {
    if s != [] {
      var init := s[..|s| - 1];
      var last := s[|s| - 1];
      DedupUnique(init, key);
      if key(last) !in KeysBy(init, key) {
        DedupKeys(init, key);
        var d := DedupBy(init, key);
        var r := d + [last];
        forall j, l | 0 <= j < l < |r| ensures key(r[j]) != key(r[l]) {
          if l == |d| {
            assert key(r[j]) in KeysBy(d, key);
          }
        }
      }
    }
  }

  /**
   * The kept elements are a subsequence of the input: element k sits at
   * position idx[k], the positions increase, and each is the first
   * occurrence of its key.
   */
  lemma {:induction false} DedupFirstOccurrences<T, K>(s: seq<T>, key: T -> K) returns (idx: seq<nat>)
    ensures |idx| == |DedupBy(s, key)|
    ensures forall k :: 0 <= k < |idx| ==> idx[k] < |s| && DedupBy(s, key)[k] == s[idx[k]]
    ensures forall k, l :: 0 <= k < l < |idx| ==> idx[k] < idx[l]
    ensures forall k, m :: 0 <= k < |idx| && 0 <= m < idx[k] ==> key(s[m]) != key(s[idx[k]])
  {
    if s == [] {
      idx := [];
    } else {
      var init := s[..|s| - 1];
      var last := s[|s| - 1];
      var idx0 := DedupFirstOccurrences(init, key);
      var d := DedupBy(init, key);
      assert forall m :: 0 <= m < |init| ==> s[m] == init[m];
      if key(last) !in KeysBy(init, key) {
        assert DedupBy(s, key) == d + [last];
        forall m | 0 <= m < |init| ensures key(s[m]) != key(last) {
          assert key(init[m]) in KeysBy(init, key);
        }
        idx := idx0 + [|s| - 1];
        forall k | 0 <= k < |idx| ensures idx[k] < |s| && DedupBy(s, key)[k] == s[idx[k]] {
          if k < |idx0| {
            assert DedupBy(s, key)[k] == d[k];
          }
        }
      } else {
        assert DedupBy(s, key) == d;
        idx := idx0;
      }
    }
  }

  /** An input whose keys are already distinct is kept whole. */
  lemma {:induction false} DedupOfUnique<T, K>(s: seq<T>, key: T -> K)
    requires UniqueBy(s, key)
    ensures DedupBy(s, key) == s
  {
    if s != [] {
      var init := s[..|s| - 1];
      var last := s[|s| - 1];
      assert forall j :: 0 <= j < |init| ==> s[j] == init[j];
      assert UniqueBy(init, key);
      DedupOfUnique(init, key);
      assert key(last) !in KeysBy(init, key) by {
        forall j | 0 <= j < |init| ensures key(init[j]) != key(last) {
          assert s[j] == init[j];
        }
      }
      assert s == init + [last];
    }
  }

  /** Deduplicating twice keeps what deduplicating once kept. */
  lemma {:induction false} DedupIdempotent(items: seq<LineItem>)
    ensures Dedup(Dedup(items)) == Dedup(items)
  {
    DedupUnique(items, KeyOf);
    DedupOfUnique(Dedup(items), KeyOf);
  }

  // ---------------------------------------------------------------------------
  // Sum of the items

  /** The amounts added left to right from zero, as `sum()` does. */
  function SumAmounts(items: seq<LineItem>): real {
    if items == [] then 0.0 else SumAmounts(items[..|items| - 1]) + items[|items| - 1].amount
  }

  /** sum_items: the sum, rounded to cents. */
  function SumItems(items: seq<LineItem>): (r: real)
    ensures RoundsToCents(SumAmounts(items), r)
  {
    Round2(SumAmounts(items))
  }

  lemma {:induction false} SumItemsEmpty()
    ensures SumItems([]) == 0.0
  {
    WholeIsCents(0);
    Round2OfCents(0.0);
  }

  lemma {:induction false} SumAmountsAppend(a: seq<LineItem>, b: seq<LineItem>)
    ensures SumAmounts(a + b) == SumAmounts(a) + SumAmounts(b)
    decreases |b|
  {
    if b == [] {
      assert a + b == a;
    } else {
      var b' := b[..|b| - 1];
      assert (a + b)[..|a + b| - 1] == a + b';
      SumAmountsAppend(a, b');
    }
  }

  /** Taking one item out lowers the sum by its amount. */
  lemma {:induction false} SumAmountsRemove(s: seq<LineItem>, i: nat)
    requires i < |s|
    ensures SumAmounts(s) == SumAmounts(s[..i] + s[i + 1..]) + s[i].amount
  {
    var pre, post := s[..i], s[i + 1..];
    var x := s[i];
    SplitAround(s, i);
    SumAmountsAppend(pre + [x], post);
    SumAmountsSnoc(pre, x);
    SumAmountsAppend(pre, post);
  }

  /** A sequence is the part before position i, the element there and the part after. */
  lemma {:induction false} SplitAround<T>(s: seq<T>, i: nat)
    requires i < |s|
    ensures s == (s[..i] + [s[i]]) + s[i + 1..]
  {
  }

  lemma {:induction false} SumAmountsSnoc(a: seq<LineItem>, x: LineItem)
    ensures SumAmounts(a + [x]) == SumAmounts(a) + x.amount
  {
    assert (a + [x])[..|a|] == a;
  }

  /** The sum does not depend on the order of the items. */
  lemma {:induction false} SumAmountsPermutation(a: seq<LineItem>, b: seq<LineItem>)
    requires multiset(a) == multiset(b)
    ensures SumAmounts(a) == SumAmounts(b)
    decreases |a|
  {
    if a == [] {
      assert |b| == |multiset(b)| == 0;
    } else {
      var i := MatchLast(a, b);
      SumAmountsPermutation(a[..|a| - 1], b[..i] + b[i + 1..]);
      SumAmountsRemove(b, i);
    }
  }

  /** The last element of `a` occurs in its permutation `b`, and the rests are permutations of each other. */
  lemma {:induction false} MatchLast<T>(a: seq<T>, b: seq<T>) returns (i: nat)
    requires a != [] && multiset(a) == multiset(b)
    ensures i < |b| && b[i] == a[|a| - 1]
    ensures multiset(a[..|a| - 1]) == multiset(b[..i] + b[i + 1..])
  {
    var x := a[|a| - 1];
    MultisetSnoc(a);
    assert x in multiset(b);
    i :| 0 <= i < |b| && b[i] == x;
    MultisetAround(b, i);
    MultisetCancel(multiset(a[..|a| - 1]), multiset(b[..i] + b[i + 1..]), x);
  }

  lemma {:induction false} MultisetSnoc<T>(a: seq<T>)
    requires a != []
    ensures multiset(a) == multiset(a[..|a| - 1]) + multiset{a[|a| - 1]}
  {
    assert a == a[..|a| - 1] + [a[|a| - 1]];
  }

  lemma {:induction false} MultisetAround<T>(b: seq<T>, i: nat)
    requires i < |b|
    ensures multiset(b) == multiset(b[..i] + b[i + 1..]) + multiset{b[i]}
  {
    assert b == (b[..i] + [b[i]]) + b[i + 1..];
    assert multiset(b[..i] + b[i + 1..]) == multiset(b[..i]) + multiset(b[i + 1..]);
  }

  lemma {:induction false} MultisetCancel<T>(m1: multiset<T>, m2: multiset<T>, x: T)
    requires m1 + multiset{x} == m2 + multiset{x}
    ensures m1 == m2
  {
    assert m1 == (m1 + multiset{x}) - multiset{x};
    assert m2 == (m2 + multiset{x}) - multiset{x};
  }

  lemma {:induction false} SumItemsPermutation(a: seq<LineItem>, b: seq<LineItem>)
    requires multiset(a) == multiset(b)
    ensures SumItems(a) == SumItems(b)
  {
    SumAmountsPermutation(a, b);
  }

  // ---------------------------------------------------------------------------
  // Final total

  /** Python's `x or 0` on an optional amount. */
  function OrZero(x: Option<real>): real {
    if x.Some? then x.value else 0.0
  }

  /**
   * compute_final_total: the printed final amount when there is one, otherwise
   * items less discount plus taxes plus round-off, rounded to cents.
   */
  function ComputeFinalTotal(itemsSum: real, discount: Option<real>, taxesTotal: Option<real>,
                             roundOff: Option<real>, printedFinal: Option<real>): (r: real)
    ensures printedFinal.Some? ==> r == printedFinal.value
    ensures printedFinal.None? ==>
      RoundsToCents(itemsSum - OrZero(discount) + OrZero(taxesTotal) + OrZero(roundOff), r)
  {
    var computed := Round2(itemsSum - OrZero(discount) + OrZero(taxesTotal) + OrZero(roundOff));
    if printedFinal.Some? then printedFinal.value else computed
  }

  /** A missing component counts as zero. */
  lemma {:induction false} MissingComponentsCountAsZero(itemsSum: real, d: Option<real>, t: Option<real>, o: Option<real>)
    ensures ComputeFinalTotal(itemsSum, d, t, o, None) ==
      ComputeFinalTotal(itemsSum, Some(OrZero(d)), Some(OrZero(t)), Some(OrZero(o)), None)
    ensures ComputeFinalTotal(itemsSum, None, None, None, None) == Round2(itemsSum)
  {
  }

  lemma {:induction false} CentsClosed(x: real, y: real)
    requires IsCents(x) && IsCents(y)
    ensures IsCents(x + y) && IsCents(x - y)
  {
    var a := (x * 100.0).Floor;
    var b := (y * 100.0).Floor;
    assert x * 100.0 == a as real && y * 100.0 == b as real;
    assert (x + y) * 100.0 == (a + b) as real;
    assert (x - y) * 100.0 == (a - b) as real;
    FloorOfWhole(a + b);
    FloorOfWhole(a - b);
  }

  lemma {:induction false} FloorOfWhole(n: int)
    ensures (n as real).Floor == n
  {
  }

  /** With no printed value and every amount in whole cents, the computed total is exact. */
  lemma {:induction false} ComputedTotalOfCents(itemsSum: real, d: Option<real>, t: Option<real>, o: Option<real>)
    requires IsCents(itemsSum) && IsCents(OrZero(d)) && IsCents(OrZero(t)) && IsCents(OrZero(o))
    ensures ComputeFinalTotal(itemsSum, d, t, o, None) == itemsSum - OrZero(d) + OrZero(t) + OrZero(o)
  {
    CentsClosed(itemsSum, OrZero(d));
    CentsClosed(itemsSum - OrZero(d), OrZero(t));
    CentsClosed(itemsSum - OrZero(d) + OrZero(t), OrZero(o));
    Round2OfCents(itemsSum - OrZero(d) + OrZero(t) + OrZero(o));
  }

  /** Items of 500 with a discount of 50 and taxes of 45 come to 495; a printed 600 overrides that. */
  lemma {:induction false} FinalTotalScenario()
    ensures ComputeFinalTotal(500.0, Some(50.0), Some(45.0), None, None) == 495.0
    ensures ComputeFinalTotal(500.0, Some(50.0), Some(45.0), None, Some(600.0)) == 600.0
  {
    WholeIsCents(495);
    Round2OfCents(495.0);
  }

  // ---------------------------------------------------------------------------
  // Tax breakdown

  /** The tax codes copied into the breakdown, in order. */
  const TaxCodes: seq<TotalKey> := [Cgst, Sgst, Igst]

  function Get(totals: map<TotalKey, real>, k: TotalKey): Option<real> {
    if k in totals then Some(totals[k]) else None
  }

  lemma {:induction false} TaxNamesDistinct()
    ensures forall j, l :: 0 <= j < l < |TaxCodes| ==> KeyName(TaxCodes[j]) != KeyName(TaxCodes[l])
  {
    assert KeyName(Cgst)[0] == 'C' && KeyName(Sgst)[0] == 'S' && KeyName(Igst)[0] == 'I';
  }

  /** The values of the names present in the mapping, added in the order of the names. */
  function SumPresent(details: map<string, real>, names: seq<string>): real {
    if names == [] then 0.0
    else
      var n := names[|names| - 1];
      SumPresent(details, names[..|names| - 1]) + (if n in details then details[n] else 0.0)
  }

  /** Over the three codes, the sum of what is present is each code's amount or zero. */
  lemma {:induction false} SumPresentOfCodes(details: map<string, real>, totals: map<TotalKey, real>)
    requires forall k :: k in TaxCodes ==> (KeyName(k) in details <==> k in totals)
    requires forall k :: k in TaxCodes && k in totals ==> details[KeyName(k)] == totals[k]
    ensures SumPresent(details, [KeyName(Cgst), KeyName(Sgst), KeyName(Igst)]) ==
      OrZero(Get(totals, Cgst)) + OrZero(Get(totals, Sgst)) + OrZero(Get(totals, Igst))
  {
    var names := [KeyName(Cgst), KeyName(Sgst), KeyName(Igst)];
    assert TaxCodes[0] == Cgst && TaxCodes[1] == Sgst && TaxCodes[2] == Igst;
    assert names[..2] == [KeyName(Cgst), KeyName(Sgst)];
    assert names[..2][..1] == [KeyName(Cgst)];
    assert names[..2][..1][..0] == [];
    assert SumPresent(details, names[..2][..1]) == OrZero(Get(totals, Cgst));
    assert SumPresent(details, names[..2]) == OrZero(Get(totals, Cgst)) + OrZero(Get(totals, Sgst));
  }

  /**
   * build_taxes_dict: the breakdown holds exactly the codes CGST, SGST and
   * IGST present in the totals, with their values; the aggregate is the
   * printed total tax, else the sum of the breakdown, else nothing.
   */
  method BuildTaxesDict(totals: map<TotalKey, real>) returns (taxes: Taxes)
    ensures taxes.details.Keys <= {KeyName(Cgst), KeyName(Sgst), KeyName(Igst)}
    ensures forall k :: k in TaxCodes ==> (KeyName(k) in taxes.details <==> k in totals)
    ensures forall k :: k in TaxCodes && k in totals ==> taxes.details[KeyName(k)] == totals[k]
    ensures TotalTax in totals ==> taxes.totalTax == Some(totals[TotalTax])
    ensures TotalTax !in totals && taxes.details == map[] ==> taxes.totalTax == None
    ensures TotalTax !in totals && taxes.details != map[] ==>
      taxes.totalTax == Some(OrZero(Get(totals, Cgst)) + OrZero(Get(totals, Sgst)) + OrZero(Get(totals, Igst)))
  {
    TaxNamesDistinct();
    var details: map<string, real> := map[];
    for i := 0 to |TaxCodes|
      invariant details.Keys <= {KeyName(Cgst), KeyName(Sgst), KeyName(Igst)}
      invariant forall j :: 0 <= j < i ==> (KeyName(TaxCodes[j]) in details <==> TaxCodes[j] in totals)
      invariant forall j :: i <= j < |TaxCodes| ==> KeyName(TaxCodes[j]) !in details
      invariant forall j :: 0 <= j < i && TaxCodes[j] in totals ==> details[KeyName(TaxCodes[j])] == totals[TaxCodes[j]]
    {
      var k := TaxCodes[i];
      if k in totals {
        details := details[KeyName(k) := totals[k]];
      }
    }
    var total: Option<real>;
    if TotalTax in totals {
      total := Some(totals[TotalTax]);
    } else if |details| > 0 {
      total := Some(SumPresent(details, [KeyName(Cgst), KeyName(Sgst), KeyName(Igst)]));
      SumPresentOfCodes(details, totals);
    } else {
      total := None;
    }
    taxes := Taxes(details, total);
  }

  // ---------------------------------------------------------------------------
  // Subtotals

  /** The labels the subtotal search accepts. */
  const SubtotalLabels: seq<string> := ["Subtotal", "Total Amount"]

  /**
   * compute_subtotals: the first "Subtotal" or "Total Amount" (any case)
   * followed later by a rupee amount gives one entry with the label as
   * written and the amount as a number; no such label gives none. The item
   * list passed in is not consulted.
   */
  function ComputeSubtotals(text: string, items: seq<LineItem>): (r: Outcome<seq<SubTotal>>)
    ensures r.Ok? ==> |r.value| <= 1
    ensures r.Ok? ==> (r.value == [] <==> LabelledAmount(text, SubtotalLabels).None?)
    ensures r.Ok? && r.value != [] ==>
      exists k :: 0 <= k < |SubtotalLabels| && Lower(r.value[0].labelText) == Lower(SubtotalLabels[k])
    ensures r.Ok? && r.value != [] ==> r.value[0].amount >= 0.0 && IsWhole(r.value[0].amount)
    ensures r.ValueError? ==> LabelledAmount(text, SubtotalLabels).Some? && r.text == []
    ensures r.Ok? && r.value != [] ==>
      var c := LabelledAmount(text, SubtotalLabels).value;
      r.value[0] == SubTotal(c.name, CaptureNumber(c.amount) as real)
    ensures r.ValueError? <==>
      LabelledAmount(text, SubtotalLabels).Some? && NoDigits(LabelledAmount(text, SubtotalLabels).value.amount)
  {
    match LabelledAmount(text, SubtotalLabels)
    case None => Ok([])
    case Some(c) =>
      CaptureValue(c.amount);
      var v :- FloatOf(RemoveChar(RemoveChar(c.amount, Rupee), ','));
      Ok([SubTotal(c.name, v)])
  }

  /**
   * `float()` of a `₹[\d,]+` capture with its rupee sign and commas removed:
   * the same as normalising it, failing only with an empty text, and a
   * non-negative whole number otherwise.
   */
  lemma {:induction false} CaptureValue(a: string)
    requires |a| >= 1 && a[0] == Rupee
    requires forall k :: 1 <= k < |a| ==> IsDigitOrComma(a[k])
    ensures FloatOf(RemoveChar(RemoveChar(a, Rupee), ',')) == NormMoney(RemoveChar(a, Rupee))
    ensures var f := FloatOf(RemoveChar(RemoveChar(a, Rupee), ','));
      && (f.Ok? ==> f.value >= 0.0 && IsWhole(f.value))
      && (f.ValueError? ==> f.text == [])
      && (f.Ok? ==> f.value == CaptureNumber(a) as real)
      && (f.ValueError? <==> NoDigits(a))
  {
    var digits := RemoveChar(a, Rupee);
    AmountCaptureDigits(a);
    NormMoneyOfDigitsAndCommas(digits);
    var d := RemoveChar(digits, ',');
    StripDigits(d);
    CaptureDigitsEmpty(a);
  }
}
