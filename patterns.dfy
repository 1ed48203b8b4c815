/**
 * Hand-written matchers for the regular expressions of services/parser.py and
 * services/reconcile.py. Each follows the search Python's `re` performs for
 * that one pattern: the leftmost starting position, alternatives tried in
 * order, greedy and lazy repetition with exactly the backtracking the pattern
 * can need. Case-insensitive matching folds ASCII letters.
 */
module Patterns {
  import opened Results
  import opened Text

  /** The class `[\d,]`. */
  predicate IsDigitOrComma(c: char) {
    IsAsciiDigit(c) || c == ','
  }

  /** The class `[\d.]`. */
  predicate IsDigitOrDot(c: char) {
    IsAsciiDigit(c) || c == '.'
  }

  // ---------------------------------------------------------------------------
  // The summary-line filter `(Total|Subtotal|Grand Total|Discount|CGST|SGST|Round Off)`, re.I

  const SummaryKeywords: seq<string> := ["Total", "Subtotal", "Grand Total", "Discount", "CGST", "SGST", "Round Off"]

  /** The keyword alternation is found somewhere in the line, ignoring case. */
  predicate IsSummaryLine(line: string) {
    exists k :: 0 <= k < |SummaryKeywords| && Contains(Lower(line), Lower(SummaryKeywords[k]))
  }

  // ---------------------------------------------------------------------------
  // `label.*?(₹[\d,]+)` with re.I | re.DOTALL, for one label or an alternation of labels

  /** A rupee sign followed by a digit or comma starts at position j. */
  predicate AmountStartsAt(s: string, j: nat) {
    j + 1 < |s| && s[j] == Rupee && IsDigitOrComma(s[j + 1])
  }

  /**
   * The lazy `.*?(₹[\d,]+)` from position p: the first place at or after p where
   * a rupee sign is followed by a digit or a comma, and the end of the greedy
   * `[\d,]+` run after it.
   */
  function AmountAfter(s: string, p: nat): (r: Option<(nat, nat)>)
    requires p <= |s|
    ensures r.Some? ==> p <= r.value.0 && r.value.0 + 1 < r.value.1 <= |s| && AmountStartsAt(s, r.value.0)
    ensures r.Some? ==> forall k :: r.value.0 < k < r.value.1 ==> IsDigitOrComma(s[k])
    ensures r.Some? ==> r.value.1 == |s| || !IsDigitOrComma(s[r.value.1])
    ensures r.Some? ==> forall j :: p <= j < r.value.0 ==> !AmountStartsAt(s, j)
    ensures r.None? ==> forall j :: p <= j ==> !AmountStartsAt(s, j)
    decreases |s| - p
  {
    if p + 1 >= |s| then None
    else if AmountStartsAt(s, p) then Some((p, p + 1 + RunFrom(s, p + 1, IsDigitOrComma)))
    else AmountAfter(s, p + 1)
  }

  /** The label occurs at position i, ignoring case. */
  predicate LabelAt(s: string, i: nat, name: string) {
    i + |name| <= |s| && Lower(s[i..i + |name|]) == Lower(name)
  }

  /** What the search captures: the label as written in the text, and the amount with its rupee sign. */
  datatype LabelledCapture = LabelledCapture(name: string, amount: string)

  /** The label occurs at position i and an amount follows it somewhere later. */
  predicate LabelledAt(s: string, i: nat, name: string) {
    LabelAt(s, i, name) && AmountAfter(s, i + |name|).Some?
  }

  /**
   * Where the search succeeds when it starts looking at position i: alternative
   * k has an amount after it at position j, no earlier alternative does at j,
   * and no alternative does at any position from i up to j.
   */
  predicate FirstLabelledFrom(s: string, labels: seq<string>, i: nat, j: nat, k: nat) {
    && i <= j <= |s| && k < |labels| && LabelledAt(s, j, labels[k])
    && (forall k' :: 0 <= k' < k ==> !LabelledAt(s, j, labels[k']))
    && (forall j', k' :: i <= j' < j && 0 <= k' < |labels| ==> !LabelledAt(s, j', labels[k']))
  }

  /** The alternatives tried in order at one starting position. */
  function AlternativeAt(s: string, i: nat, labels: seq<string>): (r: Option<LabelledCapture>)
    requires i <= |s|
    ensures r.None? <==> forall k :: 0 <= k < |labels| ==> !LabelledAt(s, i, labels[k])
    ensures r.Some? ==> exists k :: 0 <= k < |labels| && LabelledAt(s, i, labels[k]) && Lower(r.value.name) == Lower(labels[k])
    ensures r.Some? ==> |r.value.amount| >= 2 && r.value.amount[0] == Rupee
    ensures r.Some? ==> forall k :: 1 <= k < |r.value.amount| ==> IsDigitOrComma(r.value.amount[k])
    ensures r.Some? ==> exists k: nat :: FirstLabelledFrom(s, labels, i, i, k) && r.value == CaptureAt(s, i, labels[k])
    decreases |labels|
  {
    if labels == [] then None
    else if LabelledAt(s, i, labels[0]) then
      assert FirstLabelledFrom(s, labels, i, i, 0);
      Some(CaptureAt(s, i, labels[0]))
    else
      var r := AlternativeAt(s, i, labels[1..]);
      assert forall k :: 1 <= k < |labels| ==> labels[1..][k - 1] == labels[k];
      AlternativeShift(s, i, labels, r);
      r
  }

  /** The first alternative among `labels[1..]` is the first among `labels` when `labels[0]` fails. */
  lemma {:induction false} AlternativeShift(s: string, i: nat, labels: seq<string>, r: Option<LabelledCapture>)
    requires i <= |s| && labels != [] && !LabelledAt(s, i, labels[0])
    requires r.Some? ==> exists k: nat :: FirstLabelledFrom(s, labels[1..], i, i, k) && r.value == CaptureAt(s, i, labels[1..][k])
    ensures r.Some? ==> exists k: nat :: FirstLabelledFrom(s, labels, i, i, k) && r.value == CaptureAt(s, i, labels[k])
  {
    if r.Some? {
      var rest := labels[1..];
      var k: nat :| FirstLabelledFrom(s, rest, i, i, k) && r.value == CaptureAt(s, i, rest[k]);
      assert labels[k + 1] == rest[k];
      forall k' | 0 <= k' < k + 1
        ensures !LabelledAt(s, i, labels[k'])
      {
        if k' > 0 {
          assert labels[k'] == rest[k' - 1];
        }
      }
      assert FirstLabelledFrom(s, labels, i, i, k + 1);
    }
  }

  /** The captures where a label and the amount after it match at position i. */
  function CaptureAt(s: string, i: nat, name: string): (r: LabelledCapture)
    requires LabelledAt(s, i, name)
    ensures Lower(r.name) == Lower(name)
    ensures r.name == s[i..i + |name|]
    ensures var (j, e) := AmountAfter(s, i + |name|).value; r.amount == s[j..e]
    ensures |r.amount| >= 2 && r.amount[0] == Rupee
    ensures forall k :: 1 <= k < |r.amount| ==> IsDigitOrComma(r.amount[k])
  {
    var (j, e) := AmountAfter(s, i + |name|).value;
    assert forall k :: 1 <= k < e - j ==> s[j..e][k] == s[j + k];
    LabelledCapture(s[i..i + |name|], s[j..e])
  }

  function LabelledAmountFrom(s: string, i: nat, labels: seq<string>): (r: Option<LabelledCapture>)
    requires i <= |s|
    ensures r.None? ==> forall j, k :: i <= j <= |s| && 0 <= k < |labels| ==> !LabelledAt(s, j, labels[k])
    ensures r.Some? ==> exists k :: 0 <= k < |labels| && Lower(r.value.name) == Lower(labels[k])
    ensures r.Some? ==> |r.value.amount| >= 2 && r.value.amount[0] == Rupee
    ensures r.Some? ==> forall k :: 1 <= k < |r.value.amount| ==> IsDigitOrComma(r.value.amount[k])
    ensures r.Some? ==> exists j: nat, k: nat :: FirstLabelledFrom(s, labels, i, j, k) && r.value == CaptureAt(s, j, labels[k])
    decreases |s| - i
  {
    match AlternativeAt(s, i, labels)
    case Some(c) =>
      FirstAtStart(s, i, labels, c);
      Some(c)
    case None =>
      if i == |s| then None
      else
        var r := LabelledAmountFrom(s, i + 1, labels);
        FirstAfterStart(s, i, labels, r);
        r
  }

  /** A match at the starting position is the first match from there. */
  lemma {:induction false} FirstAtStart(s: string, i: nat, labels: seq<string>, c: LabelledCapture)
    requires i <= |s| && exists k: nat :: FirstLabelledFrom(s, labels, i, i, k) && c == CaptureAt(s, i, labels[k])
    ensures exists j: nat, k: nat :: FirstLabelledFrom(s, labels, i, j, k) && c == CaptureAt(s, j, labels[k])
  {
    var k: nat :| FirstLabelledFrom(s, labels, i, i, k) && c == CaptureAt(s, i, labels[k]);
    assert FirstLabelledFrom(s, labels, i, i, k);
  }

  /** When nothing matches at position i, the first match from i + 1 is the first from i. */
  lemma {:induction false} FirstAfterStart(s: string, i: nat, labels: seq<string>, r: Option<LabelledCapture>)
    requires i < |s| && forall k :: 0 <= k < |labels| ==> !LabelledAt(s, i, labels[k])
    requires r.Some? ==> exists j: nat, k: nat :: FirstLabelledFrom(s, labels, i + 1, j, k) && r.value == CaptureAt(s, j, labels[k])
    ensures r.Some? ==> exists j: nat, k: nat :: FirstLabelledFrom(s, labels, i, j, k) && r.value == CaptureAt(s, j, labels[k])
  {
    if r.Some? {
      var j: nat, k: nat :| FirstLabelledFrom(s, labels, i + 1, j, k) && r.value == CaptureAt(s, j, labels[k]);
      assert FirstLabelledFrom(s, labels, i, j, k);
    }
  }

  /**
   * `re.search(r"(L1|L2|...).*?(₹[\d,]+)", s, re.I | re.DOTALL)`: the leftmost
   * position where one of the labels is followed by an amount, with the first
   * such label in the list there; its captures are the label as written in the
   * text and the first amount after it. None exactly when no occurrence of any
   * label has an amount after it.
   */
  function LabelledAmount(s: string, labels: seq<string>): (r: Option<LabelledCapture>)
    ensures r.None? <==> forall j, k :: 0 <= j <= |s| && 0 <= k < |labels| ==> !LabelledAt(s, j, labels[k])
    ensures r.Some? ==> exists k :: 0 <= k < |labels| && Lower(r.value.name) == Lower(labels[k])
    ensures r.Some? ==> |r.value.amount| >= 2 && r.value.amount[0] == Rupee
    ensures r.Some? ==> forall k :: 1 <= k < |r.value.amount| ==> IsDigitOrComma(r.value.amount[k])
  {
    var r := LabelledAmountFrom(s, 0, labels);
    if r.Some? then LabelledAmountFound(s, 0, labels); r else r
  }

  /**
   * The match `LabelledAmount` returns is the leftmost one, with the first
   * label in the list at that position, and its captures are the label as
   * written in the text and the first amount after it.
   */
  lemma {:induction false} LabelledAmountIsFirst(s: string, labels: seq<string>)
    requires LabelledAmount(s, labels).Some?
    ensures exists j: nat, k: nat :: FirstLabelledFrom(s, labels, 0, j, k) && LabelledAmount(s, labels).value == CaptureAt(s, j, labels[k])
  {
  }

  /** When the search from i succeeds, some label has an amount after it at or after position i. */
  lemma {:induction false} LabelledAmountFound(s: string, i: nat, labels: seq<string>)
    requires i <= |s|
    requires LabelledAmountFrom(s, i, labels).Some?
    ensures exists j, k :: i <= j <= |s| && 0 <= k < |labels| && LabelledAt(s, j, labels[k])
    decreases |s| - i
  {
    if AlternativeAt(s, i, labels).None? {
      LabelledAmountFound(s, i + 1, labels);
    }
  }

  // ---------------------------------------------------------------------------
  // AMOUNT_RE = `(₹|INR|\bRs\.?)\s*([\d,]+(?:\.\d{1,2})?)`, no flags

  /** One match of AMOUNT_RE: its span [start, end) and its second group, the number. */
  datatype AmountToken = AmountToken(start: nat, end: nat, number: string)

  /** The end of the currency marker `(₹|INR|\bRs\.?)` when one starts at position i. */
  function MarkerEnd(s: string, i: nat): (r: Option<nat>)
    requires i <= |s|
    ensures r.Some? ==> i < r.value <= |s|
  {
    if i < |s| && s[i] == Rupee then Some(i + 1)
    else if i + 3 <= |s| && s[i..i + 3] == "INR" then Some(i + 3)
    else if i + 2 <= |s| && s[i..i + 2] == "Rs" && (i == 0 || !IsWordChar(s[i - 1])) then
      Some(if i + 2 < |s| && s[i + 2] == '.' then i + 3 else i + 2)
    else None
  }

  /** The number shape `[\d,]+(?:\.\d{1,2})?`. */
  predicate IsAmountNumber(t: string) {
    var n := LeadingRun(t, IsDigitOrComma);
    n >= 1 && (n == |t| || (t[n] == '.' && 2 <= |t| - n <= 3 && forall k :: n < k < |t| ==> IsAsciiDigit(t[k])))
  }

  /** Where the optional fraction `(?:\.\d{1,2})?` after position e ends: greedy, one or two digits. */
  function FractionEnd(s: string, e: nat): (end: nat)
    requires e <= |s|
    ensures e <= end <= |s|
    ensures end == e || (s[e] == '.' && 2 <= end - e <= 3 && forall k :: e < k < end ==> IsAsciiDigit(s[k]))
  {
    if e + 1 < |s| && s[e] == '.' && IsAsciiDigit(s[e + 1]) then
      (if e + 2 < |s| && IsAsciiDigit(s[e + 2]) then e + 3 else e + 2)
    else e
  }

  lemma {:induction false} NumberShape(s: string, q: nat, e: nat, end: nat)
    requires q < e <= end <= |s|
    requires forall k :: q <= k < e ==> IsDigitOrComma(s[k])
    requires e == |s| || !IsDigitOrComma(s[e])
    requires end == e || (s[e] == '.' && 2 <= end - e <= 3 && forall k :: e < k < end ==> IsAsciiDigit(s[k]))
    ensures IsAmountNumber(s[q..end])
  {
    var t := s[q..end];
    assert forall k :: 0 <= k < end - q ==> t[k] == s[q + k];
    LeadingRunOfPrefix(t, e - q, IsDigitOrComma);
  }

  /** A match of AMOUNT_RE starting at position i. */
  function AmountTokenAt(s: string, i: nat): (r: Option<AmountToken>)
    requires i <= |s|
    ensures r.Some? ==> r.value.start == i < r.value.end <= |s|
    ensures r.Some? ==> IsAmountNumber(r.value.number)
  {
    match MarkerEnd(s, i)
    case None => None
    case Some(p) => NumberAfter(s, i, p)
  }

  /** `\s*([\d,]+(?:\.\d{1,2})?)` from position p, for a token that started at i. */
  function NumberAfter(s: string, i: nat, p: nat): (r: Option<AmountToken>)
    requires i < p <= |s|
    ensures r.Some? ==> r.value.start == i < r.value.end <= |s|
    ensures r.Some? ==> IsAmountNumber(r.value.number)
  {
    NumberFrom(s, i, p + RunFrom(s, p, IsSpace))
  }

  /** `[\d,]+(?:\.\d{1,2})?` from position q, for a token that started at i. */
  function NumberFrom(s: string, i: nat, q: nat): (r: Option<AmountToken>)
    requires i < q <= |s|
    ensures r.Some? ==> r.value.start == i < r.value.end <= |s|
    ensures r.Some? ==> IsAmountNumber(r.value.number)
  {
    var e := q + RunFrom(s, q, IsDigitOrComma);
    if e == q then None else Some(NumberToken(s, i, q, e))
  }

  /** The token of a match that started at i, whose `[\d,]+` run is [q, e), with the fraction after the run. */
  function NumberToken(s: string, i: nat, q: nat, e: nat): (t: AmountToken)
    requires i < q < e <= |s| && e == q + RunFrom(s, q, IsDigitOrComma)
    ensures t.start == i < t.end <= |s|
    ensures IsAmountNumber(t.number)
  {
    var end := FractionEnd(s, e);
    NumberShape(s, q, e, end);
    AmountToken(i, end, s[q..end])
  }

  /** A run of exactly n characters satisfying p starts at i. */
  lemma {:induction false} RunFromExact(s: string, i: nat, n: nat, p: char -> bool)
    requires i + n <= |s|
    requires forall k :: i <= k < i + n ==> p(s[k])
    requires i + n == |s| || !p(s[i + n])
    ensures RunFrom(s, i, p) == n
  {
    var t := s[i..];
    assert forall k :: 0 <= k < |t| ==> t[k] == s[i + k];
    LeadingRunOfPrefix(t, n, p);
  }

  /**
   * t is how AMOUNT_RE matches at i: the marker, then the number as
   * NumberMatchAfter describes it. The `\bRs\.?` alternative still fails when
   * it gives back its dot, since `[\d,]+` cannot start at a dot, and the other
   * alternatives start with different characters, so the marker of a match is
   * the one MarkerEnd finds.
   */
  predicate IsAmountMatchAt(s: string, i: nat, t: AmountToken)
    requires i <= |s|
  {
    MarkerEnd(s, i).Some? && t.start == i && NumberMatchAfter(s, MarkerEnd(s, i).value, t)
  }

  /**
   * After the marker ending at p: whitespace, then the number, with `[\d,]+`
   * taken as far as it goes and the fraction taken, with as many digits as
   * there are, whenever a dot and a digit follow.
   */
  predicate NumberMatchAfter(s: string, p: nat, t: AmountToken) {
    SpacesThenNumber(s, p, t) && IsAmountNumber(t.number) && DigitsMaximal(s, t) && FractionMaximal(s, t)
  }

  /** The number is the text ending at t.end, and only whitespace lies between p and it. */
  predicate SpacesThenNumber(s: string, p: nat, t: AmountToken) {
    |t.number| <= t.end <= |s| && p <= t.end - |t.number| && t.number == s[t.end - |t.number|..t.end]
    && forall k :: p <= k < t.end - |t.number| ==> IsSpace(s[k])
  }

  /** The `[\d,]+` run of the number is not followed by another digit or comma. */
  predicate DigitsMaximal(s: string, t: AmountToken)
    requires |t.number| <= t.end <= |s|
  {
    var e := t.end - |t.number| + LeadingRun(t.number, IsDigitOrComma);
    e == |s| || !IsDigitOrComma(s[e])
  }

  /** The fraction is there whenever a dot and a digit follow the run, and has two digits whenever two follow. */
  predicate FractionMaximal(s: string, t: AmountToken)
    requires t.end <= |s|
  {
    var f := |t.number| - LeadingRun(t.number, IsDigitOrComma);
    && (f == 0 ==> !(t.end + 1 < |s| && s[t.end] == '.' && IsAsciiDigit(s[t.end + 1])))
    && (f == 2 ==> t.end == |s| || !IsAsciiDigit(s[t.end]))
  }

  /** A token found at i is a match of the pattern there. */
  lemma {:induction false} AmountTokenAtSound(s: string, i: nat)
    requires i <= |s| && AmountTokenAt(s, i).Some?
    ensures IsAmountMatchAt(s, i, AmountTokenAt(s, i).value)
  {
    NumberAfterSound(s, i, MarkerEnd(s, i).value);
  }

  lemma {:induction false} NumberAfterSound(s: string, i: nat, p: nat)
    requires i < p <= |s| && NumberAfter(s, i, p).Some?
    ensures NumberAfter(s, i, p).value.start == i && NumberMatchAfter(s, p, NumberAfter(s, i, p).value)
  {
    var q := p + RunFrom(s, p, IsSpace);
    var e := q + RunFrom(s, q, IsDigitOrComma);
    NumberAfterOfRuns(s, i, p, q, e);
    MatchOfRuns(s, i, p, q, e);
  }

  /** Whitespace on [p, q), the maximal digit run on [q, e) and the greedy fraction after it make a match. */
  lemma {:induction false} MatchOfRuns(s: string, i: nat, p: nat, q: nat, e: nat)
    requires i < p <= |s| && q == p + RunFrom(s, p, IsSpace) && e == q + RunFrom(s, q, IsDigitOrComma) && e > q
    ensures NumberMatchAfter(s, p, NumberToken(s, i, q, e))
  {
    var t := NumberToken(s, i, q, e);
    RunsOfNumber(s, q, e, t);
    SpacesThenNumberAt(s, p, q, t);
  }

  /** Whitespace on [p, q) and the number read from q. */
  lemma {:induction false} SpacesThenNumberAt(s: string, p: nat, q: nat, t: AmountToken)
    requires p <= q <= t.end <= |s| && t.number == s[q..t.end]
    requires forall k :: p <= k < q ==> IsSpace(s[k])
    ensures SpacesThenNumber(s, p, t)
  {
    assert t.end - |t.number| == q;
  }

  /** The number read from q: its digit run is the one in the text, and the fraction is as greedy as FractionEnd. */
  lemma {:induction false} RunsOfNumber(s: string, q: nat, e: nat, t: AmountToken)
    requires q < e <= |s| && (forall k :: q <= k < e ==> IsDigitOrComma(s[k])) && (e == |s| || !IsDigitOrComma(s[e]))
    requires t.end == FractionEnd(s, e) && t.number == s[q..t.end]
    ensures DigitsMaximal(s, t) && FractionMaximal(s, t)
  {
    var n := t.number;
    assert forall k :: 0 <= k < |n| ==> n[k] == s[q + k];
    LeadingRunOfPrefix(n, e - q, IsDigitOrComma);
    FractionGreedy(s, e);
  }

  /** The fraction is taken whenever a dot and a digit follow, with a second digit when there is one. */
  lemma {:induction false} FractionGreedy(s: string, e: nat)
    requires e <= |s|
    ensures FractionEnd(s, e) == e ==> !(e + 1 < |s| && s[e] == '.' && IsAsciiDigit(s[e + 1]))
    ensures FractionEnd(s, e) == e + 2 ==> e + 2 == |s| || !IsAsciiDigit(s[e + 2])
  {
  }

  /** A match of the pattern at i is the token found there, so AmountTokenAt is None exactly when nothing matches at i. */
  lemma {:induction false} AmountTokenAtComplete(s: string, i: nat, t: AmountToken)
    requires i <= |s| && IsAmountMatchAt(s, i, t)
    ensures AmountTokenAt(s, i) == Some(t)
  {
    NumberAfterComplete(s, i, MarkerEnd(s, i).value, t);
  }

  /** Nothing is found at i exactly when the pattern has no match there. */
  lemma {:induction false} AmountTokenAtNone(s: string, i: nat)
    requires i <= |s|
    ensures AmountTokenAt(s, i).None? <==> forall t :: !IsAmountMatchAt(s, i, t)
  {
    if AmountTokenAt(s, i).Some? {
      AmountTokenAtSound(s, i);
    } else {
      forall t | IsAmountMatchAt(s, i, t) ensures false {
        AmountTokenAtComplete(s, i, t);
      }
    }
  }

  lemma {:induction false} NumberAfterComplete(s: string, i: nat, p: nat, t: AmountToken)
    requires i < p <= |s| && t.start == i && NumberMatchAfter(s, p, t)
    ensures NumberAfter(s, i, p) == Some(t)
  {
    var q := SpaceRunOfMatch(s, p, t);
    var e := DigitRunOfMatch(s, p, q, t);
    FractionEndOfMatch(s, p, e, t);
    NumberAfterOfRuns(s, i, p, q, e);
    NumberTokenOfMatch(s, i, q, e, t);
  }

  /** The token read from the runs of a match is the match itself. */
  lemma {:induction false} NumberTokenOfMatch(s: string, i: nat, q: nat, e: nat, t: AmountToken)
    requires i < q < e <= |s| && e == q + RunFrom(s, q, IsDigitOrComma)
    requires t.start == i && t.end == FractionEnd(s, e) && q == t.end - |t.number| && t.number == s[q..t.end]
    ensures NumberToken(s, i, q, e) == t
  {
    var u := NumberToken(s, i, q, e);
    assert u.end == t.end && u.number == t.number;
  }

  /** The whitespace run after the marker ends where the number of a match starts. */
  lemma {:induction false} SpaceRunOfMatch(s: string, p: nat, t: AmountToken) returns (q: nat)
    requires p <= |s| && SpacesThenNumber(s, p, t) && IsAmountNumber(t.number)
    ensures q == t.end - |t.number| && q == p + RunFrom(s, p, IsSpace)
    ensures p <= q <= t.end <= |s| && t.number == s[q..t.end]
  {
    q := t.end - |t.number|;
    assert s[q] == t.number[0];
    RunFromExact(s, p, q - p, IsSpace);
  }

  /** The digit run from q ends where the `[\d,]+` part of the match's number does. */
  lemma {:induction false} DigitRunOfMatch(s: string, p: nat, q: nat, t: AmountToken) returns (e: nat)
    requires NumberMatchAfter(s, p, t) && q == t.end - |t.number|
    ensures e == q + LeadingRun(t.number, IsDigitOrComma) && e == q + RunFrom(s, q, IsDigitOrComma)
    ensures q < e <= |s|
  {
    e := q + LeadingRun(t.number, IsDigitOrComma);
    assert forall k :: q <= k < e ==> s[k] == t.number[k - q];
    RunFromExact(s, q, e - q, IsDigitOrComma);
  }

  /** With the whitespace run ending at q and the digit run ending at e, the token is read from q to the fraction's end. */
  lemma {:induction false} NumberAfterOfRuns(s: string, i: nat, p: nat, q: nat, e: nat)
    requires i < p <= |s| && q == p + RunFrom(s, p, IsSpace) && e == q + RunFrom(s, q, IsDigitOrComma) && e > q
    ensures NumberAfter(s, i, p) == Some(NumberToken(s, i, q, e))
  {
    NumberAfterOfSpaces(s, i, p, q);
    NumberFromOfRun(s, i, q, e);
  }

  /** The number of a token is read where the whitespace run after the marker ends. */
  lemma {:induction false} NumberAfterOfSpaces(s: string, i: nat, p: nat, q: nat)
    requires i < p <= |s| && q == p + RunFrom(s, p, IsSpace)
    ensures NumberAfter(s, i, p) == NumberFrom(s, i, q)
  {
  }

  /** With the digit run from q ending at e, the token is read from q to the fraction's end. */
  lemma {:induction false} NumberFromOfRun(s: string, i: nat, q: nat, e: nat)
    requires i < q < e <= |s| && e == q + RunFrom(s, q, IsDigitOrComma)
    ensures NumberFrom(s, i, q) == Some(NumberToken(s, i, q, e))
  {
    var r := NumberFrom(s, i, q);
    assert e != q;
    assert r == Some(NumberToken(s, i, q, e));
  }

  /** The fraction of a match ends where the match does. */
  lemma {:induction false} FractionEndOfMatch(s: string, p: nat, e: nat, t: AmountToken)
    requires NumberMatchAfter(s, p, t) && e == t.end - |t.number| + LeadingRun(t.number, IsDigitOrComma)
    ensures e <= |s| && FractionEnd(s, e) == t.end
  {
    var q := t.end - |t.number|;
    var n := LeadingRun(t.number, IsDigitOrComma);
    assert forall k :: 0 <= k < |t.number| ==> t.number[k] == s[q + k];
    if n < |t.number| {
      assert s[e] == '.' && IsAsciiDigit(s[e + 1]);
    }
  }

  /** `at(j)` is the match starting at position j, if any, and it ends after j, inside the text. */
  ghost predicate IsMatcher(s: string, at: nat -> Option<AmountToken>) {
    forall j: nat :: j < |s| && at(j).Some? ==> at(j).value.start == j < at(j).value.end <= |s|
  }

  /** AMOUNT_RE tried at every position of s. */
  function AmountMatcher(s: string): (at: nat -> Option<AmountToken>)
    ensures IsMatcher(s, at)
  {
    (j: nat) => if j <= |s| then AmountTokenAt(s, j) else None
  }

  /** `re.findall` from position i, keeping the spans: matches are taken left to right without overlap. */
  function TokensFrom(s: string, i: nat, at: nat -> Option<AmountToken>): (r: seq<AmountToken>)
    requires i <= |s| && IsMatcher(s, at)
    ensures forall k :: 0 <= k < |r| ==> i <= r[k].start < r[k].end <= |s|
    ensures forall k, l :: 0 <= k < l < |r| ==> r[k].end <= r[l].start
    decreases |s| - i
  {
    if i == |s| then []
    else
      match at(i)
      case Some(t) => [t] + TokensFrom(s, t.end, at)
      case None => TokensFrom(s, i + 1, at)
  }

  /** `re.sub(pattern, "", ...)` from position i: the text with every match removed. */
  function RemoveTokensFrom(s: string, i: nat, at: nat -> Option<AmountToken>): string
    requires i <= |s| && IsMatcher(s, at)
    decreases |s| - i
  {
    if i == |s| then []
    else
      match at(i)
      case Some(t) => RemoveTokensFrom(s, t.end, at)
      case None => [s[i]] + RemoveTokensFrom(s, i + 1, at)
  }

  /** `re.findall(AMOUNT_RE, s)` with the spans of the matches. */
  function AmountTokens(s: string): seq<AmountToken> {
    TokensFrom(s, 0, AmountMatcher(s))
  }

  /** `re.sub(AMOUNT_RE, "", s)`. */
  function WithoutAmounts(s: string): string {
    RemoveTokensFrom(s, 0, AmountMatcher(s))
  }

  /** Total length of the matched spans. */
  function SpanLength(ts: seq<AmountToken>): int {
    if ts == [] then 0 else (ts[0].end - ts[0].start) + SpanLength(ts[1..])
  }

  lemma {:induction false} LengthStepMatched(s: string, i: nat, at: nat -> Option<AmountToken>)
    requires i < |s| && IsMatcher(s, at) && at(i).Some?
    requires var e := at(i).value.end;
      |RemoveTokensFrom(s, e, at)| == |s| - e - SpanLength(TokensFrom(s, e, at))
    ensures |RemoveTokensFrom(s, i, at)| == |s| - i - SpanLength(TokensFrom(s, i, at))
  {
    var t := at(i).value;
    var rest := TokensFrom(s, t.end, at);
    assert TokensFrom(s, i, at) == [t] + rest;
    assert ([t] + rest)[1..] == rest;
  }

  /** The substitution removes exactly the characters the matches cover. */
  lemma {:induction false} RemoveTokensLength(s: string, i: nat, at: nat -> Option<AmountToken>)
    requires i <= |s| && IsMatcher(s, at)
    ensures |RemoveTokensFrom(s, i, at)| == |s| - i - SpanLength(TokensFrom(s, i, at))
    decreases |s| - i
  {
    if i < |s| {
      if at(i).Some? {
        RemoveTokensLength(s, at(i).value.end, at);
        LengthStepMatched(s, i, at);
      } else {
        RemoveTokensLength(s, i + 1, at);
      }
    }
  }

  /** Where nothing matches, the substitution leaves the text as it is. */
  lemma {:induction false} RemoveTokensUnmatched(s: string, i: nat, at: nat -> Option<AmountToken>)
    requires i <= |s| && IsMatcher(s, at)
    requires TokensFrom(s, i, at) == []
    ensures RemoveTokensFrom(s, i, at) == s[i..]
    decreases |s| - i
  {
    if i < |s| {
      assert at(i).None?;
      RemoveTokensUnmatched(s, i + 1, at);
      assert s[i..] == [s[i]] + s[i + 1..];
    }
  }

  lemma {:induction false} WithoutAmountsRemovesSpans(s: string)
    ensures |WithoutAmounts(s)| == |s| - SpanLength(AmountTokens(s))
    ensures AmountTokens(s) == [] ==> WithoutAmounts(s) == s
  {
    RemoveTokensLength(s, 0, AmountMatcher(s));
    if AmountTokens(s) == [] {
      RemoveTokensUnmatched(s, 0, AmountMatcher(s));
      assert s[0..] == s;
    }
  }

  // ---------------------------------------------------------------------------
  // `^(.*?)[\s:,-]+(₹\s*[\d,]+)$`, no flags, on a line without line breaks

  /** The class `[\s:,-]`. */
  predicate IsTrailingSep(c: char) {
    IsSpace(c) || c == ':' || c == ',' || c == '-'
  }

  /** The two groups: the lazy description and the trailing amount with its rupee sign. */
  datatype TrailingCapture = TrailingCapture(description: string, amount: string)

  function LastIndexOf(s: string, c: char): (r: Option<nat>)
    ensures r.Some? ==> r.value < |s| && s[r.value] == c && forall k :: r.value < k < |s| ==> s[k] != c
    ensures r.None? ==> c !in s
  {
    if s == [] then None
    else if s[|s| - 1] == c then Some(|s| - 1)
    else LastIndexOf(s[..|s| - 1], c)
  }

  /**
   * The line ends with a rupee sign, optional whitespace and a `[\d,]+` run;
   * the sign is preceded by at least one separator; the description is the
   * shortest prefix before that separator run, as the lazy `(.*?)` makes it.
   */
  function TrailingAmount(line: string): Option<TrailingCapture> {
    match LastIndexOf(line, Rupee)
    case None => None
    case Some(p) => TrailingAt(line, p)
  }

  /** The match anchored at the rupee sign at p: whitespace and digits to the end, separators before it. */
  function TrailingAt(line: string, p: nat): Option<TrailingCapture>
    requires p < |line| && line[p] == Rupee
  {
    var q := p + 1 + RunFrom(line, p + 1, IsSpace);
    var e := q + RunFrom(line, q, IsDigitOrComma);
    var sep := TrailingRun(line[..p], IsTrailingSep);
    if e == |line| && e > q && sep > 0 then Some(TrailingCapture(line[..p - sep], line[p..]))
    else None
  }

  /** A capture found splits the line as the pattern describes. */
  lemma {:induction false} TrailingAmountSound(line: string)
    requires TrailingAmount(line).Some?
    ensures SplitsAtSeparators(line, TrailingAmount(line).value)
  {
    var p := LastIndexOf(line, Rupee).value;
    var q := p + 1 + RunFrom(line, p + 1, IsSpace);
    var sep := TrailingRun(line[..p], IsTrailingSep);
    assert TrailingAmount(line) == Some(TrailingCapture(line[..p - sep], line[p..]));
    SeparatorSplit(line, p, q, sep);
  }

  /** `₹\s*[\d,]+` spanning the whole text: the sign, a run of whitespace, and at least one digit or comma. */
  predicate IsSpacedAmount(a: string) {
    |a| >= 1 && a[0] == Rupee &&
    var m := 1 + LeadingRun(a[1..], IsSpace);
    m < |a| && forall k :: m <= k < |a| ==> IsDigitOrComma(a[k])
  }

  /**
   * Any way of reading the line as the pattern describes is the one found, so
   * the search fails exactly when the line does not have that form.
   */
  lemma {:induction false} TrailingAmountComplete(line: string, c: TrailingCapture)
    requires SplitsAtSeparators(line, c)
    ensures TrailingAmount(line) == Some(c)
  {
    var p := LastRupeeOfSplit(line, c);
    TrailingAmountSplit(line, c, p);
  }

  /** In a line split so, the amount's rupee sign is the last one in the line. */
  lemma {:induction false} LastRupeeOfSplit(line: string, c: TrailingCapture) returns (p: nat)
    requires SplitsAtSeparators(line, c)
    ensures p == |line| - |c.amount| && LastIndexOf(line, Rupee) == Some(p)
  {
    var a := c.amount;
    p := |line| - |a|;
    assert a == line[p..];
    assert forall k :: p < k < |line| ==> line[k] == a[k - p];
    SpacedAmountOneRupee(a);
    TrailingRupeeIsLast(line, p);
  }

  /** A `₹\s*[\d,]+` amount has no rupee sign after its first character. */
  lemma {:induction false} SpacedAmountOneRupee(a: string)
    requires IsSpacedAmount(a)
    ensures forall k :: 1 <= k < |a| ==> a[k] != Rupee
  {
    var m := 1 + LeadingRun(a[1..], IsSpace);
    forall k | 1 <= k < |a| ensures a[k] != Rupee {
      if k < m {
        assert a[1..][k - 1] == a[k];
      }
    }
  }

  /** The rupee sign at p is the last one when no later character is one. */
  lemma {:induction false} TrailingRupeeIsLast(line: string, p: nat)
    requires p < |line| && line[p] == Rupee && forall k :: p < k < |line| ==> line[k] != Rupee
    ensures LastIndexOf(line, Rupee) == Some(p)
  {
    var r := LastIndexOf(line, Rupee);
    assert line[p] in line;
  }

  /** With the last rupee sign found, the search reads the line as the split says. */
  lemma {:induction false} TrailingAmountSplit(line: string, c: TrailingCapture, p: nat)
    requires SplitsAtSeparators(line, c) && p == |line| - |c.amount| && LastIndexOf(line, Rupee) == Some(p)
    ensures TrailingAmount(line) == Some(c)
  {
    var q := p + 1 + RunFrom(line, p + 1, IsSpace);
    SplitRuns(line, c, p, q);
    TrailingAmountFound(line, p, q, p - |c.description|);
  }

  /** The runs the search measures on a line split so: digits to the end after the sign, separators back to the description. */
  lemma {:induction false} SplitRuns(line: string, c: TrailingCapture, p: nat, q: nat)
    requires SplitsAtSeparators(line, c) && p == |line| - |c.amount| && q == p + 1 + RunFrom(line, p + 1, IsSpace)
    ensures q < |line| && RunFrom(line, q, IsDigitOrComma) == |line| - q
    ensures TrailingRun(line[..p], IsTrailingSep) == p - |c.description|
    ensures line[..|c.description|] == c.description && line[p..] == c.amount
  {
    var d, a := c.description, c.amount;
    assert line[p..] == a;
    SpacedAmountRuns(line, p, q);
    assert d == [] || line[|d| - 1] == d[|d| - 1];
    SeparatorRunLength(line, |d|, p);
  }

  /** An amount `₹\s*[\d,]+` filling the line from p on: the whitespace, then digits and commas up to the end. */
  lemma {:induction false} SpacedAmountRuns(line: string, p: nat, q: nat)
    requires p <= |line| && IsSpacedAmount(line[p..]) && q == p + 1 + RunFrom(line, p + 1, IsSpace)
    ensures q < |line| && RunFrom(line, q, IsDigitOrComma) == |line| - q
  {
    var a := line[p..];
    assert a[1..] == line[p + 1..];
    assert q == p + 1 + LeadingRun(a[1..], IsSpace);
    assert forall k :: q <= k < |line| ==> line[k] == a[k - p];
  }

  /** Separators exactly on [n, p), and none just before n: the separator run ending at p has length p - n. */
  lemma {:induction false} SeparatorRunLength(line: string, n: nat, p: nat)
    requires n <= p <= |line| && (forall k :: n <= k < p ==> IsTrailingSep(line[k]))
    requires n == 0 || !IsTrailingSep(line[n - 1])
    ensures TrailingRun(line[..p], IsTrailingSep) == p - n
  {
    var pre := line[..p];
    assert forall k :: n <= k < p ==> pre[k] == line[k];
    assert n == 0 || pre[n - 1] == line[n - 1];
    TrailingRunOfSuffix(pre, p - n, IsTrailingSep);
  }

  /** The search succeeds once the tail after the last rupee sign and the separators before it are right. */
  lemma {:induction false} TrailingAmountFound(line: string, p: nat, q: nat, sep: nat)
    requires LastIndexOf(line, Rupee) == Some(p) && q == p + 1 + RunFrom(line, p + 1, IsSpace)
    requires q < |line| && RunFrom(line, q, IsDigitOrComma) == |line| - q
    requires 0 < sep == TrailingRun(line[..p], IsTrailingSep)
    ensures TrailingAmount(line) == Some(TrailingCapture(line[..p - sep], line[p..]))
  {
    TrailingAtFound(line, p, q, sep);
  }

  /** The anchored match succeeds when the tail and the separators before the sign are right. */
  lemma {:induction false} TrailingAtFound(line: string, p: nat, q: nat, sep: nat)
    requires p < |line| && line[p] == Rupee && q == p + 1 + RunFrom(line, p + 1, IsSpace)
    requires q < |line| && RunFrom(line, q, IsDigitOrComma) == |line| - q
    requires 0 < sep == TrailingRun(line[..p], IsTrailingSep)
    ensures TrailingAt(line, p) == Some(TrailingCapture(line[..p - sep], line[p..]))
  {
  }

  lemma {:induction false} TrailingRunOfSuffix(t: string, n: nat, p: char -> bool)
    requires n <= |t|
    requires forall k :: |t| - n <= k < |t| ==> p(t[k])
    requires n == |t| || !p(t[|t| - 1 - n])
    ensures TrailingRun(t, p) == n
  {
    if n > 0 {
      var init := t[..|t| - 1];
      assert forall k :: 0 <= k < |init| ==> init[k] == t[k];
      TrailingRunOfSuffix(init, n - 1, p);
    }
  }

  /**
   * The line is the description, a run of separators and the amount, which
   * starts with the rupee sign; the description does not end in a separator.
   */
  predicate SplitsAtSeparators(line: string, c: TrailingCapture) {
    var d, a := c.description, c.amount;
    && |d| + |a| < |line| && line[..|d|] == d && line[|line| - |a|..] == a
    && IsSpacedAmount(a) && (forall k :: |d| <= k < |line| - |a| ==> IsTrailingSep(line[k]))
    && (d == [] || !IsTrailingSep(d[|d| - 1]))
  }

  /** Cutting before the separator run of length sep that ends at p, and taking the amount from p on, splits the line so. */
  lemma {:induction false} SeparatorSplit(line: string, p: nat, q: nat, sep: nat)
    requires p < |line| && line[p] == Rupee && 0 < sep == TrailingRun(line[..p], IsTrailingSep)
    requires q == p + 1 + RunFrom(line, p + 1, IsSpace) && q < |line| && forall k :: q <= k < |line| ==> IsDigitOrComma(line[k])
    ensures SplitsAtSeparators(line, TrailingCapture(line[..p - sep], line[p..]))
  {
    SpacedAmountOfTail(line, p, q);
    SeparatorsBefore(line, p, sep);
    SplitOfParts(line, line[..p - sep], line[p..], p - sep, p);
  }

  /** The prefix before n, separators on [n, p) and the amount from p on split the line so. */
  lemma {:induction false} SplitOfParts(line: string, d: string, a: string, n: nat, p: nat)
    requires n < p < |line| && d == line[..n] && a == line[p..] && IsSpacedAmount(a)
    requires forall k :: n <= k < p ==> IsTrailingSep(line[k])
    requires n == 0 || !IsTrailingSep(line[n - 1])
    ensures SplitsAtSeparators(line, TrailingCapture(d, a))
  {
    assert d == [] || d[|d| - 1] == line[n - 1];
  }

  /** The rupee sign at p, whitespace up to q and digits and commas from q to the end form a `₹\s*[\d,]+` amount. */
  lemma {:induction false} SpacedAmountOfTail(line: string, p: nat, q: nat)
    requires p < |line| && line[p] == Rupee
    requires q == p + 1 + RunFrom(line, p + 1, IsSpace) && q < |line| && forall k :: q <= k < |line| ==> IsDigitOrComma(line[k])
    ensures IsSpacedAmount(line[p..])
  {
    var a := line[p..];
    var b := a[1..];
    assert forall k :: 0 <= k < |b| ==> b[k] == line[p + 1 + k];
    assert forall k :: 0 <= k < |a| ==> a[k] == line[p + k];
    LeadingRunOfPrefix(b, q - p - 1, IsSpace);
  }

  /** The separator run of length sep that ends at p, and no separator just before it. */
  lemma {:induction false} SeparatorsBefore(line: string, p: nat, sep: nat)
    requires p <= |line| && sep == TrailingRun(line[..p], IsTrailingSep)
    ensures forall k :: p - sep <= k < p ==> IsTrailingSep(line[k])
    ensures p - sep == 0 || !IsTrailingSep(line[p - sep - 1])
  {
    var pre := line[..p];
    assert forall k :: 0 <= k < p ==> pre[k] == line[k];
  }

  // ---------------------------------------------------------------------------
  // `^(.*?)(₹[\d,]+)\s*/\w+\s*[x×]\s*([\d.]+)\s*=\s*(₹[\d,]+)`, re.I

  /** The four groups: description, unit price with its sign, quantity, amount with its sign. */
  datatype QuantityCapture = QuantityCapture(description: string, unitPrice: string, quantity: string, amount: string)

  /** The class `[x×]` under re.I. */
  predicate IsTimes(c: char) {
    c == 'x' || c == 'X' || c == '\U{D7}'
  }

  /** `\s*[x×]\s*([\d.]+)\s*=\s*(₹[\d,]+)` from position j: the quantity and the amount. */
  function QuantityTail(s: string, j: nat): (r: Option<(string, string)>)
    requires j <= |s|
    ensures r.Some? ==> |r.value.0| >= 1 && |r.value.1| >= 2 && r.value.1[0] == Rupee
  {
    var a := j + RunFrom(s, j, IsSpace);
    if a == |s| || !IsTimes(s[a]) then None
    else
      var b := a + 1 + RunFrom(s, a + 1, IsSpace);
      var c := b + RunFrom(s, b, IsDigitOrDot);
      if c == b then None
      else
        match AmountTail(s, c)
        case None => None
        case Some(amount) => Some((s[b..c], amount))
  }

  /** `\s*=\s*(₹[\d,]+)` from position c: the amount. */
  function AmountTail(s: string, c: nat): (r: Option<string>)
    requires c <= |s|
    ensures r.Some? ==> |r.value| >= 2 && r.value[0] == Rupee
  {
    var d := c + RunFrom(s, c, IsSpace);
    if d == |s| || s[d] != '=' then None
    else
      var e := d + 1 + RunFrom(s, d + 1, IsSpace);
      if e == |s| || s[e] != Rupee then None
      else
        var f := e + 1 + RunFrom(s, e + 1, IsDigitOrComma);
        if f == e + 1 then None else Some(s[e..f])
  }

  /**
   * `\w+` from position d followed by the tail: the greedy `\w+` gives back
   * characters one at a time, from the longest run w down to one character,
   * until the tail matches.
   */
  function WordThenTail(s: string, d: nat, w: nat): (r: Option<(string, string)>)
    requires 1 <= w && d + w <= |s|
    ensures r.Some? ==> |r.value.0| >= 1 && |r.value.1| >= 2 && r.value.1[0] == Rupee
    decreases w
  {
    match QuantityTail(s, d + w)
    case Some(t) => Some(t)
    case None => if w == 1 then None else WordThenTail(s, d, w - 1)
  }

  /** The pattern after the lazy description, with the unit price starting at position k. */
  function QuantityAt(s: string, k: nat): (r: Option<QuantityCapture>)
    requires k < |s|
    ensures r.Some? ==> r.value.description == s[..k]
    ensures r.Some? ==> |r.value.unitPrice| >= 2 && r.value.unitPrice[0] == Rupee
    ensures r.Some? ==> |r.value.quantity| >= 1 && |r.value.amount| >= 2 && r.value.amount[0] == Rupee
  {
    if s[k] != Rupee then None
    else
      var b := k + 1 + RunFrom(s, k + 1, IsDigitOrComma);
      if b == k + 1 then None
      else
        var c := b + RunFrom(s, b, IsSpace);
        if c == |s| || s[c] != '/' then None
        else
          var w := RunFrom(s, c + 1, IsWordChar);
          if w == 0 then None
          else
            match WordThenTail(s, c + 1, w)
            case None => None
            case Some((qty, amount)) => Some(QuantityCapture(s[..k], s[k..b], qty, amount))
  }

  /** The lazy `^(.*?)`: the first position from k on where the rest of the pattern matches. */
  function QuantityFrom(s: string, k: nat): (r: Option<QuantityCapture>)
    ensures r.Some? ==> |r.value.description| < |s| && s[..|r.value.description|] == r.value.description
    ensures r.Some? ==> |r.value.unitPrice| >= 2 && r.value.unitPrice[0] == Rupee
    ensures r.Some? ==> |r.value.quantity| >= 1 && |r.value.amount| >= 2 && r.value.amount[0] == Rupee
    decreases |s| - k
  {
    if k >= |s| then None
    else
      match QuantityAt(s, k)
      case Some(m) => Some(m)
      case None => QuantityFrom(s, k + 1)
  }

  function QuantityMatch(line: string): Option<QuantityCapture> {
    QuantityFrom(line, 0)
  }
}
