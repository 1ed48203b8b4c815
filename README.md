# Bill extraction: a verified model of the text-to-structure core

The repository reads hospital and pharmacy bills. OCR turns each bill into text. Then:

- `services/parser.py` pulls the header fields, the line items and the printed totals out of that text.
- `services/reconcile.py` de-duplicates the items, adds them up, builds the tax breakdown, finds the subtotal and decides the final total.
- The two endpoints `main.py` and `app.py` split an uploaded or downloaded document into pages. For each page they find the item rows, classify the page, number it, and assemble the response with its item count and token usage.
- `models/schema.py` declares the records these functions exchange.

This project models all of that in Dafny and proves what the code promises:

- **Deduplication** keeps the first item of each key, in order, and is idempotent.
- **The item sum** is rounded to cents and does not depend on item order.
- **A printed final amount always wins.**
- **The tax breakdown** holds exactly the tax codes present in the totals.
- **Line parsing** skips summary lines and tries its three strategies in a fixed order. Only the first strategy fills in unit price and quantity. The fallback takes the last amount on the line.
- **Totals** are non-negative whole numbers, stored under nine fixed keys.
- **Page classification:** pharmacy words take priority over final-bill words, and case does not matter.
- **Pages** are numbered "1", "2", … in order, and the item count is the sum over the pages.
- **main.py** skips malformed item matches; **app.py** aborts on the first one.
- **Content source:** an uploaded file is preferred to the URL, and the request is rejected when neither is present.

Modules, one per source file plus shared layers:

| module | file | models |
|---|---|---|
| `Results` | results.dfy | `Option`, `Outcome` (a value or a `ValueError` with its text), `Result` |
| `Text` | text.dfy | `str.isspace`, `lower`, `strip`, `replace(c, "")`, `in`, `endswith`, `splitlines`, `re.sub(r'\s+', ' ', …)` |
| `Decimal` | decimal.dfy | `float()` on decimal literals, `str()` of a natural number, `round(x, 2)`, on exact reals |
| `Schema` | schema.dfy | `LineItem`, `Taxes`, `InvoiceOutput` of models/schema.py (fields that are `Optional` are `Option`s) and the `SubTotal` entry |
| `Patterns` | patterns.dfy | hand-written matchers for the regular expressions of parser.py and reconcile.py |
| `Parser` | parser.dfy | services/parser.py |
| `Reconcile` | reconcile.dfy | services/reconcile.py |
| `Pages` | pages.dfy | what main.py and app.py share: `detect_page_type`, the match conversion, page numbers, the item count, the response |
| `MainApi` | main_api.dfy | main.py's `extract_items` and `extract_bill_data` |
| `AppApi` | app_api.dfy | app.py's `extract_items` and `extract_bill_data` |

The loops of the source are methods with loop invariants. These are proved equal to a function that defines their result:

- `DeduplicateItems` (reconcile.py);
- `ParseLineItems` and `ExtractTotals` (parser.py);
- both `ExtractItems` methods, main.py's `ExtractBillData` and app.py's page loop `BuildPages`.

`BuildTaxesDict` (reconcile.py) and `ExtractHeaderFields` (parser.py) have no such function: their own `ensures` say, key by key, what the resulting map holds.

The properties are lemmas about those functions. A Python `ValueError` from `float()` is the `ValueError` case of `Outcome`.

How the outside world enters the model:

- OCR, PDF rendering and the HTTP download are parameters of the endpoint methods: `pdfPages`, `imageText` and `fetch`.
- The regular expressions of the endpoints' `extract_items` and of the header fields go to an abstract search function (`findAll`, `search`), called with the pattern text the source uses.
- The patterns of parser.py and reconcile.py are matched by hand-written functions that follow Python's search for that one pattern.

## Model

| member | source | states |
|---|---|---|
| `Text.Lower` | services/reconcile.py:8 | lower-casing keeps the length and maps every character on its own |
| `Text.LowerIdempotent` | main.py:54 | lower-casing a lower-cased text changes nothing |
| `Text.StripBy` | services/parser.py:25 | the result is the text between a leading and a trailing run of stripped characters; it is empty exactly when every character is stripped, and otherwise neither starts nor ends with a stripped character; an already trimmed text is returned unchanged |
| `Text.StripIdempotent` | services/parser.py:25 | stripping twice is stripping once |
| `Text.RemoveChar` | services/parser.py:8 | `replace(c, "")`: the character is gone, every other character is kept, and a text without it is unchanged |
| `Text.SplitBy` | services/parser.py:25 | splitting gives at least one piece, and a text without a break is its own single piece |
| `Text.SplitByPiecesUnbroken` | services/parser.py:25 | no piece of a split contains a line-break character |
| `Text.NonEmptyStripped` | services/parser.py:25 | the filter keeps only non-empty, already stripped lines, never more than there were pieces |
| `Text.NonEmptyStrippedSources` | services/parser.py:25 | every piece whose stripped text is non-empty is kept, stripped, in order, and no other piece gives a line |
| `Text.Lines` | services/parser.py:25 | every line considered is non-empty and stripped; a text without a line break gives its stripped self, or nothing when that is empty |
| `Text.SplitByAppend` | services/parser.py:25 | splitting two texts joined by a break gives the pieces of the first followed by those of the second |
| `Text.LinesAppend` | services/parser.py:25 | the lines of two texts joined by a newline are the lines of the first, then those of the second |
| `Text.CollapseSpaces` | main.py:27 | collapsing whitespace never lengthens the text, and deleting all whitespace from the result gives the same text as deleting it from the input; what each character becomes is stated by `CollapseSpacesOfWord`, `CollapseSpacesOfSpaced` and `CollapseSpacesOfInterior` |
| `Text.CollapseSpacesOfRun` | main.py:27 | a run of whitespace becomes a single space |
| `Text.CollapseSpacesOfWord` | main.py:27 | a non-whitespace character is kept as it is, in front of the collapsed rest |
| `Text.CollapseSpacesOfLeadingRun` | main.py:27 | a maximal leading run of whitespace becomes one space in front of the collapsed rest |
| `Text.CollapseSpacesOfSpaced` | main.py:27 | a non-empty whitespace run followed by a non-whitespace character (or nothing) becomes one space |
| `Text.CollapseSpacesAppend` | main.py:27 | a text that does not end in whitespace collapses independently of what follows it |
| `Text.CollapseSpacesOfInterior` | main.py:27 | a maximal interior whitespace run between two parts becomes exactly one space between their collapsed forms, so "a  b" collapses to "a b" |
| `Text.CollapseSpacesCollapses` | main.py:27 | after collapsing, the only whitespace is single spaces, never two in a row, and a text starting with whitespace still does |
| `Text.CollapseSpacesOfCollapsed` | main.py:27 | a text already collapsed is left unchanged |
| `Text.CollapseSpacesIdempotent` | main.py:27 | collapsing twice is collapsing once |
| `Decimal.ParseFloat` | services/parser.py:8 | `float()` of the texts the source can produce is never negative |
| `Decimal.ParseFloatDigits` | services/parser.py:8 | a non-empty digit string parses to the whole number it denotes |
| `Decimal.ParseFloatPointed` | services/parser.py:8 | digits, a point and digits parse to the whole part plus the fraction |
| `Decimal.ParseFloatRejectsTwoPoints` | main.py:36 | a text with two decimal points is rejected |
| `Decimal.NatToDigits` | main.py:109 | `str(n)` is a non-empty digit string with no leading zero |
| `Decimal.NatToDigitsRoundTrip` | main.py:109 | reading back `str(n)` gives `n` |
| `Decimal.NatToDigitsInjective` | main.py:109 | distinct numbers have distinct decimal texts |
| `Decimal.GroupThousands` | services/parser.py:8 | the comma-grouped form of a number is not empty; it is the reference form that `Parser.NormMoneyOfGrouped` reads back to the number |
| `Decimal.GroupThousandsDigits` | services/parser.py:8 | removing the commas of the grouped form leaves non-empty digits denoting the number |
| `Decimal.Round2` | services/reconcile.py:23 | `round(x, 2)` is a whole number of cents within half a cent of `x`, the even one when `x` lies halfway between two |
| `Decimal.RoundsToCentsUnique` | services/reconcile.py:23 | at most one value is `x` rounded to cents, so the tie rule fixes the result |
| `Decimal.Round2OfCents` | services/reconcile.py:23 | rounding leaves a whole number of cents unchanged |
| `Decimal.Round2Idempotent` | services/reconcile.py:8 | rounding twice is rounding once |
| `Patterns.AmountAfter` | services/parser.py:62 | the lazy `.*?(₹[\d,]+)`: the first rupee sign at or after the label end that is followed by a digit or comma, with the greedy run after it; none when no such sign exists |
| `Patterns.AlternativeAt` | services/reconcile.py:17 | at one position: none exactly when no label there has an amount after it; otherwise the captures of the first alternative in the list that has one, a label equal to it ignoring case |
| `Patterns.CaptureAt` | services/reconcile.py:19 | group 1 is the text at the label's position, equal to the label ignoring case; group 2 is the text from the rupee sign of the first amount after the label to the end of its digit run |
| `Patterns.LabelledAmountFrom` | services/parser.py:62 | the search from a position finds nothing exactly when no later occurrence of a label has an amount after it; otherwise it gives the captures at the leftmost position where one has, for the first such label in the list |
| `Patterns.LabelledAmount` | services/reconcile.py:17 | `re.search` of a label (or alternation) followed by an amount: None exactly when no occurrence of any label has an amount after it; a captured label equals one of the labels ignoring case, and the amount is a rupee sign with digits and commas |
| `Patterns.LabelledAmountIsFirst` | services/reconcile.py:17 | the match is at the leftmost position where a label has an amount after it, with the first such label in the list, capturing the label as written there and the first amount after it |
| `Patterns.LabelledAmountFound` | services/parser.py:62 | a successful search has a label occurrence with an amount after it |
| `Patterns.MarkerEnd` | services/parser.py:5 | the currency marker (a rupee sign, INR, or Rs at a word start with an optional point) ends after it starts, within the text |
| `Patterns.FractionEnd` | services/parser.py:5 | the optional `(?:\.\d{1,2})?` is absent or a point with one or two digits |
| `Patterns.NumberShape` | services/parser.py:5 | a digit-and-comma run with the optional fraction has the shape `[\d,]+(?:\.\d{1,2})?` |
| `Patterns.AmountTokenAt` | services/parser.py:5 | a token found at a position starts there, spans at least one character and its number has the pattern's shape |
| `Patterns.AmountTokenAtSound` | services/parser.py:5 | a token found at a position is a match of AMOUNT_RE there: the marker, whitespace, the `[\d,]+` run taken as far as it goes, and the fraction taken whenever a point and a digit follow |
| `Patterns.AmountTokenAtComplete` | services/parser.py:5 | every match of AMOUNT_RE at a position is the token found there |
| `Patterns.AmountTokenAtNone` | services/parser.py:5 | nothing is found at a position exactly when AMOUNT_RE has no match there |
| `Patterns.AmountMatcher` | services/parser.py:50 | AMOUNT_RE tried at each position gives matches that start there and end inside the text |
| `Patterns.TokensFrom` | services/parser.py:50 | `re.findall` keeps matches in text order without overlap, all inside the text |
| `Patterns.RemoveTokensLength` | services/parser.py:53 | `re.sub(AMOUNT_RE, "", …)` removes exactly the characters the matches cover |
| `Patterns.RemoveTokensUnmatched` | services/parser.py:53 | where nothing matches, the substitution leaves the text unchanged |
| `Patterns.WithoutAmountsRemovesSpans` | services/parser.py:53 | the description of the fallback is the line less the matched spans, and the line itself when no amount occurs |
| `Patterns.LastIndexOf` | services/parser.py:43 | the last position of a character, or None exactly when it does not occur |
| `Patterns.TrailingAmount` | services/parser.py:43 | the search for the trailing pattern, from the last `₹` of the line; characterised by `TrailingAmountSound` and `TrailingAmountComplete` |
| `Patterns.TrailingAmountSound` | services/parser.py:43 | a capture of `^(.*?)[\s:,-]+(₹\s*[\d,]+)$` splits the line into the description, at least one separator and an amount reaching the end of the line, and the description does not end in a separator |
| `Patterns.TrailingAmountComplete` | services/parser.py:43 | every such split of the line is the capture found, so the search fails exactly when the line has no such split |
| `Patterns.SeparatorSplit` | services/parser.py:43 | cutting before the separator run in front of the rupee sign, with digits after it to the end, gives such a split |
| `Patterns.QuantityTail` | services/parser.py:32 | the tail `\s*[x×]\s*([\d.]+)\s*=\s*(₹[\d,]+)` captures a non-empty quantity and a rupee amount |
| `Patterns.AmountTail` | services/parser.py:32 | the tail `\s*=\s*(₹[\d,]+)` captures a rupee sign with at least one digit or comma |
| `Patterns.WordThenTail` | services/parser.py:32 | the backtracking `\w+` gives captures of the same shape |
| `Patterns.QuantityAt` | services/parser.py:31-34 | a match with the unit price at position k has the prefix before k as description and rupee-prefixed prices |
| `Patterns.QuantityFrom` | services/parser.py:31-34 | the lazy `^(.*?)` match has a description that is a proper prefix of the line and captures of the pattern's shape |
| `Parser.FloatOf` | services/parser.py:8 | `float()` succeeds exactly when the text parses, giving that non-negative value; otherwise a ValueError carrying the text |
| `Parser.DropFirst` | services/parser.py:37 | `s[1:]` drops the first character |
| `Parser.FloatOfDigits` | services/parser.py:8 | a digit string reads as the whole number it denotes |
| `Parser.NormMoney` | services/parser.py:7-8 | a successful `norm_money` is never negative; its values are stated by `NormMoneyOfGrouped`, `NormMoneyOfPointed` and `NormMoneyOfDigitsAndCommas` |
| `Parser.NormMoneyOfGrouped` | services/parser.py:7-8 | `norm_money` of a comma-grouped number gives that number |
| `Parser.NormMoneyOfPointed` | services/parser.py:7-8 | `norm_money` of a text that is digits, a point and digits once its commas go ("12,345.50") gives whole part plus fraction |
| `Parser.NormMoneyOfDigitsAndCommas` | services/parser.py:7-8 | `norm_money` of a `[\d,]+` capture fails (on the empty text) exactly when it holds no digit, and otherwise is the whole number of its digits |
| `Parser.CommaFreeDigits` | services/parser.py:8 | removing the commas of a digit-and-comma text leaves digits |
| `Parser.HeaderKeysDistinct` | services/parser.py:12-16 | the three header keys are distinct |
| `Parser.ExtractHeaderFields` | services/parser.py:10-21 | only `bill_no`, `bill_date`, `patient_name` occur; a key is present exactly when its pattern matches, and holds the stripped capture |
| `Parser.QuantityItem` | services/parser.py:35-41 | the quantity strategy gives an item with both unit price and quantity |
| `Parser.TrailingItem` | services/parser.py:44-48 | the trailing-amount strategy gives an item with neither unit price nor quantity |
| `Parser.FallbackItem` | services/parser.py:50-54 | the fallback gives an item without unit price or quantity, and nothing when the line has no amount |
| `Parser.ParsedLines` | services/parser.py:27-54 | one outcome per line, each the parse of that line alone |
| `Parser.ParseLineItems` | services/parser.py:23-56 | the loop gives the items of the non-empty stripped lines in line order, or the first ValueError |
| `Parser.CollectOkAt` | services/parser.py:27-54 | a line that parses adds its item, if any, after the items so far |
| `Parser.CollectFailsAt` | services/parser.py:27-54 | a line whose parse fails ends the whole parse with that error |
| `Parser.CollectStep` | services/parser.py:27-54 | one more line: the items so far, then what that line yields |
| `Parser.CollectAppend` | services/parser.py:27-54 | collecting two runs of outcomes gives the first run's items followed by the second's |
| `Parser.CollectStopsAt` | services/parser.py:27-54 | the first failing outcome decides the whole collection |
| `Parser.ItemsOfLinesAppend` | services/parser.py:23-56 | parsing two runs of lines gives the first run's items, then the second's |
| `Parser.ItemsOfJoinedText` | services/parser.py:23-56 | the items of two texts joined by a newline are the first text's items followed by the second's |
| `Parser.CollectSources` | services/parser.py:27-54 | every collected item comes from its own outcome, at increasing positions |
| `Parser.ParseLine` | services/parser.py:27-54 | one line: a summary line is skipped, else the quantity, trailing-amount and fallback strategies are tried in that order; characterised by `ItemLineIsNotSummary`, `OnlyQuantityStrategySetsUnitPrice` and `FallbackTakesLastAmount` |
| `Parser.ItemLineIsNotSummary` | services/parser.py:28-29 | a line that yields an item is not a summary line |
| `Parser.ItemSources` | services/parser.py:25-54 | each item comes from a distinct line, in line order, none a summary line, each line parsing to its item: at most one item per line, order kept |
| `Parser.OnlyQuantityStrategySetsUnitPrice` | services/parser.py:35-54 | an item has a unit price, and a quantity, exactly when the quantity pattern matched its line |
| `Parser.FallbackTakesLastAmount` | services/parser.py:50-54 | when neither earlier pattern matches, the item's amount is the last AMOUNT_RE match and its description the line without the matches |
| `Parser.LowerSummaryKeywords` | services/parser.py:28 | the seven skip keywords in lower case |
| `Parser.LongerTotalsContainTotal` | services/parser.py:28 | "subtotal" and "grand total" contain "total" |
| `Parser.SummaryLineKeywords` | services/parser.py:28 | a line is skipped exactly when, ignoring case, it contains total, discount, cgst, sgst or round off (IGST is not among them) |
| `Parser.TotalsTableKeys` | services/parser.py:66-74 | every one of the nine keys has exactly one entry in the label table |
| `Parser.FindTotal` | services/parser.py:61-64 | one `find`: it fails, on `float("")`, exactly when the first amount after the label has no digit; otherwise it finds a value exactly when the label has an amount after it, and that value is the number the capture's digits denote |
| `Parser.AmountCaptureDigits` | services/parser.py:64 | a `₹[\d,]+` capture without the rupee sign holds only digits and commas |
| `Parser.CaptureDigitsEmpty` | services/parser.py:64 | removing the rupee sign and the commas of a capture leaves nothing exactly when it holds no digit |
| `Parser.FindsOf` | services/parser.py:66-74 | the finds of the table's entries, in order, each beside its key |
| `Parser.StoreStep` | services/parser.py:61-74 | one more find: the totals so far, then that find's amount under its key |
| `Parser.StoreErrorPersists` | services/parser.py:61-74 | once a find fails, later finds do not change the failure |
| `Parser.StoreContents` | services/parser.py:61-74 | with distinct keys, a key is stored exactly when its find found an amount and holds that amount; no other key is stored |
| `Parser.FindsOfFacts` | services/parser.py:61-64 | each find is present exactly when its label has an amount after it, and finds whole non-negative numbers |
| `Parser.StoreValues` | services/parser.py:61-74 | every stored amount satisfies what every find promises of its amount |
| `Parser.StoreOk` | services/parser.py:61-74 | storing the finds succeeds exactly when every find does |
| `Parser.ExtractTotals` | services/parser.py:58-76 | the loop gives the totals of the nine finds: each key present exactly when its label is followed by an amount, holding the number the digits of the first such amount denote; it fails, on `float("")`, exactly when one of those amounts has no digit |
| `Parser.StoreFoundAt` | services/parser.py:61-64 | a successful find adds its amount, if any, to the totals |
| `Parser.StoreFailsAt` | services/parser.py:61-64 | a failing find is the failure of the whole extraction |
| `Parser.TotalsContents` | services/parser.py:58-76 | the keys present are exactly the labels followed by an amount, each holding the number the digits of its first amount denote, a non-negative whole number |
| `Parser.TotalsFail` | services/parser.py:58-76 | the totals fail exactly when the first amount after one of the nine labels has no digit |
| `Parser.TableContents` | services/parser.py:61-74 | for any label table with distinct keys, a key is present exactly when its label has an amount after it, and holds the value of that amount |
| `Parser.StoreAgrees` | services/parser.py:61-74 | when every successful find finds what a list of values says, the stored map is that list under the entries' keys |
| `Reconcile.KeyOf` | services/reconcile.py:8 | the de-duplication key: the description lower-cased and stripped, and the amount rounded to cents under the tie rule of `round`; its use is stated by `DedupKeys` and `DedupUnique` |
| `Reconcile.DedupBy` | services/reconcile.py:4-12 | never more items kept than given |
| `Reconcile.DeduplicateItems` | services/reconcile.py:4-12 | the loop with its `seen` set gives the first-occurrence filter keyed on the lower-cased stripped description and the amount rounded to cents |
| `Reconcile.DedupStep` | services/reconcile.py:7-11 | one more item: its key joins the keys seen, and it is kept exactly when its key is new |
| `Reconcile.KeysStep` | services/reconcile.py:10 | adding an item adds its key to the keys |
| `Reconcile.DedupKeys` | services/reconcile.py:8-11 | every key of the input is the key of a kept item, and no other key is |
| `Reconcile.DedupUnique` | services/reconcile.py:8-11 | no two kept items share a key |
| `Reconcile.DedupFirstOccurrences` | services/reconcile.py:4-12 | the kept items are a subsequence of the input, each the first occurrence of its key, at increasing positions |
| `Reconcile.DedupOfUnique` | services/reconcile.py:4-12 | an input with distinct keys is kept whole |
| `Reconcile.DedupIdempotent` | services/reconcile.py:4-12 | de-duplicating twice is de-duplicating once |
| `Reconcile.SumItems` | services/reconcile.py:22-23 | the result is `round(s, 2)` of the exact sum `s` of the amounts: whole cents, within half a cent, the even one at a tie |
| `Reconcile.SumItemsEmpty` | services/reconcile.py:22-23 | the sum of no items is 0 |
| `Reconcile.SumAmountsAppend` | services/reconcile.py:23 | the sum of two runs is the sum of their sums |
| `Reconcile.SumAmountsRemove` | services/reconcile.py:23 | taking one item out lowers the sum by its amount |
| `Reconcile.SumAmountsPermutation` | services/reconcile.py:23 | the exact sum does not depend on the order of the items |
| `Reconcile.SumItemsPermutation` | services/reconcile.py:22-23 | the rounded sum does not depend on the order of the items |
| `Reconcile.ComputeFinalTotal` | services/reconcile.py:25-29 | a printed final amount is returned as it is; otherwise the result is `round(t, 2)` of `t` = items less discount plus taxes plus round-off, in the sense of `Decimal.RoundsToCents` |
| `Reconcile.MissingComponentsCountAsZero` | services/reconcile.py:26 | a missing discount, tax or round-off counts as 0; with all missing the result is the rounded item sum |
| `Reconcile.CentsClosed` | services/reconcile.py:26 | sums and differences of whole cents are whole cents |
| `Reconcile.FloorOfWhole` | services/reconcile.py:26 | the floor of a whole number is itself |
| `Reconcile.ComputedTotalOfCents` | services/reconcile.py:26 | with no printed value and every amount in whole cents, the computed total is exact |
| `Reconcile.FinalTotalScenario` | services/reconcile.py:25-29 | items of 500, discount 50 and taxes 45 give 495; a printed 600 overrides it |
| `Reconcile.TaxNamesDistinct` | services/reconcile.py:33 | the three tax codes have distinct names |
| `Reconcile.SumPresentOfCodes` | services/reconcile.py:37 | summing the breakdown's values gives each code's amount or zero, added |
| `Reconcile.BuildTaxesDict` | services/reconcile.py:31-38 | the breakdown holds exactly the codes CGST, SGST, IGST present in the totals, values unchanged; the aggregate is the printed total tax, else the breakdown's sum, else None |
| `Reconcile.ComputeSubtotals` | services/reconcile.py:14-20 | at most one entry; none exactly when no "Subtotal"/"Total Amount" has an amount after it; otherwise the search's captured label and the number its amount's digits denote, a non-negative whole number; a failure, on `float("")`, exactly when that amount has no digit |
| `Reconcile.CaptureValue` | services/reconcile.py:19 | `float()` of the capture without rupee sign and commas equals `norm_money` of it; it fails, on the empty text, exactly when the capture has no digit, and otherwise is the number its digits denote |
| `Pages.DetectPageType` | main.py:53-62 | Pharmacy exactly when a pharmacy word occurs ignoring case; Final Bill exactly when none does and both "total" and "final" occur; Bill Detail otherwise |
| `Pages.DetectPageTypeIgnoresCase` | main.py:54 | classifying the lower-cased text gives the same type |
| `Pages.LowerContains` | main.py:54-56 | a piece of a text stays a piece once both are lower-cased |
| `Pages.WordPersists` | main.py:56-59 | a keyword found in part of a text is found in the whole |
| `Pages.PageTypeOfLargerText` | main.py:53-62 | a text containing a pharmacy page's text is a pharmacy page; one containing a final bill's text is not a bill detail page |
| `Pages.LabelsDistinct` | main.py:57-62 | the three labels are distinct, so the label determines the type |
| `Pages.ConvertMatch` | main.py:34-37 | a match converts exactly when quantity, comma-free rate and comma-free amount all parse, giving the stripped name and those values; a failure carries one of the three texts |
| `Pages.ConvertGrouped` | main.py:36-37 | a rate and an amount written with thousands separators convert to the numbers they denote |
| `Pages.ConvertRejectsTwoPointRate` | main.py:36 | a rate with two decimal points, which `[\d,.]+` admits, makes the conversion fail |
| `Pages.PageNumber` | main.py:109 | `str(idx + 1)` is a digit string denoting idx + 1, with no leading zero |
| `Pages.PageNumbersDistinct` | main.py:109 | different pages get different page numbers |
| `Pages.TotalItemCount` | main.py:115 | the number of items over all pages; characterised by `TotalItemCountAppend` and `TotalItemCountBounds` |
| `Pages.TotalItemCountAppend` | main.py:115 | the count over two runs of pages is the sum of their counts |
| `Pages.TotalItemCountBounds` | main.py:115 | the count is zero exactly when no page has items, and each page's items are counted |
| `Pages.PageTexts` | main.py:94-98 | a document that is not a PDF is one page |
| `MainApi.ExtractItems` | main.py:25-48 | the loop gives the items of the matches in the collapsed text that convert, in match order, skipping the others |
| `MainApi.KeepOkStep` | main.py:32-46 | one more match: the items so far, then its item if it converts |
| `MainApi.KeepOkAppend` | main.py:32-46 | the items of two runs of matches are the first run's followed by the second's |
| `MainApi.KeepOkSources` | main.py:32-46 | each item comes from a distinct match, in order, and a match gives an item exactly when it converts |
| `MainApi.KeepOkAtMost` | main.py:32-46 | there are at most as many items as matches |
| `MainApi.KeptItemsSources` | main.py:32-46 | every match that converts gives its item and none that fails does; order is kept |
| `MainApi.ChooseContent` | main.py:79-90 | an uploaded file wins; with no file and no non-empty URL the request is a 400 "No document provided"; a URL's download fails exactly on an exception or an error status; a good download gives its content and a failed one the 400 "Unable to fetch document from URL" |
| `MainApi.RejectionsDistinct` | main.py:88-90 | a failed download is never reported as a missing document |
| `MainApi.IsPdfRequest` | main.py:94 | the PDF decision: the uploaded file name or the URL ends in ".pdf", ignoring case; characterised by `UploadWithPdfUrl` |
| `MainApi.UploadWithPdfUrl` | main.py:94 | an uploaded image with a URL ending in ".pdf" is rendered as a PDF, while the content is the upload's |
| `MainApi.MapIndexed` | main.py:103 | one result per element, each computed from its position and element |
| `MainApi.MapIndexedStep` | main.py:103-112 | one more page: the entries so far, then that page's entry |
| `MainApi.PagesOf` | main.py:103-112 | one entry per page text, entry k numbered k + 1 with its type and items |
| `MainApi.PagesOfStep` | main.py:103-112 | the loop appends each page's entry after the entries so far |
| `MainApi.ExtractBillData` | main.py:73-132 | the request fails exactly when there is no content, with its 400; otherwise it succeeds with one entry per page, the count summing their items and every token counter 0 |
| `MainApi.PagesNumbered` | main.py:109 | pages are numbered 1, 2, … in order with no number repeated, each a digit string without a leading zero |
| `AppApi.ConvertAllStep` | app.py:31-42 | one more match: the items so far, then its item, or the first error |
| `AppApi.ConvertAllStopsAt` | app.py:31-42 | once a match fails, later matches do not change the failure |
| `AppApi.ConvertAllOk` | app.py:31-42 | extraction succeeds exactly when every match converts, and then gives what skipping failures would |
| `AppApi.ConvertAllFirstError` | app.py:31-42 | a failure is the error of the first match that does not convert |
| `AppApi.ExtractItems` | app.py:27-44 | the loop gives the items of all matches, or the ValueError of the first that does not convert |
| `AppApi.ConvertAllOkAt` | app.py:31-42 | a match that converts extends the items so far |
| `AppApi.ConvertAllFailsAt` | app.py:31-42 | the first failing match is the failure of the whole extraction |
| `AppApi.UnguardedAgreesWithGuarded` | app.py:31-42 | over the same matches, app.py's extraction either gives exactly main.py's items or fails with the first failing match's error |
| `AppApi.Indexed` | app.py:96 | `enumerate`: each page text beside its position |
| `AppApi.PageOfAt` | app.py:96-108 | one page's entry: its number, type and items, or its items' error |
| `AppApi.ConvertAllValues` | app.py:96-108 | a successful assembly has one entry per page, each that page's entry |
| `AppApi.AppPagesContents` | app.py:96-108 | the pages succeed exactly when every page's items do, and then entry k is numbered k + 1 with that page's type and items |
| `AppApi.PagesLoopStep` | app.py:96-108 | one page of the loop: its entry joins the pages, or its error is the error of all pages |
| `AppApi.Finish` | app.py:111-128 | a ValueError escapes as it is; otherwise a successful response whose count sums the page items and whose token counters are 0 |
| `AppApi.IsPdfDocument` | app.py:86 | the URL ends in ".pdf" ignoring case; `ExtractBillData` states that this decides PDF rendering |
| `AppApi.BuildPages` | app.py:95-108 | the page loop gives one entry per page text, numbered from 1, with its type and items, or the ValueError of the first page whose items do not convert |
| `AppApi.ExtractBillData` | app.py:72-128 | a download exception is the 400 "Unable to fetch document" and nothing else is; otherwise the pages of the document (PDF exactly when the URL ends in ".pdf") are assembled, and total tokens equal input plus output tokens |

The records of models/schema.py (lines 4-26) are the datatypes of `Schema`:

- `LineItem` has `Option` unit price and quantity next to a required description and amount.
- `Taxes` always has its `details` map, with an optional `total_tax`.
- `InvoiceOutput` has `final_total` as its only non-optional total.

They have no operations, so they have no rows.

## Left out

- OCR (`ocr_image`), PDF rendering (`convert_from_bytes`) and the call to `requests.get` are parameters. Their behaviour, and the FastAPI framework around the endpoints, are not modelled. `root()` only returns a constant message.
- `Image.open` failing on content that is not an image, and an uploaded file whose `filename` is None, are not modelled. Both raise inside the endpoint. An upload counts as present when it is given: the truthiness of `UploadFile` is taken to be True.
- An exception that escapes app.py's endpoint is the `Raised` outcome. The server's conversion of it into a 500 response is not modelled.
- main.py and app.py define `detect_page_type` identically. It is modelled once, as `Pages.DetectPageType`.
- app.py's `pages_text` list is built but never read. `AppApi.BuildPages` builds it too, and no contract mentions it.
- The regular-expression engine for `extract_items` in both endpoints and for the header patterns is abstract: a parameter called with the pattern the source uses.
- Python `re` semantics beyond the searches written out in `Patterns` are not modelled. `\d`, `\w` and `\b` are taken as ASCII, and `re.I` folds ASCII letters only. For `str` patterns Python also matches other Unicode digits and letters.
- `str.lower()` is modelled on ASCII letters only.
- `float()` is modelled on texts of ASCII digits with at most one point, after stripping whitespace. That is everything the captures can hold. Signs, exponents, underscores, `inf`/`nan` and non-ASCII digits are outside the model.
- Amounts are exact reals. IEEE-754 binary rounding and accumulation in `sum()` and `round(x, 2)` are not modelled, so `round` is round-half-to-even on the exact value.
- `str.splitlines()` is modelled as splitting at every line-boundary character. It therefore breaks "\r\n" into two boundaries, keeps an empty last piece after a final line break, and gives `[""]` for the empty text where Python gives `[]`. Each of these differences is an empty piece, which the non-empty filter drops, so the lines considered are the same.
- `Parser.ParseLine`: no lemma evaluates a concrete bill line such as `Paracetamol ₹50 /tab x 2 = ₹100`. Unfolding the hand-written quantity matcher on a literal line of that length is beyond what the verifier can do within its resource bound. The contracts of `Parser.QuantityItem`, `Patterns.QuantityFrom` and `Parser.OnlyQuantityStrategySetsUnitPrice` state the shape of such an item, not its values.
- `Parser.ParseLineItems`: the loop delegates each line's skip filter and three strategies to `Parser.ParseLine`, the function that specifies it, instead of repeating them inline. The `continue`-based fallthrough is the if-chain of that function.
- Reconcile: `compute_subtotals` builds `{"label": str, "amount": float}` entries (services/reconcile.py:19). These conflict with `sub_totals: List[Dict[str, float]]` (models/schema.py:19). `ComputeSubtotals` returns `Schema.SubTotal` records, and `InvoiceOutput.subTotals` keeps the declared type. The two are not reconciled.
- The orchestration that fills an `InvoiceOutput`, and any anomaly check on it, are not in the core files and are not modelled.
- `Patterns.QuantityFrom`, `Patterns.QuantityAt`, `Patterns.QuantityTail`, `Patterns.AmountTail` and `Patterns.WordThenTail` state only the shape of their captures. Their definitions carry the search order: leftmost description end, then the longest `\w+` that lets the tail match. The contracts do not state that the match is the leftmost one.
- `Patterns.TokensFrom` states that the matches are in order, without overlap and inside the text. That each one is the leftmost match after the previous one is in its definition, not its contract.
- `Decimal.ParseFloat` states only that a parsed value is non-negative. Its values on digit strings and on decimal literals are the lemmas `ParseFloatDigits`, `ParseFloatPointed` and `ParseFloatRejectsTwoPoints`.
- `services/preprocess.py` (image clean-up), `services/fraud.py` (pixel statistics), `services/ocr.py` and `utils/files.py` (library wrappers) are not part of this model.
