# Amazon product intelligence: the scoring pipeline in Dafny

This project models the two batch scripts behind the product-intelligence
dashboard and proves properties of the model.

`generate_data.py` reads the raw catalog. It then:

- cleans the price, percentage, rating and count columns from their text
  forms (a rupee sign, thousands separators, a trailing `%`);
- drops exact duplicate rows, and drops rows that lack a price or a discount;
- imputes a missing rating with the median and a missing count with 0;
- derives the discount amount and ratio and the main category;
- derives the min-max popularity score, the Bayesian-average weighted rating,
  the trust score (min-max of the weighted rating) and the value score;
- labels each review Positive, Negative or Neutral from a polarity score, and
  flags complaint phrases by substring.

`add_nlp.py` then adds two columns to that table:

- a compound sentiment score, 0 when the review is missing;
- a 0/1 risk flag, raised when the lower-cased review holds one of twelve risk
  words as a whole word, between two `\b` boundaries.

Modules follow the program:

| module | what it holds |
|---|---|
| `Wrappers` | `Option`, the missing cell or NaN |
| `Text` | ASCII `lower`, `strip`, `replace(pat, "")`, substring search, whole-word search |
| `Numbers` | reading a decimal numeral (`pd.to_numeric`); writing one, as the catalog does (`1,299`, `64%`, `4.2`) |
| `Stats` | column `min`/`max`/`mean`, min-max unit scaling |
| `Normalizer` | the cleaning half of `generate_data.py` |
| `Features` | the derived columns and the scored table |
| `TextSignals` | the sentiment label and the complaint test of `generate_data.py` |
| `AddNlp` | `add_nlp.py` |
| `Pipeline` | both scripts in turn, as methods that pass the table from stage to stage |

Numbers are exact (`real`). Three inputs are parameters of the model:

- `median`, which pandas computes for the rating fill;
- `m`, the 60th percentile of the counts;
- the two lexicon scorers (TextBlob polarity and VADER compound), as functions
  `string -> real`.

The mean rating `C` is computed.

Where the code and its design notes disagree, the model follows the code:

- The design asks that a constant column scale to a neutral 0.5. The code
  divides by `max - min` unguarded. The model therefore requires every scaled
  column to have `max > min`: `Stats.Spread` and `Features.Scorable`.
- It also requires `v + m != 0` for every row, because the weighted rating
  divides by it.
- The design asks that the row counts removed be logged. The code does not log
  them, and neither does the model.

## Model

| member | source | states |
|---|---|---|
| `Text.Lower` | add_nlp.py:33 | `lower()` on ASCII, character by character and of the same length; `LowerIdempotent` and `LowerConcat` are its laws |
| `Text.StripLeft` | generate_data.py:16 | the result is a suffix of the input; what was cut is all whitespace; the result does not start with whitespace |
| `Text.StripRight` | generate_data.py:16 | the result is a prefix of the input; what was cut is all whitespace; the result does not end with whitespace |
| `Text.Strip` | generate_data.py:16 | `strip()`: the result neither starts nor ends with whitespace; `StripLeft`, `StripRight` and `StripPadded` say what is cut |
| `Text.StripPadded` | generate_data.py:16 | stripping text padded with whitespace gives back exactly the text, when it neither starts nor ends with whitespace |
| `Text.RemoveAll` | generate_data.py:16 | `replace(pat, "")` by a non-overlapping left-to-right scan, never longer than its input; `RemoveAllAbsent`, `RemoveCharConcat` and `RemoveCharGone` are its laws |
| `Text.RemoveAllAbsent` | generate_data.py:16 | `replace(pat, "")` leaves text without `pat`'s first character unchanged |
| `Text.RemoveCharConcat` | generate_data.py:32 | removing one character distributes over concatenation |
| `Text.RemoveCharGone` | generate_data.py:32 | after `replace(",", "")` no comma is left |
| `Text.LowerIdempotent` | generate_data.py:115 | lower-casing twice is lower-casing once |
| `Text.LowerConcat` | add_nlp.py:33 | lower-casing distributes over concatenation |
| `Text.ContainsFrom` | generate_data.py:116 | the left-to-right scan finds `k` exactly when `k` occurs at or after the start position |
| `Text.FindWholeWordFrom` | add_nlp.py:35 | the scan succeeds exactly when `w` occurs at or after the start position with a `\b` boundary on both sides |
| `Text.KeywordBoundaries` | add_nlp.py:35 | for a word of word characters, a match is whole exactly when neither neighbour is a word character |
| `Text.EmbeddedKeywordNoMatch` | add_nlp.py:35 | a word followed by another word character is no match there ("bad" in "badly") |
| `Text.SingleToken` | add_nlp.py:35 | in a run of word characters the only whole-word match is the whole run |
| `Text.SplitAtSeparator` | add_nlp.py:35 | a non-word separator splits the search: a match in `a + sep + b` is a match in `a` or in `b`, and conversely |
| `Numbers.ParseNumber` | generate_data.py:17 | a text that reads as a number is non-empty and made of digits, signs and points only |
| `Numbers.ParseRejects` | generate_data.py:17 | a character outside digits, sign and point makes `to_numeric(..., errors="coerce")` missing |
| `Numbers.ParseDigits` | generate_data.py:35 | a non-empty digit string reads as its decimal value |
| `Numbers.ParseSigned` | generate_data.py:17 | a leading `-` negates the value of a digit string and a leading `+` keeps it |
| `Numbers.ParseOneDecimal` | generate_data.py:28 | `"a.b"` reads as `a + b/10` |
| `Numbers.ShowNatValue` | generate_data.py:35 | the decimal digits of `n` read back as `n` |
| `Numbers.DigitsValueConcat` | generate_data.py:35 | the value of joined digit strings is the first value shifted by the second's length plus the second value |
| `Stats.Min` | generate_data.py:48-50 | `min` is an element of the column and at most every element |
| `Stats.Max` | generate_data.py:48-50 | `max` is an element of the column and at least every element |
| `Stats.Mean` | generate_data.py:53 | `C`, the sum of the ratings over their number; `MeanBounds` places it between the least and the greatest rating |
| `Stats.MeanBounds` | generate_data.py:53 | the mean rating `C` lies between the least and the greatest rating |
| `Stats.UnitBounds` | generate_data.py:48-50 | a value inside `[min, max]` scales into `[0, 1]` |
| `Stats.UnitEnds` | generate_data.py:48-50 | the minimum scales to 0 and the maximum to 1 |
| `Stats.UnitMonotone` | generate_data.py:48-50 | min-max scaling keeps and reflects the order of values, strict and non-strict |
| `Normalizer.CleanPrice` | generate_data.py:13-17 | a missing price stays missing; otherwise the sign text and the commas are removed, the rest stripped and read as a number; `CleanPriceRoundTrip`, `PriceTextRejected` and `RupeeSignRejected` state what it accepts and refuses |
| `Normalizer.CleanPriceRoundTrip` | generate_data.py:13-17 | a price written with the three-character sign text `â‚¹` of the source literal, as in `â‚¹1,299`, with any thousands grouping and whitespace padding, cleans to its value |
| `Normalizer.PriceTextRejected` | generate_data.py:13-17 | a price holding a character the cleaner does not remove, and that is not part of a numeral, cleans to missing |
| `Normalizer.RupeeSignRejected` | generate_data.py:13-17 | a price holding the one-character rupee sign U+20B9 is not cleaned of it, so it is missing and its row is not kept |
| `Normalizer.CleanPercent` | generate_data.py:21-27 | a missing percentage stays missing; otherwise the `%` signs are removed, the rest stripped and read as a number; `CleanPercentRoundTrip` and `PercentAndCountTextRejected` are its properties |
| `Normalizer.CleanPercentRoundTrip` | generate_data.py:21-27 | `64%`, padded, cleans to 64 |
| `Normalizer.PercentAndCountTextRejected` | generate_data.py:21-35 | a percentage or a count holding a character that cannot be part of a numeral cleans to missing |
| `Normalizer.CleanRating` | generate_data.py:28 | a missing rating stays missing; a rating that reads as a number is non-empty text of digits, signs and points; `CleanRatingRoundTrip` is its round trip |
| `Normalizer.CleanRatingRoundTrip` | generate_data.py:28 | a rating written with one decimal, `4.2`, reads as its value |
| `Normalizer.CleanCount` | generate_data.py:29-35 | a missing count stays missing; otherwise the commas are removed, the rest stripped and read as a number; `CleanCountRoundTrip` and `PercentAndCountTextRejected` are its properties |
| `Normalizer.CleanCountRoundTrip` | generate_data.py:29-35 | a count written `24,269`, padded, cleans to its value |
| `Normalizer.GroupedDigits` | generate_data.py:32 | removing the commas of a grouped numeral leaves plain digits of the same value |
| `Normalizer.CleanColumns` | generate_data.py:19-35 | cleaning keeps one row per raw row |
| `Normalizer.DropDuplicates` | generate_data.py:36 | no two kept rows are equal; a row is kept exactly when it occurs in the input; kept rows are in order of first occurrence |
| `Normalizer.DropMissing` | generate_data.py:37 | kept rows have all three required fields; each such row keeps its multiplicity and the others are gone; kept rows are in their original order |
| `Normalizer.Impute` | generate_data.py:38-39 | every row gets a rating and a count; a missing rating becomes the median and a missing count 0; present values and all other columns are unchanged |
| `Normalizer.ImputeIdempotent` | generate_data.py:38-39 | filling again changes nothing, whatever median is used the second time |
| `Normalizer.Normalize` | generate_data.py:13-39 | every normalised product comes from a raw row whose required fields clean to numbers; every such raw row yields a product in the table; no rows are added |
| `Features.DiscountAmount` | generate_data.py:41 | the amount is never negative when the discounted price is at most the actual price, at most the actual price when the discounted price is not negative, and zero exactly when the two prices agree |
| `Features.DiscountRatio` | generate_data.py:41-42 | the ratio is missing exactly when the actual price is 0; otherwise ratio times price is the discount amount |
| `Features.DiscountRatioBounds` | generate_data.py:41-42 | for `0 <= discounted <= actual` and `actual > 0` the ratio lies in `[0, 1]` |
| `Features.FirstField` | generate_data.py:46 | splitting at the bar character and taking the first field gives the longest prefix without a bar: it has no bar, and a bar follows it unless it is the whole string |
| `Features.MainCategory` | generate_data.py:46 | the main category holds no bar character |
| `Features.MainCategoryOfPath` | generate_data.py:46 | a category path `top`, bar, `rest` has main category `top` when `top` holds no bar |
| `Features.MainCategoryFlat` | generate_data.py:46 | a category without bars is its own main category |
| `Features.MainCategoryIdempotent` | generate_data.py:46 | taking the main category again changes nothing |
| `Features.MinMaxPercent` | generate_data.py:48-50 | the scaled column has the length of the input and lies in `[0, 100]`; the minimum goes to 0 and the maximum to 100; positions are ranked as in the input |
| `Features.Popularity` | generate_data.py:48-50 | popularity lies in `[0, 100]` and ranks rows exactly as their rating counts do |
| `Features.WeightedRating` | generate_data.py:55-58 | the Bayesian average of `R` and `C` with weights `v` and `m`; the `WeightedRating…` lemmas below are its properties |
| `Features.WeightedRatingShift` | generate_data.py:55-58 | the weighted rating is `C` moved towards `R` by the share `v/(v+m)`, and `R` moved towards `C` by `m/(v+m)` |
| `Features.WeightedRatingBetween` | generate_data.py:55-58 | with `v, m >= 0` the weighted rating lies between `R` and `C` |
| `Features.WeightedRatingNoVotes` | generate_data.py:55-58 | a product without ratings gets `C` |
| `Features.WeightedRatingAtMean` | generate_data.py:55-58 | a product rated exactly `C` keeps its rating |
| `Features.WeightedRatingApproachesRating` | generate_data.py:55-58 | more votes never move the weighted rating farther from the product's own rating |
| `Features.WeightedRatingsWithinRatings` | generate_data.py:52-60 | every weighted rating of the table lies between the least and the greatest rating |
| `Features.PriceComponent` | generate_data.py:65-67 | one minus the unit-scaled discounted price, inside `[0, 1]` for a price inside the column's range; `PriceComponentEnds` and `ValueScoreMonotone` give its ends and its order |
| `Features.DiscountComponent` | generate_data.py:69-71 | the unit-scaled discount percentage, inside `[0, 1]` for a discount inside the column's range; `ValueScoreExtremes` and `ValueScoreMonotone` give its ends and its order |
| `Features.ValueScore` | generate_data.py:65-73 | the 60/40 blend of the two components times 100; `ValueScoreBounds`, `ValueScoreExtremes` and `ValueScoreMonotone` are its properties |
| `Features.PriceComponentEnds` | generate_data.py:65-67 | the cheapest product has price component 1, the dearest 0 |
| `Features.ValueScoreBounds` | generate_data.py:65-73 | a value score lies in `[0, 100]` |
| `Features.ValueScoreExtremes` | generate_data.py:65-73 | the largest discount at the lowest price scores 100; the smallest discount at the highest price scores 0 |
| `Features.ValueScoreMonotone` | generate_data.py:65-73 | a larger discount or a lower price never lowers the value score |
| `Features.ValueRanges` | generate_data.py:65-71 | the price and discount extremes bound every row, with `min < max` |
| `Features.ScoreRowsColumns` | generate_data.py:41-73 | each scored row holds its own product's discount amount and ratio, main category, value score, sentiment label and complaint flag |
| `Features.Derive` | generate_data.py:41-73 | one scored row per product, keeping its product and discount amount; all three scores in `[0, 100]`; popularity, weighted rating and trust are the column computations of the whole table |
| `Features.DeriveRowColumns` | generate_data.py:41-119 | every row of the derived table holds its product's own columns, with the value score taken against the table's extremes |
| `Features.DerivePopularityRanks` | generate_data.py:48-50 | the derived popularity ranks rows exactly as their rating counts do |
| `Features.DeriveTrustRanks` | generate_data.py:61-63 | the derived trust score ranks rows exactly as their weighted ratings do |
| `TextSignals.Label` | generate_data.py:104-109 | Positive exactly above 0.1, Negative exactly below -0.1, Neutral exactly in between |
| `TextSignals.GetSentiment` | generate_data.py:99-109 | a missing review is Neutral; otherwise the label of its polarity |
| `TextSignals.LabelMonotone` | generate_data.py:104-109 | a higher polarity never gets a worse label |
| `TextSignals.AnyKeywordIn` | generate_data.py:116 | true exactly when some keyword occurs in the text |
| `TextSignals.HasComplaintKeywords` | generate_data.py:111-116 | false for a missing review; otherwise true exactly when the lower-cased review contains a complaint phrase as a substring |
| `TextSignals.ComplaintCaseInsensitive` | generate_data.py:115 | the complaint test ignores case |
| `TextSignals.ComplaintInsideLongerWord` | generate_data.py:114-116 | "Unbroken seal" counts as a complaint: the test matches inside longer words |
| `TextSignals.ComplaintPhrase` | generate_data.py:114-116 | the two-word phrase "Not Working" is a complaint |
| `AddNlp.SentimentScore` | add_nlp.py:15-19 | a missing review scores 0; otherwise its compound score |
| `AddNlp.MissingReviewNeutral` | add_nlp.py:16-17 | a missing review is neutral in both scripts |
| `AddNlp.SentimentScoreRange` | add_nlp.py:19 | with a compound scorer in `[-1, 1]`, every score lies in `[-1, 1]` |
| `AddNlp.RiskWordsAreWords` | add_nlp.py:25-28 | every risk word is a non-empty run of word characters |
| `AddNlp.Risky` | add_nlp.py:30-37 | a review is risky when it is present and its lower-cased text holds some risk word as a whole word; `RiskFlag` computes it, `RiskyToken` and `RiskySplit` characterise it |
| `AddNlp.RiskFlag` | add_nlp.py:30-37 | the flag is 0 or 1, and 1 exactly when the review is present and its lower-cased text holds some risk word as a whole word |
| `AddNlp.RiskyCaseInsensitive` | add_nlp.py:33 | the flag ignores case |
| `AddNlp.RiskyToken` | add_nlp.py:34-36 | a single token is risky exactly when its lower-cased form is a risk word itself |
| `AddNlp.RiskySplit` | add_nlp.py:34-36 | text joined at a non-word character is risky exactly when one of its parts is |
| `AddNlp.RiskyBadQuality` | add_nlp.py:34-36 | "This is BAD quality" is risky |
| `AddNlp.RiskyBeforePunctuation` | add_nlp.py:34-36 | "Broken." is risky: punctuation ends a word |
| `AddNlp.NotRiskyInsideWords` | add_nlp.py:34-36 | "badge" and "Returned" are not risky |
| `AddNlp.NotRiskyUnbrokenSeal` | add_nlp.py:34-36 | "Unbroken seal" is not risky |
| `AddNlp.UnbrokenSealComplaintNotRisk` | add_nlp.py:25-37 | the two keyword tests disagree: "Unbroken seal" is a complaint to the substring test but no risk to the whole-word test |
| `AddNlp.AddNlpColumns` | add_nlp.py:21-40 | one output row per input row, keeping the row, with its review's sentiment score and a 0/1 risk flag that is 1 exactly when the review is risky |
| `Pipeline.GenerateData` | generate_data.py:11-119 | threading the table through clean, dedupe, drop and fill gives the normalised catalog; the scored table is its derivation; it has no more rows than the raw catalog |
| `Pipeline.GenerateAndEnrich` | add_nlp.py:10-43 | the final table has one row per normalised product, each the derived row with its review's sentiment score and a 0/1 risk flag that is 1 exactly when the review is risky |

## Left out

- Reading and writing CSV files, the `print` calls and the `nltk.download`
  calls. The table is passed from stage to stage as a value, and the
  summary lines `add_nlp.py` prints are not modelled.
- TextBlob polarity and VADER compound scoring. They are library calls, given
  as `string -> real` parameters.
- `StandardScaler`, `KMeans` and the segment-name map. These are numerical
  library code, and the cluster a row lands in depends on floating-point
  iteration.
- `pd.cut` into five price buckets (`price_bucket`).
- The median rating and the 60th percentile `m`. Pandas computes them (with
  interpolation); here they are parameters.
- Floating point: no rounding, and no NaN or infinity. A missing or unreadable
  value is `None`. A zero actual price gives a `None` discount ratio, where
  pandas gives `inf` or `NaN`.
- The numeral grammar is `[sign] digits [. [digits]]` or `[sign] . digits`. The
  forms `to_numeric` also accepts (`nan`, `inf`, exponents, surrounding
  whitespace on the rating) are not modelled.
- A price written with the one-character rupee sign U+20B9 (`₹`) keeps that
  character, because `clean_price` removes only the three-character text `â‚¹`
  (U+00E2 U+201A U+00B9). The price is then missing and its row is dropped,
  in the source and in the model alike (`Normalizer.RupeeSignRejected`).
- Text is handled on the ASCII range only: `lower`, `strip` and the regular
  expression `\w` are Unicode-aware in Python and ASCII here.
- `Features.MinMaxPercent`: a constant column is excluded by its precondition
  rather than scaled. The source divides by zero there, so this is no weaker
  than the code.
- `Features.Derive` and `Pipeline.GenerateData` require `Features.Scorable`.
  That is no row with `v + m = 0` and no constant scaled column, which are the
  cases where the source's arithmetic is undefined. The empty table is
  allowed.
- `Normalizer.Normalize`: the table is related to the raw rows by membership
  and length. Its exact order and multiplicities follow from `DropDuplicates`
  and `DropMissing`, but are not restated as one contract.
- The dashboard (`app.py`, `utils.py`, `pages/`) with its badges, rankings
  and price simulator is outside the two batch scripts and not part of this
  model.
