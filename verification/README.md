# Password-strength estimator, modelled in Dafny

This project models `estimator.py` of PasswordStrength. Its `analyze_password` takes a
password and returns an assessment: length, charset size, entropy, a 0–100 score, a
verdict (empty / weak / fair / strong / very strong), de-duplicated warnings and
suggestions, and a humanised crack time for each of four attacker models.

The model follows the pipeline of `analyze_password`, one module per stage:

- `Chars` (chars.dfy): the host's character tables (`islower`, `isupper`, `isdigit`,
  `isalnum`, `lower`) as a parameter record `CharTables`. `Lower` is `str.lower`. The
  predicate `AsciiFaithful` pins the tables down on ASCII only.
- `Arith` (arith.dfy): one arithmetic fact, monotonicity of products, shared by the
  keyspace, humaniser and crack-time proofs.
- `Features` (features.dfy): `_charset_size`, and the entropy test. `length *
  log2(charset) < T` is decided exactly on integers as `charset^length < 2^T`.
- `Detectors` (detectors.dfy): the five detectors (too short, common password, keyboard
  pattern, low diversity, all digits) and the `COMMON_PASSWORDS` set.
- `Scoring` (scoring.dfy): base score from the entropy band, additive penalties,
  clamping, the verdict buckets and their template messages. Messages and verdicts are
  enumerations, one constructor per distinct text. The two-factor suggestion is shared
  word for word by three buckets, so it is one constructor.
- `Deduplication` (dedupe.dfy): `_dedupe_keep_order`, both as the loop of `_dedupe_keep_order`
  (`DedupeKeepOrder`) and as a prefix-by-prefix function (`Dedupe`).
- `Humanizer` (humanize.dfy): `_humanize_seconds`. The duration is kept structured (a
  list of quantity/unit terms), and `Render` produces the Thai text of `_humanize_seconds` from it.
- `Crack` (crack.dfy): `GUESS_RATES` and `_avg_crack_time_seconds`, with seconds as a
  natural number: the keyspace divided by twice the rate, truncated.
- `Estimator` (estimator.dfy): `analyze_password` as `Analyze`. `Assess` is the non-empty
  branch as a function of length, charset and detector flags.
- `Examples` (examples.dfy): the charset, score, verdict, warnings and suggestions of
  "password", "123456" and the 20-character mixed-class "Bb2!Bb2!Bb2!Bb2!Bb2!" under any
  tables that follow ASCII; their crack times are not
  worked out.

`_avg_crack_time_seconds` (estimator.py:73-75) divides as floats, so `analyze_password`
raises `OverflowError` once `charset ** length / 2` is beyond the float range (for example
157 characters using all four classes: 95^157 / 2 exceeds 1.8 * 10^308). The model uses
exact arithmetic and is total; see "Left out".

## Model

| member | source | states |
|---|---|---|
| Chars.Lower | estimator.py:80 | Lower-casing maps characters one by one through the tables' lower-case mapping; the empty string stays empty, and a mapping that sends every character to a single character keeps the length |
| Chars.LowerAppend | estimator.py:80 | Lower-casing distributes over concatenation |
| Chars.LowerOfAscii | estimator.py:80 | On ASCII input, tables that follow ASCII lower-case position by position (upper-case letters shifted by 32, everything else unchanged) and keep the length |
| Chars.LowerOfUncasedAscii | estimator.py:80 | An ASCII string without upper-case letters is its own lower case |
| Chars.AsciiOnlyIsFaithful | estimator.py:30-33 | The ASCII-only instance of the tables meets the ASCII agreement the examples assume |
| Features.HasLower | estimator.py:30 | Some character of the password is lower case under the tables |
| Features.HasUpper | estimator.py:31 | Some character of the password is upper case under the tables |
| Features.HasDigit | estimator.py:32 | Some character of the password is a digit under the tables |
| Features.HasSymbol | estimator.py:33 | Some character of the password is not alphanumeric under the tables |
| Features.CharsetSize | estimator.py:29-40 | The charset size is at least 1 and at most 26+26+10+33 = 95 |
| Features.CharsetMonotone | estimator.py:29-40 | If every character of one password occurs in another, every class present in the first is present in the second, and the first's charset is no larger |
| Features.CharsetGrowsOnAppend | estimator.py:29-40 | Appending a character never makes the charset smaller |
| Features.CharsetDependsOnCharacterSet | estimator.py:29-40 | Two passwords over the same characters, in any order or count, have the same charset |
| Features.Pow | estimator.py:74 | `base ** exp` on naturals; at least 1 whenever the base is at least 1 |
| Features.Keyspace | estimator.py:74 | The keyspace `charset ** length`: the number of passwords of that length over the charset |
| Features.EntropyBelow | estimator.py:43-44 | "Entropy below T bits", `length * log2(charset) < T`, holds exactly when `charset^length < 2^T` |
| Features.EntropyBelowMonotone | estimator.py:43-44 | The entropy test "below T bits" is monotone: a smaller charset and a larger threshold keep it true |
| Features.PowAdd | estimator.py:74 | Exponent laws the keyspace bands rely on: base^(m+n) = base^m * base^n |
| Features.PowMultiply | estimator.py:74 | (base^m)^n = base^(m*n), used to compare 64^length with powers of two |
| Features.PowMonotoneBase | estimator.py:74 | A larger charset never gives a smaller keyspace at the same length |
| Detectors.ContainsSubstring | estimator.py:81 | `p in s` holds exactly when `p` occurs in `s` at some position |
| Detectors.AnyFragmentIn | estimator.py:78-81 | The pattern test holds exactly when some fragment of the list occurs in the string |
| Detectors.NotSubstringWithoutFirstChar | estimator.py:81 | A fragment whose first character is absent from the string does not occur in it |
| Detectors.NoFragmentWithoutLeadChars | estimator.py:78-81 | A string lacking all of q, a, z, 1 and p contains none of the six fragments |
| Detectors.RedundantFragment | estimator.py:79 | Any string containing "123456" also contains "12345", so the fifth fragment never changes the outcome |
| Detectors.FragmentOccurrence | estimator.py:78-81 | The keyboard-pattern test holds exactly when one of the six fragments occurs at some position of the lower-cased string |
| Detectors.Detect | estimator.py:113-131 | Each flag holds exactly when its detector's condition does: length below 8; the lower case is in the common set; some keyboard fragment occurs at some position of the lower case; at most two distinct characters in at least six; non-empty and every character a digit |
| Detectors.CommonPasswordsAreLowerCase | estimator.py:5-8 | Every entry of the common set is its own lower case under tables that follow ASCII, so the lower-cased comparison at line 117 can match each of them |
| Detectors.DistinctChars | estimator.py:125 | `set(pw)`: exactly the characters that occur in the password |
| Detectors.ThreeDistinctChars | estimator.py:125 | Three distinct characters present rule out low diversity |
| Deduplication.Dedupe | estimator.py:83-90 | The output has no repeats, keeps every input element, adds none, and is no longer than the input |
| Deduplication.DedupeKeepOrder | estimator.py:83-90 | The seen-set loop computes `Dedupe` and returns no repeats |
| Deduplication.DedupeFirstOccurrenceOrder | estimator.py:83-90 | The output lists elements in the order of their first occurrences in the input |
| Deduplication.DedupeSameElements | estimator.py:83-90 | An element is in the output exactly when it is in the input |
| Deduplication.DedupeOfDistinct | estimator.py:83-90 | A list with no repeats is returned unchanged |
| Deduplication.DedupeIdempotent | estimator.py:83-90 | De-duplicating twice equals de-duplicating once |
| Deduplication.NoDuplicatesAppend | estimator.py:194-199 | Two repeat-free lists with no common element concatenate to a repeat-free list |
| Deduplication.DedupeAppendPrefix | estimator.py:194-199 | De-duplicating `a + b` starts with de-duplicated `a` (prepended templates keep their place) |
| Deduplication.DedupeAppendTailElement | estimator.py:194-199 | An element comes after de-duplicated `a` in de-duplicated `a + b` exactly when it is in `b` and not in `a` |
| Deduplication.DedupeAppend | estimator.py:194-199 | De-duplicated `a + b` is de-duplicated `a` followed by exactly the elements of `b` not in `a` |
| Humanizer.Decompose | estimator.py:59-68 | The walk never collects more than two terms, and the terms collected before a step stay as the prefix of its result |
| Humanizer.Humanize | estimator.py:47-70 | A result with terms has one or two of them |
| Humanizer.UnitSeconds | estimator.py:51-57 | Every unit of the table lasts at least one second |
| Humanizer.LargestUnitAtMost | estimator.py:62-63 | For at least one second, the unit returned fits and no larger unit does |
| Humanizer.UnitsDescending | estimator.py:51-57 | The unit table is strictly descending |
| Humanizer.DecomposeSecond | estimator.py:62-68 | With one term collected, the walk adds exactly the first fitting unit's whole count, or nothing if no unit fits |
| Humanizer.DecomposeFirst | estimator.py:62-68 | With no term collected, the walk skips to the first fitting unit and continues on its remainder |
| Humanizer.FirstFitIsLargest | estimator.py:62-63 | The first unit in table order that fits is the largest unit that fits |
| Humanizer.WalkFirstTerm | estimator.py:59-66 | The walk's first term is the whole number of the largest unit that fits |
| Humanizer.WalkSecondTerm | estimator.py:62-68 | After the first term, the walk stops on a zero remainder, otherwise adds the largest unit that fits into the remainder |
| Humanizer.HumanizeGreedy | estimator.py:47-70 | The unit walk of `_humanize_seconds` equals the greedy two-term decomposition, stated independently |
| Humanizer.HumanizeShape | estimator.py:47-70 | Zero seconds gives the "< 1" result and nothing else does; otherwise one or two non-zero terms in strictly descending units, never more than the input; one term is exact, and two leave less than one second unit over |
| Humanizer.GreedyOneTerm | estimator.py:62-70 | With no remainder after the first term, the single term accounts for every second |
| Humanizer.GreedyTwoTermsLeftover | estimator.py:62-70 | With a remainder, two non-zero terms in descending units, summing to at most the input with less than one second-term unit left over |
| Humanizer.HumanizeMonotone | estimator.py:47-70 | A longer time never humanises to fewer seconds |
| Humanizer.HumanizeNinety | estimator.py:47-70 | 90 seconds humanises to 1 minute and 30 seconds |
| Humanizer.HumanizeFortyFiveDays | estimator.py:47-70 | 3 900 000 seconds humanises to 45 days and 3 hours |
| Humanizer.DecimalRoundTrip | estimator.py:66 | A printed quantity's decimal digits read back as the same number |
| Humanizer.Decimal | estimator.py:66 | `f"{qty}"`: a non-empty string of decimal digits |
| Humanizer.UnitName | estimator.py:52-56 | The Thai name of each unit of the table; never empty |
| Humanizer.UnitNamesDistinct | estimator.py:52-56 | Different units have different names |
| Humanizer.RenderPart | estimator.py:66 | One term, quantity then a space then the unit's name: at least three characters, starting with a digit |
| Humanizer.JoinParts | estimator.py:70 | `", ".join(parts)`: empty exactly when there are no terms |
| Humanizer.Render | estimator.py:66-70 | The text is never empty; it is the fixed "< 1 วินาที" exactly when there is no term, and otherwise starts with a digit of the first quantity |
| Humanizer.JoinPartsStartsWithDigit | estimator.py:66-70 | Joined terms start with a decimal digit |
| Humanizer.RenderTwoParts | estimator.py:66-70 | Two terms render as "qty unit, qty unit" |
| Humanizer.RenderUnderOneSecond | estimator.py:48-49 | The fixed "< 1 วินาที" text is rendered exactly when the seconds are zero |
| Humanizer.RenderNinety | estimator.py:47-70 | 90 seconds renders as "1 นาที, 30 วินาที" |
| Humanizer.RenderFortyFiveDays | estimator.py:47-70 | 3 900 000 seconds renders as "45 วัน, 3 ชั่วโมง" |
| Crack.AvgCrackSeconds | estimator.py:73-75 | The seconds are the truncated quotient of the keyspace by twice the rate |
| Crack.CrackSecondsAntitone | estimator.py:73-75 | A higher guess rate never needs more seconds |
| Crack.CrackTimes | estimator.py:189-192 | One entry per guess rate, in table order, carrying that rate's model and humanised seconds |
| Crack.CrackTimesOrdered | estimator.py:189-192 | The entry of a faster attacker never shows more seconds than a slower one's |
| Crack.GuessRatesIncreasing | estimator.py:10-15 | The table's four rates are positive and strictly increasing |
| Crack.GuessRateCrackTimes | estimator.py:10-15 | Over the table's rates: one entry per rate, labelled with its model, each the humanised keyspace over twice that rate, and a faster attacker's entry never shows more seconds |
| Scoring.BandKeyspaces | estimator.py:133-140 | The band keyspaces are exactly 2^28, 2^50 and 2^80 |
| Scoring.BaseScore | estimator.py:133-140 | The base score is 20 exactly when the entropy is below 28 bits, 45 exactly when in [28, 50), 70 exactly when in [50, 80), 90 exactly from 80 |
| Scoring.UnitCharsetHasNoEntropy | estimator.py:133-140 | A charset of 1 spans a single password at any length, i.e. zero bits: below one bit, and scored in the lowest band, base 20 |
| Scoring.TopBandWhenLongAndWide | estimator.py:133-140 | Fourteen characters over a charset of at least 64 reach the top band, base 90 |
| Scoring.Penalty | estimator.py:142-147 | The penalty is at most 25+15+15+10+10 and is zero exactly when no detector fires |
| Scoring.Clamp | estimator.py:149 | The clamp lies in [lo, hi], is the identity inside, and is lo below and hi above |
| Scoring.Score | estimator.py:133-149 | The score lies in [0, 90] |
| Scoring.VerdictOf | estimator.py:151-187 | Weak below 35, fair in [35, 65), strong in [65, 85), very strong from 85, never "empty" |
| Scoring.BucketWarnings | estimator.py:151-187 | A bucket has at most one template warning, and has one exactly for the weak and fair verdicts |
| Scoring.BucketSuggestions | estimator.py:151-187 | Only the empty verdict has no template suggestions; the two-factor suggestion is among them exactly for weak, fair and strong; none repeats |
| Scoring.DetectorWarnings | estimator.py:113-131 | At most one warning per detector, and none exactly when the penalty is zero |
| Scoring.DetectorSuggestions | estimator.py:113-131 | One suggestion for each detector warning |
| Scoring.DetectorWarningsExact | estimator.py:113-131 | Each detector warning is listed exactly when its detector fires; no bucket or empty-input warning is |
| Scoring.DetectorSuggestionsExact | estimator.py:113-131 | Each detector suggestion is listed exactly when its detector fires |
| Scoring.BucketTemplatesDistinct | estimator.py:151-187 | No bucket template repeats, and none is a detector message |
| Scoring.DetectorMessagesDistinct | estimator.py:113-131 | The detectors' warnings and suggestions never repeat |
| Scoring.MergedTemplatesDistinct | estimator.py:194-199 | A bucket's templates followed by the detector messages never repeat |
| Scoring.BucketsHoldNoDetectorMessage | estimator.py:151-187 | No bucket holds any of the detectors' ten messages |
| Estimator.MergedWarnings | estimator.py:194-197 | The merged warnings never repeat, and a warning is listed exactly when it is a bucket warning with the score below 65 or a detector warning |
| Estimator.MergedSuggestions | estimator.py:199 | The merged suggestions never repeat, open with the bucket's suggestions, and list a suggestion exactly when the bucket or a detector gives it |
| Estimator.Assess | estimator.py:133-210 | The non-empty branch passes length and charset through, scores within [0, 90], and returns repeat-free message lists |
| Estimator.Analyze | estimator.py:92-210 | Length is the password's, charset in [1, 95], score in [0, 100], warnings and suggestions repeat-free |
| Estimator.AnalyzeEmpty | estimator.py:101-111 | The empty password gives length 0, charset 1, score 0, the empty verdict, exactly the no-password warning and the enter-a-password suggestion, and no crack times |
| Estimator.AssessScore | estimator.py:133-149 | The keyspace is charset^length; the score is at most the base, plus the penalty at least the base, and exactly base minus penalty when positive |
| Estimator.AssessVerdict | estimator.py:151-187 | The verdict is decided by the score against 35, 65 and 85 |
| Estimator.AssessSuggestions | estimator.py:199 | The suggestions are the bucket's templates followed by the detectors' suggestions |
| Estimator.AssessWarnings | estimator.py:194-197 | The warnings are the bucket's warnings, only below 65, followed by the detectors' warnings |
| Estimator.AssessCrackTimes | estimator.py:189-192 | Four entries in table order, each the humanised keyspace over twice the rate; faster attackers never show more seconds |
| Estimator.AssessDetectorWarnings | estimator.py:113-131 | In the merged warnings, each detector's warning appears exactly when its flag is set |
| Estimator.AssessDetectorSuggestions | estimator.py:113-131 | In the merged suggestions, each detector's suggestion appears exactly when its flag is set |
| Estimator.AnalyzeKeyspace | estimator.py:97-99 | A non-empty password's charset is inferred from its characters, and its keyspace is charset^length |
| Estimator.AnalyzeScore | estimator.py:133-149 | A non-empty password scores its band's base less the penalties of the detectors firing on it, floored at 0, within [0, 90] |
| Estimator.AnalyzeVerdictAndBucket | estimator.py:151-199 | Verdict by thresholds; the bucket suggestions form the prefix of the suggestions; the first warning is a bucket warning below 65, and buckets carry none from 65 |
| Estimator.AnalyzeMessages | estimator.py:194-199 | A non-empty password's exact final lists: bucket templates (warnings only below 65) followed by the detector messages |
| Estimator.WeakMessages | estimator.py:151-199 | A score below 35 gives the weak verdict, the weak-risk warning followed by the detectors' warnings, and the weak bucket's four suggestions followed by the detectors' |
| Estimator.AnalyzeDetectorWarnings | estimator.py:113-131 | Each detector warning appears exactly when its condition holds of the password itself |
| Estimator.AnalyzeDetectorSuggestions | estimator.py:113-131 | Each detector suggestion appears exactly when its condition holds of the password itself |
| Estimator.AnalyzeLongMixed | estimator.py:133-199 | Fourteen or more characters covering all four classes, with no detector firing, give charset 95, score 90, very strong, no warnings and the two very-strong suggestions |
| Estimator.AnalyzeCrackTimes | estimator.py:189-192 | A non-empty password has one crack time per rate, labelled with that rate's model, each the humanised keyspace over twice the rate, faster attackers never slower |
| Examples.AnalyzePassword | estimator.py:92-210 | "password": charset 26, score 45-25-10 = 10, weak, warnings weak-risk, common, keyboard pattern; suggestions the weak bucket's four, then common and keyboard pattern |
| Examples.AnalyzeDigits | estimator.py:92-210 | "123456": charset 10, score floored at 0, weak, warnings weak-risk, too short, common, keyboard pattern, all digits; suggestions the weak bucket's four, then too short, common, keyboard pattern, all digits |
| Examples.AnalyzeMixed | estimator.py:92-210 | "Bb2!Bb2!Bb2!Bb2!Bb2!": charset 95, score 90, very strong, no warnings, the two very-strong suggestions |
| Examples.MixedFlags | estimator.py:113-131 | On "Bb2!Bb2!Bb2!Bb2!Bb2!" no detector fires |
| Examples.MixedClasses | estimator.py:29-33 | "Bb2!Bb2!Bb2!Bb2!Bb2!" draws on all four classes |
| Examples.PasswordFlags | estimator.py:113-131 | On "password" exactly the common and keyboard-pattern detectors fire |
| Examples.DigitsFlags | estimator.py:113-131 | On "123456" every detector except low diversity fires |

## Left out

- app.py: the web route and JSON serialisation are I/O around the core.
- `math.log2` at estimator.py:44: floating point is not modelled. The entropy bands are decided exactly on integers as `charset^length < 2^T`, and the model makes no claim about float rounding near a band boundary. The result carries the exact keyspace in place of `entropy_bits`.
- The float true division at estimator.py:75 and the `int(...)` at estimator.py:60: seconds are the exact truncated quotient `keyspace // (2 * rate)`. The Python code rounds `(keyspace / 2) / rate` to a double first, so its whole seconds differ from the model's from keyspaces of about 2^56 on (26^12 at 10 guesses per second: 4771447833084109 in Python, 4771447833084108 in the model), and the second rendered term differs from about 2^75 on, which twelve characters over all four classes already reach (95^12 at 10 per second: "856735298805550 ปี, 276 วัน" in Python, 856735298805550 years and 270 days in the model). `Crack.AvgCrackSeconds`, `Estimator.AnalyzeCrackTimes` and the crack-time clauses of `Estimator.AssessCrackTimes` therefore state the exact-arithmetic result, not the text the program prints for such keyspaces. The Python code also raises `OverflowError` once the quotient exceeds the float range; the model does not reproduce that either.
- `pw or ""` at estimator.py:96: the model takes a string, so `None` and other falsy inputs are not modelled.
- Unicode classification and case mapping: the tables are a parameter (`CharTables`). Only their agreement with ASCII on ASCII characters is stated, as `AsciiFaithful`. The context-dependent final-sigma rule of `str.lower` is not modelled: lower-casing is per character.
- Message texts: warnings, suggestions, verdict labels and attack-model labels are enumeration constructors. Only the unit names and the "< 1 วินาที" text of the humaniser are written out.
- Lone surrogates: Python strings may hold lone surrogate code points (a JSON body can carry `"\ud800"` into `analyze_password` through app.py:12-15, where it counts as a symbol); Dafny's `string` cannot, so such passwords are not modelled.
- Estimator.Analyze: its contract gives the score bound 100 of the clamp at estimator.py:149; the sharper bound 90 is stated by `Estimator.AnalyzeScore`.
