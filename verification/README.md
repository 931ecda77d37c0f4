# Vector-layer helpers of the InSAR timeseries plugin, in Dafny

This project models `src/layer_utils/vector_layer.py`, the helpers the plugin
uses to make sense of a QGIS vector layer of InSAR displacement data:

- **`checkVectorLayer`** decides whether a layer can be used at all: it must
  exist, be valid, be a vector layer, and have point or polygon geometry. On
  failure it returns the message of the first check that fails.
- **`getVectorVelocityFieldName`** finds the field that holds the mean
  velocity:
  - A field qualifies when its name matches `vel`, `deformation.?rate` or
    `mean.?deformation`, case-insensitively, and does not name an uncertainty
    (`err`, `sigma`, `std`).
  - If several fields qualify, a walk over the preference list `velocity`,
    `VEL`, `mean_velocity`, `deformation rate` narrows the choice.
- **`checkVectorLayerTimeseries`** accepts a layer when one of its field names
  carries a date.
- **`getFeatureAttributes`** turns one feature into a dict from field name to
  value.
- **`extractDateValueAttributes`** reshapes that dict into six series of
  (timestamp, value) pairs:
  - The series are line of sight, horizontal and vertical, each plain and as
    its `_sigma` uncertainty.
  - A key is used when its lower-cased text carries a date, optionally followed
    by a time.
  - The text around the date decides the series.
- **`getVectorFields`** lists the field names.

## How the pieces are modelled

**Layers and features.** QGIS objects become plain records: `Layer` holds its
validity flag, kind, geometry tag and fields; `Feature` holds its cells. A
Python dict is the sequence of its items in insertion order (`Dict`).

**Regular expressions.** Each pattern is modelled by a recognizer written
against Python's matching rules.

- `re.match` anchors at the start. The leading `(.*)` cannot cross a newline,
  so the keyword or date must start on the first line (`LineEnd`).
- The date pattern's leading `(.*)` is greedy, so the date group is the LAST
  position on the first line where a date token starts (`LastDateStart`).
- The separators of a date token are optional but never digits. So the token
  at a given position is unique (`DateTokenUnique`), and the time group is the
  longest time token there (`TimeTokenLongest`).
- The groups, with the uncaptured `T` between date and time, tile the key from
  its start up to a newline or its end (`GroupsTileLine`).

**Timestamps.** `datetime.strptime` is modelled on the strings it can receive
here: all digits, of width 8, 12 or 14. `Strptime` accepts exactly the strings
that are `Strftime` of a valid timestamp (`StrptimeOfStrftime`, and the
contract of `Strptime`). Calendar validity includes leap years.

**Failures.** The exceptions the loop can raise become a `Failure` of the
result:

| Source exception | Model |
|---|---|
| `KeyError` from the length table | `NoFormatForLength` |
| `ValueError` from `strptime` | `NotACalendarTimestamp` |

The loop stops at the first failing key (`FoldFailsOnFirstRejectedKey`).

**Float conversion.** `float(value)` and its NaN fallback are the parameters
`toFloat` and `nan`.

**Corrected extraction.** The extraction used throughout
(`ExtractDateValueAttributes`, `ReadKey`) reads each key with the first date on
the line and accepts `T` or `t` between date and time. These are the
corrections of the two findings below. The code as written is kept beside it:
`ReadKeyAsWritten` and `ExtractDateValueAttributesAsWritten`.

## Model

| member | source | states |
|---|---|---|
| VectorLayer.CheckVectorLayer | src/layer_utils/vector_layer.py:7-23 | passes exactly when the layer exists, is valid, is a vector layer and has geometry tag 0 or 2; otherwise fails with the message of the first check, in source order, that fails; the message is empty on success |
| VectorLayer.GetVectorFields | src/layer_utils/vector_layer.py:158-161 | one name per field, in the layer's field order |
| VectorLayer.GetFeatureAttributes | src/layer_utils/vector_layer.py:94-100 | every field name is a key and nothing else is; no key twice; each key maps to the feature's value under that name |
| VectorLayer.DictSet | src/layer_utils/vector_layer.py:100 | dict assignment as the comprehension performs it: a present key keeps its place and takes the new value, a new key goes last, other items are untouched |
| VectorLayer.AttributesFollowFieldOrder | src/layer_utils/vector_layer.py:100 | with distinct field names, the attributes are exactly the feature's (name, value) pairs in field order |
| Velocity.Candidates | src/layer_utils/vector_layer.py:36-45 | the names kept are exactly the fields matching the velocity pattern that name no uncertainty |
| Velocity.CandidatesKeepFieldOrder | src/layer_utils/vector_layer.py:36-45 | the candidates keep the field order and skip no qualifying field |
| Velocity.FirstContaining | src/layer_utils/vector_layer.py:55-58 | the inner loop stops at the first candidate containing the preference, or runs off the end when none does |
| Velocity.FirstContainingFindsOccurrence | src/layer_utils/vector_layer.py:55-60 | the inner loop breaks exactly when some candidate contains the preference |
| Velocity.PresentPrefixLength | src/layer_utils/vector_layer.py:53-60 | the longest prefix of the preference list whose every entry occurs in some candidate |
| Velocity.PreferenceWalk | src/layer_utils/vector_layer.py:53-60 | the walk's choice is the starting choice or one of the candidates |
| Velocity.PreferenceWalkPicksLastPresent | src/layer_utils/vector_layer.py:51-60 | the for/else walk ends on the first candidate containing the last preference of the longest all-present prefix, and keeps the start when the first preference occurs nowhere |
| Velocity.SelectVelocityField | src/layer_utils/vector_layer.py:48-62 | no field exactly when there are no candidates; a single candidate is taken; the choice is always a candidate |
| Velocity.GetVectorVelocityFieldName | src/layer_utils/vector_layer.py:26-67 | no field and the error message exactly when no field qualifies; otherwise a qualifying field of the layer and an empty message |
| Velocity.TieBreakRule | src/layer_utils/vector_layer.py:50-62 | with two or more candidates: the first candidate when none contains `velocity`, else the first candidate containing the last preference of the longest all-present prefix |
| Timeseries.CheckVectorLayerTimeseries | src/layer_utils/vector_layer.py:70-91 | a failed layer check is passed through; otherwise passes exactly when some field name carries a date; empty message on success, the timeseries message otherwise |
| Timeseries.DateFieldIsReadByExtractor | src/layer_utils/vector_layer.py:110-121 | the check (name as written, IGNORECASE) and the extractor (name lower-cased), in both readings, agree on which names carry a date |
| Timeseries.TimeseriesLayerFeedsExtractor | src/layer_utils/vector_layer.py:84-88 | a layer that passes the timeseries check has a field the extractor does not skip |
| DatePattern.LastDateStart | src/layer_utils/vector_layer.py:110 | the greedy leading group: the last position on the line where a date token starts |
| DatePattern.FirstDateStart | src/layer_utils/vector_layer.py:110 | the lazy leading group: the first position where a date token starts |
| DatePattern.DateTokenAtSound | src/layer_utils/vector_layer.py:110 | what the date recognizer returns is a well-formed token whose text is in the key at that position |
| DatePattern.DateTokenUnique | src/layer_utils/vector_layer.py:110 | wherever a well-formed date token occurs, the recognizer finds exactly that token |
| DatePattern.TimeTokenAt | src/layer_utils/vector_layer.py:110 | a time token found is well-formed and present in the key |
| DatePattern.TimeTokenLongest | src/layer_utils/vector_layer.py:110 | no time token at a position is longer than the one the recognizer takes |
| DatePattern.GroupsAt | src/layer_utils/vector_layer.py:130-133 | group 1 is the text before the date start, group 2 the date token there, and group 5 holds no newline |
| DatePattern.GroupsTileLine | src/layer_utils/vector_layer.py:110 | group 1, the date token, the `T` taken right after it, group 4 (empty when absent) and group 5, laid end to end, are the key up to a newline or its end |
| DatePattern.TimeGroupIsLongest | src/layer_utils/vector_layer.py:110 | group 4 is absent only when no well-formed time token starts right after the date and the `T`; otherwise no time token there is longer |
| DatePattern.MatchDate | src/layer_utils/vector_layer.py:110-121 | the compiled pattern matches exactly when a date token starts on the first line |
| DatePattern.MatchDateGroups | src/layer_utils/vector_layer.py:110-133 | the groups of a match: the text before ends where the date starts, no date starts later on the line, date and time are well-formed, the text after has no newline, and the match is `GroupsAt` at the date's start, so `GroupsTileLine` and `TimeGroupIsLongest` place its `T`, time and text after |
| DatePattern.MatchDateTilesLine | src/layer_utils/vector_layer.py:110-133 | the match's groups, with the `T` between date and time, laid end to end, are the key up to a newline or its end |
| DatePattern.MatchDateLazy | src/layer_utils/vector_layer.py:110-121 | the corrected pattern matches on exactly the same keys |
| DatePattern.MatchDateLazyGroups | src/layer_utils/vector_layer.py:110-133 | the corrected groups: no date token starts before the one taken, and the match is `GroupsAt` (with `T` of either case) at the date's start |
| DatePattern.HasDateTokenOfLower | src/layer_utils/vector_layer.py:118 | lower-casing a key does not change whether it carries a date |
| DatePattern.StripDateToken | src/layer_utils/vector_layer.py:135 | deleting separators from the date group leaves its eight digits |
| DatePattern.StripTimeToken | src/layer_utils/vector_layer.py:135 | deleting separators from the time group leaves its digits |
| Text.Strip | src/layer_utils/vector_layer.py:135 | the separator-deleting substitution leaves no separator and invents no character |
| Text.StripAppend | src/layer_utils/vector_layer.py:135-137 | the substitution works on each part of a concatenation separately |
| Timestamps.FormatFor | src/layer_utils/vector_layer.py:112 | the length table has a format for exactly 8, 12 and 14 digits, and each reads that many |
| Timestamps.Strptime | src/layer_utils/vector_layer.py:136 | a parsed timestamp is valid, has zero for the fields the format does not read, and is written back by the same format as the input |
| Timestamps.StrptimeOfStrftime | src/layer_utils/vector_layer.py:136 | every valid timestamp that fits a format is parsed back from its own digits |
| Extraction.Route | src/layer_utils/vector_layer.py:137-148 | `_sigma` exactly when the tag names an uncertainty; los for an empty tag or one mentioning `los`, else h when it has an h, else v when it has a v, else los |
| Extraction.ReadMatch | src/layer_utils/vector_layer.py:130-148 | a matched key is never skipped; it fails with the length exactly when the table lacks its digit count, fails with its digits exactly when `strptime` refuses them, and is otherwise dated by `strptime` of its digits in the series its tag selects |
| Extraction.ReadKeyAsWritten | src/layer_utils/vector_layer.py:110-121 | the key is skipped exactly when its lower-cased text carries no date |
| Extraction.ReadKey | src/layer_utils/vector_layer.py:110-121 | the corrected reading skips exactly the same keys |
| Extraction.DigitStringLength | src/layer_utils/vector_layer.py:135 | a match yields 8 digits, or 12 plus the zero, one or two digits `[0-5]?\d?` takes after the minute |
| Extraction.OnlyThirteenDigitsLackAFormat | src/layer_utils/vector_layer.py:135-136 | the only digit count the length table misses is 13, a time with a one-digit seconds field |
| Extraction.FoldFailsOnFirstRejectedKey | src/layer_utils/vector_layer.py:117-148 | the loop succeeds exactly when no key is rejected, and otherwise raises the exception of the first rejected key |
| Extraction.FoldBuildsEntries | src/layer_utils/vector_layer.py:141-150 | on success each series holds the reference entries for it, in iteration order |
| Extraction.FoldKeepsEveryDatedKey | src/layer_utils/vector_layer.py:117-150 | on success there is one entry for every key that is not skipped |
| Extraction.ExtractDateValueAttributes | src/layer_utils/vector_layer.py:110-118 | the corrected extraction, the evidently intended reading of the two Findings rows at lines 110 and 118: fails exactly when a key is rejected, with the first one's exception; on success every dated key contributes one entry, and each series holds, in iteration order, the timestamps and coerced values of the keys routed to it |
| Extraction.ExtractDateValueAttributesAsWritten | src/layer_utils/vector_layer.py:103-155 | the function as written: fails exactly when a key is rejected, with the first one's exception; on success every key whose lower-cased text carries a date contributes one entry, and each series holds, in iteration order, the timestamps and coerced values of the keys routed to it; which key lands where is `ReadKeyAsWritten`, and `KeyFacts.ReadKeyAsWrittenOfDateKey` shows a date-only key is filed at its own date |
| KeyFacts.ReadKeyAsWrittenOfDateKey | src/layer_utils/vector_layer.py:103-121 | as written, a key made of digit-free text, `YYYYMMDD` and digit-free text on one line is read as its own date, in the series the surrounding text names: with no other digit, the greedy leading group has no later date start to move to, and there is no time for the lower-casing to lose |
| KeyFacts.DocumentedKeyAsWritten | src/layer_utils/vector_layer.py:103-106 | as written, the two documented forms `DYYYYMMDD` and `YYYYMMDD` are read as the date they name, in the plain line-of-sight series |
| KeyFacts.ReadKeyRecoversTimestamp | src/layer_utils/vector_layer.py:103-110 | every key of the form the date pattern is built for is read as its own timestamp, in the series the surrounding text names; the form is text, `YYYYMMDD`, optionally `T` and `HHMM` or `HHMMSS`, then text; the docstring names only `DYYYYMMDD` and `YYYYMMDD`, and the time part is inferred from the pattern at line 110 |
| KeyFacts.CompactKeyRecovered | src/layer_utils/vector_layer.py:103-110 | a bare key of that form, such as the documented `YYYYMMDD`, is read as its timestamp in the plain line-of-sight series |
| KeyFacts.ReadKeyOfWordAndStamp | src/layer_utils/vector_layer.py:137-148 | a lower-case word before a compact timestamp selects the series by itself |
| KeyFacts.SeriesWords | src/layer_utils/vector_layer.py:137-148 | `los`, `h`, `v`, `loserr`, `hstd`, `vsigma` select the six series |
| KeyFacts.RouteOfLetterFreeTag | src/layer_utils/vector_layer.py:140-148 | a tag without l, h, v, e, s goes to the plain line-of-sight series |
| KeyFacts.GreedyMatchMisreadsCompactKey | src/layer_utils/vector_layer.py:110-136 | `20200101123456` is read as written as 2001-01-12 00:00 and by the corrected reading as 2020-01-01 12:34:56 |
| KeyFacts.GreedyMatchRejectsCompactKey | src/layer_utils/vector_layer.py:110-136 | `202001010030` is rejected as written (day 00) and read by the corrected reading as 2020-01-01 00:30 |
| KeyFacts.GreedyPatternAbortsExtraction | src/layer_utils/vector_layer.py:103-155 | a feature with that one attribute makes the extraction as written raise, while the corrected extraction files its value |
| KeyFacts.LowerCaseKeyLosesTime | src/layer_utils/vector_layer.py:110-118 | `20200101T1234` is read as written at midnight and by the corrected reading at 12:34 |

## Left out

- QGIS itself is not part of this model. Layers and features are records holding what the helpers read, and the layer kind and geometry type are plain values.
- The numpy conversion at the end of `extractDateValueAttributes` is left out. The series are returned as sequences, because the arrays only re-wrap the same pairs.
- `float` and NaN are left out. The conversion is the parameter `toFloat`, with `None` where Python raises, and NaN is the parameter `nan`.
- Case folding, `\s` and `\d` are modelled on ASCII only. Unicode digits and non-ASCII case folding are left out.
- `strptime` is modelled only on all-digit strings of the table's widths. Those are the only strings the extractor hands it.
- The message texts are copied as constants. The timeseries message has no closing `</span>`, as in the source.
- Timeseries.CheckVectorLayerTimeseries: the pattern there is compiled with IGNORECASE, and the model matches case-sensitively. The only letter in the pattern is the optional `T`, and whether it is taken never decides whether the match succeeds, so the verdict is the same.
- Velocity.GetVectorVelocityFieldName, VectorLayer.GetVectorFields, VectorLayer.GetFeatureAttributes: take a layer or feature that is present. The `AttributeError` Python raises when they are given `None` is not modelled.
- Velocity.PreferenceWalk: states only that the choice is the start or a candidate. The exact choice is stated by `PreferenceWalkPicksLastPresent`.

## Findings

| source | as written | input that shows it | evidently intended | confidence | as-written member | corrected member |
|---|---|---|---|---|---|---|
| src/layer_utils/vector_layer.py:110 | the leading `(.*)` is greedy, so the date group is the last date-shaped run of the line, which can start inside the real date | key `20200101123456` is filed at 2001-01-12 00:00; key `202001010030` makes `strptime` raise on `20010100`, so the whole feature fails | the date the key starts with (a lazy `(.*?)`), giving 2020-01-01 12:34:56 and 2020-01-01 00:30 | high; not executed | KeyFacts.GreedyMatchMisreadsCompactKey | KeyFacts.ReadKeyRecoversTimestamp |
| src/layer_utils/vector_layer.py:118 | the key is lower-cased before a pattern compiled without IGNORECASE whose separator is an upper-case `T?`, so `T` can never match | key `20200101T1234` is filed at 2020-01-01 00:00 with tag `t1234`, and its time is lost | `T` between date and time accepted in either case, giving 2020-01-01 12:34 | high; not executed | KeyFacts.LowerCaseKeyLosesTime | KeyFacts.ReadKeyRecoversTimestamp |
