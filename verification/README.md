# odegano-ai-server core, modelled in Dafny

The server plans trips in conversational stages. A session (`Recent`) is
created from a destination text, whose traits a language model extracts.
The user's purpose is stored on it. Attractions are then recommended from
a place catalog, and a day-by-day plan is generated and stored. A script
loads the catalog from CSV files.

This project models the deterministic logic around the model calls:

- the trip-length parser `parse_travel_days`;
- the prompt context and the plan creation and lookup of `create_travel_plan` and `get_travel_plan`;
- the candidate formatter, the two-tier retrieval, the coordinate merge and the truncation of `recommend_places`;
- session creation in `extract_place_traits`;
- the purpose turn `respond_to_purpose`;
- the per-row CSV mapping of `upload_csv_to_mongodb`.

Every model call is a function-valued parameter. It returns an instance of
the schema, a raw mapping, or an exception (`Values.Generated`). The
document store is an immutable value (`Store.Db`):

- sessions in a map keyed by id;
- planner documents and catalog places in sequences, in insertion order.

Modules, one per source concern:

| module | file | models |
|---|---|---|
| `Wrappers` | wrappers.dfy | `Option`, `Result`, and the exceptions the services raise |
| `Text` | text.dfy | Python's `strip`, `lower`, `replace`, `split`, `join`, `in` on strings, and `int()` |
| `Values` | values.dfy | JSON-like values; the `result if isinstance(...) else Schema(**result)` coercion |
| `Features` | features.dfy | `PlaceFeatures` / `CategoryGroup`, with dump and validation |
| `RecommendData` | recommend_data.dfy | `PlaceRecommendations` / `RecommendedPlace`, with optional coordinates |
| `PlannerData` | planner_data.dfy | `TravelPlan` and its nested records |
| `Store` | store.dfy | `Place`, `Recent`, `Planner`, and the store |
| `PlaceTraits`, `Purpose` | sessions.dfy | session creation; the purpose turn |
| `Recommend` | recommend.dfy | recommendation |
| `TravelPlanner` | planner.dfy | trip length, prompt context, plan creation and lookup |
| `UploadCsv` | upload.dfy | the CSV row mapping and the catalog load |

## Model

| member | source | states |
|---|---|---|
| Text.Strip | src/chain/categories/extractor.py:19 | `str.strip()`: the result has no whitespace at either end. It is empty exactly when the input is all whitespace, and it adds no digit. |
| Text.StripDropsOnlySpace | src/chain/categories/extractor.py:19 | The stripped text is a slice of the input; only whitespace is cut from each side. |
| Text.StripNoOp | src/chain/categories/extractor.py:19 | Text with non-space ends is left unchanged by `strip()`, and by the trimming `int()` does. |
| Text.Trim | src/chain/categories/extractor.py:19 | Trimming a whitespace set leaves no blank at either end, is empty exactly when the text is all blank, and adds no digit. |
| Text.IntStrip | src/chain/planner/extractor.py:66 | The whitespace `int()` skips is gone from both ends; U+001C..U+001F are not part of it. The result adds no digit. |
| Text.IntStripOfSpace | src/chain/planner/extractor.py:66 | Whitespace without information separators trims to nothing for `int()`. |
| Text.LowerChar | src/chain/planner/extractor.py:42 | `lower()` on one character: no upper-case ASCII letter or Kelvin sign survives; every other character is kept or becomes an ASCII lower-case letter; digits and whitespace keep their class. |
| Text.Lower | src/chain/planner/extractor.py:42 | `lower()` keeps the length and maps each position independently. |
| Text.LowerIdempotent | src/chain/planner/extractor.py:42 | Lower-casing twice is lower-casing once. |
| Text.LowerNoOp | src/chain/planner/extractor.py:42 | Text with nothing to lower-case is unchanged. |
| Text.ContainsFirstChar | src/chain/planner/extractor.py:53 | A text that contains a substring contains its first character. |
| Text.Contains | src/chain/planner/extractor.py:44 | `sub in s` holds exactly when some window of `s` equals `sub`. |
| Text.RemoveAll | src/chain/planner/extractor.py:42 | `replace(c, "")`: no `c` is left, the result is no longer than the input, it uses only the input's characters, and it is the identity when `c` is absent. |
| Text.RemoveAllAppend | src/chain/planner/extractor.py:59 | Deleting a character distributes over concatenation. |
| Text.RemoveSeparator | src/chain/planner/extractor.py:42 | Deleting the one separator between two pieces without it concatenates the pieces: "3박 4일" loses its space and becomes "3박4일". |
| Text.BeforeFirst | src/chain/planner/extractor.py:47 | `split(c)[0]`: a prefix without `c`, followed in the input by `c` when `c` occurs; the whole input otherwise. |
| Text.AfterLast | src/chain/planner/extractor.py:47 | `split(c)[-1]`: a suffix without `c`, preceded in the input by `c` when `c` occurs; the whole input otherwise. |
| Text.BeforeFirstSplits | src/chain/planner/extractor.py:47 | `(a + c + b).split(c)[0] == a` when `a` has no `c`. |
| Text.AfterLastSplits | src/chain/planner/extractor.py:47 | `(a + c + b).split(c)[-1] == b` when `b` has no `c`. |
| Text.JoinSnoc | src/chain/planner/extractor.py:106 | Joining one more element appends the separator and that element. |
| Text.Split | src/chain/recommend/extractor.py:29 | `split(c)` gives at least one piece, and no piece contains `c`. |
| Text.SplitJoin | src/chain/recommend/extractor.py:29 | Splitting a `c`-join of pieces without `c` gives the pieces back. |
| Text.JoinSplit | src/chain/recommend/extractor.py:29 | Re-joining the pieces of a split gives back the text. |
| Text.Join | src/chain/recommend/extractor.py:29 | `sep.join(xs)`: `""` for no pieces, the piece itself for one, and otherwise it starts with the first piece and the separator, and holds every piece and separator. |
| Text.JoinCons | src/chain/recommend/extractor.py:29 | A join with a non-empty tail is the head, the separator and the join of the tail. |
| Text.NatToString | src/chain/recommend/extractor.py:28 | `str(n)` is a non-empty run of decimal digits with no leading zero. |
| Text.ParseIntNeedsDigit | src/chain/planner/extractor.py:66-68 | `int()` rejects text without an ASCII digit. |
| Text.ParseIntEndsInDigit | src/chain/planner/extractor.py:66-68 | Whatever `int()` accepts ends in a digit once its whitespace is trimmed. |
| Text.ParseInt | src/chain/planner/extractor.py:47-66 | `int()` accepts only text with an ASCII digit, which ends in a digit once `int()`'s whitespace is trimmed. |
| Text.ParseStripped | src/chain/planner/extractor.py:66 | Trimmed text that parses ends in a digit. With a leading minus the value is at most 0, and otherwise at least 0. |
| Text.ParseIntRejectsSeparator | src/chain/planner/extractor.py:66-68 | A leading U+001C..U+001F is whitespace to `isspace()` but not to `int()`, so the text never parses. |
| Text.ParseIntOfDigits | src/chain/planner/extractor.py:66 | A run of ASCII digits parses to its decimal value. |
| Text.UnsignedOfDigits | src/chain/planner/extractor.py:66 | A run of ASCII digits has no sign and is accepted as unsigned, with its decimal value. |
| Text.DigitsAreStripped | src/chain/planner/extractor.py:66 | `int()`'s trimming leaves a run of digits unchanged. |
| Text.NegatedDigitsAreStripped | src/chain/planner/extractor.py:66 | `int()`'s trimming leaves a minus sign followed by digits unchanged. |
| Text.ParseStrippedUnsigned | src/chain/planner/extractor.py:66 | Unsigned text is read as the value of its digit part. |
| Text.ParseStrippedNegative | src/chain/planner/extractor.py:66 | Text after a minus sign is read as the negated value of the rest. |
| Text.ParseIntOfMinus | src/chain/planner/extractor.py:66 | Text that `int()`'s trimming leaves alone, made of a minus sign and a valid unsigned part, parses to the negated value of that part. |
| Text.ParseIntOfNat | src/chain/planner/extractor.py:66 | `int(str(n)) == n`. |
| Text.ParseIntOfNegated | src/chain/planner/extractor.py:66 | `int("-" + str(n)) == -n`. |
| Values.Coerce | src/chain/categories/extractor.py:25-28 | A typed result is taken as it is. A mapping is used exactly when it validates, and then it gives the validated record. A raised chain and a malformed mapping are distinct failures. |
| Values.CoerceDumpAgrees | src/chain/categories/extractor.py:25-28 | For a schema whose validation inverts its dump, a record and its dump coerce to the same record. |
| Values.ListRoundTrip | src/chain/planner/data.py:40-41 | Validating a dumped list gives back the list when each element round-trips. |
| Values.DecodeCons | src/chain/planner/data.py:40-41 | With a valid head, a list validates exactly when its tail does, and gives the head before the tail. |
| Values.DecodeListElements | src/chain/planner/data.py:40-41 | Each element of a validated list is the validation of the value at the same position. |
| Values.StrListRoundTrip | src/categories/data.py:8 | A list of strings round-trips through its dump. |
| Values.OptFloatRoundTrip | src/chain/planner/data.py:21-22 | An optional float field round-trips. It reads as `None` exactly when the key is missing or holds null. It fails exactly when the key holds something other than null or a number. |
| Features.DumpFeatures | src/categories/data.py:10-14 | `model_dump()` has exactly the four declared keys. |
| Features.DecodeFeatures | src/categories/data.py:10-14 | A validated record's `place` is the mapping's `place` string. |
| Features.GroupRoundTrip | src/categories/data.py:6-8 | A category group round-trips through its dump. |
| Features.FeaturesRoundTrip | src/categories/data.py:10-14 | `PlaceFeatures(**f.model_dump()) == f`. |
| RecommendData.DecodeRecommended | src/chain/recommend/data.py:5-10 | A validated pick's name is the mapping's `name` string. A validated pick has no coordinates: the four declared fields are all that is read. |
| RecommendData.IgnoresUndeclaredKey | src/chain/recommend/data.py:5-10 | Adding or changing a key the schema does not declare, `latitude` and `longitude` included, never changes the validation of a pick. |
| RecommendData.NonNumericCoordinateIsIgnored | src/chain/recommend/data.py:5-10 | A pick with `"latitude": "abc"` still validates, and it has no coordinates. |
| RecommendData.StripCoordinates | src/chain/recommend/data.py:5-10 | Clearing coordinates keeps the picks in order, clears each one, and leaves picks that have none unchanged. |
| RecommendData.DecodeRecommendations | src/chain/recommend/data.py:13-15 | A validated result has one pick per entry of `places`, and none of its picks carries coordinates. |
| RecommendData.RecommendedRoundTrip | src/chain/recommend/data.py:5-10 | A pick validates back from its dump with its coordinates cleared. A pick without coordinates round-trips exactly. |
| RecommendData.RecommendationsRoundTrip | src/chain/recommend/data.py:13-15 | A recommendation list validates back from its dump, pick by pick, with the coordinates cleared. |
| PlannerData.DecodeTravelPlan | src/chain/planner/data.py:46-51 | A validated plan has one day per entry of `daily_plans`. |
| PlannerData.TravelPlaceRoundTrip | src/chain/planner/data.py:5-12 | A place round-trips through its dump. |
| PlannerData.RestaurantRoundTrip | src/chain/planner/data.py:15-23 | A restaurant round-trips through its dump, including absent coordinates. |
| PlannerData.AccommodationRoundTrip | src/chain/planner/data.py:26-33 | An accommodation round-trips through its dump. |
| PlannerData.PlacesRoundTrip | src/chain/planner/data.py:40 | A day's place list round-trips. |
| PlannerData.RestaurantsRoundTrip | src/chain/planner/data.py:41 | A day's restaurant list round-trips. |
| PlannerData.StayRoundTrip | src/chain/planner/data.py:42 | The optional accommodation round-trips; `None` dumps to null and reads back as `None`. |
| PlannerData.DayRoundTrip | src/chain/planner/data.py:36-43 | A day plan round-trips through `model_dump()`. |
| PlannerData.DaysRoundTrip | src/chain/planner/data.py:50 | The list of day plans round-trips. |
| PlannerData.TravelPlanRoundTrip | src/chain/planner/data.py:46-51 | A whole plan round-trips, at every level of nesting. |
| Store.NewSession | src/chain/categories/extractor.py:30-32 | A new session holds the given traits, and every other field has its default. |
| Store.InsertSession | src/chain/categories/extractor.py:34 | `insert()` gives the session an id no existing session has. Exactly one session is added, and planners and places are unchanged. |
| Store.InsertPlanner | src/chain/planner/extractor.py:163 | `insert()` appends the planner after every existing one and changes nothing else. |
| Store.PromptPurpose | src/chain/recommend/extractor.py:52 | `recent.main_purpose or "여행 및 관광"` is never empty: the session's own purpose, else the default. |
| PlaceTraits.ExtractPlaceTraits | src/chain/categories/extractor.py:18-36 | The call fails with the empty-input error exactly when the text is all whitespace. A failure writes nothing. On success there is exactly one new session with a fresh id and default fields, whose traits are the coerced generation for the trimmed text. For non-blank text the call succeeds exactly when that generation coerces, and otherwise reports the coercion's own error. |
| PlaceTraits.BlankTextNeverGenerates | src/chain/categories/extractor.py:19-23 | Blank text fails before generation: the outcome does not depend on the generator. |
| PlaceTraits.GeneratesFromTrimmedText | src/chain/categories/extractor.py:19-23 | Only the generator's answer for the trimmed text matters. |
| PlaceTraits.MappingResultAgreesWithTyped | src/chain/categories/extractor.py:25-28 | A mapping result creates the same session as the typed result it dumps. |
| Purpose.RespondToPurpose | src/chain/purpose/extractor.py:14-22 | A missing session fails on the write, with the store unchanged. Otherwise exactly `main_purpose` is overwritten, verbatim. The reply is the generator's content, and a failed generation is reported. |
| Purpose.StoreIgnoresReply | src/chain/purpose/extractor.py:16-22 | The store afterwards does not depend on the generation: the reply is never stored, and a failure keeps the new purpose. |
| Purpose.LastPurposeWins | src/chain/purpose/extractor.py:16 | Two turns leave the store as the second turn alone would. |
| Recommend.Truncate | src/chain/recommend/extractor.py:27 | `s[:50]` is a prefix of at most 50 characters; it is the whole text when that is short enough. |
| Recommend.FormatLines | src/chain/recommend/extractor.py:25-28 | There is one line per candidate, in input order, the i-th numbered from the start index. |
| Recommend.FormatPlaces | src/chain/recommend/extractor.py:22-29 | No candidates give `""`, and one candidate gives its line alone. When no field holds a newline, the text splits on newlines back into exactly the lines. |
| Recommend.LinesSplitBack | src/chain/recommend/extractor.py:22-29 | Newline-free lines joined by newlines split back into the lines. |
| Recommend.LineIndexReadsBack | src/chain/recommend/extractor.py:28 | The number before the first `.` of a line parses back to its index. |
| Recommend.LineHasNoNewline | src/chain/recommend/extractor.py:27-28 | A line has no newline when its fields have none. |
| Recommend.FormatSplitsIntoLines | src/chain/recommend/extractor.py:22-29 | No candidates give `""`. Otherwise the text splits on newlines back into exactly the lines, and line i carries the 1-based index i+1. |
| Recommend.LinesCarryIndices | src/chain/recommend/extractor.py:22-29 | Line i of the numbered list reads back through `int()` as i + 1. |
| Recommend.Filter | src/chain/recommend/extractor.py:67-71 | A record is kept exactly when it is in the catalog and passes the filter. A one-record catalog gives itself or nothing. |
| Recommend.FilterAppend | src/chain/recommend/extractor.py:67-71 | Filtering keeps catalog order: the matches of a concatenation are the matches of each part, in order. |
| Recommend.Query | src/chain/recommend/extractor.py:67-71 | `.limit(30)`: a prefix of the filtered catalog of length `min(matches, 30)`, empty only when the filter matches nothing. |
| Recommend.ContainsIgnoringCase | src/chain/recommend/extractor.py:59-64 | A case-insensitive match: some window of the text equals the hint once both are lower-cased. The empty hint always matches. |
| Recommend.Eligible | src/chain/recommend/extractor.py:67-71 | An eligible record has a non-empty address, so its prompt line has one. |
| Recommend.FirstTier | src/chain/recommend/extractor.py:56-71 | A first-tier record is eligible. An empty hint adds no condition, and a non-empty hint must match the region or the address. |
| Recommend.Candidates | src/chain/recommend/extractor.py:56-82 | Retrieval fails exactly when no attraction with a non-empty address exists. Otherwise it gives 1 to 30 eligible catalog records: the hinted tier when that is non-empty, else the unhinted tier. |
| Recommend.FirstTierMatchesHint | src/chain/recommend/extractor.py:59-71 | With a non-empty hint, each first-tier candidate is an eligible attraction whose region or address contains the hint, ignoring case. |
| Recommend.FallbackTierRecovers | src/chain/recommend/extractor.py:73-82 | One eligible record anywhere in the catalog is enough for candidates to exist. |
| Recommend.LastByName | src/chain/recommend/extractor.py:104 | `{p.name: p for p in places}` keeps the last candidate with each name. |
| Recommend.MergeCoordinates | src/chain/recommend/extractor.py:104-110 | The merge keeps the length and all non-coordinate fields. A pick with no same-named candidate is unchanged. A pick named like a candidate takes the coordinates of the last such candidate. |
| Recommend.TakeFirst | src/chain/recommend/extractor.py:113 | `places[:limit]` is a prefix of length `min(len, limit)`. |
| Recommend.MergedPicksCarryCoordinates | src/chain/recommend/extractor.py:104-113 | After the merge and the cut, every pick named like a candidate carries the coordinates of such a candidate. |
| Recommend.UnmatchedPicksHaveNoCoordinates | src/chain/recommend/extractor.py:104-113 | When the picks start without coordinates, a kept pick that matches no candidate keeps null coordinates. Every non-null coordinate kept belongs to a candidate of the same name. |
| Recommend.RecommendPlaces | src/chain/recommend/extractor.py:32-115 | A missing session fails first. The call fails for want of candidates exactly when nothing is eligible. Otherwise it succeeds exactly when the model's answer validates, and it passes the validation error through. It returns exactly the first `limit` merged picks of the validated answer, with any coordinates the answer carried cleared. A kept pick named like a candidate carries that candidate's coordinates. A pick matching no candidate has null coordinates, so every non-null coordinate is a same-named candidate's. |
| Recommend.RecommendFrom | src/chain/recommend/extractor.py:85-115 | After retrieval the call succeeds exactly when the model's answer validates, and passes a validation error through unchanged. It returns the first `limit` merged picks, with the answer's own coordinates cleared. Coordinates come only from same-named candidates; unmatched picks keep null coordinates. |
| Recommend.ResultIsPrefixOfPicks | src/chain/recommend/extractor.py:98-113 | Whenever the answer validates, typed or as a mapping, the result is the first `limit` merged picks in the model's order, never padded or reordered. A mapping's validated picks are merged as they are. |
| Recommend.RecommendPromptFor | src/chain/recommend/extractor.py:49-95 | The prompt gets the session's place hint, and the primary traits joined by `", "` as keywords. The purpose is never empty: the session's own, else "여행 및 관광". The places list is the formatted candidates, and the limit is passed through. |
| Recommend.MergeCoordinatesAsWritten | src/chain/recommend/extractor.py:106-110 | As written, the merge raises exactly when some pick is named like a candidate. Without such a pick, the list passes unchanged. |
| Recommend.AsWrittenMergeRejectsMatchingPick | src/chain/recommend/extractor.py:106-110 | One matching pick makes the as-written merge raise. The corrected merge copies the coordinates. |
| TravelPlanner.ParseTravelDays | src/chain/planner/extractor.py:38-39 | An empty duration is one day. |
| TravelPlanner.Normalize | src/chain/planner/extractor.py:42 | The normalised text has no space and nothing left to lower-case. It is no longer than the input and adds no digit. |
| TravelPlanner.NightsDaysValue | src/chain/planner/extractor.py:44-50 | The nights/days rule reads a number only when both 박 and 일 occur and the text has a digit. |
| TravelPlanner.DayCountValue | src/chain/planner/extractor.py:57-62 | The day rule reads a number only when 일 occurs and the text has a digit. |
| TravelPlanner.Cascade | src/chain/planner/extractor.py:44-68 | A nights/days reading wins. Otherwise the result is 7, 1, or the reading of the day rule or of `int()`. |
| TravelPlanner.NormalizeIdempotent | src/chain/planner/extractor.py:42 | Removing spaces and lower-casing is idempotent. |
| TravelPlanner.ParseIgnoresSpacesAndCase | src/chain/planner/extractor.py:42 | Only spaces and letter case are discarded: a text parses as its normalised form does. |
| TravelPlanner.PlainAppend | src/chain/planner/extractor.py:42 | Text that normalisation leaves alone stays so under concatenation. |
| TravelPlanner.NumeralFacts | src/chain/planner/extractor.py:44-57 | A numeral contains none of the markers 박, 일, 주 or `w`, and normalisation leaves it alone. |
| TravelPlanner.NightsDaysReading | src/chain/planner/extractor.py:44-48 | On "N박M일", the nights/days rule reads M. |
| TravelPlanner.NightsDaysGiveDays | src/chain/planner/extractor.py:44-48 | "N박M일" gives M for every N and M; this rule comes before the week and day rules. |
| TravelPlanner.WeekGivesSeven | src/chain/planner/extractor.py:53-54 | When the nights/days rule does not apply, any text whose normalised form mentions 주 or `week` gives 7. |
| TravelPlanner.NightsAloneFallBack | src/chain/planner/extractor.py:44-68 | "N박" matches no rule and gives 1. |
| TravelPlanner.NightsAloneCascade | src/chain/planner/extractor.py:44-68 | A numeral followed by 박, with no 일 and no week marker, falls through every rule to 1. |
| TravelPlanner.DayCountReading | src/chain/planner/extractor.py:57-60 | On "N일", the day rule reads N. |
| TravelPlanner.DayCountOfStripped | src/chain/planner/extractor.py:57-60 | Stripped text without 일, followed by one 일, is read by the day rule as `int()` of that text. |
| TravelPlanner.DayCountGivesDays | src/chain/planner/extractor.py:57-60 | "N일" gives N, without clamping ("0일" gives 0). |
| TravelPlanner.BareNumberGivesItself | src/chain/planner/extractor.py:64-66 | A bare integer gives itself, with or without a minus sign. |
| TravelPlanner.SeparatorBeforeNumberFallsBack | src/chain/planner/extractor.py:64-68 | An information separator before a numeral is not skipped by `int()`, so the text gives 1. |
| TravelPlanner.NoDigitRules | src/chain/planner/extractor.py:44-68 | On text without digits, every numeric rule fails. |
| TravelPlanner.NoDigitNoNightsDays | src/chain/planner/extractor.py:44-48 | On text without digits, the nights/days rule fails. |
| TravelPlanner.NoDigitNoDayCount | src/chain/planner/extractor.py:57-60 | On text without digits, the day rule fails. |
| TravelPlanner.NoNumberFallsBack | src/chain/planner/extractor.py:61-68 | Text with no digit and no week marker gives 1. |
| TravelPlanner.NightsDaysExample | src/chain/planner/extractor.py:44-48 | "3박4일" gives 4. |
| TravelPlanner.SpacedNightsDaysExample | src/chain/planner/extractor.py:42-48 | "3박 4일" gives 4. |
| TravelPlanner.PlainPiecesNormalize | src/chain/planner/extractor.py:42 | One space between two pieces that normalisation leaves alone disappears, and the pieces are joined. |
| TravelPlanner.FiveDaysExample | src/chain/planner/extractor.py:57-60 | "5일" gives 5. |
| TravelPlanner.ZeroDaysExample | src/chain/planner/extractor.py:57-60 | "0일" gives 0: the day count is not clamped. |
| TravelPlanner.WeekExample | src/chain/planner/extractor.py:53-54 | "2주" gives 7, whatever the number. |
| TravelPlanner.WholeWeekExample | src/chain/planner/extractor.py:53-54 | "일주일" gives 7, although it contains 일. |
| TravelPlanner.NightsAloneExample | src/chain/planner/extractor.py:44-68 | "3박" gives 1. |
| TravelPlanner.OrDefault | src/chain/planner/extractor.py:98-99 | `x or default`: an absent or empty value gives the default; any other value is kept. |
| TravelPlanner.GroupLines | src/chain/planner/extractor.py:115-124 | There is at most one line per group, and none exactly when no group has both a name and tags. |
| TravelPlanner.GroupLinesSnoc | src/chain/planner/extractor.py:118-123 | A group adds its `"name: tags"` line at the end when it has both parts, and nothing otherwise. |
| TravelPlanner.CategorySummary | src/chain/planner/extractor.py:109-128 | With traits, the summary starts with "주요 관심사: " and the joined traits. It is "일반 관광" exactly when there are no traits and no complete group. |
| TravelPlanner.UnlistedGroupIsSkipped | src/chain/planner/extractor.py:118-123 | A group missing its name or its tags leaves the summary unchanged. |
| TravelPlanner.ListedGroupAddsLine | src/chain/planner/extractor.py:118-125 | A complete group appends `"\n" + "name: tags"`. |
| TravelPlanner.Considerations | src/chain/planner/extractor.py:106 | With no options it is "특별한 고려사항 없음"; a single option is passed through. |
| TravelPlanner.ConsiderationsAppend | src/chain/planner/extractor.py:106 | Each further option follows `", "`. |
| TravelPlanner.PlanPromptFor | src/chain/planner/extractor.py:96-144 | Purpose, people and day fall back to "여행 및 관광", "정보 없음" and "1일". An absent or empty day means one day; otherwise the day is parsed. Options become the considerations. The main place's absent fields read as `""` or 0.0, its address included. |
| TravelPlanner.PlannerFrom | src/chain/planner/extractor.py:152-161 | The planner document copies the main destination, day count and overview. It stores one dump per day, and each dump validates back to its day. |
| TravelPlanner.CreateTravelPlan | src/chain/planner/extractor.py:90-165 | A missing session fails with nothing written. The call succeeds exactly when the generation coerces, and otherwise reports the coercion's error. On success exactly one planner is appended, and it is the planner document built from the session id and the coerced plan. |
| TravelPlanner.CreateTravelPlanAsWritten | src/chain/planner/extractor.py:152-157 | As written, the call never stores anything. After a valid generation it fails on the undeclared field `main_destination_name`. |
| TravelPlanner.GetTravelPlan | src/chain/planner/extractor.py:168-181 | Lookup fails exactly when no planner references the session. Otherwise it gives the first such planner in insertion order. |
| TravelPlanner.FirstPlanFor | src/chain/planner/extractor.py:178-180 | `find_one`: the first planner with that session id, or not-found. |
| TravelPlanner.CreatedPlanIsFound | src/chain/planner/extractor.py:163-180 | A created plan can be looked up by its session. It is the plan found when it is the session's first. |
| TravelPlanner.AsWrittenPlanIsNeverStored | src/chain/planner/extractor.py:152-157 | With a valid generated plan, the as-written call fails. The corrected call stores the plan and finds it again. |
| UploadCsv.Lookup | scripts/upload_csv.py:67 | A key is absent exactly when no item has it; otherwise its item is in the row. |
| UploadCsv.GetFirst | scripts/upload_csv.py:67 | A nested `get` chain gives the value of the first key present, even an empty one, and `""` when no key is present. |
| UploadCsv.StrippedFirst | scripts/upload_csv.py:67 | `.strip()` of that value fails exactly on `None`. Otherwise it is `strip()` of the first present value: no surrounding whitespace, empty exactly when the value is blank. |
| UploadCsv.StrippedEach | scripts/upload_csv.py:73-79 | Each part is stripped in order, and the list fails exactly when some part is `None`. |
| UploadCsv.NonEmpty | scripts/upload_csv.py:80 | The non-empty parts are kept, and only those. One part gives itself or nothing. |
| UploadCsv.NonEmptyAppend | scripts/upload_csv.py:80 | The filter keeps order and multiplicity: the parts of a concatenation keep their non-empty members piece by piece. |
| UploadCsv.Address | scripts/upload_csv.py:70-82 | Without `mcate_nm`, the address comes from the road/lot/주소/소재지 chain. With it, the non-empty parts are joined by single spaces. |
| UploadCsv.HistoricAddressSplitsIntoParts | scripts/upload_csv.py:73-80 | When no part has an inner space, a historic address splits back into exactly its non-empty parts, in order. |
| UploadCsv.FindCoordinate | scripts/upload_csv.py:99-100 | The first key naming the coordinate is found, in column order. An overlong row raises only when no key matches. |
| UploadCsv.Coordinate | scripts/upload_csv.py:102-112 | A coordinate is set exactly when its column was found, its value is non-empty, and `float()` accepts it. |
| UploadCsv.MarkedColumnGivesCoordinate | scripts/upload_csv.py:99-112 | The coordinate read is unset when no key names it. Otherwise it is the reading of the first column whose key names it: `float()` of its value when that value is non-empty. |
| UploadCsv.MapRow | scripts/upload_csv.py:61-115 | The name is read first. A row gives a place exactly when its stripped name is non-empty. The place's name, type, address, description and region come from their chains. A mapped row passed both coordinate searches, and each coordinate is the reading of its search. |
| UploadCsv.BlankNameColumnDropsRow | scripts/upload_csv.py:67 | A present but blank `관광지명` drops the row even when `poi_nm` has a name. |
| UploadCsv.NameFallsBackWhenAbsent | scripts/upload_csv.py:67 | With `관광지명` absent, the name is `poi_nm`, stripped. |
| UploadCsv.CompleteRowNeverRaises | scripts/upload_csv.py:61-117 | A row with every value present and no extra field is never skipped with a warning. |
| UploadCsv.RowErrors | scripts/upload_csv.py:61-119 | A skipped row either read `None` in the name, address, description or region chain, or was overlong with no key naming the latitude, or none naming the longitude. |
| UploadCsv.CoordinatesFromMarkedColumns | scripts/upload_csv.py:99-112 | A stored place's latitude and longitude are each unset when no key names them. Otherwise each is `float()` of the first column naming it, when that column's value is non-empty. |
| UploadCsv.UploadRows | scripts/upload_csv.py:60-119 | Each collected place has a non-empty name, the caller's type, and an address, description and region. There are no more places than rows. |
| UploadCsv.RowPlaces | scripts/upload_csv.py:61-119 | A row contributes at most one place, and exactly the place it maps to. |
| UploadCsv.Contribution | scripts/upload_csv.py:61-119 | The per-row step of the loop is the row's contribution. |
| UploadCsv.Collect | scripts/upload_csv.py:60-119 | When each row contributes at most one place, there are no more places than rows. |
| UploadCsv.CollectMembers | scripts/upload_csv.py:60-119 | A place is collected exactly when some row contributes it. |
| UploadCsv.CollectAppend | scripts/upload_csv.py:60-119 | The loop over concatenated rows gives the concatenated contributions. |
| UploadCsv.UploadedIffMapped | scripts/upload_csv.py:60-119 | A place is collected exactly when some row maps to it: failing rows are skipped, and later rows still count. |
| UploadCsv.UploadRowsAppend | scripts/upload_csv.py:60-119 | Rows can be processed in pieces: concatenated rows give concatenated places. |
| UploadCsv.Upload | scripts/upload_csv.py:121-123 | The places follow the existing catalog. No places means no write, and nothing else changes. |
| UploadCsv.CandidatesIgnoreIneligible | src/chain/recommend/extractor.py:56-79 | Appending records that are not eligible changes no retrieval result. |
| UploadCsv.HistoricUploadKeepsCandidates | scripts/upload_csv.py:92 | Loading a "유적지" file leaves the recommendation candidates unchanged for every hint. |

## Left out

- The language-model chains are parameters returning a record, a mapping or an exception. This covers prompt text, the model client and output-format instructions. src/chain/perpose/extractor.py is a second, stateless purpose wrapper and is not part of this model.
- MongoDB and Beanie I/O are replaced by the in-memory `Store.Db`:
  - document ids are a counter;
  - `find` and `find_one` return records in insertion order;
  - `created_at` and `updated_at` are not modelled.
- The `Recent` document class is not among the sources (src/model/chat.py defines `Chat` only). Its fields are inferred from their use in src/chain/planner/extractor.py:96-100.
- Recommend.ContainsIgnoringCase: the store receives the place hint as a case-insensitive regular expression. It is modelled as a case-insensitive substring test, so hints containing regex metacharacters diverge. Case folding covers ASCII letters and the Kelvin sign only.
- Text.Lower: only A–Z and the Kelvin sign are lowered; every other character is kept. Python's `lower()` also lowers other scripts, and it can change the length: U+0130 (İ) becomes `i` followed by U+0307, two characters. So `|Lower(s)| == |s|` holds for the model but not for Python on such text. The trip-length rules only look for Hangul markers, `week` and digits; lowering elsewhere in the text can still change what `int()` is given, and that difference is not modelled.
- Text.ParseInt: `int()` accepts non-ASCII decimal digits. The model accepts ASCII digits only, with an optional sign, the whitespace `int()` skips at either end, and single underscores between digits. Python also refuses decimal strings longer than 4300 digits (`ValueError`, the default `sys.set_int_max_str_digits` limit), which the model does not: Text.ParseIntOfNat and Text.ParseIntOfNegated hold for every `n`, while Python agrees only for numerals of at most 4300 digits.
- Pydantic's lax-mode coercions are not modelled: numeric strings, booleans as integers, and the like. Validation is strict except that an integer is accepted for a float field.
- Floats are mathematical reals, so NaN and infinities are not modelled. `float()` for CSV coordinates is the parameter `parseFloat`.
- TravelPlanner.PlanPromptFor: `main_place` is a `Dict[str, Any]`. The model's `MainPlace` holds each field either absent or with its declared type: text, or a real for the coordinates. The source hands a present `None`, or a value of another type, to the prompt unchanged. The model cannot represent such a value, so it does not model that case.
- RecommendData.RecommendedRoundTrip: a pick with coordinates does not round-trip exactly. The answer schema declares no coordinates, so validation drops them, and they are filled only by the merge with the candidates. RecommendationsRoundTrip clears them in the same way.
- Recommend.RecommendPlaces: `limit` is a natural number. A negative limit would slice from the end in Python.
- The CSV file itself is not modelled. Reading, encoding detection, header printing, row numbering in warnings and the final messages are left out. Each row arrives as the reader's dictionary, so duplicate header names are outside the model.
- FastAPI handlers (src/main.py) and the integration script are not part of this model. So are the stages that set people, days, options or a finished flag: no source implements them.

## Findings

| source | as written | input that shows it | evidently intended | confidence | as-written member | corrected member |
|---|---|---|---|---|---|---|
| src/chain/recommend/extractor.py:109-110 | assigns `latitude`/`longitude` on a `RecommendedPlace`, which declares neither (src/chain/recommend/data.py:5-10), so pydantic raises `ValueError` | a candidate named "경복궁" and a model pick named "경복궁" | the pick takes the candidate's coordinates: the returned pick declares them optional, filled only by the merge, while the model's answer is still validated without them | not executed | Recommend.MergeCoordinatesAsWritten, Recommend.AsWrittenMergeRejectsMatchingPick | Recommend.MergeCoordinates |
| src/chain/planner/extractor.py:154-157 | reads `travel_plan.main_destination_name` (and the address, latitude and longitude variants), which `TravelPlan` does not have (src/chain/planner/data.py:46-51), so `AttributeError` follows every successful generation and no plan is stored | any existing session and a generator returning a valid plan | read `travel_plan.main_destination.name` and its siblings | not executed | TravelPlanner.CreateTravelPlanAsWritten, TravelPlanner.AsWrittenPlanIsNeverStored | TravelPlanner.CreateTravelPlan |
