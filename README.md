# Varsom warnings: adapters, avalanche scripts and icon padding

This project is a Dafny model of the core of the Varsom / Norway Alerts Home
Assistant integration, with proofs about that model. It covers three areas.

- **The warning adapters** (`WarningApi`), as their unit tests pin them down:
  - `WarningAPIFactory.get_api` maps a hazard tag to a configured adapter and
    rejects any other tag.
  - `fetch_warnings` is fail-soft. It passes each upstream record through and
    tags it with `_warning_type`.
  - The MetAlerts title helper pulls the start and end date-times out of an
    alert title.
- **The four avalanche inspection scripts**, which query the NVE avalanche API:
  - `analyze_avalanche_attributes.py` (`AttributeAnalysis`);
  - `test_avalanche_attributes.py` (`CountyProbe`);
  - `validate_avalanche_changes.py` (`ChangeValidation`);
  - `check_avalanche_fields.py` (`FieldSurvey`).

  Each one reads a region summary, picks a region, requests that region's
  detail and classifies the fields of the first detailed warning. Each script
  is modelled twice:
  - a specification function gives the outcome and the ids whose detail was
    requested;
  - a method follows the script's loops step by step and is proved equal to
    that function.

  The danger-level parsing the scripts share is in `DangerLevel`. It has two
  readings: Python's `int()` and the `isdigit` guard.
- **`add_more_padding.py`** (`IconPadding`). It rewrites each 32x32 SVG icon
  onto a 48x48 canvas with an 8-pixel `viewBox` margin. It then writes the
  `icon_data.py` module of data URLs.

Two shared modules support these:
- `Json` holds the JSON values the scripts handle, with Python's truthiness,
  `dict.get` and `str()` semantics.
- `Text` holds substring search, the non-overlapping left-to-right
  `re.sub`/`str.replace` of a literal, and Python's slice-plus-`"..."`
  truncation.

HTTP responses are inputs:
- The summary response is a parameter.
- Detail requests are a function `fetch` from the region id to a response.
- Each run records the ids it requested, so "which regions were queried" is a
  statement about that list.

An exception that reaches a script's outer `except Exception` is an outcome
(`Crash` or `Failed`), not a precondition.

## Model

| member | source | states |
|---|---|---|
| WarningApi.TagRoundTrip | tests/test_api.py:237-257 | Each hazard type is named by exactly one tag, and that tag names it back. |
| WarningApi.GetApi | tests/test_api.py:237-280 | The factory succeeds exactly for "landslide", "flood", "avalanche" and "metalerts". It returns the adapter of that hazard, built with the factory's location unchanged; any other tag is an UnknownWarningType error naming the tag. |
| WarningApi.FactoryExamples | tests/test_api.py:237-273 | The test factories: county 46 gives each adapter class carrying county id "46". A coordinate factory gives a MetAlerts adapter carrying latitude 60.39. "unknown" is refused. |
| WarningApi.FetchWarnings | tests/test_api.py:39-43 | A 200 JSON list of objects yields one record per upstream record. Each record is tagged with the adapter's hazard and otherwise keeps exactly the upstream keys and values. A non-200 status or an unusable body yields no warnings. |
| WarningApi.FetchExample | tests/test_api.py:175-179 | A single upstream record comes back as one record with its ActivityLevel "2" and event "rain" intact, tagged with the adapter's hazard. |
| WarningApi.FetchFailSoft | tests/test_api.py:45-87 | An empty upstream list and a status-500 response both give an empty list. |
| WarningApi.DigitRunEnd | tests/test_api.py:221-231 | The end of a maximal digit run: every character before it is a digit and the character at it is not. |
| WarningApi.DateTimeLen | tests/test_api.py:221-231 | A recognised RFC 3339 date-time has at least 20 characters, fits in the text and starts with a digit. |
| WarningApi.DateTimeLenPrefix | tests/test_api.py:221-231 | Recognising a date-time at the head of a text does not depend on what follows the recognised span. |
| WarningApi.FindDateTime | tests/test_api.py:221-231 | A found span lies in the text at or after the search start, and a date-time of exactly that length is recognised there. |
| WarningApi.FindDateTimeIsFirst | tests/test_api.py:221-231 | The search returns the leftmost date-time: none starts between the search start and the found span. When nothing is found, no position holds one. |
| WarningApi.ExtractTimesFromTitle | tests/test_api.py:221-231 | A title without a date-time is returned unchanged with no times. An end time is only reported together with a start time. The cleaned title is never longer than the title. |
| WarningApi.ExtractedTimesOccur | tests/test_api.py:221-231 | Every extracted start and end time is an RFC 3339 date-time that occurs in the original title. |
| WarningApi.ExtractFromShapedTitle | tests/test_api.py:221-231 | A title "heading, start, end, rest" (heading without digits) yields exactly start and end as the times and "heading, rest" as the cleaned title. |
| WarningApi.TestStartIsDateTime | tests/test_api.py:225-228 | "2024-01-01T12:00:00+01:00" is an RFC 3339 date-time. |
| WarningApi.TestEndIsDateTime | tests/test_api.py:225-229 | "2024-01-02T00:00:00+01:00" is an RFC 3339 date-time. |
| WarningApi.TestTitleShape | tests/test_api.py:225 | The test title has the "heading, start, end, rest" layout, with a digit-free heading. |
| WarningApi.ExtractTestTitle | tests/test_api.py:225-231 | The test title yields start "2024-01-01T12:00:00+01:00", end "2024-01-02T00:00:00+01:00" and the cleaned title "Orange level, Vestland". |
| WarningApi.TestCleanTitleContents | tests/test_api.py:230-231 | The cleaned title contains "Orange level" and does not contain either timestamp. |
| Json.Get | analyze_avalanche_attributes.py:112 | `dict.get(key)` finds a value exactly when the key is present, and it is that key's value. |
| Json.GetOr | analyze_avalanche_attributes.py:38 | `dict.get(key, default)` gives the key's value when present and the default otherwise. |
| Json.Elements | test_avalanche_attributes.py:36-37 | Iterating a value succeeds for lists (their items) and for the empty string and empty dict (nothing). Only a list yields elements. |
| Json.NatToDecimal | test_avalanche_attributes.py:54 | `str()` of a natural number is a non-empty string of decimal digits, one digit long exactly below 10. |
| Json.IntToDecimal | test_avalanche_attributes.py:54 | `str()` of an integer starts with '-' exactly when the integer is negative. |
| Json.ScalarText | analyze_avalanche_attributes.py:121 | `str()` of a string is the string itself, and of None is "None". |
| Json.DecimalIs46 | test_avalanche_attributes.py:54 | `str(n) == "46"` holds exactly for the integer 46. |
| Text.Truncate | analyze_avalanche_attributes.py:121 | The result is the whole text when it fits. Otherwise it is the first n characters followed by "...", never longer than n + 3. |
| Text.ReplaceAllExcludes | custom_components/varsom/add_more_padding.py:16-25 | After substitution, a needle is absent from the result when three things hold. It is the pattern itself or absent from the input. The replacement does not contain it. The replacement cannot form it together with the following text. |
| Text.ReplaceAllIdentity | custom_components/varsom/add_more_padding.py:16-25 | A text without the pattern is left unchanged by the substitution. |
| Text.ReplaceAllPrefixedOnce | custom_components/varsom/add_more_padding.py:43 | Replacing a pattern that occurs only as the text's prefix replaces exactly that prefix. |
| DangerLevel.ParseDigits | analyze_avalanche_attributes.py:43-44 | `int()` of an unsigned digit string, underscores allowed between digits, succeeds exactly for well-formed digit groups and gives a non-negative value. |
| DangerLevel.ParseIntOfDigitString | analyze_avalanche_attributes.py:43-44 | `int()` of a string of ASCII digits is its decimal value. |
| DangerLevel.LevelByInt | analyze_avalanche_attributes.py:40-48 | A missing level is 0 and an integer level is itself. The level is unreadable (the warning is skipped) exactly for None, lists, dicts and strings `int()` rejects. |
| DangerLevel.SeparatorPaddedLevel | analyze_avalanche_attributes.py:42-43 | `int()` ignores a leading ASCII information separator, so "\x1c3" reads as 3. The `isdigit` scripts read the same text as 0. |
| DangerLevel.LevelByIsDigit | test_avalanche_attributes.py:38-40 | A string level is its digits' value when all are digits and 0 otherwise, always non-negative. The level is not comparable with 0 exactly for None, lists and dicts. |
| DangerLevel.LevelsAgree | validate_avalanche_changes.py:29-31 | For a missing level, an integer, a boolean or a digit-only string, the `int()` reading and the `isdigit` reading give the same level. |
| DangerLevel.IsDigitActiveIsIntActive | test_avalanche_attributes.py:38-41 | A level the `isdigit` reading counts as active gets the same value from the `int()` reading. So every warning the `isdigit` scripts act on is also active for the analysis script. |
| DangerLevel.PaddedDigitDisagrees | analyze_avalanche_attributes.py:43-44 | The readings differ on " 3": `int()` gives 3, while the `isdigit` guard gives 0. |
| DangerLevel.SampleLevelsByIsDigit | validate_avalanche_changes.py:29-31 | The `isdigit` reading of 3, "3", "abc", "-1", "", 0 and null. |
| DangerLevel.SampleLevelsByInt | analyze_avalanche_attributes.py:40-48 | The `int()` reading rejects null and "abc" and reads "-1" as -1. |
| AttributeAnalysis.WarningList | analyze_avalanche_attributes.py:38 | A region without an AvalancheWarningList has an empty list. |
| AttributeAnalysis.RegionPairs | analyze_avalanche_attributes.py:39-48 | One region's warning loop completes exactly when every warning is a dict, and keeps at most one pair per warning. |
| AttributeAnalysis.ActivePairs | analyze_avalanche_attributes.py:36-48 | The whole loop completes exactly when every region is readable. |
| AttributeAnalysis.CollectActive | analyze_avalanche_attributes.py:36-48 | The nested loop succeeds exactly when the specification does, and collects the same active pairs in the same order. |
| AttributeAnalysis.CollectRegion | analyze_avalanche_attributes.py:38-48 | The inner warning loop succeeds exactly when every warning is a dict, and collects that region's active pairs in order. |
| AttributeAnalysis.RegionPairsSound | analyze_avalanche_attributes.py:39-48 | Every pair kept for a region is that region with one of its warnings whose level reads above 0. |
| AttributeAnalysis.RegionPairsComplete | analyze_avalanche_attributes.py:39-48 | Every warning of the region whose level reads above 0 is kept. |
| AttributeAnalysis.ActivePairsSound | analyze_avalanche_attributes.py:36-48 | Every collected pair is a summary region with one of its own warnings, and that warning is active. |
| AttributeAnalysis.ActivePairsComplete | analyze_avalanche_attributes.py:36-48 | Every active warning of every region is collected. |
| AttributeAnalysis.ActivePairsEmpty | analyze_avalanche_attributes.py:50-61 | No active pair means no region holds an active warning. This is the case where the script falls back to the first region. |
| AttributeAnalysis.ActivePairsFirst | analyze_avalanche_attributes.py:52 | The first pair is the first active warning of the first region that has one. Every earlier region is quiet, and every earlier warning of that region is inactive. |
| AttributeAnalysis.RegionPairsInOrder | analyze_avalanche_attributes.py:38-45 | Within one region, pairs follow the warning order: pair k2 comes from a warning at least k2 - k1 places after that of pair k1, so no warning is used twice. |
| AttributeAnalysis.ActivePairsInOrder | analyze_avalanche_attributes.py:36-45 | The pairs are ordered by region position, then by warning position within a region. |
| AttributeAnalysis.RegionPairsCount | analyze_avalanche_attributes.py:38-45 | A region contributes exactly as many pairs as it has active warnings. |
| AttributeAnalysis.ActivePairsCount | analyze_avalanche_attributes.py:36-45 | The number of pairs is the number of active warnings, summed over all regions. |
| AttributeAnalysis.AnalysedCount | analyze_avalanche_attributes.py:49-50 | The count an analysed run reports is the number of active warnings in the summary. |
| AttributeAnalysis.MissingNeverActive | analyze_avalanche_attributes.py:38-46 | A missing warning list contributes no pair. Neither do warnings without a DangerLevel, because `get` defaults them to 0. |
| AttributeAnalysis.PreviewOf | analyze_avalanche_attributes.py:116-122 | Lists and dicts are shown by their size. Scalars are shown as `str(value)`, cut to 100 characters plus "..." when longer, so never more than 103. |
| AttributeAnalysis.Classify | analyze_avalanche_attributes.py:108-125 | The two lists together are as long as the field list, and each available field has one preview. |
| AttributeAnalysis.ClassifyFields | analyze_avalanche_attributes.py:108-125 | The loop over the fourteen avalanche fields builds exactly the specified report. |
| AttributeAnalysis.ClassifySplits | analyze_avalanche_attributes.py:108-125 | Available holds exactly the listed fields whose value is provided (not None, "", 0 or False), and unavailable holds the rest. Together they are a permutation of the field list. |
| AttributeAnalysis.ClassifyKeepsOrder | analyze_avalanche_attributes.py:108-125 | The split is stable: each list embeds in the field list in order, at exactly the positions whose value is provided (available) or not (unavailable). |
| AttributeAnalysis.ClassifyPreviews | analyze_avalanche_attributes.py:116-122 | The k-th preview is the preview of the k-th available field's value. |
| AttributeAnalysis.ClassifyDisjoint | analyze_avalanche_attributes.py:108-125 | No avalanche field is both available and unavailable. |
| AttributeAnalysis.ProvidedExamples | analyze_avalanche_attributes.py:113 | The availability test, unlike truthiness, accepts empty lists and dicts. It rejects None, "", 0 and False, and accepts "0" and True. |
| AttributeAnalysis.Recommended | analyze_avalanche_attributes.py:136-141 | The recommendation lists exactly those of MainText, AvalancheAdvices and AvalancheDanger that the warning holds with a truthy value, and no other name. |
| AttributeAnalysis.RecommendedInOrder | analyze_avalanche_attributes.py:136-141 | The recommendations come in the order MainText, AvalancheAdvices, AvalancheDanger, each at most once. |
| AttributeAnalysis.RecommendedAreAvailable | analyze_avalanche_attributes.py:108-141 | Every recommended field is also among the available fields of the report. |
| AttributeAnalysis.DetailRun | analyze_avalanche_attributes.py:66-125 | A detail response other than 200 is an HTTP error. An analysed warning is the first element of a non-empty detail list, and its report is the classification of that element's fields. |
| AttributeAnalysis.AnalysisOf | analyze_avalanche_attributes.py:21-160 | At most one detail request. A non-200 summary or an empty one ends the run without requests. An analysed run requested exactly the region it reports on. |
| AttributeAnalysis.Analyze | analyze_avalanche_attributes.py:21-160 | The script's loops and early returns give exactly the specified outcome and requests. |
| AttributeAnalysis.RequestedRegion | analyze_avalanche_attributes.py:50-64 | The requested id is the Id of the region of the first active pair, or of the first region when no warning is active. |
| CountyProbe.CountyMatchesExactly | test_avalanche_attributes.py:54 | The county test accepts exactly the string "46" and the number 46; a missing CountyId never matches. |
| CountyProbe.FirstActiveFrom | test_avalanche_attributes.py:37-41 | The warning loop stops at the first warning above level 0, with every earlier warning inactive. It finds none exactly when all are inactive. |
| CountyProbe.FindFirstActive | test_avalanche_attributes.py:37-41 | The loop stops where the specification says. |
| CountyProbe.MunicipalityFrom | test_avalanche_attributes.py:53-56 | No match exactly when every municipality is a dict whose CountyId is not Vestland's. |
| CountyProbe.MunicipalityMatchAt | test_avalanche_attributes.py:53-56 | A match is a municipality dict from the list whose CountyId passes the county test. |
| CountyProbe.MatchMunicipality | test_avalanche_attributes.py:53-56 | The municipality loop ends as the specification says. |
| CountyProbe.DetailMatch | test_avalanche_attributes.py:46-58 | A non-200 status or an empty or non-list body never matches. A match is the first detailed warning. |
| CountyProbe.MatchHasVestlandMunicipality | test_avalanche_attributes.py:46-58 | A matched warning's MunicipalityList holds a municipality whose CountyId is "46" or 46. |
| CountyProbe.CheckDetail | test_avalanche_attributes.py:46-58 | The detail check returns what the specification gives. |
| CountyProbe.RegionVisit | test_avalanche_attributes.py:35-61 | One region makes at most one request. A request is made only for a region with an active warning, and it is for that region's Id. |
| CountyProbe.RegionVisitComplete | test_avalanche_attributes.py:35-61 | The converse: the scan moves past a region exactly when it passes (a dict with an iterable warning list, no crash in the warning loop, and, when a warning is active, an Id whose detail does not match). A region with an active warning and an Id is requested exactly once, and any other region is not requested. A Found stop is that region's detail match. |
| CountyProbe.VisitRegion | test_avalanche_attributes.py:35-61 | The per-region loop body computes the specified visit. |
| CountyProbe.ScanFrom | test_avalanche_attributes.py:35-61 | The scan makes at most one request per remaining region and ends Found, NotFound or Crash. |
| CountyProbe.ScanExplained | test_avalanche_attributes.py:35-61 | A Found warning is the match of the last request and every earlier request did not match. A NotFound scan requested only non-matching regions. The converse is ScanRequestsActiveIds. |
| CountyProbe.ScanStopsAt | test_avalanche_attributes.py:35-61 | The scan passes every region before some index n and does not pass region n. It ends NotFound exactly when n is past the last region. |
| CountyProbe.ScanRequestsActiveIds | test_avalanche_attributes.py:35-61 | The scan stops at the first region that does not pass. Its requests are exactly the Ids of the regions with an active warning, in order, up to and including the stop region. |
| CountyProbe.ScanFindsFirstMatch | test_avalanche_attributes.py:35-61 | A Found scan stops in the first region whose detail matches. That region has an active warning and an Id, and every earlier region passes. |
| CountyProbe.ScanNotFoundIff | test_avalanche_attributes.py:35-61 | The scan ends NotFound exactly when every region passes. |
| CountyProbe.NoMatchAhead | test_avalanche_attributes.py:35-61 | Non-matching requests made before an explained probe keep it explained. |
| CountyProbe.RequestsFromActiveRegions | test_avalanche_attributes.py:41-44 | Every request is the Id of a summary region with an active warning, and the k-th request comes from region k or later. |
| CountyProbe.RequestsInRegionOrder | test_avalanche_attributes.py:35-48 | Requests come from strictly later regions: for k1 <= k2, request k2 comes from a region at least k2 - k1 places after that of request k1, and both regions hold an active warning. |
| CountyProbe.NonOkDetailSkipped | test_avalanche_attributes.py:46-47 | A region whose detail status is not 200 is requested, then skipped, and the scan continues with the next region. |
| CountyProbe.ProbeOf | test_avalanche_attributes.py:21-61 | A non-200 summary or an empty summary ends without any request. |
| CountyProbe.Scan | test_avalanche_attributes.py:21-61 | The script's region loop gives exactly the specified outcome and requests. |
| CountyProbe.ShowField | test_avalanche_attributes.py:94-110 | A field shows as empty exactly when missing or falsy. A string is shown whole up to 80 characters, else its first 80 and "...". |
| CountyProbe.ShownIsAvailable | test_avalanche_attributes.py:95-96 | A field this display shows is available to the attribute analysis. An empty list is the counterexample to the converse. |
| ChangeValidation.ShowNewField | validate_avalanche_changes.py:65-76 | Empty exactly when missing or falsy. A string preview is at most 53 characters, and a list shows its non-zero length. |
| ChangeValidation.ReportOf | validate_avalanche_changes.py:40-76 | A report exists exactly when the region has a Name. It carries that name and the detail's DangerLevel. Each old field is marked present exactly when the detail has that key. Each new field's line is ShowNewField of that field's value. |
| ChangeValidation.DetailStep | validate_avalanche_changes.py:37-83 | A falsy detail body lets the loop go on. A report needs a non-empty list whose first element is a dict, and it is ReportOf that element. The step crashes exactly when the body is not a list, its first element is not a dict, or the region has no Name. It never ends the run with no active warnings. |
| ChangeValidation.WarningsFrom | validate_avalanche_changes.py:28-83 | At most one request per remaining warning. A report comes from the last request's truthy body, and every earlier request had a falsy one. A Reported outcome's last request is the region's Id, and the outcome is DetailStep of that Id's detail body. |
| ChangeValidation.RegionsFrom | validate_avalanche_changes.py:26-83 | The same facts over all regions: only the last request can have had a truthy body. |
| ChangeValidation.ReportedAt | validate_avalanche_changes.py:26-83 | A reported run stops in a region n with an Id, and every earlier region passes. The last request is region n's Id, and the outcome is DetailStep of that Id's detail body. |
| ChangeValidation.ReportFromLastDetail | validate_avalanche_changes.py:20-83 | The script's report comes from the last requested region's detail: a non-empty list whose first element is a dict, and the report is ReportOf that region and that element. Every earlier region passes. |
| ChangeValidation.ValidationOf | validate_avalanche_changes.py:20-88 | An empty summary ends with no active warnings and no requests. A summary that cannot be iterated crashes, whatever its status or kind. A report comes from the last request's truthy body. ReportFromLastDetail ties its content to that detail. |
| ChangeValidation.ScanWarnings | validate_avalanche_changes.py:28-83 | The warning loop of one region gives the specified outcome and requests. |
| ChangeValidation.Validate | validate_avalanche_changes.py:20-88 | The script's nested loops give exactly the specified outcome and requests. |
| ChangeValidation.EmptyDetailContinues | validate_avalanche_changes.py:32-39 | For any active warning j of a region with an Id: when its detail comes back falsy, the loop requests that Id and then continues exactly as from warning j + 1. |
| ChangeValidation.EmptyDetailExample | validate_avalanche_changes.py:32-39 | In a region with two active warnings, an empty first detail makes the loop fetch the second warning's detail too. |
| ChangeValidation.WarningsStopAt | validate_avalanche_changes.py:28-39 | The warning loop passes every warning before some index e and does not pass warning e. It runs out with no active warnings exactly when e is past the last warning. |
| ChangeValidation.WarningsRequestsUpTo | validate_avalanche_changes.py:28-39 | Up to where the warning loop stops, every active warning's request is made once, in order, and that warning's too when it is active. |
| ChangeValidation.RegionPassesIff | validate_avalanche_changes.py:26-39 | A readable region passes exactly when its warning loop runs out. It then requested its Id once per active warning. |
| ChangeValidation.RegionsStopAt | validate_avalanche_changes.py:26-39 | The region loop passes every region before some index n and does not pass region n. It ends with no active warnings exactly when n is past the last region. |
| ChangeValidation.RegionsRequestsUpTo | validate_avalanche_changes.py:26-39 | The requests are one per active warning of every region passed, in summary order and then warning order, followed by those made in the stop region. |
| ChangeValidation.PassedRegionStep | validate_avalanche_changes.py:26-39 | A region that passes adds one request per active warning, then the loop continues with the next region. |
| ChangeValidation.NoActiveWarningsIff | validate_avalanche_changes.py:26-85 | The run reports no active warnings exactly when every region passes: no crash and no truthy detail. It then requested one Id per active warning of the whole summary, in order. |
| ChangeValidation.WarningRequestsInOrder | validate_avalanche_changes.py:28-39 | Within one region, each request is the region's Id made for a warning whose `isdigit` level is above 0, later requests for strictly later warnings. WarningsRequestsUpTo gives the converse. |
| ChangeValidation.RequestsInOrder | validate_avalanche_changes.py:26-39 | Request k is the Id of a summary region for one of its active warnings. Requests follow summary order, then warning order within a region. RegionsRequestsUpTo gives the converse. |
| ChangeValidation.OldFieldsByPresence | validate_avalanche_changes.py:46-51 | The old fields are judged by key presence. Absent keys show as not present; present keys show as present even when empty or null. |
| FieldSurvey.FirstTruthy | check_avalanche_fields.py:46-47 | Python's `a or b or c`: the first truthy operand, or the last one. The result is truthy exactly when some operand is. |
| FieldSurvey.RegionIdExamples | check_avalanche_fields.py:46-47 | The id and name fallbacks on sample regions, including a falsy RegionId 0 giving way to Id. |
| FieldSurvey.FirstWithWarningsFrom | check_avalanche_fields.py:42-44 | The region loop stops at the first region with a truthy warning list, every earlier region being quiet. It finds none exactly when all are quiet. |
| FieldSurvey.DetailOutcome | check_avalanche_fields.py:63-85 | A non-200 detail is unavailable. An examined warning is the first element of the detail list, reported with the region's id and name. |
| FieldSurvey.SurveyOf | check_avalanche_fields.py:22-94 | At most one request. A non-200 or empty summary makes none. An examined or unavailable detail requested exactly the reported region id. |
| FieldSurvey.Check | check_avalanche_fields.py:22-94 | The script's region loop gives exactly the specified outcome and requests. |
| FieldSurvey.ExaminedIsFirstWithWarnings | check_avalanche_fields.py:42-63 | The only request is for the id of the first region with warnings. |
| IconPadding.SizeTexts | custom_components/varsom/add_more_padding.py:9-11 | The new size is 48, and 8, 32 and 48 print as those decimals. |
| IconPadding.NextGt | custom_components/varsom/add_more_padding.py:28-32 | The closing `>` found is the first one at or after the start. When none is found, no `>` follows. |
| IconPadding.InsertViewBoxExcludes | custom_components/varsom/add_more_padding.py:28-32 | The viewBox insertion cannot create a text that lacks spaces and `>` and does not occur in the attribute, unless it was already there. |
| IconPadding.InsertViewBoxIdentity | custom_components/varsom/add_more_padding.py:28-32 | A text without `<svg` is left unchanged. |
| IconPadding.InsertViewBoxAtTag | custom_components/varsom/add_more_padding.py:28-32 | An `<svg ...>` tag gets ` viewBox="-8 -8 48 48"` before its first `>`, and processing resumes after it. |
| IconPadding.WidthRewriteSafe | custom_components/varsom/add_more_padding.py:16-20 | `width="48"` cannot recombine with its neighbours into `width="32"`. |
| IconPadding.HeightRewriteSafe | custom_components/varsom/add_more_padding.py:21-25 | `height="48"` cannot recombine into `height="32"`. |
| IconPadding.HeightRewriteKeepsWidth | custom_components/varsom/add_more_padding.py:21-25 | The height rewrite cannot bring `width="32"` back. |
| IconPadding.PaddedHasNoOldSize | custom_components/varsom/add_more_padding.py:13-34 | A padded SVG never contains `width="32"` or `height="32"`. |
| IconPadding.PlainSvgUnchanged | custom_components/varsom/add_more_padding.py:13-34 | Text with no 32-pixel size and no `<svg` tag passes through unchanged. |
| IconPadding.CopiedLead | custom_components/varsom/add_more_padding.py:16-25 | A lead that lacks the pattern's first character is copied unchanged in front of the substituted rest. |
| IconPadding.StrokeWidthRewritten | custom_components/varsom/add_more_padding.py:16-20 | The regex is not anchored: `stroke-width="32"` is rewritten too. |
| IconPadding.IconKeyOfPrefixed | custom_components/varsom/add_more_padding.py:43 | The key of "icon-warning-" followed by a name is the name. |
| IconPadding.IconKeyExample | custom_components/varsom/add_more_padding.py:42-43 | "icon-warning-flood-orange" gives "flood-orange". |
| IconPadding.KeyOrder | custom_components/varsom/add_more_padding.py:41-53 | The dict's keys: no duplicates, and exactly the keys some file produces. |
| IconPadding.KeyOrderFirstSeen | custom_components/varsom/add_more_padding.py:41-53 | Keys are in first-insertion order: for i < j, some file giving key i comes before every file giving key j. |
| IconPadding.IconTable | custom_components/varsom/add_more_padding.py:41-53 | The dict holds exactly the keys of the key order. |
| IconPadding.LastFileWins | custom_components/varsom/add_more_padding.py:53 | Each key holds the data URL of the padded SVG of the last file producing it. |
| IconPadding.LastWithKey | custom_components/varsom/add_more_padding.py:53 | Every file's key has a last file producing it. |
| IconPadding.EntryLines | custom_components/varsom/add_more_padding.py:68-69 | One entry line per key, in order, each holding that key's data URL. |
| IconPadding.SplitJoin | custom_components/varsom/add_more_padding.py:75 | Splitting newline-joined lines that hold no newline gives the lines back. |
| IconPadding.SplitJoinedText | custom_components/varsom/add_more_padding.py:75 | The written text, split at newlines, is the output lines plus the empty piece after the final newline. |
| IconPadding.DocumentLayout | custom_components/varsom/add_more_padding.py:57-75 | The module text is the header, a newline, then the entries and closing brace, reading back line by line. |
| IconPadding.EntriesLackNewline | custom_components/varsom/add_more_padding.py:68-69 | With newline-free names and payloads, no entry line contains a newline. |
| IconPadding.CollectIcons | custom_components/varsom/add_more_padding.py:41-54 | The file loop builds exactly the specified key order and icon table. |
| IconPadding.OutputLines | custom_components/varsom/add_more_padding.py:57-71 | The output list is the header lines, one entry per key and the closing brace. |
| IconPadding.ProcessIcons | custom_components/varsom/add_more_padding.py:36-75 | The text written is exactly the specified module text. |

## Left out

- I/O and timing are outside the model. HTTP sessions, URLs and the
  `today`/`tomorrow` dates are not modelled. Responses are parameters and
  detail lookups are the `fetch` function.
- Printed output is not modelled: `print`, the traceback and `json.dumps`
  samples. The key-field samples of analyze_avalanche_attributes.py:143-155
  only print. In the structure dumps of check_avalanche_fields.py:32-39,
  51-58 and 70-83 the printing is left out. Their `[0]` indexing and
  `.items()` calls can raise, and those failures are modelled as Crash.
- `WarningApi.FetchWarnings` states more than the tests check.
  - It promises each record keeps exactly the upstream keys and values plus
    `_warning_type`. The tests check only single fields
    (tests/test_api.py:41-43 and 177-179).
  - The landslide and flood adapters are designed to also set `region_name`
    to the configured county name. The model adds no such key, so its
    exact-keys promise leaves that key out.
  - The MetAlerts response is taken to be a plain list of records, like the
    other adapters'. The tests read only `event` and `ActivityLevel`.
- `WarningApi.FetchWarnings` requires a non-avalanche adapter. The avalanche
  adapter's two-stage fetch is cut off by the corrupted text at
  tests/test_api.py:161, so its expected behaviour cannot be read off the
  tests. tests/test_api.py:200 (an undefined `warnings`) is also corrupted
  and not modelled.
- The adapter module itself (`custom_components/norway_alerts/api.py`) is not
  part of this model. Its behaviour is modelled from the tests.
  - `WarningApi.ExtractTimesFromTitle` therefore follows the test's example.
    It takes the first two RFC 3339 date-times (section 5.6 of RFC 3339) in
    order, each removed together with the ", " before it.
  - How the real helper treats other title layouts is not known.
- Coordinates are kept as literal text because floating point is not
  modelled. Float danger levels and field values are not modelled either.
- aiohttp's `response.json()` raises ContentTypeError when a response is not
  labelled `application/json`, and a decoding error on a body that is not
  JSON. In the scripts either error would end the run as Failed or Crash.
  Responses here carry an already parsed body and no content type, so these
  failures are not modelled.
- `str.isdigit`, `int()` and whitespace are modelled over ASCII only.
  `int()` strips every ASCII character `str.isspace()` accepts, including the
  information separators 0x1C-0x1F. The non-ASCII Unicode digits and spaces
  Python also accepts are not modelled.
- test_avalanche_attributes.py:63-113 is not valid Python: line 69 sits
  outside the `if`, and line 111 is a dangling `else`. The model keeps the
  probe (lines 21-61) and the field display (lines 94-110) as separate
  pieces and does not join them.
- A `DangerLevel` of None reaches `None > 0` in the `isdigit` scripts and
  raises TypeError, which ends the scan as Crash; the model does this.
- `add_more_padding.py` I/O is not modelled: the directory glob and its
  sort, reading and writing files, and base64 encoding. The files arrive as
  a sorted sequence of stems and contents, and `encode` stands for base64.
- custom_components/varsom/config_flow.py and generate_icon_data.py are not
  part of this model.
- `IconPadding.InsertViewBox` models the lazy `[^>]*?` match as the first
  `>` after `<svg`. A `<svg` without any later `>` is copied.
