# Handset detection, offline engine — a Dafny model

This project models the offline detection engine of the HandsetDetection
Ruby API kit: how a device is recognised from HTTP headers or from Android/iOS
build information against a local rule database, and how the result is
refined.

**Headers and the device match**
- Header names are lower-cased and header values are cleansed (`clean_str`, `extra_clean_str`).
- The device is matched in order by:
  - the exact probes on `x-operamini-phone`, `profile` and `x-wap-profile`;
  - the user-agent sieve over the device header order, extended with the request's `x-` headers;
  - the generic fallback subtree.

**Refining the result**
- The platform, browser, app and language records (the "Extras") are resolved, and the device's platform version is checked against them.
- Contention between high-accuracy candidates is settled by hardware ratings. The ratings come from the `w:h:r:b` hardware string.
- The Extras and the hardware properties are overlaid onto the detected specs.

**Around the detector**
- The list queries over all device records: vendors, models, view and what-has.
- The client-side helpers that shape a detection request:
  - server variables turned back into header names;
  - detect variables;
  - the choice of site id and request body.
- The in-process cache backend.

**Modules**

| module | file | what it holds |
|---|---|---|
| `RubyValues` | `ruby_values.dfy` | Ruby values, blankness, strings and integer parsing |
| `OrderedHash` | `ordered_map.dfy` | insertion-ordered hashes |
| `Normalise` | `normalise.dfy` | the two cleansers |
| `Records` | `records.dfy` | the rule store, records and the configuration tables |
| `BaseMatcher` | `base.dfy` | the matcher every detector object shares: `get_branch`, `get_match`, `has_bi_keys`, `set_error` |
| `PlatformVersion` | `version.dfy` | version splitting and comparison |
| `Extras` | `extra.dfy` | the `Extra` object |
| `Rating` | `rating.dfy` | the hardware string and `find_rating` |
| `Overlays` | `overlay.dfy` | the spec overlays |
| `Queries` | `queries.dfy` | the list queries, as functions |
| `DeviceSpecs` | `device_specs.dfy` | the detector as functions |
| `Detection` | `device.dfy` | the `Device` class, whose methods are proved against those functions |
| `Hd4Client` | `hd4.dfy` | the client helpers |
| `MemoryCache` | `memory.dfy` | the memory cache |

**How the model is written**
- Objects whose fields the source updates in place are classes:
  - `Base`, with the branch memo, the rule keys, the order lists, the reply and the error;
  - `Extra`;
  - `Device`, with the detection results and the two persisting header lists;
  - `Hd4`;
  - the cache table.
- Their loops are `while` loops with invariants.
- Each method's `ensures` ties the new state to a specification function.
- The properties are lemmas about those functions.
- An exception the Ruby code can raise (a missing record, a value without `downcase`, a comparison of a string with an integer) is the `Raised` outcome, not a precondition.

## Model

| member | source | states |
|---|---|---|
| Normalise.CleanStr | lib/handset_detection/base.rb:308-312 | the device key is exactly the lower-cased input characters that are printable ASCII and not in the device filter class, in order |
| Normalise.ExtraCleanStr | lib/handset_detection/base.rb:297-301 | the extras key is exactly the lower-cased printable, non-space characters, in order |
| Normalise.CleanStrIdempotent | lib/handset_detection/base.rb:308-312 | cleansing a device key again changes nothing |
| Normalise.ExtraCleanStrIdempotent | lib/handset_detection/base.rb:297-301 | cleansing an extras key again changes nothing |
| Normalise.CleanAfterExtraClean | lib/handset_detection/base.rb:297-312 | device-cleansing an extras key gives the device key of the original |
| Normalise.CleanStrCounts | lib/handset_detection/base.rb:308-312 | every kept character occurs as often as in the lower-cased input; every other character is gone |
| Normalise.ExtraCleanStrCounts | lib/handset_detection/base.rb:297-301 | the same for the extras cleanser, which keeps hyphens, dots and other punctuation |
| Records.Read | lib/handset_detection/store.rb:114-121 | a read finds the entry exactly when the key is stored with a non-blank entry |
| Records.FindDevice | lib/handset_detection/device.rb:414-416 | the device record is the entry under `Device_<id>` |
| Records.FindExtra | lib/handset_detection/extra.rb:84-86 | the Extra record is the entry under `Extra_<id>` |
| Records.LanguageLookup | lib/handset_detection/extra.rb:102-108 | a code found in the language table gives its full name; a missing code gives nothing |
| BaseMatcher.MatchSpec | lib/handset_detection/base.rb:484-522 | no match for a cleansed value under 4 characters or a missing branch; only the user-agent sieve records a rule key |
| BaseMatcher.FindMatchFirst | lib/handset_detection/base.rb:504-510 | the first match string occurring in the value wins; none occurring gives no match |
| BaseMatcher.FindInFiltersFirst | lib/handset_detection/base.rb:501-512 | the first filter that occurs and has an occurring match string wins |
| BaseMatcher.SieveFindFirst | lib/handset_detection/base.rb:500-513 | the hit of the first order that has one wins |
| BaseMatcher.MatchesWalk | lib/handset_detection/base.rb:504-510 | the loop over match strings computes FindMatch |
| BaseMatcher.FiltersWalk | lib/handset_detection/base.rb:501-512 | the loop over filters computes FindInFilters |
| BaseMatcher.SieveWalk | lib/handset_detection/base.rb:500-513 | the loop over orders computes SieveFind |
| BaseMatcher.FirstPlatformFirst | lib/handset_detection/base.rb:464-474 | the platform named is the first whose tuple is complete; none is named when no tuple is complete |
| BaseMatcher.SieveScanFindsFirstHit | lib/handset_detection/device.rb:384-390 | the header scan returns the node of the first filled header whose sieve node is truthy, and nothing when none is |
| BaseMatcher.Base.constructor | lib/handset_detection/base.rb:38-54 | a fresh matcher has an empty memo, empty rule keys, the configured orders and an empty reply |
| BaseMatcher.Base.GetBranch | lib/handset_detection/base.rb:529-537 | the branch is the store's; the memo keeps only what the store holds |
| BaseMatcher.Base.GetMatch | lib/handset_detection/base.rb:484-522 | the node, rule key and memo are those of MatchSpec |
| BaseMatcher.Base.ScanHeaders | lib/handset_detection/extra.rb:67-75 | the scan against the live state leaves the node, rule keys and memo of SieveScan |
| BaseMatcher.Base.HasBiKeys | lib/handset_detection/base.rb:456-475 | the counting loop answers as HasBiKeysSpec: nothing for agent/user-agent, else the first complete platform |
| BaseMatcher.Base.SetError | lib/handset_detection/base.rb:285-290 | records message and status in the reply; true exactly for status 0 |
| PlatformVersion.BreakVersionApart | lib/handset_detection/extra.rb:185-192 | always three non-blank, dot-free parts |
| PlatformVersion.BreakThreeParts | lib/handset_detection/extra.rb:185-192 | "a.b.c" splits back into a, b, c |
| PlatformVersion.BreakMajorOnly | lib/handset_detection/extra.rb:185-192 | a missing minor and point release read as "0" |
| PlatformVersion.BreakTwoParts | lib/handset_detection/extra.rb:185-192 | a missing point release reads as "0" |
| PlatformVersion.CompareSmartlyAntisymmetric | lib/handset_detection/extra.rb:200-206 | swapping the parts negates the comparison; a part equals itself |
| PlatformVersion.ComparePlatformVersionsAntisymmetric | lib/handset_detection/extra.rb:214-225 | swapping the versions negates the comparison; a version equals itself |
| PlatformVersion.ComparePlatformVersionsLexicographic | lib/handset_detection/extra.rb:214-225 | versions compare by their first differing release part |
| PlatformVersion.ComparePlatformVersionsNotTransitive | lib/handset_detection/extra.rb:200-225 | "2" < "10" < "1a" < "2": the order is not transitive |
| PlatformVersion.MinorReleaseOrder | test/test_extra.rb:6-21 | 9.0.1 is before 9.1 and 9.1 after 9.0.1 |
| PlatformVersion.PointReleaseOrder | test/test_extra.rb:36-39 | 4.2.1 is before 4.2.12 |
| PlatformVersion.MajorReleaseOrder | test/test_extra.rb:48-51 | 4.0.21 is before 40.21 |
| PlatformVersion.WholeNumberVersionOrder | test/test_extra.rb:54-63 | 4.1.1 is before 411, and 411 after 4.1.1 |
| Extras.ExtendOrderSpec | lib/handset_detection/extra.rb:61-66 | the old order stays a prefix; every x- header is added; nothing else is |
| Extras.ExtendOrderDistinct | lib/handset_detection/extra.rb:61-66 | appending never repeats a name |
| Extras.FirstCode | lib/handset_detection/extra.rb:116-122 | the code found is in the table and delimited in the agent; none found means no code is |
| Extras.LanguageScanSpec | lib/handset_detection/extra.rb:111-124 | a scanned hit is a table code delimited in some filled header; a miss means no filled header holds one |
| Extras.VerifyPlatformFalseIff | lib/handset_detection/extra.rb:137-175 | a device is ruled out iff it ships the detected platform and the detected version lies outside its non-blank minimum or maximum |
| Extras.VerifyPlatformKeepsExactRange | lib/handset_detection/extra.rb:137-175 | a device whose range is exactly the detected version is kept |
| Extras.Extra.constructor | lib/handset_detection/extra.rb:30-35 | a new Extra holds a fresh matcher over the store and no platform |
| Extras.Extra.Set | lib/handset_detection/extra.rb:48-50 | the platform record is replaced |
| Extras.Extra.MatchExtra | lib/handset_detection/extra.rb:57-77 | profile is deleted, the order is extended with the x- headers, and the record of the first truthy sieve node is returned |
| Extras.Extra.MatchLanguage | lib/handset_detection/extra.rb:93-126 | the language Extra of the direct table hit, else of the first scanned hit, else none |
| Extras.ExtendWalk | lib/handset_detection/extra.rb:61-66 | the loop computes ExtendOrder |
| Extras.FirstCodeWalk | lib/handset_detection/extra.rb:116-122 | the loop computes FirstCode |
| Extras.LanguageWalk | lib/handset_detection/extra.rb:101-124 | the loops compute LanguageSpec |
| Rating.InfoStringRoundTrip | lib/handset_detection/device.rb:306-324 | a written "w:h:r:b" string is read back as its four integers |
| Rating.InfoStringNamedRoundTrip | lib/handset_detection/device.rb:306-324 | the same string after "name=" is read the same way |
| Rating.InfoNeedsThreeColons | lib/handset_detection/device.rb:317-318 | fewer than three ':' gives the empty hash |
| Rating.FindRating | lib/handset_detection/device.rb:191-257 | no rating without specs; the score is the sum of the three parts out of 70 |
| Rating.RatingScoreRange | lib/handset_detection/device.rb:201-247 | resolution is 0 or 40, ratio 20 or 40, benchmark 0 or 10, so the score lies in 20..90 |
| Rating.NativeResolutionEitherWay | lib/handset_detection/device.rb:202-209 | integer dimensions score 40 whichever way round the props give them |
| Rating.TextualDimensionsMiss | lib/handset_detection/device.rb:203-207 | example, one input: 1280x720 stored as strings does not score its own resolution |
| Rating.TextualCssSizeMisses | lib/handset_detection/device.rb:214-223 | example, one input: the css size "1024x768" never matches a 1024x768 display |
| Rating.RatioExamples | lib/handset_detection/device.rb:231 | examples, two inputs: "1.5" reads as 150 hundredths and "2" as 200 |
| Rating.BenchmarkInclusive | lib/handset_detection/device.rb:237-245 | the benchmark bounds are inclusive |
| Rating.BestFromRanked | lib/handset_detection/device.rb:615-621 | the scan keeps a candidate no other outranks |
| Rating.BestIsBestRanked | lib/handset_detection/device.rb:615-624 | the head of the sorted ratings is best-ranked |
| Rating.PickBest | lib/handset_detection/device.rb:615-624 | the loop picks Best, which is best-ranked |
| Rating.OutranksStrictOrder | lib/handset_detection/device.rb:615-621 | the sort order is irreflexive, asymmetric and transitive |
| Overlays.SpecsOverlay | lib/handset_detection/device.rb:264-295 | id and ops kept; no field outside the kind's own is written |
| Overlays.HardwareInfoOverlay | lib/handset_detection/device.rb:332-339 | id and ops kept |
| Overlays.PlatformOverlayEffect | lib/handset_detection/device.rb:266-275 | a full platform replaces name and version; a new name alone clears the version; otherwise nothing changes |
| Overlays.PlatformOverlayNames | lib/handset_detection/device.rb:266-275 | a named platform is the device's afterwards |
| Overlays.NamedOverlayEffect | lib/handset_detection/device.rb:276-291 | browser, app and language fields are copied exactly when the Extra names one |
| Overlays.LanguageOverlaySetsBoth | lib/handset_detection/device.rb:287-291 | the language Extra sets code and full name |
| Overlays.HardwareOverlayEffect | lib/handset_detection/device.rb:332-339 | exactly display_x, display_y and the pixel ratio are written |
| Overlays.HardwareOverlayIdempotent | lib/handset_detection/device.rb:332-339 | overlaying the same hardware twice is overlaying it once |
| Queries.InsertSortedSpec | lib/handset_detection/device.rb:104-105 | insertion keeps the list strictly ascending and adds exactly x |
| Queries.SortUniqSpec | lib/handset_detection/device.rb:104-105 | sort and uniq give the distinct inputs in ascending order |
| Queries.SortedDistinctStrings | lib/handset_detection/device.rb:75-76 | over strings: sorted, no repeats, exactly the inputs |
| Queries.SortedDistinctInts | lib/handset_detection/device.rb:104-105 | over integers: ascending, no repeats, exactly the inputs |
| Queries.SortedDistinctSpec | lib/handset_detection/device.rb:104-105 | sort! and uniq answer iff the values are all strings, all integers or one repeated value; the answer is sorted and holds exactly the values given |
| Queries.VendorsOf | lib/handset_detection/device.rb:72-74 | one general_vendor per record, in order |
| Queries.LocalVendorsSorted | lib/handset_detection/device.rb:66-78 | the vendor list is sorted, distinct, and names exactly the records' vendors |
| Queries.LocalVendorsExactly | lib/handset_detection/device.rb:66-78 | an answer iff the vendors can be ordered; it is sorted and names exactly the records' vendors |
| Queries.IndexOf | lib/handset_detection/device.rb:99 | the first position of the pattern, none when it does not occur |
| Queries.AliasWalk | lib/handset_detection/device.rb:97-102 | the alias loop computes AliasModels |
| Queries.RecordModels | lib/handset_detection/device.rb:93-102 | one record's loop body computes ModelsOfRecord |
| Queries.ModelsIncludeOwnModel | lib/handset_detection/device.rb:92-95 | a record with the vendor contributes its model to the unsorted list (LocalModelsExactly states the answer) |
| Queries.AliasModelsHas | lib/handset_detection/device.rb:97-102 | a value comes from the aliases iff some alias starts with the key ignoring case and the value is that alias with the key removed |
| Queries.RecordModelsHas | lib/handset_detection/device.rb:92-102 | a record lists exactly its own model when the vendor matches and the models its aliases name |
| Queries.ModelsOfAllHas | lib/handset_detection/device.rb:91-103 | the unsorted list holds exactly the models some record lists |
| Queries.LocalModelsExactly | lib/handset_detection/device.rb:85-107 | an answer iff every record can be read and sort! can order the models; it is sorted (strictly, for strings) and a value is in it iff some record lists it for the down-cased vendor |
| Queries.AliasCaseKept | lib/handset_detection/device.rb:96-100 | an alias starting "Samsung " under vendor "samsung" is listed whole |
| Queries.LocalViewFirst | lib/handset_detection/device.rb:115-129 | the specs shown are of the first record matching vendor and model ignoring case; nothing found means none matches |
| Queries.ListHas | lib/handset_detection/device.rb:146-151 | a list matches iff one of its strings contains the value ignoring case; a non-string raises |
| Queries.PropertyOf | lib/handset_detection/device.rb:144-154 | the per-record test computes HasProperty |
| Queries.LocalWhatHasExactly | lib/handset_detection/device.rb:137-164 | every record having the property is listed, every entry listed is a record having it, and no more entries than records |
| DeviceSpecs.NormaliseHeader | lib/handset_detection/device.rb:545-560 | a language header is stored as 'language' or skipped; every other header under its lower-cased name |
| DeviceSpecs.AbsorbNames | lib/handset_detection/device.rb:545-563 | the lists keep every old name, gain every produced name, and nothing else |
| DeviceSpecs.AbsorbCleansed | lib/handset_detection/device.rb:561-562 | every stored value stays cleansed |
| DeviceSpecs.AbsorbLastWins | lib/handset_detection/device.rb:545-563 | the last header producing a name decides its stored value |
| DeviceSpecs.LanguageHeaderKeepsFirstCode | lib/handset_detection/device.rb:547-554 | a language header is stored as its first code |
| DeviceSpecs.PlusDecoding | lib/handset_detection/device.rb:555-559 | a '+'-encoded value gets its spaces back, except in the profile headers |
| DeviceSpecs.ProbeStepHeaders | lib/handset_detection/device.rb:357-376 | a probe deletes at most its own header |
| DeviceSpecs.MatchDeviceHeaders | lib/handset_detection/device.rb:353-407 | match_device deletes at most the three probed headers |
| DeviceSpecs.MatchDeviceOrder | lib/handset_detection/device.rb:379-382 | the device order only grows, by x- header names |
| DeviceSpecs.MatchDeviceKeys | lib/handset_detection/device.rb:353-407 | only the 'device' rule key is recorded |
| DeviceSpecs.UaStageFirstHitWins | lib/handset_detection/device.rb:384-390 | the first header of the extended order with a truthy node decides the device |
| DeviceSpecs.UaStageFallsBackToGeneric | lib/handset_detection/device.rb:395-406 | without a standard hit, the generic subtree's non-blank node names the device |
| DeviceSpecs.LowerNamesAreLower | lib/handset_detection/device.rb:174 | every header name is lower case afterwards |
| DeviceSpecs.LowerNamesFinds | lib/handset_detection/device.rb:174 | every header is found under its lower-cased name |
| DeviceSpecs.DetectHeaders | lib/handset_detection/device.rb:172-176 | the matched headers no longer hold x-local-hardwareinfo |
| DeviceSpecs.AgentMeansHttp | lib/handset_detection/device.rb:171-183 | a request with Agent or User-Agent in any case is never matched by build info |
| DeviceSpecs.TupleValue | lib/handset_detection/device.rb:480-491 | a tuple composes iff every key but hd-platform is present |
| DeviceSpecs.TrimBi | lib/handset_detection/device.rb:493-494 | the trimmed value starts and ends with no trimmed character |
| DeviceSpecs.BiHelperIdsNonBlank | lib/handset_detection/device.rb:472-517 | the id v4_match_bi_helper looks up is never blank |
| DeviceSpecs.IncompleteTuplesSkipped | lib/handset_detection/device.rb:482-492 | incomplete tuples cause no lookup |
| DeviceSpecs.TwoKeyValue | lib/handset_detection/device.rb:480-494 | two keys compose to "a\|b" after the trim |
| DeviceSpecs.IosPlatformTupleUnreachableAsWritten | lib/handset_detection/base.rb:74-76 | the iOS platform tuple as written never composes after local_detect's lower-casing |
| DeviceSpecs.IosPlatformTupleReachable | lib/handset_detection/base.rb:74-76 | with the key in lower case it composes from the request's keys in any case |
| DeviceSpecs.Candidates | lib/handset_detection/device.rb:652-659 | agrees with the code as written whenever rule keys exist; nil rule keys give no candidates |
| DeviceSpecs.HelperAfterBuildInfo | lib/handset_detection/device.rb:652-659 | after build info the code as written raises, the corrected one answers none |
| DeviceSpecs.PlatformPassExactly | lib/handset_detection/device.rb:593-600 | raises iff a candidate has no record; otherwise keeps exactly the passing ids |
| DeviceSpecs.RateAll | lib/handset_detection/device.rb:604-612 | no more ratings than candidates |
| DeviceSpecs.RateAllSound | lib/handset_detection/device.rb:604-612 | each rating is a listed id's find_rating |
| DeviceSpecs.OverlayExtras | lib/handset_detection/device.rb:633-636 | id and ops kept |
| DeviceSpecs.PlatformSurvivesOverlays | lib/handset_detection/device.rb:633-636 | the platform overlay's name survives the later overlays |
| DeviceSpecs.BuildInfoDetects | lib/handset_detection/device.rb:438-465 | a build-info detection is a stored record under a non-blank id that runs the platform the platform Extra names |
| DeviceSpecs.ExtrasDropProfileOnly | lib/handset_detection/device.rb:583-586 | the extras delete only 'profile' and leave the language and device orders alone |
| DeviceSpecs.ContentionSettles | lib/handset_detection/device.rb:589-631 | the device stays, or is the best-ranked passing candidate with a non-zero score |
| DeviceSpecs.FinalDevice | lib/handset_detection/device.rb:632-641 | id and ops kept |
| DeviceSpecs.FinalKeepsPlatform | lib/handset_detection/device.rb:632-641 | the hardware overlay keeps the detected platform |
| DeviceSpecs.SettleSpec | lib/handset_detection/device.rb:568-645 | success is always true with a device; Extras are skipped exactly on stop-on-detect |
| DeviceSpecs.SettleKeepsIdentity | lib/handset_detection/device.rb:568-645 | the device has the id and ops of the match or of a stored winner, and runs the detected platform |
| Detection.LowerWalk | lib/handset_detection/device.rb:174 | the loop computes LowerNames |
| Detection.TupleWalk | lib/handset_detection/device.rb:482-491 | the loop computes TupleValue |
| Detection.Device.constructor | lib/handset_detection/device.rb:32-45 | no detection yet and empty header lists; fresh matchers |
| Detection.Device.NormaliseHeaders | lib/handset_detection/device.rb:545-563 | both lists are Absorb of the headers |
| Detection.Device.Probe | lib/handset_detection/device.rb:357-376 | one probe is ProbeStep |
| Detection.Device.GenericMatch | lib/handset_detection/device.rb:395-403 | the generic tries are GenericTries |
| Detection.Device.GenericTry | lib/handset_detection/device.rb:395-403 | one try: a blank node and a present header lead to a sieve match in the generic subtree, anything else leaves node, keys and memo as they were |
| Detection.Device.MatchDevice | lib/handset_detection/device.rb:353-407 | device, headers, order, memo and rule keys are those of MatchDeviceSpec |
| Detection.Device.HighAccuracyCandidates | lib/handset_detection/device.rb:652-659 | the entry under the device rule key, as CandidatesAsWritten: a missing branch or nil rule keys raise |
| Detection.Device.PassPlatform | lib/handset_detection/device.rb:593-600 | the loop computes PlatformPass |
| Detection.Device.RateCandidates | lib/handset_detection/device.rb:604-612 | the loop computes RateAll |
| Detection.Device.Contend | lib/handset_detection/device.rb:593-630 | the device and ratings become those of ContentionSpec |
| Detection.Device.Contention | lib/handset_detection/device.rb:589-631 | the device and ratings become those of CandidatesSettle |
| Detection.Device.MatchExtras | lib/handset_detection/device.rb:583-586 | the four Extras and the state are ExtrasSpec |
| Detection.Device.ExtraStepOn | lib/handset_detection/device.rb:583-585 | one match_extra on the persisting extra headers gives ExtraStep's Extra and state |
| Detection.Device.BiTuples | lib/handset_detection/device.rb:478-503 | the loop computes BiScanTuples |
| Detection.Device.BiOrderScan | lib/handset_detection/device.rb:478-503 | the walk over the bi-order platforms computes BiScanOrder |
| Detection.Device.BiGenericScan | lib/handset_detection/device.rb:505-514 | the walk over the generic values computes BiGeneric |
| Detection.Device.BiHelper | lib/handset_detection/device.rb:472-517 | the id and memo are BiHelperSpec's, over the bi-order tables as written |
| Detection.Device.BiLookups | lib/handset_detection/device.rb:453-461 | the device and overlaid platform are BuildInfoSpec's, for non-blank build info, over the tables as written |
| Detection.Device.V4MatchBuildInfo | lib/handset_detection/device.rb:438-465 | the state after is BuildInfoSpec's detection over the tables as written, with nil rule keys, and the error "OK" exactly on a detection |
| Detection.Device.Settle | lib/handset_detection/device.rb:568-645 | the state after is SettleSpec's |
| Detection.Device.Resolve | lib/handset_detection/device.rb:582-645 | the state after is SettleSpec's, without stop-on-detect |
| Detection.Device.Finish | lib/handset_detection/device.rb:589-645 | after the Extras: a raise when contention raises, else the final device over the contention winner, its ratings and an OK reply |
| Detection.Device.Conclude | lib/handset_detection/device.rb:565-645 | a miss answers false with 301 "Not Found"; a match settles as SettleSpec |
| Detection.Device.Overlay | lib/handset_detection/device.rb:632-641 | the device becomes FinalDevice |
| Detection.Device.Crown | lib/handset_detection/device.rb:632-644 | the device becomes FinalDevice and the reply is OK with its specs |
| Detection.Device.V4MatchHttpHeaders | lib/handset_detection/device.rb:528-645 | blank headers answer false; otherwise ip/host are dropped and the match settles as MatchDeviceSpec and SettleSpec |
| Detection.Device.MatchHeaders | lib/handset_detection/device.rb:541-645 | the stages after the blank check are Matched |
| Detection.Device.LocalDetect | lib/handset_detection/device.rb:171-184 | build info (the tables as written) when has_bi_keys names a platform, HTTP headers otherwise; true iff a device is detected |
| Detection.Device.DetectStripped | lib/handset_detection/device.rb:669-672 | local_detect on the headers after `ip` and `host` are deleted; the new state is DetectionFrom the prior state, that is the build-info or HTTP outcome LocalDetect states |
| Detection.Device.Usefulness | lib/handset_detection/device.rb:674-677 | whether hachecks holds candidates for the device rule key, raising as CandidatesAsWritten does; only the hachecks memo changes, so the detection outcome still holds |
| Detection.Device.IsHelperUseful | lib/handset_detection/device.rb:666-679 | false for blank headers; otherwise runs local_detect on the headers without `ip` and `host`, with the build-info or HTTP outcome stated as LocalDetect states it; then true iff a device is detected and candidates exist; raises after a build-info detection |
| Detection.Device.LocalVendors | lib/handset_detection/device.rb:66-78 | 299 when the store cannot list; else the vendor reply of LocalVendorsSpec (strings or integers sorted), or raises |
| Detection.Device.LocalModels | lib/handset_detection/device.rb:85-107 | 299 when the store cannot list; else the model reply of LocalModelsSpec (strings or integers sorted), or raises |
| Detection.Device.LocalView | lib/handset_detection/device.rb:115-129 | 299 when the store cannot list; the first matching specs, or 301 "Nothing found" |
| Detection.Device.LocalWhatHas | lib/handset_detection/device.rb:137-164 | 299 when the store cannot list; else the devices of LocalWhatHasSpec, the old reply kept |
| Hd4Client.HeaderNameOfMetaVariable | lib/handset_detection/hd4.rb:256 | a canonical header name survives the server's HTTP_ renaming: HTTP_USER_AGENT comes back as User-Agent |
| Hd4Client.ServerHeadersUntouched | lib/handset_detection/hd4.rb:253-259 | a name no copied HTTP_ variable produces keeps its value; non-HTTP_ variables are never copied |
| Hd4Client.ServerHeadersCopies | lib/handset_detection/hd4.rb:253-259 | a copied variable that nothing later overwrites ends up under its header name |
| Hd4Client.Hd4.constructor | lib/handset_detection/hd4.rb:43-54 | an empty detect request and the configured site id |
| Hd4Client.Hd4.SetServerHeaders | lib/handset_detection/hd4.rb:253-259 | the detect request becomes the fold ServerHeaders over the environment |
| Hd4Client.Hd4.SetDetectVar | lib/handset_detection/hd4.rb:123-125 | the value is stored under the lower-cased key; every other entry is kept |
| Hd4Client.Hd4.DetectSelection | lib/handset_detection/hd4.rb:329-331 | the id is data's non-blank id or the site id; id is removed; an empty remainder uses the detect request |
| MemoryCache.Lookup | lib/handset_detection/cache/memory.rb:44-48 | a hit iff the key is present and its expiry is not passed, with its data |
| MemoryCache.Table.constructor | lib/handset_detection/cache/memory.rb:72-74 | the shared table starts empty |
| MemoryCache.Memory.constructor | lib/handset_detection/cache/memory.rb:37-40 | a cache object uses the shared table |
| MemoryCache.Memory.Get | lib/handset_detection/cache/memory.rb:44-48 | the data iff the entry exists and now ≤ expiry; the table is not changed |
| MemoryCache.Memory.Set | lib/handset_detection/cache/memory.rb:52-55 | stores [data, now + ttl], overwriting, and answers true |
| MemoryCache.Memory.Del | lib/handset_detection/cache/memory.rb:59-62 | removes the key, present or not, and answers true |
| MemoryCache.Memory.Flush | lib/handset_detection/cache/memory.rb:65-68 | empties the table and answers true |
| MemoryCache.SetThenGet | lib/handset_detection/cache/memory.rb:44-55 | after a set the data is read up to and including now + ttl, and not after |
| MemoryCache.SetKeepsOthers | lib/handset_detection/cache/memory.rb:52-55 | a set leaves every other key as it reads |
| MemoryCache.SetOverwrites | lib/handset_detection/cache/memory.rb:52-55 | a later set replaces an earlier one |
| MemoryCache.DelThenGet | lib/handset_detection/cache/memory.rb:44-62 | after a delete the key reads as missing and other keys are unaffected |

## Left out

**Outside the model**
- Network access is left out: the cloud API, remote syslog and archive download and install. The store's own persistence is left out too.
- The Cache facade and the FileSystem, Memcached and None cache backends are left out.
- `fetch_devices` is not run. Its result is the `data` parameter of the list queries, with `None` when the store cannot list.
- The request-caching branch of `device_detect` (hd4.rb:335-344, 363-365) is left out. Its first line writes into a `headers` hash that is never defined there. On a cache miss, `reply` is the local the failed read left nil, and that nil is what gets cached.
- The rest of `device_detect` and the cloud calls are left out.

**Ruby features not modelled**
- The pixel ratio is modelled in integer hundredths, not floating point.
- `Integer()` accepts only plain decimal digit strings. The hex, binary, octal-prefix and underscore forms are left out.
- Case mapping is ASCII only: there is no Unicode case folding.
- Ruby's `^` and `$` are line anchors. The model reads them as whole-string anchors and covers single-line values only. This affects the build-info trim of device.rb:493-494, which uses both `^` and `$`: for a value with an embedded newline, Ruby also strips the characters before each newline, and DeviceSpecs.TrimBi does not.
- The memory cache's `thread_safe` option and the ThreadSafe hash are left out (memory.rb:38, 72-80). The table is the plain shared hash.
- Memory.Get answers `None` for a miss. A stored `nil` reads as `Some` of that value, where Ruby cannot tell it apart from a miss.

**Aliasing and mutation modelled on values**
- Device and Extra records are values. The file store hands out fresh copies, so the overlays are functions and no record aliasing is modelled.
- In the source, `is_helper_useful` and `device_detect` delete keys from the caller's own hash. `match_extra` deletes `profile` from `@extra_headers`. The model deletes from a value and, where the state persists, assigns it back. Deletion from a hash the caller still holds is not modelled. Nor is the in-place `value.gsub!('+', ' ')` of the header loop (device.rb:557), which rewrites the caller's own header string.
- The store's entries have fixed shapes: record, sieve branch or table branch. A branch of the wrong shape for the lookup reads as "no branch". The source would raise or behave oddly.

**Weaker or narrower contracts**
- Rating.PickBest: `sort!` leaves the order among exact ties unspecified. The model picks the earliest candidate among ties. Only "a best-ranked candidate" is promised.
- Detection.Device.BiHelper: returns the id it looks up; the record is read by the caller. The subtree and `find_by_id` choice per category is kept.
- Hd4Client.Hd4.SetServerHeaders: the environment is an insertion-ordered hash of strings. A non-string value is not modelled.
- Queries.SortedDistinct: orders strings and integers. Distinct arrays, which Ruby compares element by element, and floats are not modelled, and such a list raises in the model.
- DeviceSpecs.TrimBi: trims the whole string, for single-line values. Ruby's `^` and `$` in device.rb:493-494 also trim around every embedded newline.
- Detection.Device.LocalVendors: when `sort!` raises, the source has already stored the unsorted `uniq` list in the reply. The model leaves the reply empty.

**Where the code behaves other than its names and comments suggest** (the model follows the code, including the two defects under Findings)
- Build-info values do not go through the sieve. The comment at base.rb:478 speaks of "user-agent type headers". But only the literal header name `user-agent` takes the sieve branch (base.rb:498). The build-info calls pass `buildinfo` (device.rb:497, 510), so they take the exact lookup of base.rb:514-520.
- The device cleanser is called a "standard string cleanse" (base.rb:303). Its filter at base.rb:42 also removes `-`. Both cleansers keep 0x7F (DEL), because their character class runs to `\x7F` (base.rb:299, 310).
- `compare_platform_versions` reads as an ordering (extra.rb:211-225). Each part compares as an integer difference when both parts parse, and by string `<=>` otherwise (extra.rb:200-206). So the comparison is not transitive once a part is not an integer (PlatformVersion.ComparePlatformVersionsNotTransitive).
- The generic fallback of `match_device` passes `agent` as the `actual_header` argument (device.rb:395-403). `get_match` never reads that argument (base.rb:484-521). The header is `user-agent`, so the rule key it records starts with `useragent:`, since `clean_str` removes the `-`.
- `local_what_has` (device.rb:137-164) does not reset the reply first. The other list queries do (device.rb:67, 86, 116). Detection.Device.LocalWhatHas keeps the old reply.

## Findings

| source | as written | input that shows it | evidently intended | confidence | as-written member | corrected member |
|---|---|---|---|---|---|---|
| lib/handset_detection/base.rb:75 | the iOS platform-bi-order tuple names `uidevice.systemName` with a capital N | any iOS build-info request holding `uidevice.systemName` and `uidevice.systemversion`, whose names `local_detect` lower-cases | the key in lower case, so the iOS platform is resolved from build info | medium, not executed | DeviceSpecs.IosPlatformTupleUnreachableAsWritten | DeviceSpecs.IosPlatformTupleReachable |
| lib/handset_detection/device.rb:654 | `@detected_rule_key['device']` after a build-info detection, which set `@detected_rule_key = nil` (device.rb:443) | `is_helper_useful` on build-info headers that detect a device, with a `hachecks` branch in the store | no candidates (`false`) instead of a NoMethodError on nil | high, not executed | DeviceSpecs.HelperAfterBuildInfo | DeviceSpecs.Candidates |

The detector runs both lines as written: BiOrderFor hands it the upper-case iOS tuple, and HighAccuracyCandidates, IsHelperUseful and the settling step read the candidates through CandidatesAsWritten. The corrected definitions stand beside them with their intended properties proved.
