# cbc-weather in Dafny

This project models the computational core of cbc-weather, a browser tool for Christmas Bird Count compilers. The tool does several things:

- It finds a count circle by name or code.
- It shows the forecast and a daily summary strip.
- It locates the nearest METAR-reporting station near a circle.
- It folds that station's observations for the count day into a prefill patch for the count-day report form.

Two side programs are also modelled:

- a build script that pages through the circle layer and writes the dataset;
- a small Cloudflare Worker that proxies the aviation weather data API with a tight CORS policy.

The model has one module per source file:

- `AviationWeather`: `src/lib/aviationWeather.js`
- `CountDayForm`: `src/components/CountDayForm.jsx`
- `MapPane`: `src/components/MapPane.jsx`
- `Geo`: `src/lib/geo.js`
- `App`: `src/App.jsx`
- `SummaryTable`: `src/components/SummaryTable.jsx`
- `DownloadCbc`: `scripts/download_cbc_126_geojson.mjs`
- `Worker`: `cloudflare-worker/src/index.js`

Shared modules hold the JavaScript notions the source relies on:

- `Js`: dynamically typed values, `Number()`, `??`, `||`, `Math.round` and `%`.
- `Text`: trimming, ASCII case mapping, `includes`/`indexOf`, and decimal digits.
- `Civil`: the ECMA-262 time-value calendar behind `Date.UTC` and `toISOString`.
- `Sorting`: a stable comparator sort.
- `WeatherCodes`: the WMO code groups the two code tables share.
- `Wrappers`: `Option`.

Each code form maps onto a Dafny form:

- Pure code is modelled as functions with lemmas.
- A loop that pushes into arrays or updates objects in place is a method with a loop. The method is proved equal to a specification function, and the source's promises are proved about that function:
  - the METAR fold;
  - `buildUrl`'s parameter loop;
  - `pick`;
  - the station loop;
  - the auto-locate argmin;
  - `mergePrefillIntoForm`;
  - the search scoring loop;
  - `plotForecast`'s index loop;
  - `dropFields`;
  - the feature loop and the page offsets of the build script;
  - `withCors`.

The model follows the code as written, including these behaviours worth knowing:

- `cloudCategoryFromMetar` tests BCFG before FG, so a Local Fog report wins over Foggy within one observation. `worstCloud`, however, ranks "Foggy" (6) above "Local Fog" (5), so a half-day with both reads Foggy.
- `intensityFromWx` looks for `+` in the whole weather text, so light snow with heavy rain is heavy snow (`AviationWeather.PlusAppliesToWholeText`).
- `mergePrefillIntoForm` is idempotent only when the starting cloud fields are canonical, blank or missing. An unrecognised cloud text is normalised to "Unknown" by the first merge and can then be filled by the second (`CountDayForm.MergeTwice`, `CountDayForm.MergeTwiceCounterexample`).
- The word-prefix tier of `scoreMatch` (`120 + position`) can never be reached. Any word that starts with the lowered needle also makes the normalised needle a substring of the normalised text, and the code checks the substring tier first (`App.WordPrefixOccurs`, `App.ScoreMatchMeaning`).
- A three-digit year in `M/D/Y` text is kept as it is, not read as a full year (`MapPane.ThreeDigitYear`).

## Model

| member | source | states |
|---|---|---|
| AviationWeather.QueryOf | src/lib/aviationWeather.js:22-27 | The query has at most one entry per parameter. Each entry has a parameter's key and a value that is not blank. |
| AviationWeather.QueryMembers | src/lib/aviationWeather.js:22-27 | A pair (k, s) is in the query exactly when some parameter has key k and a present value that trims to the non-blank s. So every present, non-blank parameter is included with its trimmed value, and nothing else is. |
| AviationWeather.QueryAppend | src/lib/aviationWeather.js:22-27 | The query of two runs of parameters is the first run's query followed by the second's, so the order of the parameters is kept. |
| AviationWeather.BuildQuery | src/lib/aviationWeather.js:20-29 | The `searchParams.set` loop over distinct keys produces exactly the filtered, trimmed query. |
| AviationWeather.ApproxUtcOffsetHoursFromLon | src/lib/aviationWeather.js:45-50 | The offset is the whole number nearest lon/15. It is 0 when the longitude is not a finite number. |
| AviationWeather.OffsetOfMeridian | src/lib/aviationWeather.js:45-50 | A zone's central meridian 15k gives offset k. The half-way longitude 15k+7.5 rounds up to k+1, and null reads as 0. |
| AviationWeather.CToF | src/lib/aviationWeather.js:52-56 | A value comes back exactly when `Number(c)` is finite, and converting it back to Celsius gives that number. |
| AviationWeather.KtToMph | src/lib/aviationWeather.js:58-62 | A value comes back exactly when `Number(kt)` is finite. It keeps the sign of the knots, and dividing it by 1.15078 gives the knots back. |
| AviationWeather.ClampToDayLocal | src/lib/aviationWeather.js:64-75 | An hour comes back exactly when the observation time is a finite number, the date text is `YYYY-MM-DD`, and the local time lies within the 24 hours after local midnight. The hour is in [0, 24) and is the whole hour containing that time. |
| AviationWeather.ClampDayEdges | src/lib/aviationWeather.js:70-73 | Local midnight is hour 0, and the last second of the day is hour 23. One second before midnight and midnight of the next day are refused. |
| AviationWeather.ClampMorning | src/lib/aviationWeather.js:73 | The hour is below 12 exactly when the observation falls before local noon. |
| AviationWeather.DayStartIsCalendarMidnight | src/lib/aviationWeather.js:68-69 | For a real calendar date, `Date.UTC(y, m - 1, d)` is the time value whose UTC fields read y, m and d at 00:00:00.000. |
| AviationWeather.IntensityFromWx | src/lib/aviationWeather.js:77-104 | The result is one of the four levels: "None" for empty weather text, "Unknown" exactly for an unknown code with non-empty text, and "Heavy" only when the text contains "+". |
| AviationWeather.CodeListsReduce | src/lib/aviationWeather.js:85-101 | The longer rain and snow codes contain the short ones, so the tests reduce to RA or DZ for rain and SN or SG for snow. |
| AviationWeather.KindIntensity | src/lib/aviationWeather.js:85-101 | For rain (RA or DZ) and for snow (SN or SG): Heavy when the text has one of the kind's codes and "+", Light when it has one and no "+", and None exactly when it has none. |
| AviationWeather.PlusAppliesToWholeText | src/lib/aviationWeather.js:82-99 | "-SN +RA" gives heavy snow. |
| AviationWeather.RankDescPreorder | src/lib/aviationWeather.js:124 | The comparator `rank(b) - rank(a)` is a total preorder, so the sort is well defined. |
| AviationWeather.CoversOf | src/lib/aviationWeather.js:111-112 | The covers are the non-empty texts of the layers, at most one per layer. |
| AviationWeather.FirstWorst | src/lib/aviationWeather.js:115-124 | This is the position of the first cover of the highest rank. No cover outranks it, and every earlier cover ranks strictly lower. |
| AviationWeather.SortHeadIsFirstWorst | src/lib/aviationWeather.js:124 | The head of the stable descending sort is the first cover of the highest rank. |
| AviationWeather.CloudCategoryFromMetar | src/lib/aviationWeather.js:106-133 | The category is always one of the seven cloud labels. |
| AviationWeather.CategoryOfCoverByRank | src/lib/aviationWeather.js:127-132 | Naming the worst cover by its code agrees with naming it by its rank. |
| AviationWeather.CloudCategoryByRank | src/lib/aviationWeather.js:106-133 | The category is decided in this order: BCFG gives Local Fog, then FG gives Foggy, and no covers gives Clear. Otherwise the label of the worst cover's rank is used. |
| AviationWeather.LocalFogDespiteFg | src/lib/aviationWeather.js:108-109 | A BCFG text is Local Fog even though it also contains FG. |
| AviationWeather.UnrankedCoversAreUnknown | src/lib/aviationWeather.js:111-133 | Without fog, layers that are all unranked give Unknown. No layers at all give Clear. |
| AviationWeather.CloudRank | src/lib/aviationWeather.js:136-146 | Ranks lie in [0, 6], and an unlisted label ranks 0. |
| AviationWeather.CloudRankInjective | src/lib/aviationWeather.js:136-144 | Two different labels never share a rank. |
| AviationWeather.WorstCloud | src/lib/aviationWeather.js:135-148 | The result is one of the two labels, its rank is the larger of the two ranks, and a tie returns `a`. |
| AviationWeather.WorstCloudLaws | src/lib/aviationWeather.js:135-148 | Folding is associative up to rank and commutative on the labels. A label is its own worst, and "Unknown" never raises it. |
| AviationWeather.IntensityRank | src/lib/aviationWeather.js:191 | `rankI` lies in [0, 2]. |
| AviationWeather.ReadingOf | src/lib/aviationWeather.js:187-195 | The reading keeps the observation's hour, and its three signals are valid labels. |
| AviationWeather.AcceptedOf | src/lib/aviationWeather.js:166-169 | The observations inside the local day, in input order, at most one per input. |
| AviationWeather.MinOf | src/lib/aviationWeather.js:203 | `Math.min(...xs)` is an element no larger than any other. |
| AviationWeather.MaxOf | src/lib/aviationWeather.js:204 | `Math.max(...xs)` is an element no smaller than any other. |
| AviationWeather.RoundTenth | src/lib/aviationWeather.js:203-214 | `Math.round(x * 10) / 10` lies within 0.05 of x. |
| AviationWeather.RoundTenthMonotone | src/lib/aviationWeather.js:203-214 | Rounding to a tenth preserves order. |
| AviationWeather.RangeOf | src/lib/aviationWeather.js:202-215 | A min/max pair appears exactly when its list is non-empty, with min ≤ max. The low end is the rounded value of an element that no element undercuts, and the high end is the rounded value of an element that no element exceeds. |
| AviationWeather.SeriesMembers | src/lib/aviationWeather.js:166-178 | The temperature, wind and snow lists hold exactly the values that the accepted observations give: converted temperatures, converted speeds and finite snow depths. |
| AviationWeather.RangeOfSeries | src/lib/aviationWeather.js:166-215 | The pair of a list is reported exactly when some accepted observation gives a value. Its ends are the rounded least and greatest of those values. |
| AviationWeather.DeriveRanges | src/lib/aviationWeather.js:150-215 | The patch's `tempMinF`/`tempMaxF`, `windMinMph`/`windMaxMph` and `snowMinIn`/`snowMaxIn` are the rounded extremes of the values that the count day's observations give. Each pair is present exactly when such a value exists. |
| AviationWeather.DirectionOfMean | src/lib/aviationWeather.js:227 | `(mean + 360) % 360` lies in [0, 360). It is the mean itself when the mean is non-negative, and the mean plus 360 otherwise. |
| AviationWeather.UpdateHalf | src/lib/aviationWeather.js:187-195 | The in-place update of `part` equals one fold step on the observation's reading. |
| AviationWeather.PushValues | src/lib/aviationWeather.js:171-185 | Each list grows by the observation's converted value, when it has one, and the half-days are untouched. |
| AviationWeather.Collect | src/lib/aviationWeather.js:169-195 | One accepted observation extends the collected lists and half-days to those of the longer accepted prefix. |
| AviationWeather.Visit | src/lib/aviationWeather.js:166-196 | One loop turn keeps its invariant: the accepted observations so far, `used` equal to their number, and the collected state. |
| AviationWeather.CollectAll | src/lib/aviationWeather.js:166-196 | The loop ends with the accepted observations of the whole batch, their number, and their collected state. |
| AviationWeather.DeriveOfCollected | src/lib/aviationWeather.js:198-239 | With nothing accepted the answer is no patch and 0. Otherwise it is the patch built from the collected lists and half-days, with the accepted count. |
| AviationWeather.DeriveCountDayPrefillFromMetars | src/lib/aviationWeather.js:150-240 | The imperative fold returns the patch and count that `Derive` describes. |
| AviationWeather.CountIsAccepted | src/lib/aviationWeather.js:166-169 | `used` counts exactly the accepted observations. |
| AviationWeather.DeriveUsed | src/lib/aviationWeather.js:151-198 | `used` is the number of observations inside the local day. There is no patch exactly when that number is 0, which includes the empty batch. |
| AviationWeather.HalfObsOne | src/lib/aviationWeather.js:187 | An observation joins the morning exactly when its hour is below 12, and the afternoon otherwise. |
| AviationWeather.MaxCloudRank | src/lib/aviationWeather.js:188 | No reading of the half-day ranks above it. It is 0 when there are no readings. |
| AviationWeather.MaxCloudRankAttained | src/lib/aviationWeather.js:188 | For a half-day with readings, some reading has exactly the highest rank. |
| AviationWeather.ReadingsWellFormed | src/lib/aviationWeather.js:188-195 | Every reading carries valid cloud, rain and snow labels. |
| AviationWeather.KeepMaxStep | src/lib/aviationWeather.js:193-195 | The strictly-greater update keeps the running level at the highest level seen so far. |
| AviationWeather.HalfLevels | src/lib/aviationWeather.js:190-195 | A half-day's rain and snow are Heavy if any observation of that half is Heavy, Light if any is Light and none Heavy, and None otherwise. |
| AviationWeather.HalfCloudLabel | src/lib/aviationWeather.js:161-188 | A half-day's cloud is always one of the labels. |
| AviationWeather.HalfCloud | src/lib/aviationWeather.js:161-188 | A half-day's cloud has the highest rank among its own observations, and rank 0 (Unknown) when it has none. |
| AviationWeather.HalfIsWorst | src/lib/aviationWeather.js:161-195 | Each half-day keeps the worst sky and the strongest rain and snow of its own observations. |
| AviationWeather.HalfIgnoresOtherHalf | src/lib/aviationWeather.js:187 | An observation of the other half leaves a half-day unchanged. |
| AviationWeather.DegreesEmpty | src/lib/aviationWeather.js:221 | No numeric directions remain exactly when every collected direction is VRB. |
| AviationWeather.DeriveWindDirection | src/lib/aviationWeather.js:217-230 | "Variable" appears exactly when some direction was VRB, and then no degrees are given. Degrees in [0, 360) appear exactly when no VRB was seen and some numeric direction was. |
| AviationWeather.NullReadsAsZero | src/lib/aviationWeather.js:171-185 | A null temperature reads as 0 °C (32 °F), an absent one is dropped, a null direction reads as 0°, and "vrb" in any case is VRB. |
| CountDayForm.CollapseSpaces | src/components/CountDayForm.jsx:4 | Collapsing never lengthens the text and keeps whether it starts and ends with white space. |
| CountDayForm.CollapseSpacesLaws | src/components/CountDayForm.jsx:4 | After `replace(/\s+/g, ' ')` the words are unchanged and in order, and the text is single-spaced. |
| CountDayForm.CollapseSpacesWords | src/components/CountDayForm.jsx:4 | Collapsing keeps the non-space characters in order. |
| CountDayForm.CollapseSpacesSingle | src/components/CountDayForm.jsx:4 | Every space left is a single plain space. |
| CountDayForm.CollapseSingleSpaced | src/components/CountDayForm.jsx:4 | Single-spaced text is left unchanged. |
| CountDayForm.CollapseSpacesIdempotent | src/components/CountDayForm.jsx:4 | Collapsing twice equals collapsing once. |
| CountDayForm.SafeKeyPart | src/components/CountDayForm.jsx:3-5 | A part has at most 200 characters, no leading white space, and single spacing. It is the collapsed trimmed text when that fits, and otherwise that text's first 200 characters. |
| CountDayForm.SafeKeyPartIdempotent | src/components/CountDayForm.jsx:3-5 | A part that was not cut short is its own key part. |
| CountDayForm.SafeKeyPartWords | src/components/CountDayForm.jsx:3-5 | An uncut part has exactly the words of the input. |
| CountDayForm.MakeKey | src/components/CountDayForm.jsx:7-12 | The key starts with "countday" and a bar and is at most 611 characters long. |
| CountDayForm.SplitAtBar | src/components/CountDayForm.jsx:11 | A bar-free prefix before a bar is recovered uniquely. |
| CountDayForm.MakeKeyInjective | src/components/CountDayForm.jsx:7-12 | If the name and code parts contain no bar character, equal keys mean equal name, code and date parts. |
| CountDayForm.DoubleQuotes | src/components/CountDayForm.jsx:31 | Doubling quotation marks never shortens the text. |
| CountDayForm.CsvEscape | src/components/CountDayForm.jsx:28-33 | A missing value gives the empty field. Text with `"`, `,`, CR or LF is enclosed in quotation marks, and any other text is unchanged. |
| CountDayForm.NoQuoteUnchanged | src/components/CountDayForm.jsx:30-32 | Text without special characters is left as it is by the escaping. |
| CountDayForm.UnescapeDoubled | src/components/CountDayForm.jsx:31 | Reading `""` as one quotation mark undoes the doubling. |
| CountDayForm.CsvRoundTrip | src/components/CountDayForm.jsx:28-33 | Reading an escaped field back as an RFC 4180 field gives the original text. |
| CountDayForm.AliasLabel | src/components/CountDayForm.jsx:57-66 | Every alias maps to a label of `CLOUD_COVER`. |
| CountDayForm.NormalizeCloudText | src/components/CountDayForm.jsx:53-68 | The result is always a label, and blank text gives "Unknown". |
| CountDayForm.NormalizeCloudValue | src/components/CountDayForm.jsx:53-68 | The result is always a label. A non-string value gives "Unknown", and a string gives its text's label. |
| CountDayForm.AliasOfLabel | src/components/CountDayForm.jsx:49-66 | Each label in lower case is an alias of itself. |
| CountDayForm.NormalizeCanonical | src/components/CountDayForm.jsx:53-68 | Each canonical label is kept unchanged. |
| CountDayForm.NormalizeIdempotent | src/components/CountDayForm.jsx:53-68 | Normalising twice equals normalising once. |
| CountDayForm.FallbackIsUnknown | src/components/CountDayForm.jsx:67 | The exact-case fallback never keeps a label, so anything unrecognised gives "Unknown". |
| CountDayForm.NormalizeCaseInsensitive | src/components/CountDayForm.jsx:54-56 | The outcome depends only on the trimmed text in lower case. |
| CountDayForm.NormalizeAliases | src/components/CountDayForm.jsx:54-66 | Each listed alias (cavok, fog, bcfg, mostly clear, overcast, mostly cloudy, and the rest) gives its label whatever its case and surrounding spaces. |
| CountDayForm.MergePrefillIntoForm | src/components/CountDayForm.jsx:70-83 | The in-place copy-and-fill loop, followed by the two cloud normalisations, yields the specified merge. |
| CountDayForm.EntryFor | src/components/CountDayForm.jsx:72 | The patch's value for a key, if it has an entry for it. |
| CountDayForm.FillAllAt | src/components/CountDayForm.jsx:72-78 | The filling pass acts field by field. A present patch value replaces a current "", null, undefined or "Unknown", and nothing else changes. |
| CountDayForm.MergeAt | src/components/CountDayForm.jsx:70-83 | A field other than the two cloud fields ends as the filling pass leaves it. |
| CountDayForm.MergeKeeps | src/components/CountDayForm.jsx:72-78 | An unfillable value is kept. A field the patch does not name keeps its value and its presence. |
| CountDayForm.MergeClouds | src/components/CountDayForm.jsx:80-81 | Both cloud fields are always present and canonical: the normalised value after filling. |
| CountDayForm.LabelNotFillable | src/components/CountDayForm.jsx:75 | Of the labels, only "Unknown" can be filled. |
| CountDayForm.MergeTwice | src/components/CountDayForm.jsx:70-83 | Merging the same patch twice equals merging once, provided both starting cloud fields are canonical, blank or missing. |
| CountDayForm.UnlistedInitial | src/components/CountDayForm.jsx:57-67 | Text whose first letter starts no alias reads "Unknown". |
| CountDayForm.MergeFillsUnknownCloud | src/components/CountDayForm.jsx:75-81 | A cloud field reading "Unknown" takes the patch's label. |
| CountDayForm.MergeKeepsUnrecognisedCloud | src/components/CountDayForm.jsx:75-81 | An unrecognised cloud text is not filled and reads "Unknown" afterwards. |
| CountDayForm.MergeTwiceCounterexample | src/components/CountDayForm.jsx:70-83 | From an unrecognised cloud text, one merge gives "Unknown" and a second merge gives the patch's label. |
| MapPane.SplitFirst | src/components/MapPane.jsx:154 | The text splits at the first `c`, or contains no `c` at all. |
| MapPane.Groups3 | src/components/MapPane.jsx:154 | A text with two separators splits into three parts that rejoin to it. |
| MapPane.Groups3Of | src/components/MapPane.jsx:154 | Three digit runs joined by a non-digit separator split back into the same runs. |
| MapPane.MdyParts | src/components/MapPane.jsx:138 | A match of `^(\d{1,2})\/(\d{1,2})\/(\d{2,4})$` yields groups of the right widths that rejoin to the text. |
| MapPane.MdyPartsOf | src/components/MapPane.jsx:138 | Groups of the right widths are matched back. |
| MapPane.NormalizeDateText | src/components/MapPane.jsx:133-148 | Blank text gives "". ISO text is kept trimmed. The result is non-empty exactly when the trimmed text is ISO or matches the M/D/Y pattern, so any other text gives "". A non-empty result is a dash date. |
| MapPane.NormalizeDateToIso | src/components/MapPane.jsx:132-149 | A non-string value gives "". A string gives its text's normal form, which is "" unless the text is ISO or M/D/Y. |
| MapPane.NormalizeMdy | src/components/MapPane.jsx:138-146 | `M/D/Y` text becomes `yy-mm-dd`, with a year below 100 taken as 2000 + y and the month and day padded to two digits. |
| MapPane.MdyGivesIso | src/components/MapPane.jsx:138-146 | Every `M/D/Y` text whose year is not three digits gives ISO text with the same month and day. |
| MapPane.ThreeDigitYear | src/components/MapPane.jsx:144-146 | A year of 100 to 999 is kept, and the text is not ISO. |
| MapPane.FormatIsoToMdy | src/components/MapPane.jsx:151-156 | The text is non-empty exactly for ISO text once trimmed, and it is then `MM/DD/YYYY` with the same groups. |
| MapPane.IsoToMdyAndBack | src/components/MapPane.jsx:132-156 | The `M/D/Y` text of an ISO date is read back as the date with its year widened. |
| MapPane.SmallYearChanges | src/components/MapPane.jsx:144-146 | Years below 1000 come back changed. |
| MapPane.IsoRoundTrip | src/components/MapPane.jsx:132-156 | An ISO date survives the trip to `MM/DD/YYYY` and back exactly when its year is at least 1000. |
| MapPane.MdyRoundTrip | src/components/MapPane.jsx:132-156 | Two-digit month and day with a four-digit year from 1000 survive the trip to ISO and back. |
| MapPane.Pick | src/components/MapPane.jsx:251-257 | The result is null exactly when no key's value is usable. Otherwise it is the value of the first key whose value is not null, not undefined and not blank. |
| MapPane.TooltipName | src/components/MapPane.jsx:123 | The name is never empty. |
| MapPane.FormatCbcTooltip | src/components/MapPane.jsx:122-130 | The tooltip starts with the name. " (abbrev)" follows exactly when the code is non-empty and differs from the name. The tooltip is the bare name exactly when there is also no count date. |
| MapPane.TooltipSuffix | src/components/MapPane.jsx:125-129 | The suffix starts with " (" exactly when the code is shown, and is empty exactly when there is neither a code nor a count date. |
| MapPane.StationOf | src/components/MapPane.jsx:393-406 | A station comes back only for a non-empty trimmed id, finite point coordinates and a finite distance within 15 miles. It has those coordinates and that distance in miles. |
| MapPane.StationOfQualifying | src/components/MapPane.jsx:393-406 | Conversely, every feature meeting those tests gives its station. |
| MapPane.Outcomes | src/components/MapPane.jsx:392-407 | One outcome per feature. |
| MapPane.KeptStations | src/components/MapPane.jsx:391-407 | At most one station per feature, each with an id and within the radius. |
| MapPane.KeptStationsMembers | src/components/MapPane.jsx:391-407 | A station is kept exactly when some feature contributes it. |
| MapPane.CheckFeature | src/components/MapPane.jsx:393-406 | One loop turn's checks give the feature's station. |
| MapPane.CollectStations | src/components/MapPane.jsx:391-407 | The push loop collects exactly the kept stations, in feature order. |
| MapPane.ByMilesPreorder | src/components/MapPane.jsx:409 | `a.miles - b.miles` is a total preorder. |
| MapPane.FirstMetar | src/components/MapPane.jsx:380-411 | This is the first station whose site types mention METAR, if any. |
| MapPane.NearestStation | src/components/MapPane.jsx:411 | The result is none exactly for an empty list. Otherwise it is the first METAR station, or the head of the list when none reports METAR. |
| MapPane.SelectStations | src/components/MapPane.jsx:391-411 | The list is sorted by distance and is a permutation of the kept stations, and the reporting station is chosen from it. |
| MapPane.SortedNearest | src/components/MapPane.jsx:409-411 | In a distance-sorted list the chosen station is no farther than any METAR station. If it reports no METAR, then no station does and it is the nearest. |
| MapPane.NearestIsClosest | src/components/MapPane.jsx:391-411 | Over the pane's list, the reporting station is the nearest METAR station, or the nearest station when none reports METAR, and it is none only without stations. |
| MapPane.NearestCircle | src/components/MapPane.jsx:823-832 | The result is none exactly when no centre has finite coordinates and distance. Otherwise it is a centre at least as near as every other and strictly nearer than every earlier one, so the first minimum wins. |
| MapPane.DashNumbers | src/components/MapPane.jsx:434 | For an ISO date, `split('-').map(Number)` reads its year, month and day. |
| MapPane.WindowEndOfIso | src/components/MapPane.jsx:433-435 | The window ends 86399 s after the date's UTC midnight, less the station's hour offset. |
| MapPane.EndOfDay | src/components/MapPane.jsx:435 | 23:59:59 of a day is 86399000 ms after its 00:00:00. |
| MapPane.MetarRequestFor | src/components/MapPane.jsx:425-443 | A request is made exactly when a station with an id is chosen, the count date has passed and there is a count date. It asks for that station, 30 hours back, ending at `toISOString` of the window end. |
| MapPane.WindowCoversCountDay | src/components/MapPane.jsx:433-442 | Every observation of the local count day up to 23:59:59 falls inside the requested 30-hour window. |
| MapPane.CompassPatch | src/components/MapPane.jsx:448-451 | A patch with degrees gets their compass point, which is one of the 16 labels, in place of the degrees. A patch without degrees is unchanged. |
| Geo.DigitRun | src/lib/geo.js:6 | This is the length of the leading run of digits. |
| Geo.SplitCoordinates | src/lib/geo.js:6 | The split into first token, separator and rest rejoins to the text. |
| Geo.SplitOfTokens | src/lib/geo.js:6 | Two number tokens around a separator split exactly there. |
| Geo.ParseLatLon | src/lib/geo.js:1-15 | Any pair that comes back lies in [-90, 90] × [-180, 180], and blank input gives none. |
| Geo.TokenNumber | src/lib/geo.js:9-10 | `Number` reads a coordinate token as its decimal value. |
| Geo.ParseOfTokens | src/lib/geo.js:1-15 | Two tokens around a comma or spaces parse to their values exactly when both are in range. |
| Geo.ParseSound | src/lib/geo.js:1-15 | Whatever is accepted is the trimmed input split into two tokens around a separator, read as numbers. |
| Geo.SectorOf | src/lib/geo.js:21 | The sector index lies in [0, 16). |
| Geo.Dir16 | src/lib/geo.js:17-23 | The result is "" exactly for a non-finite direction. |
| Geo.Dir16Label | src/lib/geo.js:17-23 | Every finite direction is named by one of the 16 points. |
| Geo.Dir16Periodic | src/lib/geo.js:21 | `dir16(d + 360) == dir16(d)`. |
| Geo.Dir16Nearest | src/lib/geo.js:21-22 | Within one turn either way, a direction within half a sector of point k, with the upper edge going to the next point, is named k mod 16. |
| Geo.Dir16Points | src/lib/geo.js:18-22 | Each point's own bearing gives its label, and a half-sector boundary rounds to the next label. |
| App.WeathercodeToText | src/App.jsx:49-69 | The text is "" exactly for a non-finite code, "weather" exactly for an unlisted code, and otherwise the words of the code's group. |
| App.AppTextNamesGroup | src/App.jsx:52-67 | Different groups have different words. |
| App.CodeText | src/App.jsx:49-69 | Every code of a group gets that group's words. |
| App.AlnumOnly | src/App.jsx:171 | Only a-z and 0-9 remain, and the text never grows. |
| App.AlnumOnlyMembers | src/App.jsx:171 | A character survives exactly when it was there and is a-z or 0-9. |
| App.NormalizeForSearch | src/App.jsx:168-172 | The normal form holds only a-z and 0-9. |
| App.NormalizeMembers | src/App.jsx:168-172 | A character is in the normal form exactly when it is a-z or 0-9 in the lowered text. |
| App.NormalizeIdempotent | src/App.jsx:168-172 | Normalising twice equals normalising once. |
| App.WordsFrom | src/App.jsx:183-190 | `split(/[^a-z0-9]+/).filter(Boolean)` gives non-empty a-z0-9 words. |
| App.WordsJoin | src/App.jsx:183-190 | The words, joined, are the letters and digits of the text. |
| App.FirstPrefixWord | src/App.jsx:203-206 | This is the smallest index of a word starting with the needle, if there is one. |
| App.ScoreMatch | src/App.jsx:185-212 | A score is only given for a text whose normal form is non-empty. |
| App.WordPrefixOccurs | src/App.jsx:202-209 | A word starting with the lowered needle puts the normalised needle inside the normalised text. |
| App.ScoreMatchMeaning | src/App.jsx:185-212 | A text scores exactly when its normal form contains the normalised needle. The score is the kind penalty (2000 for a code) for a prefix, and penalty + 50 + the first index for another substring. |
| App.Best | src/App.jsx:219 | The best score is the smaller of the finite ones, and none when neither is finite. |
| App.ScoredMembers | src/App.jsx:214-224 | A scored entry is exactly an index item with that score. |
| App.ByScorePreorder | src/App.jsx:225 | `a.score - b.score` is a total preorder. |
| App.Top | src/App.jsx:226-229 | This takes the first ten (or fewer) entries, each tagged 'cbc'. |
| App.ScoreItem | src/App.jsx:216-223 | One loop turn scores one item as specified. |
| App.ScoreAll | src/App.jsx:214-224 | The push loop produces exactly the scored items, in index order. |
| App.SearchCbcCircles | src/App.jsx:174-230 | The search returns the specified results. |
| App.SearchHits | src/App.jsx:175-229 | There are at most ten results, and only when the needle is searchable. Each is tagged 'cbc', comes from the index, and matches on its name or its code. |
| App.SearchSorted | src/App.jsx:225-226 | Results come in ascending order of score. |
| App.SearchKeepsBest | src/App.jsx:225-226 | An item that scores but is left out is beaten: there are ten results, none scoring worse. |
| App.FindByName | src/App.jsx:549 | This is the first saved place whose lowered name equals the lowered new name, or none. |
| App.SaveRefusals | src/App.jsx:538-558 | A save is refused exactly when nothing is selected, the trimmed name is blank, or the name is taken. The message of a taken name depends on whether the first holder is within 1e-6 in both coordinates. |
| App.ByNamePreorder | src/App.jsx:560 | Ordering places by name is a total preorder when the string order is. |
| App.SaveAdds | src/App.jsx:560 | A save adds exactly the new place, under the trimmed name and the selected coordinates, and the list stays sorted by name. |
| App.SaveKeepsNamesDistinct | src/App.jsx:549-560 | Saving never gives two places the same name, whatever the case. |
| App.KeptIndices | src/App.jsx:278-282 | The kept positions run in increasing order. They are exactly the positions whose time parses and lies before the end. |
| App.KeepIndices | src/App.jsx:278-282 | The `keepIdx` loop yields exactly the kept positions. |
| App.Narrowed | src/App.jsx:270-302 | The forecast is returned unchanged unless it can be narrowed, and a forecast stays present. |
| App.PlotForecast | src/App.jsx:270-302 | The index loop and slicing yield the narrowed forecast. |
| App.NarrowedHours | src/App.jsx:276-301 | The narrowed forecast keeps the other fields and the series stay aligned. Its hours are exactly the hours before start + days·24 h, with none missing. |
| App.NarrowedInStep | src/App.jsx:284-299 | The k-th kept hour is the k-th kept original position. These positions increase with k, so order is kept, and that position supplies the hour in all six series. |
| App.CountDateIso | src/App.jsx:304-309 | A count date is only given for a 'cbc-circle' selection, and it is a dash date. |
| App.CountDateFirstPresent | src/App.jsx:307-308 | The first of Count_Date, date_label and date that is not null or undefined decides the date. |
| App.CountDateBlankNotSkipped | src/App.jsx:307-308 | A blank Count_Date gives no date, whatever date_label holds. |
| SummaryTable.FToCInverse | src/components/SummaryTable.jsx:3-5 | `fToC` undoes the Celsius-to-Fahrenheit formula and is undone by it. |
| SummaryTable.DayCelsius | src/components/SummaryTable.jsx:82-83 | A value is converted exactly when it is a finite number, with no coercion, and converts back to it. |
| SummaryTable.CelsiusRoundTrip | src/components/SummaryTable.jsx:3-5 | A reading converted to Fahrenheit by the observation fold comes back unchanged. |
| SummaryTable.SummaryText | src/components/SummaryTable.jsx:12-32 | The text is "" exactly for a non-finite code, "weather" exactly for an unlisted code, and otherwise the group's words. |
| SummaryTable.RainWords | src/components/SummaryTable.jsx:22-24 | 61, 63 and 65 read light, moderate and heavy intensity rain. |
| SummaryTable.IconBySky | src/components/SummaryTable.jsx:34-50 | The icon table groups the same codes as the word table. Non-finite and unlisted codes get "01d". |
| SummaryTable.DayCount | src/components/SummaryTable.jsx:52-64 | The count lies in [1, 10]. It is 8 when not given, 10 for 0 or NaN, and the value itself when that lies in range. |
| SummaryTable.ShownDays | src/components/SummaryTable.jsx:65 | The days shown are the first min(length of time, n) days, or none without a time array. |
| SummaryTable.ShownDaysBounds | src/components/SummaryTable.jsx:64-65 | At most ten days are shown, and at least one when there are any. |
| SummaryTable.HighlightOnce | src/components/SummaryTable.jsx:90 | Among distinct days at most one is highlighted, and none when there is nothing to highlight. |
| DownloadCbc.ToMdy | scripts/download_cbc_126_geojson.mjs:24-29 | The result is "Unknown" exactly for non-ISO text, and otherwise the M/D/Y text the application writes. |
| DownloadCbc.ToMdyRoundTrip | scripts/download_cbc_126_geojson.mjs:24-29 | For years from 1000 the application reads the label back as the same date. |
| DownloadCbc.IsoOf | scripts/download_cbc_126_geojson.mjs:86-90 | A date is taken exactly for string text that is ISO once trimmed, and it is the trimmed text. |
| DownloadCbc.ApplyOverrides | scripts/download_cbc_126_geojson.mjs:42-46 | The record is unchanged unless its trimmed code has an override. In that case the keys are the union, the override's values win, and the other fields are kept. |
| DownloadCbc.DropFields | scripts/download_cbc_126_geojson.mjs:9-55 | The copy loop keeps exactly the keys not in `DROP_FIELDS`, with their values. |
| DownloadCbc.DroppedMeaning | scripts/download_cbc_126_geojson.mjs:48-55 | The fields left are the others, with their values unchanged. |
| DownloadCbc.FeatureFromMeaning | scripts/download_cbc_126_geojson.mjs:82-101 | A record is kept exactly when both coordinates are finite numbers. The point is (lon, lat), and the properties are the dated record. |
| DownloadCbc.DatedKeys | scripts/download_cbc_126_geojson.mjs:88-92 | The properties keep every field and add `date` and `date_label`. |
| DownloadCbc.DatedDates | scripts/download_cbc_126_geojson.mjs:86-91 | `date` is the ISO count date or null. `date_label` is its M/D/Y text, and "Unknown" exactly when there is no date. |
| DownloadCbc.AddedNotDropped | scripts/download_cbc_126_geojson.mjs:9-92 | The two added names are not dropped ones. |
| DownloadCbc.NoDroppedField | scripts/download_cbc_126_geojson.mjs:79-80 | No dropped field survives into a feature, even one an override sets. |
| DownloadCbc.BuildFeature | scripts/download_cbc_126_geojson.mjs:79-101 | One turn of the inner loop builds the record's feature. |
| DownloadCbc.CollectFeatures | scripts/download_cbc_126_geojson.mjs:78-102 | The push loop collects exactly the features of the kept records, in order. |
| DownloadCbc.FeaturesFromRecords | scripts/download_cbc_126_geojson.mjs:78-102 | A feature is in the dataset exactly when some record yields it. |
| DownloadCbc.PageSize | scripts/download_cbc_126_geojson.mjs:67 | The page size is never NaN or +Infinity and at most 2000 when finite. NaN, 0 and +Infinity give 2000, a count above 2000 gives 2000, any other finite count is kept, and −Infinity is kept. |
| DownloadCbc.PageSizePositive | scripts/download_cbc_126_geojson.mjs:67 | The page size is a positive finite number exactly when `maxRecordCount` is not negative. |
| DownloadCbc.PageSizeIdempotent | scripts/download_cbc_126_geojson.mjs:67 | Applying the rule to its own result gives the same size. |
| DownloadCbc.RecordTotal | scripts/download_cbc_126_geojson.mjs:70 | The total is never NaN: NaN gives 0, and every other number, including the infinities, is kept. |
| DownloadCbc.PageOffsets | scripts/download_cbc_126_geojson.mjs:74 | The offsets are 0, size, 2·size, …, all below the total, and enough pages to reach it. |
| DownloadCbc.PagesCover | scripts/download_cbc_126_geojson.mjs:74-75 | Every record below the total lies in exactly one requested page. |
| Worker.GetAllowedOrigin | cloudflare-worker/src/index.js:16-26 | The origin comes back exactly when the request has an Origin header on the allowlist, and then it is that header. |
| Worker.CorsHeadersMeaning | cloudflare-worker/src/index.js:28-37 | The CORS headers are exactly five. They carry the allowed origin or "null", "GET,HEAD,OPTIONS", the requested headers or "Content-Type", "86400", and "Vary: Origin". |
| Worker.SetAllOver | cloudflare-worker/src/index.js:42 | Setting the entries one by one overrides the existing headers with what they set. |
| Worker.CorsEntriesSet | cloudflare-worker/src/index.js:41-42 | Setting the CORS entries one by one gives the CORS headers. |
| Worker.WithCors | cloudflare-worker/src/index.js:39-50 | The header loop yields the specified answer. |
| Worker.CorsKeepsUpstream | cloudflare-worker/src/index.js:39-50 | The upstream status and body are kept. The CORS headers override the upstream ones, Cache-Control becomes no-store, and every other upstream header is kept. |
| Worker.TextResponse | cloudflare-worker/src/index.js:59-71 | A response with a string body gets `Content-Type: text/plain;charset=UTF-8` unless its headers already name a content type. Status and text are kept. |
| Worker.RefusalsArePlainText | cloudflare-worker/src/index.js:57-72 | The 403, 405 and 404 answers have a text body. The 403 carries only the plain-text Content-Type, and the other two carry it beside the CORS headers. |
| Worker.HandleStatus | cloudflare-worker/src/index.js:53-91 | An origin that is present but not on the allowlist gets 403, before any method or path test. Otherwise OPTIONS gets 204, another method besides GET/HEAD gets 405, a path outside /api/data/ gets 404, and a forwarded request gets the upstream status. |
| Worker.ForwardStaysInApi | cloudflare-worker/src/index.js:74-86 | A forwarded request goes to the upstream origin with exactly the same path and query, under /api/data/, as GET or HEAD. |
| Worker.AnswersVaryByOrigin | cloudflare-worker/src/index.js:62-91 | Every answer except the origin refusal carries "Vary: Origin" and the allowed origin or "null". |
| Js.ToNumber | src/lib/aviationWeather.js:46 | `Number(v)`: null is 0, undefined is NaN, and a number is itself. |
| Js.FiniteNumber | src/lib/aviationWeather.js:46-47 | A value comes back exactly when `Number(v)` is finite, and it is that number. |
| Js.NumberOfNullIsZero | src/lib/aviationWeather.js:46-47 | `Number(null)` and `Number("")` are 0, and `Number(undefined)` is not finite. |
| Js.Round | src/lib/aviationWeather.js:49 | `Math.round` gives the nearest integer, with halves going up. |
| Js.RoundShift | src/lib/geo.js:21 | Rounding commutes with adding an integer. |
| Js.Rem360 | src/lib/geo.js:21 | `x % 360` truncates, keeps the sign of x and lies within one turn. |
| Js.Coalesce | src/App.jsx:307 | `a ?? b` gives `a` unless it is null or undefined. |
| Civil.DateUtc | src/lib/aviationWeather.js:69 | `Date.UTC` maps years 0 to 99 to 1900 + y and is otherwise MakeDay combined with MakeTime. |
| Civil.EpochIsDayZero | src/lib/aviationWeather.js:69 | 1970-01-01 is day 0, and 2024-12-21 is 1734739200000 ms. |
| Civil.FieldsOf | src/components/MapPane.jsx:436 | The calendar fields of a time value are in range and rebuild that value. |
| Civil.FieldsOfMakeDay | src/lib/aviationWeather.js:69 | A date given in range is read back unchanged. |
| Civil.YearFromDayUnique | src/components/MapPane.jsx:436 | The year of a day number is the unique year containing it. |
| Sorting.SortBySorted | src/components/MapPane.jsx:409 | `Array.prototype.sort` with a total-preorder comparator returns its input reordered and sorted. |
| Sorting.SortByPairwise | src/App.jsx:560 | Sorting keeps any relation that held between all pairs. |
| WeatherCodes.ClassifyComplete | src/App.jsx:52-67 | Every code of a group takes that group's branch, because no earlier group holds it. |

## Left out

- React rendering, hooks and effects are not modelled: presentation and framework state. This also covers `ForecastPlot.jsx`, `AboutModal.jsx` and `Sidebar.jsx`, whose `pick` duplicates MapPane's.
- Network calls are not modelled: the aviation weather API, the forecast service, the geocoder, the circle layer and the Worker's `fetch` upstream. In `Worker.Handle` the upstream service is a function parameter.
- Local storage, file writes and CSV download are not modelled: these are I/O. This covers `loadAll`/`saveAll`, `loadSaved`/`saveSaved`, `onSave` and `loadOverrides`.
- Cancellation, timers, caches and in-flight requests are not modelled: concurrency and timing.
- `haversineKm` and the `atan2` circular mean are function parameters, because they are floating-point trigonometry. Only the range of the mean is assumed.
- Reals are exact. IEEE rounding is not modelled, so `Math.round(x * 10) / 10` is exact arithmetic on reals.
- `String()` of numbers is not modelled. The patch keeps reals, where the source keeps their text.
- `Number()` of strings reads signed decimals and the signed "Infinity" forms. Exponent and hex forms give NaN in the model.
- Case mapping is ASCII only. UTF-16 lengths are not modelled.
- `countDatePassed`, `formatWeekdayDate` and other local-timezone `Date` logic are left out: they depend on the local clock.
- Parsing of forecast hour text (`new Date(t)`) is a parameter `parse`. A forecast whose end Date is invalid is not modelled.
- `localeCompare` is a parameter `before`.
- The in-place sorts (the station list, scored results and the saved list) are modelled on sequences by a stable insertion sort. They are not modelled as array updates.
- The `featureById` map of the circle centres and the feature lookup after auto-locate are left out: framework state.
- A `toISOString` RangeError for time values out of range is not modelled.
- MapPane.MetarRequestFor: requires the count date to be "" or dash-shaped, which is what `normalizeDateToIso` produces.
- MapPane.StationOf: station coordinates are GeoJSON numbers. `Number()` of string or null coordinates is not modelled.
- DownloadCbc.PageOffsets: requires a whole positive page size and a finite total. A fractional `maxRecordCount` is not modelled. A negative or −Infinity page size (which `PageSize` returns for such a count) or an infinite total (which `RecordTotal` returns for an infinite count) makes the source's `for` loop run forever once the total is positive, and that divergence is not modelled.
- DownloadCbc.ApplyOverrides: an override that is not an object is not modelled. A truthy non-string `Abbrev` (whose `String()` text would be looked up) gets no override.
- Record fields named like `Object.prototype` members are not modelled.
- The `URL` serialisation and percent-encoding of `buildUrl` and the Worker are not modelled. The model keeps the query as ordered pairs and the upstream URL as origin + path + query.
- Request methods are taken as normalised by the Fetch standard. Header names are kept in lower case, as `Headers` compares them without case.
- The response `statusText` is not modelled.
- Maps of the remaining members (`others`) stand for the spread of forecast and response members the code passes through unchanged.
- `normalizeDateToIso` and `formatIsoToMdy` of `src/App.jsx:25-47` repeat MapPane's and are modelled once, in `MapPane`.
- Non-string component props are only modelled where the source's behaviour depends on them.
