# teslasuc back end, modelled in Dafny

The model covers the Python back end of the supercharger check-in service.
It has four parts, and each becomes a pure function once the station
directory, the check-in store and the clock are passed in as values.

- **Timestamps** (`lib.py`). `TimePattern` fixes the shape
  `DDDD-DD-DDTDD:DD:DD.DDDZ`, and `TimeFormat` parses such a text with
  `strptime`. `convert_time_fields` walks a nested dict and replaces every
  text that matches the pattern with its datetime, in place. Modules
  `TimeFields` and `TimeExamples`, over `Calendar` (Python's naive
  `datetime`: validity, `+ timedelta(hours=1)`, field-by-field comparison)
  and `Values` (the JSON-like value tree).
- **The check-in endpoint** (`api.py`). A POSTed check-in goes through a
  fixed sequence of checks: required keys, `validate_int` on the four
  counts, the charging/blocked limits, `validate_location`, then
  `validate_date`. Only a check-in that passes them all is inserted. The
  GET branch returns the store newest first. Separately, `lookup_query`
  turns a query text into a near query or a title search. Modules `Api`,
  `Checkins`, `Lookup`, and `Numbers` for Python 3's `int()` and `str()`.
- **The station directory import** (`run_import.py`, `import.py`).
  `chargers` pulls a stall count out of free text with two greedy patterns.
  Each listing record maps to a station document, and inserts go into a
  collection with a unique index on (type, locationId). run_import.py
  swallows the duplicate-key error; import.py lets it end the import.
  Module `Stations`.
- **The bulk check-in import** (`run_import.py`, `import_chargings`).
  Lines are split on commas, and the place name is corrected through the
  correction table. The name resolves to a station only when exactly one
  European supercharger matches it. The time is parsed with
  `%m/%d/%Y %H:%M`. The record's `error` field keeps the last check that
  failed. Modules `BulkImport`, `ImportText`, `LocalTime` (the strptime
  rules for that format) and `Text` (`split`, `join`, `filter(None, …)`).

Python exceptions that the code does not catch appear as values:
`PyException`, or `ApiError.Uncaught` inside the endpoint. So each error
path is a result and never a precondition. The endpoint's 400 rejections
are the other `ApiError` cases, with the messages the code uses.

The order of the endpoint's checks decides which message a body gets. A
body without `title` is answered "Invalid data received" even when its
charging count exceeds its stalls, because the key check at api.py:97-98
runs before the limits (`Api.ScenarioWithoutTitle`). The same body with a
title added gets the limit rejection of api.py:104-106
(`Api.ScenarioChargingAboveStalls`).

## Model

| member | source | states |
|---|---|---|
| TimeFields.ParseIso | lib.py:6 | strptime with TimeFormat on a text that passed the pattern: any result comes from a 24-character text (no trailing newline) and is a valid datetime whose microseconds are whole milliseconds |
| TimeFields.FormatIsoParses | lib.py:5-6 | every millisecond-precision datetime has a text that passes TimePattern and parses back to that datetime |
| TimeFields.ParseIsoFormats | lib.py:5-6 | conversely, a text that passes the pattern and parses is the rendering of its datetime, so the pattern and the parse admit one spelling per datetime |
| TimeFields.IsoFieldsOfFormat | lib.py:5-6 | the rendering of a datetime has the pattern's shape, and its fields read back as that datetime |
| TimeFields.PatternIgnoresRanges | lib.py:5-6 | a text of the right shape with a month above 12 passes the pattern, and the parse refuses it |
| TimeFields.PatternAdmitsTrailingNewline | lib.py:5 | `$` also matches before a final newline: a shaped text plus "\n" passes the pattern, and strptime refuses it |
| TimeExamples.TestTimestamp | tests.py:11-16 | "2016-07-28T11:05:00.000Z" passes the pattern and parses to 11:05 on 2016-07-28 |
| TimeFields.EncodeJson | api.py:29-30 | the encoder's strftime writes 27 characters, with six fractional digits before the final Z, so its output never passes TimePattern |
| TimeFields.ConvertTimeFields | lib.py:9-12 | a falsy item is returned unchanged without error; a truthy non-dict raises AttributeError |
| TimeFields.ConvertKeepsShape | lib.py:12-17 | keys are never added, removed or reordered, and None stays None, even when the walk stops on an exception |
| TimeFields.ConvertEntriesKeepShape | lib.py:12-17 | the same for the loop over one dict's entries |
| TimeFields.ConvertValueSpec | lib.py:13-19 | a value converts without error exactly when every text under it fails the pattern or parses and no other kind of value (number, list, boolean) is reached; then exactly the matching texts are replaced by their datetimes |
| TimeFields.ConvertEntriesSpec | lib.py:12-19 | the same for the loop over one dict's entries, entry by entry and key by key |
| TimeFields.ConvertTimeFieldsSpec | lib.py:9-19 | the top-level call on a dict keeps its shape, completes exactly when the dict is convertible, and then has replaced exactly the matching texts |
| TimeExamples.ConvertTwiceFails | lib.py:16-19 | converting a dict replaces its timestamp with a datetime, and a second call stops on that datetime with TypeError |
| Calendar.NextDay | api.py:137 | the next calendar day lies one ordinal later at the same time of day; None only after 9999-12-31 |
| Calendar.AddHour | api.py:137 | `now + timedelta(hours=1)` is valid and one hour later on the timeline; None (OverflowError) exactly in the last hour of 9999 |
| Calendar.AfterMeansLater | api.py:138 | a valid datetime that compares greater lies later on the timeline |
| Calendar.AfterIsTimelineOrder | api.py:138 | Python's field-by-field `>` on valid datetimes holds exactly when the first lies later on the timeline |
| Numbers.ShowNat | run_import.py:100 | `str(n)` is a run of digits without a leading zero whose value is n |
| Numbers.ParseIntShowNat | api.py:127 | `int()` reads back what `str()` writes |
| Numbers.ParseIntOfDigits | api.py:127 | `int()` of a run of digits is its decimal value |
| Numbers.ParseIntOfMinusDigits | api.py:127 | `int()` of a text that is a minus sign followed by digits is the negated value of the digits |
| Numbers.SpaceAfterSignRejected | api.py:127 | a sign followed by a space is not a number: `int("+ 8")` and `int("- 1")` raise ValueError |
| Numbers.UnderscoreGrouping | api.py:127 | single underscores between digits are ignored: `int("1_000")` is 1000 |
| Numbers.UnderscoreMisplaced | api.py:127 | a doubled or trailing underscore is not a number: `int("1__0")` and `int("1_")` raise ValueError |
| Api.AllKeysPresent | api.py:97 | `all(k in body for k in keys)`: true exactly when a dict body has every key; raises only when the body is not a container |
| Api.PyInt | api.py:127 | `int(v)`: an integer gives itself, a boolean 0 or 1, a text its `int()` value or ValueError, anything else TypeError |
| Api.ValidateInt | api.py:126-130 | the parsed value when it is not negative; "Invalid number" exactly when it is negative; the exception of `int()` otherwise |
| Api.ValidateIntOfText | api.py:126-130 | a count sent as its decimal text comes back unchanged |
| Api.ValidateIntOfNegativeText | api.py:128-129 | a negative count sent as a minus sign and digits is rejected as an invalid number |
| Api.ValidateIntSpaceAfterSign | api.py:127 | a count sent as a sign, a space and more text ends the request with an uncaught ValueError, not "Invalid number" |
| Api.ValidateDate | api.py:133-141 | "Invalid date" exactly on a shape mismatch; on success the parsed time, not after now + 1 hour; uncaught TypeError, ValueError or OverflowError otherwise, and OverflowError for every well-formed time whenever now + 1 hour overflows |
| Api.ValidateDateWindow | api.py:137-139 | a well-formed time is refused as being in the future exactly when it lies more than one hour after now on the timeline, and is accepted otherwise |
| Api.ValidateDateBounds | api.py:137-141 | a time exactly one hour after now passes, and so does any earlier time: there is no lower bound |
| Api.ValidateDateOverflow | api.py:137 | at 23:00 on 9999-12-31 `now + 1 hour` overflows, so every well-formed time fails with an uncaught OverflowError |
| Api.FindStation | api.py:120 | `find_one` by locationId: the first station with that id, None exactly when no station has it |
| Api.ValidateLocation | api.py:119-123 | succeeds, returning the id unchanged, exactly when the first station with that id has the submitted stall count and title; "Invalid location" otherwise |
| Api.UnknownStallsNeverMatch | api.py:121 | a station whose stall count is None rejects every submission for it |
| Api.ValidateCount | api.py:102 | `validate_int(body[k])`; a non-dict body raises TypeError |
| Api.ReadCounts | api.py:100-102 | the four counts in order stalls, charging, blocked, waiting: all non-negative on success; with the keys present, it fails exactly when some count fails, and then with the error of the first count that fails |
| Api.FirstCountFailureOfCounts | api.py:100-102 | the first failing count is looked for in the order stalls, charging, blocked, waiting, and its error is that count's `validate_int` error |
| Api.StoreCheckin | api.py:108-112 | after the counts, the location check and then the date check; "Invalid location" exactly when the location check fails; once the location passes, it fails exactly when `validate_date` does, with that error; on success the store gains exactly one admissible check-in |
| Api.ChecksAdmit | api.py:100-112 | a check-in assembled from counts, location and time that passed their checks is admissible |
| Api.Submit | api.py:94-113 | the POST branch: checks in the order keys, counts, limits, location, date, the first failure ending the request with its own error: "Invalid data received" exactly when a key is missing, an error raised by the key check itself stays uncaught, the first failing count's error, the limit message exactly when a limit is exceeded, "Invalid location" exactly when the location check fails, and then exactly `validate_date`'s error; on success the store gains exactly one check-in with the submitted counts, id, title and parsed time |
| Api.SubmitAcceptsAdmissible | api.py:97-113 | conversely, every admissible check-in is accepted and appended to the store |
| Api.StoreAcceptsAdmissible | api.py:108-112 | the checks after the counts accept every admissible check-in |
| Api.MissingKeyRejected | api.py:97-98 | a dict body without one of the seven required keys is rejected as invalid data, whatever else it holds |
| Api.AboveStallsRejected | api.py:104-106 | with the keys present and the counts valid, charging or blocked above stalls is rejected before location and time are looked at |
| Api.ScenarioWithoutTitle | api.py:97-98 | a body without `title` is answered "Invalid data received", even though its charging count is above its stalls |
| Api.ScenarioChargingAboveStalls | api.py:104-106 | the same body with a title is answered with the limit message |
| Api.ScenarioAtTheLimit | api.py:100-113 | charging and blocked equal to stalls pass, blocked may arrive as text, and waiting is not bounded by stalls: the stored check-in holds exactly the submitted values |
| Checkins.InsertByTime | api.py:115 | placing one document into a newest-first list keeps it newest-first and adds exactly that document |
| Checkins.NewestFirst | api.py:115 | the GET listing holds every stored document exactly once (a permutation), ordered by time descending, dates before missing times |
| Checkins.NewestFirstPairwise | api.py:115 | in that order every document is at least as new as every document after it |
| Lookup.DecimalPrefix | api.py:22 | `\d+\.\d+` at the start of a text: a match is a decimal and cannot be extended by a digit |
| Lookup.LatLngPrefix | api.py:22 | `(\d+\.\d+),(\d+\.\d+)` at the start: both groups are decimals and, with the comma, form a prefix of the text |
| Lookup.Classify | api.py:72-89 | no query for an absent text or one of at most two characters; a near query with coordinates [lng, lat], max distance 20000 and type supercharger when the text starts with a position; a title search with the whole text as `$regex`, options "-i" and type supercharger exactly when it does not |
| Lookup.PositionQuery | api.py:73-78 | any text that starts with `lat,lng` and continues with something other than a digit is a near query around [lng, lat] |
| Lookup.PositionExample | api.py:73-78 | "46.5,7.3 Bern" asks for stations near longitude 7.3, latitude 46.5 |
| Lookup.IntegersAreTitles | api.py:74-80 | "46,8" has no decimal points and is a title search |
| Stations.Chargers | run_import.py:23-33 | whenever the Supercharger pattern can match, the result is its greedy count, the digit right before the last marker that follows a digit; otherwise, whenever the Tesla Connector pattern can match, that pattern's greedy count; None exactly when neither can match; any count is a single digit, 0 to 9; the `chargers` of import.py:14-24 is the same function |
| Stations.GreedyCountUnique | run_import.py:24-26 | the greedy count of a pattern is one number: two greedy readings of the same text agree |
| Stations.CountFor | run_import.py:24-26 | `int(m.group(1))` of one pattern is always a single digit, 0 to 9 |
| Stations.CaptureIffCount | run_import.py:18-19 | the pattern `.*(\d+)<marker>.*` can match exactly when a digit stands right before an occurrence of the marker |
| Stations.CountIsGreedyCapture | run_import.py:24-26 | greedy backtracking puts the group as far right as any match allows, one digit wide, before the last marker |
| Stations.TwoDigitCountLosesTens | run_import.py:24-26 | "12 Superchargers" gives 2 |
| Stations.SuperchargerCountFirst | run_import.py:23-30 | a Supercharger count wins over a Tesla Connector count, wherever each stands |
| Stations.MapListing | run_import.py:43-63 | a record without `location_id` is skipped, and one with it that raises nothing always yields a station; otherwise type, id, title and raw record are copied; stalls are `chargers(...)` when `chargers` is present, else None; loc is [lng, lat] exactly when both coordinates are present; KeyError without a title, TypeError for a non-text `chargers`; import.py:34-54 maps records the same way |
| Stations.Insert | config.py:33 | the unique (type, locationId) index: the insert fails with DuplicateKeyError exactly when the key is taken; otherwise it appends and keeps the keys unique |
| Stations.ImportSkippingDuplicates | run_import.py:43-68 | the run_import.py loop only ever appends to the directory, keeps it unique, and never lets DuplicateKeyError escape |
| Stations.SkippingImportCoversRecords | run_import.py:65-68 | after a completed run every record that mapped to a station has its key in the directory: a duplicate does not stop later records |
| Stations.SkippingImportKeepsFirst | run_import.py:43-68 | every station the run_import.py loop adds has a key not in the directory it started from and is the mapping of the first record with that key |
| Stations.ImportStoppingAtDuplicate | import.py:34-56 | the import.py loop only ever appends to the directory and keeps it unique, even when it ends early |
| Stations.StoppingImportRaisesOnClash | import.py:34-56 | the import.py loop raises DuplicateKeyError exactly when, before any other exception, some record maps to a station whose key is already in the directory or belongs to an earlier record |
| Stations.StoppingImportIsPrefix | import.py:56 | import.py's directory is a prefix of run_import.py's for the same records, and equal to it when import.py completes |
| Stations.DuplicateListing | import.py:56 | two records with one key: run_import.py keeps the first and completes; import.py keeps the first and raises DuplicateKeyError |
| Stations.RunImport | run_import.py:144-148 | emptying the directory and importing both listings leaves it unique on (type, locationId), with no duplicate-key error |
| BulkImport.Correct | run_import.py:102-104 | a name listed in the correction table is replaced by its entry; any other name is kept |
| BulkImport.ReplacementsAreFinal | run_import.py:71-90 | no replacement in the table is itself a listed name |
| BulkImport.CorrectIdempotent | run_import.py:102-104 | correcting twice is correcting once, so the single lookup loses nothing |
| BulkImport.HamburgNames | run_import.py:73-89 | the lookup is by whole name: "Hamburg SEC" and "Hamburg" have different replacements |
| BulkImport.Candidates | run_import.py:106-114 | the station query returns only directory stations that are European superchargers matching on title, locationId or common name, and every such station |
| BulkImport.CandidatesMultiplicity | run_import.py:106-115 | each eligible station occurs in the result as often as in the directory and no other station occurs, so `len(sucs)` counts the matches |
| BulkImport.CandidatesAppend | run_import.py:106-114 | the query result of a directory split in two is the result of the first part followed by that of the second: directory order is kept |
| BulkImport.ParseLine | run_import.py:96-137 | `parse(item)`: IndexError exactly with fewer than seven fields; otherwise the counts stay the raw texts; the station comes from the single candidate, or is null with the corrected text as title; error is None exactly with seven fields, one candidate and a parsed time; otherwise it is the last failing check: time, then station, then field count |
| BulkImport.ParseAll | run_import.py:138 | the list comprehension fails with IndexError exactly when some line is short; otherwise one parsed record per line, in order |
| BulkImport.ImportCountsNonEmptyLines | run_import.py:92-141 | the count `import_chargings` returns is the number of newline-separated lines that are not empty |
| BulkImport.FieldsOf | run_import.py:94 | each line is cut at its commas |
| BulkImport.AsStored | run_import.py:139-140 | one stored document per record, in order |
| BulkImport.ImportChargings | run_import.py:92-141 | `import_chargings`: IndexError exactly when some non-empty line has fewer than seven fields; otherwise every record, errored ones included, is appended in line order and the count of non-empty lines is returned |
| Text.Split | run_import.py:93-94 | `split(c)` gives at least one piece, none containing c |
| Text.JoinSplit | run_import.py:93-94 | joining the pieces of a split restores the text |
| Text.SplitJoin | run_import.py:93-94 | splitting a join of separator-free pieces gives the pieces back |
| Text.NonEmpty | run_import.py:93 | `filter(None, …)` keeps a text exactly when it is one of the pieces and not empty, and never grows the list |
| Text.NonEmptyMultiplicity | run_import.py:93 | every non-empty piece is kept as often as it occurs, and the empty text never |
| Text.NonEmptyLength | run_import.py:93 | the filtered list is as long as the number of pieces less the empty ones |
| Text.NonEmptyAppend | run_import.py:93 | filtering two lists joined is joining their filtered lists: the order of the pieces is kept |
| Text.SplitConcat | run_import.py:93 | splitting at a separator between two texts gives the pieces of the first followed by the pieces of the second |
| ImportText.ItemsOfRows | run_import.py:93-94 | a text written row by row, seven plain fields per line, is read back as exactly those rows: the empty rest after the final newline vanishes |
| ImportText.BlankLineDropped | run_import.py:93 | an empty line between two texts adds no line: the non-empty lines are those of the first text followed by those of the second |
| ImportText.ItemsSkipBlankLine | run_import.py:93-94 | two runs of rows with an empty line between them are read back as the rows of both, in order |
| ImportText.ImportCompletes | run_import.py:138-141 | when the lines read back as rows of seven plain fields the import completes and returns the number of rows |
| ImportText.ImportOfOneRow | run_import.py:92-141 | a one-line text appends exactly the parse of its row and returns 1 |
| ImportText.ImportedTimeRoundTrip | run_import.py:121-122 | a row whose date and time were written with the same format keeps that time |
| ImportText.NeubergRecord | run_import.py:152 | the example line with no matching station: a record with a null station, its name as title, the parsed time and the error "Invalid supercharger, len=0" |
| ImportText.NeubergImport | run_import.py:152 | that line imported into an empty store gives one document and returns 1 |
| LocalTime.ParseLocal | run_import.py:122 | strptime with `%m/%d/%Y %H:%M`: any result is a valid datetime with zero seconds |
| LocalTime.ParseLocalShaped | run_import.py:122 | on the zero-padded spelling the fields are read off their positions and accepted exactly when they form a valid datetime |
| LocalTime.ParseLocalShort | run_import.py:122 | month, day and hour may be a single digit and are read the same way |
| LocalTime.LocalTimeRoundTrip | run_import.py:122 | a date and time written by strftime with this format parse back to themselves |
| LocalTime.NeubergTime | run_import.py:152 | "06/23/2013" "13:15" is 13:15 on 2013-06-23 |
| LocalTime.ImpossibleDay | run_import.py:121-126 | "02/30/2013" has the right shape, but the day does not exist and the parse fails |
| LocalTime.UnpaddedTime | run_import.py:122 | "7/9/2014" "8:05" is 08:05 on 2014-07-09 |
| Values.Get | api.py:102 | `d[k]` finds a value exactly when the key is present, and the value is one stored under it |
| Values.GetLast | api.py:102 | when a key occurs more than once, the value found is the one of its last occurrence, as in the dict `json.loads` builds |
| Values.Contains | api.py:97 | `k in v`: key membership on a dict; TypeError exactly for values that are not containers |
| Values.Subscript | api.py:102 | `v[k]` succeeds exactly on a dict with the key |

## Left out

- HTTP: Flask routing, `request.get_json` (a body that is not JSON), the error handler and the JSON responses. The model starts from the parsed body and stops at the result or exception.
- The network fetch in `import_from_url` (`requests.get`, `json.loads`) and the logging calls. The listing records are a parameter. A listing that is not a JSON object is not modelled.
- `suc_collection.remove()` in `run_import`: the model starts from an empty directory.
- The module-level script of import.py: only its `chargers` and loop body are modelled. import.py:59-62 is not part of this model.
- `datetime.now()` is the parameter `now`. `tz_zurich.localize` is not modelled: a bulk record keeps its wall-clock time, and the GET order converts it through the parameter `zurichToUtc`.
- MongoDB query evaluation. `find_one` is the first directory entry with the id. The bulk-import query is the parameter `matches`, standing for the `$regex` search for the escaped text with options "-i" (what Mongo makes of that options string is not interpreted). `$near` results for a lookup, and the regex title search, are not evaluated; `Lookup.Classify` returns the query only. The lookup result list and its JSON encoding are not modelled.
- BulkImport.Eligible: `raw.region` must equal "europe"; Mongo's matching of an array that contains "europe" is not modelled.
- Stations.MapListing: latitude and longitude are never converted by `float()`, and the directory keeps the listed values. So the exceptions of run_import.py:61-62 are not modelled: a ValueError for a text that is not a number, and a TypeError for None, a list, a dict or any other value `float()` does not take. The `res.Err? <==>` clause covers only the `title` and `chargers` errors.
- Floating point: the lookup keeps the matched coordinate texts, and `float()` is not applied to them.
- The `chargers` field of a listing: a text is passed to `chargers`, and any other value raises TypeError in `re.match`; which non-text values Python would accept there (buffers) is not distinguished.
- Stations.Chargers: `pattern_suc` and `pattern_dc` (run_import.py:18-19, import.py:10-11) are Python 3 text patterns, so their `\d` matches every Unicode decimal digit, and `int()` reads it. The model reads `\d` as an ASCII digit: "٣ Superchargers" gives 3 in Python and None here.
- Stations.CaptureIffCount: a capture and a count are over ASCII digits only, for the reason given for Stations.Chargers.
- Stations.CountIsGreedyCapture: the greedy capture is over ASCII digits only, for the reason given for Stations.Chargers.
- Lookup.Classify: `pattern_latlng` (api.py:22) is a Python 3 text pattern, so its `\d` matches every Unicode decimal digit, and `float()` reads such digits. The model reads `\d` as an ASCII digit, so a position written in other decimal digits is a title search here and a near query in Python.
- Lookup.DecimalPrefix: `\d+\.\d+` is matched over ASCII digits only, for the reason given for Lookup.Classify.
- Lookup.LatLngPrefix: `(\d+\.\d+),(\d+\.\d+)` is matched over ASCII digits only, for the reason given for Lookup.Classify.
- Api.PyInt: `int()` of a text is modelled as Python 3 reads it, on ASCII digits and ASCII white space only. Python 3 also accepts other Unicode decimal digits and Unicode spaces, and that is not modelled. For the same reason the `\d` and `\s` of the strptime patterns are read as ASCII. Floats in the body are not modelled.
- Python's cross-type equality (`1 == True`, `1 == 1.0`) in `validate_location` is not modelled: stall counts compare as integers and titles as values.
- Duplicate keys in a JSON body: a dict is a sequence of entries, and the last occurrence of a key gives its value, as `json.loads` keeps it. A dict with a repeated key keeps the key at its first position, and the model does not collapse the repeats.
- TimeFields.EncodeJson: the year is always written in four digits. Under glibc, CPython writes a year below 1000 without leading zeros, and that platform difference is not modelled.
- TimeFields.ConvertTimeFields: `convert_time_fields` is modelled as Python 2 runs it, walking the dict with `iteritems()`. The code base needs Python 3: run_import.py, which api.py imports, has non-ASCII literals and no coding line. Under Python 3, lib.py:12 raises AttributeError on every non-empty dict, because dicts have no `iteritems`. api.py imports the function but never calls it.
- The JSON encoder beyond datetimes: ObjectId becomes `str(o)`, which is not modelled.
- The check-in insert (`charging_collection.insert`) is assumed never to fail; the check-in store is an append-only sequence.
- ImportText.NeubergImport states the example through `Lines([NeubergRow])`, the text written from the example's fields, and not as the literal text of run_import.py:152. The second example line needs a station directory to mean anything and is not stated.
- The `static/` front end, Gruntfile.js and the database setup of config.py are not part of this model. Only the unique (type, locationId) index of config.py:33 is used.
