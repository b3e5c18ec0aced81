# Guangxi weather history — a verified model of its core

The system downloads hourly weather history for the cities of Guangxi from a
public weather API, stores it in SQLite, and serves it to two browser pages: a
query page (pick cities, dates and fields, see charts and a summary) and a
data-management page (batch download, completeness check, delete). It also
exports the data to Excel or CSV.

This project models the logic of that system in Dafny, module by module:

- `common.dfy` (`CommonUtils`) — the date-range check and the field-catalogue flattening shared by both pages;
- `app.dfy` (`App`) — the query page's selection state, the checks and dispatch of a query, the down-sampling for the charts and the page's own summariser;
- `data_management.dfy` (`DataManagement`) — the batch-download job with its re-entrance guard, cancel flag and progress, and the per-city loops of the completeness check, the delete preview and the delete;
- `data_manager.dfy` (`DataManager`) — the completeness report with the missing days grouped into runs, and the downloads of one city or of every enabled city;
- `analyzer.dfy` (`DataAnalyzer`) — the backend summary of hourly records and the per-city comparison;
- `cache.dfy` (`Cache`) — the `api_cache` table and its manager, with expiry;
- `city.dfy` (`Cities`) — the `city_config` table and its manager;
- `database.dfy` (`Database`) — the `weather_data` table: WHERE-clause building, query, delete, statistics and the upserting bulk insert;
- `weather_service.dfy` (`WeatherService`) — parsing the API's answer, the names asked of the API, the local-store rule, saving, the multi-city query and the region label;
- `exporter.dfy` (`Exporter`) — the exported columns, the weather-code text, the column widths and the summary and daily sheets;
- shared helpers: `wrappers.dfy` (`Option`, `Result`), `text.dfy` (SQLite's text order, joining, decimal text), `records.dfy` (hourly records and their reductions), `ordering.dfy` (ordering a set of ids).

Tables are maps held by classes whose methods change them. The browser's
global state is a class. A remote call's outcome is an input, and so is the
current instant. Dates are day numbers. Values are exact reals.

## Model

| member | source | states |
|---|---|---|
| CommonUtils.ValidateDateRange | frontend/js/common.js:41-49 | a range is accepted exactly when both dates are filled in and the start is not after the end; a missing date is reported first, with its own message, and a reversed range with the other |
| CommonUtils.GetAllFieldKeys | frontend/js/common.js:54-61 | no catalogue gives no keys; otherwise one key per field of every category, and a key is listed exactly when some category holds it |
| CommonUtils.ConcatLength | frontend/js/common.js:56-59 | the flattened list holds as many keys as all categories together |
| CommonUtils.ConcatHas | frontend/js/common.js:56-59 | a key is in the flattened list exactly when some category holds it |
| CommonUtils.ConcatAppend | frontend/js/common.js:57-59 | each category's keys form one block after the blocks of the categories before it |
| App.AppState.constructor | frontend/js/app.js:7-14 | the page starts with no city, no field and comparison mode off, a consistent state |
| App.AppState.UpdateSelectedCities | frontend/js/app.js:115-118 | the ticked cities become the selection in page order, comparison mode is on exactly when more than one is ticked, and the field selection is untouched |
| App.AppState.HandleFieldChange | frontend/js/app.js:291-301 | the field selection becomes the selection after ticking or clearing that one box |
| App.FieldChangeMembership | frontend/js/app.js:294-300 | after the change the field is selected exactly when its box is ticked, and every other field's membership is unchanged |
| App.FieldChangeCheckKeepsOrder | frontend/js/app.js:294-297 | ticking keeps the earlier selection as a prefix, so a new field goes last |
| App.RemoveConcat | frontend/js/app.js:299 | clearing a field keeps the other fields in their relative order |
| App.FieldChangeKeepsDistinct | frontend/js/app.js:294-300 | the selection never holds the same field twice |
| App.Remove | frontend/js/app.js:299 | the filtered list lacks the key, keeps every other key present before, and is no longer |
| App.AppState.Query | frontend/js/app.js:306-363 | no city, a missing date, a reversed range and no field are each rejected with their own message, in that order; otherwise a comparison of all selected cities in comparison mode, else a query for the first selected city, with the dates and fields as given |
| App.QueryMessagesDistinct | frontend/js/app.js:311-328 | the four rejection messages differ, so each names its cause |
| App.QueryDispatch | frontend/js/app.js:306-341 | with consistent state the page compares exactly when several cities are selected, and its date checks reject exactly the ranges the shared date-range helper rejects |
| App.CeilDivCover | frontend/js/app.js:523 | `ceil(n / b)` copies of `b` cover `n` with less than one `b` to spare |
| App.SampleCountBound | frontend/js/app.js:522-524 | with step `ceil(n / 500)` the number of kept records lies between 1 and 500 |
| App.EveryStepLength | frontend/js/app.js:524 | the filter keeps one record per multiple of the step |
| App.EveryStepAt | frontend/js/app.js:524 | the k-th kept record is the one at the k-th multiple of the step |
| App.SampleForChartsShape | frontend/js/app.js:520-529 | at most 500 points are drawn, the first record is always drawn, and the drawn records are those at positions k times `ceil(n / 500)` |
| App.SampleLength | frontend/js/app.js:520-529 | a non-empty listing draws between 1 and 500 points |
| App.SampleAt | frontend/js/app.js:520-529 | the k-th drawn point is the record at position k times `ceil(n / 500)`, and that position lies inside the listing |
| App.CalculateSummary | frontend/js/app.js:742-785 | null or empty records give `{}`; otherwise each group is present exactly when its field has a non-null value |
| App.ClientSummaryBounds | frontend/js/app.js:748-781 | the average temperature lies between the minimum and maximum, the average wind speed is at most the maximum, and rainy hours never exceed the hours with a precipitation value |
| App.RemoveKeepsDistinct | frontend/js/app.js:299 | clearing a field from a list without repeats leaves a list without repeats |
| DataManagement.PercentRounds | frontend/js/data-management.js:248 | the shown percentage is the integer nearest to the exact rational 100·completed/total, with a half rounded up (exact rational half-up rounding, not the floating-point product `Math.round` receives) |
| DataManagement.PercentBounds | frontend/js/data-management.js:248 | the percentage stays within 0..100; it is 0 before the first city finishes and 100 once every city has |
| DataManagement.PercentMonotone | frontend/js/data-management.js:248 | the percentage never goes down as more cities finish |
| DataManagement.StopPoint | frontend/js/data-management.js:186-190 | the number of cities requested is at most the number ticked; before the last city requested no cancel click happened; stopping early means a click happened while the last request was awaited |
| DataManagement.StopPointCases | frontend/js/data-management.js:186-190 | with no click every city is requested; the first click, during request j, stops the job after exactly j+1 cities, because the request in flight is never aborted |
| DataManagement.RunRequested | frontend/js/data-management.js:186-203 | after k requests the job has asked the backend for exactly the first k ticked cities, in order |
| DataManagement.RunProgress | frontend/js/data-management.js:192-195 | before request j the progress area showed j done, position j+1 of n, and the name of that city (or its id when the page does not know it) |
| DataManagement.ShownPercentRises | frontend/js/data-management.js:239-252 | the percentage shown before request i is Percent(i, n), lies in 0..100 and never decreases as the job goes on |
| DataManagement.RunErrors | frontend/js/data-management.js:204-212 | at most one error is shown per request; each error shown names a city whose request threw, with the exception's message; a non-success code is only logged |
| DataManagement.FailureMessageParts | frontend/js/data-management.js:210 | the error line starts with `下载 `, ends with the exception's message, and for the same message two lines are equal exactly when they name the city alike |
| DataManagement.LabelTexts | frontend/js/data-management.js:193 | a known city is shown by its name in both places; an unknown one is `ID:<id>` in the download messages and the bare id in the completeness list, and distinct unknown ids give distinct texts in each |
| DataManagement.DownloadState.constructor | frontend/js/data-management.js:7-13 | a fresh page state: no job, no cancel request, counters at zero |
| DataManagement.DownloadState.RequestCancel | frontend/js/data-management.js:66-69 | a click on the cancel button sets the cancel flag |
| DataManagement.DownloadState.NextCity | frontend/js/data-management.js:186-195 | before each city the cancel flag is read: the job ends when it is set or every city was attempted; otherwise the next city is recorded as requested, the progress shows it and the job awaits its request |
| DataManagement.DownloadState.StartBatchDownload | frontend/js/data-management.js:168-195 | a job over the given cities resets the flag, counts every city as a chunk and the counter at 0, and runs until its first request is awaited; with no city it ends at once |
| DataManagement.DownloadState.ReplyArrived | frontend/js/data-management.js:197-215 | the awaited reply shows an error only if the request threw, advances the counter by one whatever the outcome, keeps the counter within the total and leaves the flag as it was; then the next city is taken up unless the flag is set or no city is left |
| DataManagement.DownloadState.RunBatchDownload | frontend/js/data-management.js:168-218 | a whole job driven by the replies and by cancel clicks during requests ends idle with the counter at StopPoint, the flag set exactly when the last request saw a click, and what was requested, shown and reported equal to the record of a job over that many cities |
| DataManagement.DownloadState.HandleBatchDownload | frontend/js/data-management.js:124-143 | a click while a job awaits a request changes nothing; an invalid date range is refused with the validator's message and an empty selection with its own message, the state unchanged; otherwise a job starts over the ticked cities and is left awaiting its first request, so a further click is ignored |
| DataManagement.DownloadState.HandleDownloadAllCities | frontend/js/data-management.js:148-163 | as above without the selection check: a valid range always starts a job over every city the page knows, which is still running afterwards exactly when there is a city |
| DataManagement.HandleCheckCompleteness | frontend/js/data-management.js:258-323 | an invalid range or an empty selection is refused with its message; otherwise there is one line per ticked city, in order, each built from that city's reply alone and reading `missing_count` and `total_hours`, as the page does |
| DataManagement.CheckFailureIsolated | frontend/js/data-management.js:306-313 | a check that throws gives a failure line for that city with the exception's message, and the loop goes on |
| DataManagement.CheckItemWithoutMissingCount | frontend/js/data-management.js:294-302 | read as written, a report lacking `missing_count` and `total_hours` is never shown as complete and prints both numbers as undefined |
| DataManagement.CorrectedCheckItemComplete | frontend/js/data-management.js:294-302 | reading the report's `missing_days` and `total_days`, a city is shown complete exactly when no day is missing, and both numbers are printed |
| DataManagement.PreviewDetails | frontend/js/data-management.js:609-624 | the details list has at most one entry per city previewed |
| DataManagement.PreviewCountZeroIff | frontend/js/data-management.js:601-630 | the total is never negative; it is zero exactly when no reply has code 200 and a positive count; it is at least each counted reply's count |
| DataManagement.HandlePreviewDeleteData | frontend/js/data-management.js:576-663 | the preview is refused exactly when there is no target city (the ticked ones, or every city when none is ticked); otherwise it says nothing was found exactly when no reply counts, and else shows the positive total count, the total size and the details of the counted replies |
| DataManagement.SuccessCount | frontend/js/data-management.js:708-712 | the number of deletes that succeeded never exceeds the number attempted |
| DataManagement.HandleDeleteData | frontend/js/data-management.js:668-735 | with no city ticked, the user must first confirm acting on all cities; a request with neither date is refused; declining the final confirmation aborts; otherwise every target city is attempted, successes and failures add up to the number of targets, and the successes are exactly the replies with code 200 |
| DataManager.StartDayComparison | backend/services/data_manager.py:179-181 | the bare start date sorts before every timestamp of that day, so the start day's rows are all selected |
| DataManager.AsWrittenBoundExcludesEndDay | backend/services/data_manager.py:182 | with the end bound written as date plus " 23:59:59", no stored row of the end day passes the text comparison, whatever its time |
| DataManager.EndSuffixKeepsEndDay | backend/services/data_manager.py:179-184 | with the bound in the stored format (date, "T23:59"), an end-day row up to 23:59 that is not before the start passes the range query |
| DataManager.Selected | backend/services/data_manager.py:184 | the rows returned are exactly the stored rows the range query accepts, and there are no more of them than stored rows |
| DataManager.AsWrittenMissesEndDay | backend/services/data_manager.py:182-190 | as written, the end day is never among the days found in the store, however many rows it holds |
| DataManager.EndSuffixCountsEveryDay | backend/services/data_manager.py:182-190 | with the stored-format bound, every day of the range that holds a row is among the days found, the end day included |
| DataManager.ExpectedDays | backend/services/data_manager.py:193-199 | the expected days are exactly the days from start to end inclusive, and there are end−start+1 of them (none for a reversed range) |
| DataManager.ExistingDays | backend/services/data_manager.py:187-190 | a day is found exactly when some selected row falls on it |
| DataManager.GroupConsecutive | backend/services/data_manager.py:229-265 | the loop yields exactly the runs the grouping function defines |
| DataManager.GroupedShape | backend/services/data_manager.py:239-265 | no dates give no runs, and any dates give at least one; each run counts its own days |
| DataManager.GroupedRuns | backend/services/data_manager.py:229-265 | for strictly ascending dates, the runs are separated by gaps of more than one day, and laid end to end they give back exactly the dates |
| DataManager.GroupedRunsCover | backend/services/data_manager.py:248-262 | the runs' day counts add up to the number of dates, and a day is one of the dates exactly when some run covers it |
| DataManager.RateBounds | backend/services/data_manager.py:215 | the completeness rate is a percentage between 0 and 100, and for a non-empty range it is 100 exactly when every expected day exists |
| DataManager.CheckDataCompleteness | backend/services/data_manager.py:153-227 | an unknown city raises `城市ID <id> 不存在`; otherwise, with the upper bound as written, the report gives the city's name and range, the days expected, the rows selected, the days found and the days missing, each in ascending order, the counts and the rate, and the missing days as separated runs whose day counts sum to the missing count; over a non-empty range the end day is always missing and the rate below 100 |
| DataManager.CorrectedCheckDataCompleteness | backend/services/data_manager.py:153-227 | the same report with the bound in the stored format; over a non-empty range nothing is missing exactly when every day of the range holds a row |
| DataManager.BuildReport | backend/services/data_manager.py:178-220 | for any upper-bound suffix, the report for a known city satisfies every fact listed for CheckDataCompleteness about the rows that bound selects |
| DataManager.CountsOfReport | backend/services/data_manager.py:186-220 | a report built from the selected rows' days and the range's days names the city and the range, lists the stored days and the missing days of the range in ascending order, counts them so that they add up to the range's length, and carries the matching rate |
| DataManager.RunsOfReport | backend/services/data_manager.py:202-206 | the runs of the ascending missing days are separated, expand back to exactly the missing days, and their day counts sum to the missing count |
| DataManager.ExistingAreStored | backend/services/data_manager.py:184-190 | the days collected from the selected rows are the days of the store that the range query reaches |
| DataManager.ReportCompleteIff | backend/services/data_manager.py:202-215 | a report over a non-empty range has no missing day exactly when every day holds a stored row, and its rate is 100 exactly then |
| DataManager.AsWrittenNeverComplete | backend/services/data_manager.py:182-214 | with the bound as written, every report over a non-empty range lists the end day as missing, so no city is ever complete |
| DataManager.Download | backend/services/data_manager.py:59-100 | a download fails exactly when the city is unknown, the fetch raised or the save raised, each with its reason; otherwise it reports the city's name, the range, the records fetched and the records saved |
| DataManager.DownloadMessageReadsBack | backend/services/data_manager.py:89-99 | only a successful download's message leads with `成功下载并保存 `, and the saved count reads back from its digits |
| DataManager.BatchDownload | backend/services/data_manager.py:40-100 | the same, over the manager's table of cities (enabled or not) |
| DataManager.BatchDownloadAllCities | backend/services/data_manager.py:102-144 | one result per enabled city, in list order, each that city's own download; the success count and the saved total come from exactly those results |
| DataManager.AllCitiesMessageReadsBack | backend/services/data_manager.py:143 | two all-cities results give the same message exactly when their success counts and city counts agree, so the message reads back both numbers |
| DataManager.DownloadEach | backend/services/data_manager.py:124-133 | the loop yields one result per listed city, in order, and adds up the records saved by the successful ones |
| DataManager.SavedTotalSnoc | backend/services/data_manager.py:132-133 | appending a result adds its saved records to the total only when it succeeded |
| DataManager.CountSuccesses | backend/services/data_manager.py:135 | the count is the number of successful results |
| DataManager.SuccessCountBounds | backend/services/data_manager.py:135-143 | at most every city succeeds, and all do exactly when no result failed |
| DataManager.AllCitiesFailuresAreRaised | backend/services/data_manager.py:120-133 | a listed city is always known, so in the all-cities run a city succeeds exactly when its own fetch and save both succeeded |
| DataManager.EndDayComparison | backend/services/data_manager.py:179-182 | on the row's own date, the range query's text comparison is decided by the time part against the bound's suffix alone |
| DataManager.ExpandMembers | backend/services/data_manager.py:248-262 | a day lies in the expanded runs exactly when some run's start ≤ day ≤ end |
| DataAnalyzer.CalculateSummary | backend/services/data_analyzer.py:57-58 | no records give the empty summary, with every group absent |
| DataAnalyzer.GroupPresentIff | backend/services/data_analyzer.py:65-67 | a field's column data is reported exactly when the field has at least one non-null value, and it is then exactly those values in record order |
| DataAnalyzer.SpreadBounds | backend/services/data_analyzer.py:68-72 | every reported group's average lies between its minimum and its maximum |
| DataAnalyzer.SummaryProperties | backend/services/data_analyzer.py:60-126 | each of the six groups is present exactly when its field has a non-null value; temperature has min ≤ avg ≤ max; rainy hours are the precipitation values strictly above 0, never more than the hours with a value; the kWh total is the Wh total divided by 1000 |
| DataAnalyzer.ClientAgreesWithServer | backend/services/data_analyzer.py:60-106 | the page's own summary and the server's report the same temperature, precipitation, wind and radiation groups, with equal averages, extremes, totals and rainy-hour counts |
| DataAnalyzer.CompareCities | backend/services/data_analyzer.py:241-259 | the loop yields the comparison map that its reference definition builds entry by entry |
| DataAnalyzer.ComparisonKeys | backend/services/data_analyzer.py:247-256 | a city name is a key of the comparison exactly when some entry has that non-empty name and non-empty data; empty input gives no keys |
| DataAnalyzer.ComparisonLastWins | backend/services/data_analyzer.py:255-256 | a qualifying entry that no later qualifying entry of the same name follows decides that name's summary |
| DataAnalyzer.PresentHasColumn | backend/services/data_analyzer.py:65-67 | a field with a non-null value is among the table's columns |
| Cache.Lookup | backend/services/cache_manager.py:62-84 | a key yields its stored value exactly when it is present and the current instant has not passed its expiry; the expiry instant itself still counts as fresh |
| Cache.AfterGet | backend/services/cache_manager.py:74-79 | a read deletes the key exactly when the key is present and stale, and otherwise leaves the store as it was |
| Cache.Put | backend/services/cache_manager.py:112-119 | writing a key stores the new value and expiry under it, replacing any old row, and leaves every other key as it was |
| Cache.StaleKeys | backend/services/cache_manager.py:180-183 | the rows removed by clearing are exactly those whose expiry is strictly before now |
| Cache.Unexpired | backend/services/cache_manager.py:180-183 | after clearing, exactly the rows whose expiry is not before now remain, unchanged |
| Cache.ValidKeys | backend/services/cache_manager.py:221-223 | the rows counted as valid are exactly those whose expiry is strictly after now |
| Cache.CacheManager.constructor | backend/services/cache_manager.py:22-31 | a manager over the given table whose expiry is the hours given, or 720 hours when none are given |
| Cache.CacheManager.Get | backend/services/cache_manager.py:52-84 | the answer is the lookup on the table before the call, and a stale row read is deleted, nothing else changing |
| Cache.CacheManager.Set | backend/services/cache_manager.py:90-121 | the write succeeds and stores the value until now plus the given hours, or plus the manager's default hours when none are given |
| Cache.CacheManager.IsExpired | backend/services/cache_manager.py:126-145 | a key is expired exactly when a lookup now would find nothing; a missing key counts as expired |
| Cache.CacheManager.DeleteCache | backend/services/cache_manager.py:151-168 | deleting reports success exactly when the key was present, and afterwards the key is gone and nothing else has changed |
| Cache.CacheManager.ClearExpired | backend/services/cache_manager.py:173-185 | the rows whose expiry is before now are removed and counted; every other row stays |
| Cache.CacheManager.ClearAll | backend/services/cache_manager.py:190-202 | every row is removed, and the count is the number of rows there were |
| Cache.CacheManager.GetCacheStats | backend/services/cache_manager.py:207-233 | total is the number of rows, valid the number not yet expired (never more than total), expired the rest, and the manager's expiry hours are reported |
| Cache.PutThenLookup | backend/services/cache_manager.py:90-124 | a value written is read back unchanged until its expiry, and writing one key does not change what another key reads |
| Cache.PutReplaces | backend/services/cache_manager.py:119 | writing a key twice leaves only the second value and expiry |
| Cache.ClearExpiredKeepsFresh | backend/services/cache_manager.py:180-183 | clearing changes no read made at the same instant, and the rows removed plus the rows kept are all the rows |
| Cache.ExpiryInstant | backend/services/cache_manager.py:75-223 | at its exact expiry instant a row is still read and is not cleared, yet the statistics count it as expired, since valid means strictly after |
| Cities.Select | backend/models/city.py:51 | a select returns every row the condition accepts and nothing else, each as stored, by strictly increasing id |
| Cities.NextId | backend/models/city.py:141-143 | the id given to a new city is larger than every id in use |
| Cities.CityManager.constructor | backend/models/city.py:19-27 | a manager over a table whose rows sit under their own ids and whose names are unique |
| Cities.CityManager.GetAllCities | backend/models/city.py:44-58 | exactly the enabled cities, each as stored, by increasing id |
| Cities.CityManager.GetCityById | backend/models/city.py:60-81 | a city is found exactly when its id is in the table, enabled or not, and it is that row |
| Cities.CityManager.GetCityByName | backend/models/city.py:83-104 | a city is found exactly when some row has that name, enabled or not, and the row found has it |
| Cities.CityManager.GetCoordinates | backend/models/city.py:106-119 | the coordinates are given, as (longitude, latitude), exactly for a known id |
| Cities.CityManager.GetCitiesByRegion | backend/models/city.py:187-201 | exactly the enabled cities of that region, by increasing id |
| Cities.CityManager.AddCity | backend/models/city.py:121-161 | a name already present gives back that city's id and changes nothing, even when that city is disabled; a new name is inserted, enabled, under the next id, in the region given or else 广西, and nothing else changes; names stay unique |
| Cities.CityManager.UpdateCityStatus | backend/models/city.py:163-185 | the flag is updated, and true returned, exactly when the id exists; only that row's flag changes, and an unknown id changes nothing |
| Cities.DisabledFoundButNotListed | backend/models/city.py:44-81 | a disabled city is still found by id but is never in the list of cities |
| Cities.NextIdIsFresh | backend/models/city.py:141-143 | the next id is never in use, and it is 1 for an empty table |
| Database.BuildConditions | backend/models/database.py:276-290 | one condition per filter key present, in the order city, start, end, each bound to its own value; a row satisfies them all exactly when it matches the filter (city equal, both date bounds inclusive); there are no conditions exactly when the filter has no key |
| Database.AllHoldConcat | backend/models/database.py:291 | a row satisfies conditions joined with AND exactly when it satisfies both halves |
| Database.WhereClause | backend/models/database.py:291 | no condition gives "1=1"; otherwise the condition texts joined by " AND " |
| Database.SqlTexts | backend/models/database.py:280-288 | one SQL fragment per condition, in order |
| Database.Matching | backend/models/database.py:272-294 | the keys selected are exactly those of the rows the filter matches |
| Database.Remaining | backend/models/database.py:321-328 | after a delete exactly the rows the filter does not match remain, unchanged |
| Database.InsertInTimeOrder | backend/models/database.py:292 | placing a row into rows ordered by timestamp keeps them ordered, adds just that row and drops none |
| Database.TimeOrderAll | backend/models/database.py:292 | rows ordered neighbour by neighbour are ordered for every pair |
| Database.CollectStep | backend/models/database.py:292-294 | each row the scan selects is placed once among the rows collected so far |
| Database.CollectedInOrder | backend/models/database.py:292-294 | the collected rows are exactly the selected rows, each once and as stored, in non-decreasing timestamp order |
| Database.UpsertLastWins | backend/models/database.py:227-232 | after a batch of `INSERT OR REPLACE`, a key holds the last row given for it |
| Database.UpsertKeepsOthers | backend/models/database.py:227-232 | a key that no row of the batch mentions keeps its old row, or stays absent |
| Database.ToRow | backend/models/database.py:227-230 | a record becomes a row keyed by its integer `city_id` and text `datetime`, holding every other column |
| Database.Project | backend/models/database.py:223-230 | each record is cut down to the first record's columns, keeping their values |
| Database.WeatherTable.constructor | backend/models/database.py:26-35 | a table holding the given rows |
| Database.WeatherTable.GetWeatherData | backend/models/database.py:272-294 | the result holds every row the filter selects, each once and as stored, and nothing else, ordered by timestamp |
| Database.WeatherTable.DeleteWeatherData | backend/models/database.py:296-328 | with no filter key nothing is deleted and 0 is returned; otherwise exactly the matching rows are deleted and counted |
| Database.WeatherTable.GetWeatherDataStats | backend/models/database.py:330-371 | the count is the number of selected rows; the first and last timestamps are absent exactly when nothing is selected, and are otherwise the least and the greatest selected timestamps |
| Database.WeatherTable.BulkInsert | backend/models/database.py:211-244 | no records insert nothing and return 0; a later record lacking a column of the first fails with the table unchanged; otherwise every record is upserted in order under its (city, timestamp) key, cut to the first record's columns, and the count is the number of records |
| Database.NewRows | backend/models/database.py:230-232 | one row per record, in order |
| Database.DeleteLeavesNoMatch | backend/models/database.py:321-328 | after a delete the filter selects nothing, and every row it did not match is as it was |
| Records.Present | backend/services/data_analyzer.py:66 | dropping the nulls of a column never yields more values than records |
| Records.PresentEmptyIff | backend/services/data_analyzer.py:66-67 | a column has no value left after dropping nulls exactly when every record's value is null or absent |
| Records.MaxOf | backend/services/data_analyzer.py:70 | the maximum is one of the values and no value exceeds it |
| Records.MinOf | backend/services/data_analyzer.py:71 | the minimum is one of the values and no value is below it |
| Records.CountPositive | backend/services/data_analyzer.py:83 | the rainy hours never outnumber the values |
| Records.MeanAtLeastMin | backend/services/data_analyzer.py:69-71 | a field's average is never below its minimum |
| Records.MeanAtMostMax | backend/services/data_analyzer.py:69-70 | a field's average is never above its maximum |
| Ordering.SortedSet | backend/services/data_manager.py:202-203 | `sorted` of a set of days lists exactly its members, in strictly increasing order |
| Ordering.SortedSetLength | backend/services/data_manager.py:202-203 | the sorted listing has one entry per member of the set |
| Ordering.SetMax | backend/models/city.py:141-143 | `MAX(id)` is one of the ids and no id exceeds it |
| Text.LexLeTransitive | backend/models/database.py:292 | SQLite's text order on timestamps is transitive, so `ORDER BY datetime` is a consistent order |
| Text.LexLeTotal | backend/models/database.py:292 | any two timestamps compare one way or the other |
| Text.LexLeCommonPrefix | backend/services/data_manager.py:179-182 | two timestamps on the same date compare as the text after the date does |
| Text.FirstCharDecides | backend/services/data_manager.py:182 | the first differing character decides a text comparison, whatever follows it |
| Text.JoinLength | backend/services/weather_service.py:49-50 | a joined label is as long as its parts plus one separator between each pair |
| Text.NatToDecimal | backend/services/data_exporter.py:177 | a number's decimal text is non-empty and made only of digits |
| Text.DecimalRoundTrip | backend/services/data_exporter.py:177 | reading a number's decimal text back gives the number, so the rendering loses nothing |
| Text.LexLeAntisymmetric | backend/models/database.py:292 | two timestamps that each sort no later than the other are the same text |
| WeatherService.ApiKeyFirstGroup | backend/services/weather_service.py:361-365 | a field's API name is decided by the first catalogue group that holds the field: its `api_param`, or the field's own name |
| WeatherService.ApiKeyUnknown | backend/services/weather_service.py:361-365 | a field that no group holds is sent under its own name |
| WeatherService.LookupApiName | backend/services/weather_service.py:298-307 | the loop over the groups, stopping at the first that holds the field, gives the field's API name |
| WeatherService.HourlyParameter | backend/services/weather_service.py:296-309 | the `hourly` parameter lists one API name per field, in the order the fields were given, joined by commas |
| WeatherService.ApiNamesUnknown | backend/services/weather_service.py:306-307 | when the catalogue knows none of the fields, the API is asked for them by their own names |
| WeatherService.BuildRecord | backend/services/weather_service.py:356-370 | an hour's record fails exactly when some requested field's column exists but ends before that hour; otherwise it holds the hour's timestamp and each requested field's value, null for a column the answer lacks |
| WeatherService.ParseResponse | backend/services/weather_service.py:339-379 | the parse raises exactly when some requested column is shorter than the timestamps; otherwise there is one record per timestamp, in order |
| WeatherService.ParsedFields | backend/services/weather_service.py:355-372 | every parsed record carries its own timestamp and exactly the requested fields |
| WeatherService.KeepRequested | backend/services/weather_service.py:168-171 | each record is cut down to the requested fields and its timestamp, in order |
| WeatherService.OnlyAfterParse | backend/services/weather_service.py:189-211 | parsing with the extra fields and then cutting down gives exactly what parsing only the requested fields would give, and a parse that succeeds with more fields succeeds with fewer |
| WeatherService.HistoricalWeather | backend/services/weather_service.py:113-221 | the stored rows answer exactly when a city id is given, the store query succeeds and it holds at least the expected hours; otherwise a cached answer, cut to the requested fields when more were asked for; otherwise the parsed API answer, cut likewise; the call fails exactly when neither store nor cache answers and the fetch fails or comes back short |
| WeatherService.ExpectedHoursPerDay | backend/services/weather_service.py:127-131 | a range of n days expects 24·n hours; a reversed range expects none, so the store answers even when it holds nothing |
| WeatherService.DbRecordRow | backend/services/weather_service.py:413-423 | a record with no `city_id` field becomes the row keyed by the city and its timestamp, holding exactly the record's values |
| WeatherService.SaveToDatabase | backend/services/weather_service.py:397-435 | no records save nothing and return 0; a failed insert leaves the table unchanged; records with the same fields and no `city_id` field are all upserted in order under (city, timestamp), and the count is the number of records |
| WeatherService.SameKeysProject | backend/services/weather_service.py:413-427 | records with the same fields make rows with the same columns, which the batch insert keeps whole |
| WeatherService.SavedRowHolds | backend/services/weather_service.py:413-429 | after a save, a record's row holds its values unless a later record has the same timestamp |
| WeatherService.BatchQueryCities | backend/services/weather_service.py:242-271 | the loop yields the answers its reference definition lists: for each id in turn, one answer when the city exists and its query succeeded |
| WeatherService.QueriedEntries | backend/services/weather_service.py:244-268 | there are at most as many answers as ids, and each answer is a known city's, under its stored name, with its own query's records |
| WeatherService.QueriedAll | backend/services/weather_service.py:244-268 | when every city exists and every query succeeds, there is one answer per id, in the ids' order |
| WeatherService.NonEmpty | backend/services/weather_service.py:49 | the parts kept are exactly the non-empty ones, never more than were given |
| WeatherService.NonEmptyKeepsAll | backend/services/weather_service.py:49 | with no empty part, nothing is dropped |
| WeatherService.RegionLabelParts | backend/services/weather_service.py:44-50 | a region label is empty exactly when the country and all three administrative levels are; with all present it reads country > admin1 > admin2 > admin3 |
| WeatherService.RegionLabelEmpty | backend/services/weather_service.py:44-50 | a region label is empty exactly when all four parts are |
| WeatherService.RegionLabelFull | backend/services/weather_service.py:44-50 | with all four parts present the label is country > admin1 > admin2 > admin3 |
| WeatherService.SearchCity | backend/services/weather_service.py:25-66 | a failed search gives no hits; otherwise one hit per place found, in order, each with its region label |
| Exporter.RecordKeys | backend/services/data_exporter.py:157 | the table's columns from the records are exactly the fields some record has |
| Exporter.SelectColumns | backend/services/data_exporter.py:192-196 | the selection yields the helper columns the table has, then one pass over the weather columns in their fixed order |
| Exporter.AppendAllowed | backend/services/data_exporter.py:193-196 | the pass appends, in order, exactly the columns that the table has and that the fields allow |
| Exporter.KeepAllowedMembers | backend/services/data_exporter.py:192-196 | a column is kept exactly when it is one of those passed over, the table has it, and the fields allow it (no list of fields allows every column) |
| Exporter.KeepAllowedOrder | backend/services/data_exporter.py:193-196 | the kept columns appear in the order of the list passed over |
| Exporter.ExportColumnsMembers | backend/services/data_exporter.py:181-201 | an exported column is either a helper column the table has, or a weather column the table has that the fields allow; nothing else is exported |
| Exporter.DatetimeNeverExported | backend/services/data_exporter.py:181-201 | the raw timestamp is never exported, whatever the fields ask for |
| Exporter.CityColumnIff | backend/services/data_exporter.py:160-167 | when no record has its own `city` field, there is a city column exactly when a non-empty city name is given; the date and time columns are always there |
| Exporter.Truncate | backend/services/data_exporter.py:177 | `int()` of a code cuts off the fraction toward zero |
| Exporter.CodeCell | backend/services/data_exporter.py:177 | a weather-code cell is null exactly when the code is null |
| Exporter.CodeTextReadsBack | backend/services/data_exporter.py:170-177 | a code's text is its truncated number, which reads back as the code, then the code's label in parentheses, "未知" for a code without one |
| Exporter.WeatherLabelsKnown | backend/services/data_exporter.py:171-177 | exactly the 19 mapped codes have a label of their own, every other code reads "未知"; 3.7 reads as code 3, overcast, and −0.5 as code 0 |
| Exporter.FormatData | backend/services/data_exporter.py:137-211 | no records give an empty table; the formatting fails exactly when some timestamp cannot be read; otherwise there is one row per record, each with one cell per exported column, under the columns' Chinese headers |
| Exporter.FormatDataValues | backend/services/data_exporter.py:170-201 | in an exported weather column a record's cell is its value, null exactly when it has none; in the weather-code column it is the code's text, a null staying null |
| Exporter.ColumnWidth | backend/services/data_exporter.py:75-85 | a column's width is the smaller of the cap and two more than its longest text (2 for no text), the cap being 50 for the data sheet and 30 for the summary sheet at line 301 |
| Exporter.LongestBounds | backend/services/data_exporter.py:77-83 | no text is longer than the longest length found, and some text has that length unless it is 0 |
| Exporter.NonNull | backend/services/data_exporter.py:268-271 | the non-null values are never more than the column's cells, and there are none exactly when every cell is null |
| Exporter.SummaryOrdered | backend/services/data_exporter.py:264-273 | a summary row names its column; its statistics are null exactly when the column is all null, and otherwise min ≤ mean ≤ max |
| Exporter.SheetsOfExport | backend/services/data_exporter.py:59-89 | a non-empty export asked for a summary has the data, summary and daily sheets, in that order, because the date column is always exported; without a summary it has only the data sheet |
| Exporter.DateColumnExported | backend/services/data_exporter.py:137-221 | a non-empty export has rows and a `日期` (date) column, whatever fields are asked for |
| Exporter.SummedColumns | backend/services/data_exporter.py:330-340 | the daily sheet sums precipitation, rain, evapotranspiration and the four radiation columns |
| Exporter.AveragedColumns | backend/services/data_exporter.py:327 | the daily sheet averages temperature, humidity, dew point, snowfall, pressure, cloud cover, and soil temperature and moisture |
| Exporter.AveragedWindColumns | backend/services/data_exporter.py:327 | the daily sheet averages the wind speed, direction and gust columns |
| Exporter.GroupValues | backend/services/data_exporter.py:322-327 | a group never has more values than the column |
| Exporter.GroupValuesMembers | backend/services/data_exporter.py:322-338 | a group's values are exactly the column's values on the rows of that date (and city, when there is a city column) |
| Exporter.DailyValueBounds | backend/services/data_exporter.py:327-340 | a summed column always has a daily value; a mean lies between the group's smallest and largest value; a sum of amounts that are never negative is at least each of them |

## Left out

- HTTP and the network: the API requests, the page's fetch wrapper and the Flask routes. Every awaited or fetched outcome is an input of the model.
- The DOM: `innerHTML` rendering, `alert`, the `setTimeout` hides, Chart.js and the health polling. The `confirm` dialogs' answers are inputs.
- Floating point: `round(…, 2)`, `toFixed` and the pandas standard deviation. Values are exact reals, so the 2-decimal rounding is not part of any contract. The progress percentage alone is rounded, on integers.
- `calculate_daily_avg`, `detect_anomalies` and `calculate_trends` of the analyzer: pandas groupby and rolling over floats.
- DataAnalyzer.CalculateSummary: the `except` fallback that returns an empty summary when summarising raises is not modelled; the model's reductions cannot raise.
- SQLite plumbing: connections, cursors, and the schema and migrations of `init_database`. The tables are maps.
- The MD5 key of `generate_cache_key`. Cache keys are plain strings.
- The wall clock. The current instant `now` and the current day are parameters.
- The Excel and CSV bytes, `export_to_csv`, and the styling of the sheets.
- The shutdown thread, the bootstrap scripts and `init_cities`.
- `auto_update_latest_data` and `get_data_statistics` of the data manager: they only call the modelled download and query with dates from the clock.
- DataManager.BatchDownloadAllCities: the outer `try`/`except`, which catches a failure of the city listing itself, is not modelled. The enabled cities are an input.
- Malformed date text. Dates are day numbers, and a stored timestamp is its date's text, then `T`, then the time.
- PercentRounds: the percentage is exact rational half-up rounding of 100·completed/total. `Math.round((completed / total) * 100)` rounds the floating-point product instead, which can land just below a half: for 23 of 40 the page shows 57 where the model has 58, and for 29 of 200 it shows 14 where the model has 15.
- DataManager.CheckDataCompleteness: the rate is exact and not rounded to two decimals; it is 0 when no day is expected, as the source has it.
- WeatherService.HistoricalWeather: the fetched field list is `list(set(...))`, whose order Python does not fix. The model takes that list as an input, `requested`.
- WeatherService.ParseResponse: the answer's latitude, longitude, elevation and timezone are not carried. A `time` entry used as a field name is not treated specially.
- WeatherService.SearchCity: a region part that is absent or null in the answer is modelled as the empty text, which the label skips as the source does. A hit's latitude and longitude are not carried.
- WeatherService.HistoricalWeather: the cache write and the save to the database after a fetch are side effects that do not change the answer. They are not modelled; a failure of the save is not fatal in the source either.
- WeatherService.SaveToDatabase: the rows it writes are stated only when every record has the same keys and none has its own `city_id`. Otherwise the model states only the count.
- Exporter.FormatData: `pd.to_datetime` is the `parse` parameter. Which columns pandas counts as numeric is not modelled; the weather code is text once formatted.
- Exporter.GroupValues: the layout and order of the rows that `groupby` produces are not modelled. The model states which values form each group.
- Database.ToRow: SQLite's type affinity is not modelled. A `city_id` given as text or as a real, or a `datetime` given as a number, makes the model's insert fail, where SQLite would convert it and succeed.
- Database.WeatherTable.BulkInsert: a column the `weather_data` table does not have is kept in the model's row, where SQLite rejects the insert with an OperationalError. The table's column list is not modelled.
- Exporter.ColumnWidth: the cell texts that `str()` renders are its input.
- Exporter.SummedColumns, Exporter.AveragedColumns and Exporter.AveragedWindColumns: the Chinese headers are checked on the literal header names.

## Findings

| source | as written | input that shows it | evidently intended | confidence | as-written member | corrected member |
|---|---|---|---|---|---|---|
| backend/services/data_manager.py:182 | the upper bound of the range query is `end_date + ' 23:59:59'`, but stored timestamps are written `YYYY-MM-DDTHH:MM`; a space sorts before `T`, so no row of the end day is ever selected | a city with all 24 hours of 2024-01-01 stored, checked for 2024-01-01 to 2024-01-01: the day is reported missing and the rate is 0 | every stored hour of the end day counts, so a fully stored range is complete | not executed | DataManager.CheckDataCompleteness, DataManager.AsWrittenMissesEndDay, DataManager.AsWrittenNeverComplete | DataManager.CorrectedCheckDataCompleteness, DataManager.EndSuffixCountsEveryDay, DataManager.EndSuffixKeepsEndDay |
| frontend/js/data-management.js:295-302 | the page reads `missing_count` and `total_hours` from the completeness report, but the report carries `missing_days` and `total_days`; every city is shown as incomplete, with an undefined count | any city whose report has `missing_days` = 0 | a city shows as complete exactly when its report has no missing day | not executed | DataManagement.HandleCheckCompleteness, DataManagement.CheckItemWithoutMissingCount | DataManagement.CorrectedCheckItemComplete |
