# Slips evidence dashboard: a Dafny model

The dashboard shows the evidences that the Slips network IDS publishes as STIX
indicators on a TAXII server. It has two parts, and this project models the
core of each.

**The service (`dashboard_data.py`)** does the following:

- It finds the alerts API root and the alerts collection on the TAXII server.
- It reads every page of the collection's objects.
- It turns each STIX `indicator` into an evidence record. A record carries a
  normalized severity, its rank, and its time.
- It sorts the records with the most severe first, then by descending
  `sort_ts` text (newest first when all times share one UTC offset).
- It answers with a payload. The payload holds a per-minute timeline, a
  per-host summary and the summary counters. When anything fails, it holds an
  error instead.

Five modules model the service:

- `Severity`: the rank table and severity normalization.
- `Indicators`: record preparation and its order.
- `IpSummary`: the per-host summary.
- `Taxii`: API-root discovery, collection choice, the page query, the objects
  URL and the page crawl.
- `Payload`: the timeline, the counters and the payload, together with the
  discrepancies in how `get_dashboard_payload` wires these together.

**The browser engine (`static/js/dashboard.js`)** keeps one `state` object.
It polls the service and decorates each payload evidence:

- its observed time;
- its created and modified dates;
- its time difference;
- its local `YYYY-MM-DD` day key.

From these records it derives:

- the filtered and sorted table, with host, day and severity filters;
- the per-minute chart;
- a month-by-month activity calendar.

Each user action (a column header, a host, a calendar cell or arrow, a
severity button, the grouping toggle) changes one choice. The derived views
are then recomputed.

These modules model the browser engine:

- `Records`: decoration and the time-difference column.
- `Views`: filters, sorting, grouping, the chart and the filter badge.
- `Calendar`: rebuildCalendar, the day tones and the page arithmetic.
- `Dashboard`: the `state` object as the class `DashboardState`.

`DashboardState` has one method per handler. Its invariant `Valid()` states
three things:

- the table, the chart and the calendar are the functions named above, applied
  to the records and the current choices; the calendar is the corrected
  rebuildCalendar (`Calendar.CalendarOf`), which counts a "total" severity
  once and builds its days in the record's own year (see "## Findings");
- the selected severities hold no duplicates;
- the calendar page lies in range.

Every handler keeps `Valid()`. It also says which choice it changed and that
nothing else changed.

The remaining modules are shared: `Dates` (abstract JavaScript dates and
calendar arithmetic), `Strings`, `Sequences` (filter and a stable insertion
sort), `Tally` (a histogram loop) and `Wrappers`.

The code keys things by strings: `YYYY-MM` for months and `YYYY-MM-DD` for
days. The model keys them by values. `Calendar.CodeKeysAgree`,
`Calendar.MonthKeyInjective` and `Dates.DayKeyInjective` prove that the two
choices select the same entries.

Where the code does something other than its names and comments suggest, the
model follows the code:

- **Severity rank.** A higher `severity_rank` is more severe: critical is 5
  and info is 1.
- **Missing time difference.** A time difference that cannot be computed sorts
  last when ascending and first when descending. The `MAX_SAFE_INTEGER`
  sentinel causes this (`Views.UnknownTimeDiffSortsLast`).
- **Refresh.** A refresh re-derives the table and the chart, and always turns
  the calendar to its last month.
- **Next-month arrow.** With no months, the arrow sets the page index to -1
  (`Calendar.NextIndex`, `Dashboard.DashboardState.NextMonth`).
- **initSorting.** As written, it reverses the default sort. This is finding 1.

## Model

| member | source | states |
|---|---|---|
| Severity.RankTable | dashboard_data.py:16-17 | a level has a rank exactly when it is one of the five levels, and its rank is five minus its position in the order |
| Severity.SeverityRank | dashboard_data.py:122-125 | the rank is between 0 and 5; it is positive exactly for a non-empty level whose lower-case form is listed, and then it is that level's table rank |
| Severity.RankFollowsOrder | dashboard_data.py:16-17 | a level earlier in the severity order has a strictly higher, positive rank |
| Severity.RankIgnoresCase | dashboard_data.py:125 | a level and its lower-case form have the same rank |
| Severity.FirstKnownLabel | dashboard_data.py:132-136 | finds the first label whose lower-case form is a known level; there is none exactly when no label is a known level |
| Severity.NormalizeSeverity | dashboard_data.py:128-137 | a non-empty threat level wins, lower-cased; otherwise the result is the first label that is a known level, and "info" when no label is one |
| Severity.NormalizedWithoutLevelIsRanked | dashboard_data.py:132-137 | without a threat level the normalized severity always has a positive rank |
| Strings.Lower | dashboard_data.py:125 | keeps the length and maps each character to lower case |
| Strings.LowerIdempotent | dashboard_data.py:131 | lower-casing twice is lower-casing once |
| Strings.RStrip | dashboard_data.py:52 | rstrip(c) is the longest prefix that does not end in c, and it removes only c characters |
| Strings.LessTransitive | static/js/dashboard.js:207-208 | string `<` is transitive |
| Strings.LessTrichotomy | static/js/dashboard.js:207-208 | any two strings are equal or ordered one way |
| Strings.LessAsymmetric | static/js/dashboard.js:207-208 | no two strings are ordered both ways |
| Strings.Pad2 | static/js/dashboard.js:19 | padStart(2, "0") leaves two or more characters alone and left-pads shorter text with zeros to length two |
| Strings.IntToStringRoundTrip | static/js/dashboard.js:21 | the decimal text of an integer reads back as that integer |
| Strings.ParseNatToString | static/js/dashboard.js:31 | the decimal text of a natural number reads back as that number |
| Indicators.Or | dashboard_data.py:141 | `a or b`: a when truthy, b otherwise |
| Indicators.ReplaceZ | dashboard_data.py:146 | replacing "Z" leaves no "Z", and changes nothing in text without one |
| Indicators.IsoText | dashboard_data.py:145-146 | only text ending in "Z" is rewritten, and then no "Z" remains |
| Indicators.ParseWhen | dashboard_data.py:140-152 | valid_from is used, else created; either is parsed as ISO text; with neither, or unparsable text, the result is now |
| Indicators.PrepareOne | dashboard_data.py:207-229 | the record's severity is SeverityOf, its rank is that severity's rank, sort_ts is the parsed time, the timestamp is valid_from or created or sort_ts, the id is the evidence id or the STIX id, and every other field is copied from the key the code reads: name, description, pattern, host, direction, victim and ports as they are, flow_uids and labels with [] when absent |
| Indicators.PreparedIsFilterMap | dashboard_data.py:204-206 | only indicator objects are prepared, one record each, in their order |
| Indicators.Prepared | dashboard_data.py:204-206 | never more records than objects |
| Indicators.MostSevereNewestFirstTotal | dashboard_data.py:231-238 | the reverse (severity_rank, sort_ts) key order is a total preorder |
| Indicators.MostSevereNewestFirstTies | dashboard_data.py:233-236 | two records tie exactly when rank and sort_ts are equal |
| Indicators.PrepareEvidences | dashboard_data.py:202-238 | the result is the prepared records, permuted and sorted most severe first and, within a rank, by descending sort_ts text |
| Indicators.PreparedTiesKeepOrder | dashboard_data.py:231-238 | records with equal keys keep their relative order, since sorted with reverse=True is stable |
| IpSummary.HitsCount | dashboard_data.py:178-188 | the number of records at a host is the number of times its IP occurs |
| IpSummary.LastTruthyIndex | dashboard_data.py:189-190 | finds the last record with a truthy value, or reports that none has one |
| IpSummary.LatestTruthyIsLatest | dashboard_data.py:189-190 | `value or entry[...]` keeps the latest truthy direction or victim, else the first record's value |
| IpSummary.TopIndexIsFirstMaximum | dashboard_data.py:191-193 | the top severity comes from the first record of maximal rank |
| IpSummary.EntryForMeaning | dashboard_data.py:178-193 | a host's entry counts its records, takes the first maximal-rank record's severity and rank, and the latest truthy direction and victim |
| IpSummary.EntryForSnoc | dashboard_data.py:187-193 | one more record at a host performs exactly one loop step: count + 1, `or` updates, and a strict rank comparison |
| IpSummary.EntryFor | dashboard_data.py:178-193 | a host's entry carries its IP and its number of records, and its top severity and rank come from one of those records |
| IpSummary.Absorb | dashboard_data.py:178-193 | one loop step keeps the entry's IP (the record's on first sight), adds one to its count, never lowers its top rank below the record's or the entry's, and a truthy direction or victim replaces the old one |
| IpSummary.SummaryOfKeys | dashboard_data.py:169-172 | the summary has an entry exactly for each truthy IP |
| IpSummary.SummaryOfEntries | dashboard_data.py:167-193 | each summary entry is its host's entry over that host's records |
| IpSummary.Visit | dashboard_data.py:169-193 | the loop body for one record moves the dictionary and its key order to those after that record |
| IpSummary.Grouped | dashboard_data.py:167-193 | summary.values() has one entry per distinct IP, in first-seen order, each counting its host's records |
| IpSummary.ByTopRankThenCountTotal | dashboard_data.py:195-199 | the reverse (top_rank, count) order is a total preorder |
| IpSummary.SummaryResult | dashboard_data.py:167-199 | the sorted summary is ordered by (top_rank, count) descending, has one entry per distinct IP and no other, each entry is its host's entry, and the counts sum to the records with an IP |
| IpSummary.SummarizeIps | dashboard_data.py:167-199 | the loop over a dictionary plus the final sort produces exactly that summary |
| Tally.FirstSeenFacts | static/js/dashboard.js:111 | a Map's key order has no repetitions and holds exactly the keys inserted |
| Tally.Histogram | dashboard_data.py:156-164 | the bins count every key's occurrences, cover exactly the keys, are distinct, sorted, and sum to the number of keys |
| Payload.TextOrderTotal | dashboard_data.py:163 | sorting the minute texts uses a total preorder |
| Payload.StrictlyAscending | dashboard_data.py:161-164 | sorted distinct minute keys are strictly ascending |
| Payload.BuildTimeline | dashboard_data.py:155-164 | one point per distinct minute, with its exact count, strictly ascending by minute, no more points than records, and counts summing to the records |
| Payload.MinuteKeys | dashboard_data.py:157-158 | one minute key per record |
| Payload.CountSeverityIsFilter | dashboard_data.py:256-257 | the critical and high counters count the records of that severity |
| Payload.CountSeverity | dashboard_data.py:256-257 | a severity count never exceeds the records |
| Payload.DisjointLevels | dashboard_data.py:256-257 | counts of two different levels add up to at most the number of records |
| Payload.SummaryCounters | dashboard_data.py:253-259 | total_evidences and unique_ips are the lengths, critical and high are the counts of records with that severity (together never more than the total), and collection is the title or else the id |
| Payload.ErrorPayload | dashboard_data.py:269-284 | the error payload has empty lists, zero counters, "Unavailable", the severity order and the error message |
| Payload.Fetch | dashboard_data.py:242-248 | a discovery failure or an empty root list is an error; a success comes from the chosen root's chosen collection, with defaults set, and its fetched objects |
| Payload.NoCollectionsError | dashboard_data.py:66-68 | an empty collection list gives the "No collections" error |
| Payload.GetDashboardPayload | dashboard_data.py:241-268 | corrected payload: sorted records, the host summary over the indicator objects, a timeline with one point per distinct minute of the indicators' own times carrying that minute's exact count, strictly ascending and summing to the records, and matching counters; an error gives the error payload |
| Payload.UniqueIpsAreDistinctIps | dashboard_data.py:255 | unique_ips is the number of distinct truthy IPs |
| Payload.AsObject | dashboard_data.py:212-229 | a prepared record, when read again as an object, has no x_slips_profile_ip, no valid_from and no created |
| Payload.AsObjectsHaveNoIps | dashboard_data.py:170 | no prepared record yields an IP to the host summary |
| Payload.AsWrittenSummaryEmpty | dashboard_data.py:252 | the host summary of prepared records is always empty |
| Payload.AsObjectsAreNow | dashboard_data.py:141-143 | every prepared record falls in the minute of `now` when timed again |
| Payload.OneKeyOneBin | dashboard_data.py:155-164 | when all keys are one minute, the timeline has at most one point, which counts them all |
| Payload.TwoMinutesTwoPoints | dashboard_data.py:155-164 | records in two different minutes give at least two timeline points |
| Payload.GetDashboardPayloadAsWritten | dashboard_data.py:250-252 | as written, ip_summary is empty, unique_ips is 0, and the timeline is at most one point, at the minute of the request's `now`, counting every record |
| Payload.AsWrittenLosesTheIp | dashboard_data.py:252 | a record with a host IP appears in the corrected summary but not in the summary as written |
| Taxii.WithOneSlash | dashboard_data.py:53 | `root.rstrip("/") + "/"` ends in exactly one slash after the stripped root |
| Taxii.WithOneSlashIdempotent | dashboard_data.py:53 | normalizing twice is normalizing once |
| Taxii.FirstAlertsRoot | dashboard_data.py:51-52 | finds the first root, from a given position on, whose form without trailing slashes ends in "/alerts"; no earlier root there does |
| Taxii.DiscoverApiRoot | dashboard_data.py:46-55 | an error exactly when there are no roots; otherwise the first alerts root, or else the first root, normalized |
| Taxii.DiscoverApiRootStable | dashboard_data.py:51-55 | discovering from the chosen root alone gives it back |
| Taxii.FirstAlertsCollection | dashboard_data.py:70-73 | finds the first collection whose lower-case title contains "alerts" |
| Taxii.SelectCollection | dashboard_data.py:66-74 | an error exactly when there are no collections; otherwise the first alerts collection, or else the first one |
| Taxii.AlertsTitleAnyCase | dashboard_data.py:71-72 | a title matches in any case |
| Taxii.SetParam | dashboard_data.py:80-82 | assigning a key sets its value and leaves the other keys' values unchanged |
| Taxii.SetParamKeys | dashboard_data.py:80 | assigning keeps a key's position, and appends a new key |
| Taxii.PopParam | dashboard_data.py:84 | pop removes the key and keeps the other keys and values |
| Taxii.FromPairs | dashboard_data.py:79 | a dict built from query pairs takes each key's last value |
| Taxii.FromPairsKeys | dashboard_data.py:79 | its keys are the query keys in first-seen order |
| Taxii.BuildPageQuery | dashboard_data.py:77-86 | limit is set; next is set from a truthy token and removed otherwise; other parameters keep their last value |
| Taxii.BuildPageQueryDistinct | dashboard_data.py:85 | the query has no duplicate keys |
| Taxii.BuildPageQueryStable | dashboard_data.py:77-86 | rebuilding a built query changes no value |
| Taxii.WithDefaults | dashboard_data.py:246-247 | setdefault fills api_root and url only when they are absent |
| Taxii.ObjectsUrl | dashboard_data.py:92-102 | the objects URL is objects, else url + "objects/", else it is built from api_root and id; it is an error exactly when none is available |
| Taxii.DefaultsGiveObjectsUrl | dashboard_data.py:246-247 | after the defaults, only an empty url can fail, and then only when there is no objects field |
| Taxii.CrawlFirstPage | dashboard_data.py:108-118 | a failed page is an error; a page without next ends the crawl; otherwise its objects come before those of the following pages |
| Taxii.CrawlBudgetMonotone | dashboard_data.py:108 | one more page of budget does not change a failed crawl |
| Taxii.FetchPages | dashboard_data.py:104-119 | the while loop collects the same objects as the crawl under the 1000-page bound |
| Dates.DaysInMonth | static/js/dashboard.js:341 | a month has 28 to 31 days, and 29 exactly in February of a leap year |
| Dates.MinuteStart | static/js/dashboard.js:106-108 | setSeconds(0, 0) gives the minute's start, a multiple of 60000 at most one minute before |
| Dates.MinuteStartIdempotent | static/js/dashboard.js:106-108 | a minute start is its own minute start |
| Dates.MinuteStartSame | static/js/dashboard.js:106-109 | two times share a bucket exactly when they are in the same minute |
| Dates.DayKeyRoundTrip | static/js/dashboard.js:20-21 | a day's localDateKey parses back to that day |
| Dates.DayKeyInjective | static/js/dashboard.js:20-21 | different days have different keys |
| Dates.LocalDateKey | static/js/dashboard.js:20-21 | the key of a valid date parses back to its day |
| Dates.InvalidKeyIsNoDay | static/js/dashboard.js:20-21 | the "NaN-NaN-NaN" key of an Invalid Date is no day's key |
| Dates.ConstructorYear | static/js/dashboard.js:344 | `new Date(y, m, d)` reads years 0 to 99 as 1900 to 1999 and keeps all others |
| Dates.Weekday | static/js/dashboard.js:355 | getDay() is between 0 and 6 |
| Dates.WeekdayEpoch | static/js/dashboard.js:355 | anchors the weekday to getDay(): 1 January 1970 gives 4, a Thursday (Sunday is 0) |
| Dates.WeekdayNextDay | static/js/dashboard.js:355 | each day is one weekday after the previous one |
| Dates.WeekdayNextMonth | static/js/dashboard.js:341-355 | a month starts DaysInMonth weekdays after the previous one |
| Dates.WeekdayNextYear | static/js/dashboard.js:355 | January starts 31 weekdays after the previous December |
| Records.DateOf | static/js/dashboard.js:70-72 | a Date is made exactly from truthy text, by parsing it |
| Records.RoundSeconds | static/js/dashboard.js:77 | Math.round(ms / 1000) is within half a second of ms |
| Records.Decorate | static/js/dashboard.js:67-89 | the observed time is timestamp, else valid_from, else created; the dates are parsed; the day key exists exactly when the observed date does; a finite server time difference is kept and is otherwise computed from two valid dates |
| Records.DecorateIdempotent | static/js/dashboard.js:67-89 | decorating a decorated record again, with its decorated timestamp and time_diff_seconds, gives the same timestamp, dates, time difference and day key |
| Records.DecoratedTimestamp | static/js/dashboard.js:69-70 | which field the observed date comes from, case by case; with none there is no date and no day |
| Records.DecorateAll | static/js/dashboard.js:67-68 | decorateEvidences maps each record in order |
| Records.TimeDiffSeconds | static/js/dashboard.js:553-567 | a finite stored difference wins, and no difference means that a date is missing or invalid |
| Records.DecoratedTimeDiff | static/js/dashboard.js:73-78 | on a decorated record, getTimeDiffSeconds gives the server value, else the rounded difference between two valid dates, else nothing |
| Records.DecomposeIsBreakdown | static/js/dashboard.js:573-587 | the units loop yields the nonzero days, hours, minutes and seconds in that order |
| Records.BreakdownRecombines | static/js/dashboard.js:581-587 | the parts add back up to the seconds; each shown count is at least 1, and hours, minutes and seconds stay below 24, 60 and 60 |
| Records.NegativeShowsZero | static/js/dashboard.js:582-588 | a negative difference shows "0s" |
| Records.TwoLargestShown | static/js/dashboard.js:588 | only the two largest units are shown; 90061 s shows "1d 1h" and 3600 s shows "1h" |
| Records.FormatTimeDiff | static/js/dashboard.js:569-589 | the text is the rendering of getTimeDiffSeconds: "—" without one, "0s" for zero, else the two largest parts |
| Views.FilteredIsOneFilter | static/js/dashboard.js:155-165 | the three filters in a row keep exactly the rows matching all of them, in order |
| Views.Filtered | static/js/dashboard.js:155-165 | the rows kept by the three stages are exactly those matching every filter |
| Views.NoFiltersKeepAll | static/js/dashboard.js:155-165 | with no active filter every row is kept |
| Sequences.FilterCommutes | static/js/dashboard.js:157-165 | the order in which filters are applied does not matter |
| Sequences.FilterConjunction | static/js/dashboard.js:157-165 | two filters in a row are one filter on the conjunction |
| Sequences.FilterMembers | static/js/dashboard.js:158 | a filter keeps exactly the elements that pass |
| Sequences.FilterIsSubsequence | static/js/dashboard.js:158 | a filter keeps the original order |
| Views.NextSort | static/js/dashboard.js:213-218 | the same key flips the direction; a new key is descending for severity_rank and ascending otherwise |
| Views.NextSortTwice | static/js/dashboard.js:214-215 | clicking the same header twice restores the sort |
| Views.ValueLessStrictTotal | static/js/dashboard.js:207-208 | the comparator's `<` on column values is a strict total order |
| Views.SortValueOf | static/js/dashboard.js:175-201 | exactly the name, host, victim, ports and source columns compare as text |
| Views.RowOrderTotal | static/js/dashboard.js:204-210 | the sortData comparator induces a total preorder for every key and direction |
| Views.SortRows | static/js/dashboard.js:172-211 | sortData permutes the rows and sorts them by the order its comparator induces |
| Sequences.Sort | static/js/dashboard.js:204 | sorting returns a permutation |
| Sequences.SortIsSorted | static/js/dashboard.js:204-210 | sorting by a total preorder yields a sorted sequence |
| Sequences.SortIsStable | static/js/dashboard.js:204-210 | equal elements keep their relative order, as in Array.prototype.sort |
| Sequences.SortOfSorted | static/js/dashboard.js:204-210 | sorting sorted data changes nothing |
| Views.SortRowsOrdered | static/js/dashboard.js:172-211 | sortData permutes the rows, orders them by the column in the chosen direction, and keeps ties in order |
| Views.DefaultSortMostSevereFirst | static/js/dashboard.js:10 | the default sort puts higher ranks first |
| Views.UnknownTimeDiffSortsLast | static/js/dashboard.js:193-196 | a row without a time difference sorts after every known one when ascending, and before them when descending |
| Views.ApplyFilters | static/js/dashboard.js:155-166 | the table holds exactly the rows matching every filter, sorted by the current column |
| Views.ApplyFiltersMembers | static/js/dashboard.js:155-166 | the table is a permutation of the matching rows: each as often as it occurs |
| Views.GroupKeysMembers | static/js/dashboard.js:293 | the group keys are exactly the hosts of the rows, with "Unassigned" for rows without a host |
| Views.FirstSeenGroups | static/js/dashboard.js:291-296 | one group per key in first-seen order, holding that key's rows in order |
| Views.GroupMapMeaning | static/js/dashboard.js:291-296 | the Map built by push holds each key's rows, in order |
| Views.GroupsInOrderAreFirstSeen | static/js/dashboard.js:298 | reading the Map's entries gives the groups in first-seen order |
| Views.FirstSeenGroupsMembers | static/js/dashboard.js:291-296 | each group is a host with its rows, none is empty, and none repeats |
| Views.LargerFirstTotal | static/js/dashboard.js:298-300 | the grouping comparator is a total preorder |
| Views.GroupByIp | static/js/dashboard.js:291-300 | the grouping loop gives the groups in first-seen order, stably sorted with larger groups first |
| Views.GroupsPartitionRows | static/js/dashboard.js:291-300 | the sorted groups are exactly the hosts with their rows, non-empty, larger first, with no host twice |
| Views.MinuteBucketsFrom | static/js/dashboard.js:103-108 | every bucket is the minute of some row that has a valid time |
| Views.MinuteBuckets | static/js/dashboard.js:103-108 | as many minute buckets as rows with a valid observed time |
| Views.BuildClientTimeline | static/js/dashboard.js:101-117 | the chart has one point per minute, with its exact count, in ascending minute order; it counts exactly the rows with a valid time |
| Views.ChartWithoutTimes | static/js/dashboard.js:103-105 | rows that all lack a valid time give an empty chart |
| Views.Capitalize | static/js/dashboard.js:433 | upper-cases the first character only |
| Views.BadgeParts | static/js/dashboard.js:427-435 | at most three parts, none exactly when no filter is active, and an active host filter gives the first one, "Host: " and the host |
| Views.FilterBadge | static/js/dashboard.js:425-437 | the badge reads "All activity" exactly when no filter is active |
| Views.BadgeLeadsWithHost | static/js/dashboard.js:428 | an active host filter heads the badge |
| Calendar.SeverityLabel | static/js/dashboard.js:331 | a record's severity, or "info" when it has none |
| Calendar.DayKeyExtendsMonthKey | static/js/dashboard.js:318 | a day key is its month key followed by the padded day |
| Calendar.MonthKeyInjective | static/js/dashboard.js:318 | different months have different keys |
| Calendar.CodeKeysAgree | static/js/dashboard.js:318-328 | string keys and value keys select the same month and the same day |
| Calendar.CountInto | static/js/dashboard.js:329-333 | corrected day update: the total goes up by one, the severity is counted once, and the total stays the number of counted severities |
| Calendar.CountIntoAsWritten | static/js/dashboard.js:329-332 | as written, the day entry has a total and a count for that severity |
| Calendar.TotalSeverityCountedTwice | static/js/dashboard.js:329-332 | as written, one record of severity "total" sets total to 2; corrected, it sets it to 1 |
| Calendar.OtherSeverityCountedOnce | static/js/dashboard.js:330-332 | as written, any other severity adds exactly one to the total |
| Calendar.TallyOf | static/js/dashboard.js:329-333 | a day's total is the number of severity counts |
| Calendar.TallyOfSnoc | static/js/dashboard.js:329-333 | one more record performs one day update |
| Calendar.Stamps | static/js/dashboard.js:315-317 | exactly one stamp per record with a valid observed time |
| Calendar.AccumulateKeys | static/js/dashboard.js:315-326 | the month Map has an entry exactly for each month of a record with a valid time |
| Calendar.AddStamp | static/js/dashboard.js:318-333 | filing a record adds its month to the Map when missing and leaves every other month as it was |
| Calendar.AddStampLookup | static/js/dashboard.js:327-333 | a record updates only its own day of its own month |
| Calendar.AccumulateDays | static/js/dashboard.js:315-334 | each day entry tallies exactly the records of that day; days without records have none |
| Calendar.Cells | static/js/dashboard.js:341-352 | corrected cells: one per day of the month, each carrying that day's tally |
| Calendar.CellsAsWritten | static/js/dashboard.js:341-346 | as written, the cell count follows the year as the Date constructor reads it |
| Calendar.EarlyYearDayMissed | static/js/dashboard.js:344-346 | a record in January of year 50 is counted by the corrected cells but missing from the cells as written |
| Calendar.MonthOf | static/js/dashboard.js:340-356 | a month of the corrected calendar has one cell per day, each keyed by and labelled with its day and holding that day's total (0 without records), and starts on the weekday of its 1st |
| Calendar.MonthOfAsWritten | static/js/dashboard.js:340-355 | as written, a month's cells and the weekday of its 1st come from the year the Date constructor reads |
| Calendar.AsWrittenMonthAgrees | static/js/dashboard.js:340-355 | outside the years 0 to 99 the month as written equals the corrected month |
| Calendar.OldestFirstTotal | static/js/dashboard.js:337-339 | the month comparator is a total preorder |
| Calendar.FileRows | static/js/dashboard.js:315-334 | the forEach loop of the corrected rebuildCalendar builds the month Map of `Calendar.Accumulate` (each day tallied by the corrected `CountInto`) and its insertion order |
| Calendar.FillMonth | static/js/dashboard.js:340-358 | the day loop of the corrected rebuildCalendar builds `Calendar.MonthOf`: one cell per day of the month, in the record's own year, and the weekday of the 1st in that year |
| Calendar.FillMonths | static/js/dashboard.js:340-358 | every month is filled, in order |
| Calendar.RebuildCalendar | static/js/dashboard.js:313-359 | the corrected rebuildCalendar computes `Calendar.CalendarOf` of the records |
| Calendar.CalendarOf | static/js/dashboard.js:313-359 | every month of the corrected calendar shows all of its days and starts on the weekday of its 1st |
| Calendar.SortedMonths | static/js/dashboard.js:336-339 | the sorted months are all the months, each strictly earlier than the next |
| Calendar.CellsCountDays | static/js/dashboard.js:340-352 | cell i is day i + 1, and it counts exactly that day's records and severities |
| Calendar.CalendarMonths | static/js/dashboard.js:313-339 | the calendar lists exactly the months holding a record with a valid time, oldest first, none twice |
| Calendar.CalendarDays | static/js/dashboard.js:340-358 | each month has one cell per day and the right first weekday; each cell counts exactly that day's records |
| Calendar.DaysCountIsMonthCount | static/js/dashboard.js:327-352 | every record of a month lies on one of its days 1 to the last, so the per-day counts add up to the month's count |
| Calendar.MonthTotal | static/js/dashboard.js:313-359 | the day totals of each month of the calendar add up to the number of records whose valid observed time falls in that month |
| Calendar.DayFilterSelectsCell | static/js/dashboard.js:394-402 | a record passes a cell's day filter exactly when its valid observed date is that cell's day |
| Calendar.Tone | static/js/dashboard.js:410-423 | the tone is the most severe of critical, high, medium and low present that day, and muted when none is |
| Calendar.EmptyDayMuted | static/js/dashboard.js:418-422 | a day without records is muted |
| Calendar.ClampIndex | static/js/dashboard.js:376-379 | the page is clamped into the months, and kept when already inside them |
| Calendar.PreviousIndex | static/js/dashboard.js:614 | the previous arrow steps back one, never below 0 |
| Calendar.NextIndex | static/js/dashboard.js:620-623 | the next arrow steps forward one, never past the last month |
| Dashboard.Toggled | static/js/dashboard.js:244 | clicking the selected value clears it; otherwise the click selects that value |
| Dashboard.ToggledTwice | static/js/dashboard.js:244 | clicking the same value twice restores the selection |
| Dashboard.ToggleSeverity | static/js/dashboard.js:529-533 | the clicked severity becomes selected exactly when it was not; the others stay as they were; there are no duplicates |
| Dashboard.ToggleSeverityTwice | static/js/dashboard.js:529-533 | adding and then removing a severity restores the selection in its order |
| Dashboard.SeverityClick | static/js/dashboard.js:525-534 | "all" clears the selection; any other button toggles just that severity |
| Dashboard.DashboardState.constructor | static/js/dashboard.js:4-15 | the initial state is empty, sorted by descending rank, has no filters, and is valid |
| Dashboard.DashboardState.Refilter | static/js/dashboard.js:155-170 | applyFilters re-derives the table and then the chart, and changes no data or choice |
| Dashboard.DashboardState.TableRows | static/js/dashboard.js:156-166 | the table is the matching records in the current sort |
| Dashboard.DashboardState.DrawChart | static/js/dashboard.js:168 | the chart counts the table's rows, or all records when the table is empty |
| Dashboard.DashboardState.ClampPage | static/js/dashboard.js:368-379 | with months to show, the page is clamped; without months it is left alone |
| Dashboard.DashboardState.Refresh | static/js/dashboard.js:35-65 | a failed fetch changes nothing; a success replaces the records and hosts (`|| []`), rebuilds the calendar on its last month, re-derives the views and keeps every choice |
| Dashboard.DashboardState.Load | static/js/dashboard.js:41-61 | the records and hosts replace the old ones, and the state is valid again |
| Dashboard.DashboardState.RebuildMonths | static/js/dashboard.js:43-46 | the calendar is rebuilt, and the page is its last month, or 0 without months |
| Dashboard.DashboardState.SetSort | static/js/dashboard.js:213-228 | only the sort changes, to NextSort, and the views follow it |
| Dashboard.DashboardState.ClickHost | static/js/dashboard.js:243-247 | only the host filter changes, toggled, and the views follow it |
| Dashboard.DashboardState.ClearHost | static/js/dashboard.js:599-603 | only the host filter changes, to none |
| Dashboard.DashboardState.ClickDay | static/js/dashboard.js:401-405 | only the day filter changes, toggled; the page is clamped and the views follow |
| Dashboard.DashboardState.ClearDay | static/js/dashboard.js:606-610 | only the day filter changes, to none |
| Dashboard.DashboardState.ClickSeverity | static/js/dashboard.js:524-537 | only the severity selection changes, by the button's rule |
| Dashboard.DashboardState.ToggleGrouping | static/js/dashboard.js:545-550 | only the grouping flag flips; table rows and chart stay |
| Dashboard.DashboardState.PreviousMonth | static/js/dashboard.js:613-616 | only the page changes, one month back, never below 0 |
| Dashboard.DashboardState.NextMonth | static/js/dashboard.js:619-625 | only the page changes, one month forward, never past the last |
| Dashboard.DashboardState.InitSortingAsWritten | static/js/dashboard.js:500-505 | as written, initSorting applies setSort("severity_rank") to the state |
| Dashboard.InitialSortReversed | static/js/dashboard.js:504 | from the default sort that call gives ascending rank, so the least severe records come first |
| Dashboard.DashboardState.InitSorting | static/js/dashboard.js:500-505 | corrected: the table is drawn in the initial sort, which no choice changes |
| Dashboard.DashboardState.Layout | static/js/dashboard.js:286-310 | the table rows as they are, or, when grouping, the host groups with the larger first |
| Dashboard.NoRowsNoCalendar | static/js/dashboard.js:4-15 | no records give no months and an empty table |
| Dashboard.PreviousThenNext | static/js/dashboard.js:613-625 | back one then forward one, from any month but the first, returns to it |

## Left out

- HTTP, configuration and the clock are parameters. Requests, `requests.get`,
  `raise_for_status` and `_load_medallion_config` become `Result` values or
  functions. `datetime.utcnow()` is the `now` parameter. `generated_at` is not
  modelled.
- URL handling is modelled only for the query. `urlparse` and `urlunparse` are
  not modelled, and neither is `urlencode`'s percent-encoding. The query is a
  list of pairs.
- ISO parsing and formatting are parameters. `datetime.fromisoformat` is the
  `fromIso` parameter, and the result carries its `isoformat()` text and
  minute text. A naive time counts as UTC.
- `new Date(text)` and time zones: parsing and local-time conversion are the
  `parse` parameter. The minute bucket assumes UTC offsets in whole minutes.
- Locale formatting is not modelled: no `toLocaleString`, month labels,
  `formatDateTime` or `formatBadgeDate` text. The latter is a parameter of the
  badge.
- The DOM, Chart.js and the drawers are not modelled. This covers
  renderIpList's HTML, the table's HTML, header arrows and active classes,
  updateSeverityButtons, buildIpDetail, buildEvidenceDetail, openDrawer and
  closeDrawer.
- updateStats is display only and is not modelled. Its `length ?? unique_ips`
  never falls back to unique_ips, because a length is never null.
- Timers and concurrency are not modelled. A refresh is one atomic step, and
  overlapping fetches are not modelled.
- Records.Decorate: the spread `...ev` keeps raw fields the engine never reads.
  Only the fields it reads are modelled.
- Calendar.Cells: a day entry that is spread into a cell would carry severity
  keys named "dateKey" or "label", and those are then overwritten. The model
  keeps severity counts apart from the cell, so it does not model that.
- Records.TimeDiffSeconds: numbers are integers. A fractional server
  `time_diff_seconds` is not modelled.
- Views.SortValueOf: a sort key outside the page's column list (`ev[key] ||
  0`) gives 0 for every row.
- Severity.NormalizeSeverity: levels are strings, lower-casing is ASCII only,
  and `str()` of a non-string level is not modelled.
- fetchDashboard's first chart update (`buildTimelineFromEvidences(state.evidences)`
  before applyFilters) is overwritten by applyFilters in the same step. Only
  the final chart is modelled.
- GetDashboardPayloadAsWritten: every `datetime.utcnow()` call of one request
  is the single instant `now`. The code calls it once per record, so a request
  that crosses a minute boundary can give two points; "at most one point" holds
  only under that reading.
- FileRows: models the corrected rebuildCalendar. The as-written double count
  of a "total" severity is modelled apart, by `Calendar.CountIntoAsWritten`,
  and not threaded through the loop.
- FillMonth: models the corrected rebuildCalendar, which uses the record's own
  year. The as-written month, whose cells and first weekday
  (`new Date(year, month, 1).getDay()`) come from 1900 to 1999 for the years 0
  to 99, is modelled apart, by `Calendar.MonthOfAsWritten`, and is not what the
  loop builds.
- RebuildCalendar: computes the corrected calendar, so for a "total" severity
  or a year from 0 to 99 it differs from what the code computes; both
  discrepancies are the findings below.
- Indicators.PrepareEvidences: sort_ts is compared as text, as the code does.
  With times in different UTC offsets this is not time order, and the model
  does not claim it is.
- Indicators.PrepareOne: an optional field stands for both an absent key and
  a JSON null, so a present null `x_slips_flow_uids` or `labels`, which
  `indicator.get(key, [])` copies as null, becomes [] in the model.
- Taxii.SelectCollection: an optional field stands for both an absent key and
  a JSON null. In the code, `collection.get("title", "").lower()` raises on a
  present null title, and the request then returns the error payload; the
  model treats that title as "". The same merge holds for the fields that
  Taxii.WithDefaults fills in.
- Views.ValueLess: text columns compare in code-point order. JavaScript's `<`
  compares UTF-16 code units; the two orders differ only for a character above
  U+FFFF against one from U+E000 to U+FFFF.
- Views.Capitalize: on an empty severity it returns "". The code's
  `sev[0].toUpperCase()` throws there.
- Payload.Fetch: abstracts over the paged crawl. The objects of a collection
  are the `objectsOf` parameter; the crawl itself is `Taxii.FetchPages`, proved
  on its own against `Taxii.Crawl`.
- Dashboard.DashboardState.Refresh: a JavaScript exception after the first
  assignment to `state` would leave a partial update. The model treats a
  refresh as either a full failure or a full success.

## Findings

| source | as written | input that shows it | evidently intended | confidence | as-written member | corrected member |
|---|---|---|---|---|---|---|
| static/js/dashboard.js:500-505 | initSorting calls setSort("severity_rank") while the state already sorts on severity_rank, so the direction flips to ascending | the first page load | the table opens most severe first, the default in `state.sort` | not executed | Dashboard.DashboardState.InitSortingAsWritten, Dashboard.InitialSortReversed | Dashboard.DashboardState.InitSorting, Views.DefaultSortMostSevereFirst |
| dashboard_data.py:252 | _summarize_ips gets the prepared records, whose host key is profile_ip, and reads x_slips_profile_ip, so ip_summary is always empty | one indicator with x_slips_profile_ip "10.0.0.1" | summarize the indicator objects, one entry per host | not executed | Payload.GetDashboardPayloadAsWritten, Payload.AsWrittenLosesTheIp, Payload.AsWrittenSummaryEmpty | Payload.GetDashboardPayload, IpSummary.SummarizeIps |
| dashboard_data.py:251 | _build_timeline gets the prepared records, which have no valid_from or created, so every record is timed by utcnow() and lands in the request's minute | two indicators valid_from in different minutes | one point per minute of the indicators' own times | not executed | Payload.GetDashboardPayloadAsWritten, Payload.AsObjectsAreNow | Payload.GetDashboardPayload, Payload.TwoMinutesTwoPoints |
| static/js/dashboard.js:329-332 | a record whose severity is "total" increments dayEntry.total twice | one record with severity "total" on a day | the day total counts records | not executed | Calendar.CountIntoAsWritten, Calendar.TotalSeverityCountedTwice | Calendar.CountInto |
| static/js/dashboard.js:341-355 | `new Date(year, month, day)` reads years 0 to 99 as 1900 to 1999, so the cell keys miss the records' days | a record observed on 0050-01-01 | cells for the record's own year | not executed | Calendar.CellsAsWritten, Calendar.MonthOfAsWritten, Calendar.EarlyYearDayMissed | Calendar.Cells, Calendar.MonthOf, Calendar.AsWrittenMonthAgrees |
