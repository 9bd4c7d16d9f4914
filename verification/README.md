# UK train time estimator — timetable cache and route chaining in Dafny

The service answers "when do I arrive if I travel through these stations,
starting at time T?". Timetables come from a rate-limited upstream API in
windows of a few minutes. They are cached per station in two tables:
- `intervals`: which time spans of a station have been downloaded;
- `timetables`: the departure and arrival rows, each owned by one interval.

Every time a window is downloaded, it is merged into the cache. The merge:
- finds the stored intervals of the station that the window touches;
- replaces them by one widened interval;
- re-points their rows to it;
- inserts only the rows that were not cached yet.

A route is then built leg by leg. Each leg queries the departure and target
stations over a bounded waiting window. A leg-selection step picks the
connection, and its arrival time becomes the next leg's earliest departure.

The project models this core as pure functions over immutable values:

| module | file | models |
|---|---|---|
| `Wrappers` | `wrappers.dfy` | `Option`, `Result`, `Min`, `Max`, `Distinct` |
| `Records` | `records.dfy` | the entities (`Interval`, `RowData`, `Entry`), the cache state `Cache` (both tables in storage order plus the auto-increment counters), the settings and their defaults, and the invariants `WellFormed`, `AllTimed` and `NonOverlapping` |
| `Clock` | `clock.dfy` | `time_to_seconds`: reading "HH:MM" and the one-day rollover |
| `TransportApi` | `transport.dfy` | `parse_timetable` of the API module, and the slice start times of `download_multiple_timetables` |
| `Repositories` | `repositories.dfy` | `IntervalRepo` and `TimetableRepo` queries and bulk writes, as filters and rewrites of the cache value |
| `Etl` | `etl.dfy` | `update_timetable` (the interval-coalescing merge) and the window assembly of `load_timetable` |
| `MergeProperties` | `merge_proofs.dfy` | the exact shape of the merge's result |
| `MergeTheorems` | `merge_theorems.dfy` | the merge's properties: coverage, conservation, no duplication, invariants, non-overlap, idempotence, and the counterexamples for the comparisons as written |
| `RouteFinder` | `route_finder.dfy` | the intended `get_timetable` query and the leg chaining of `search_routes` |

Rules used throughout the model:
- NAT (a missing time) is `None`.
- A pandas frame is a `seq` of records.
- The primary keys the database hands out are the counters `nextIntervalId` and `nextRowId`.
- `.first()` means the first match in storage order.

The two containment queries are parameterised by a `Boundary`:
- `AsWritten` uses the comparisons of `repositories.py` exactly:
  - `start < v <= stop` for "includes";
  - `start > lo && stop <= hi` for "within".
- `Closed` uses inclusive comparisons:
  - `start <= v <= stop`;
  - `lo <= start && stop <= hi`;
  - the merge window is never allowed to end before `t0`.

The invariants and idempotence are proved under `Closed`. Under `AsWritten`, concrete counterexamples show that they fail (see Findings).

## Model

| member | source | states |
|---|---|---|
| Clock.ParseDecimal | train_app/helpers.py:21 | `int()` of a chunk succeeds exactly on a non-empty run of digits, and two digits read as ten times the first plus the second |
| Clock.TimeToSeconds | train_app/helpers.py:14-22 | defined exactly when both chunks read as numbers; the result equals the clock seconds exactly when they are at least `t_ref`, and equals one day plus the clock seconds exactly when they are below it |
| Clock.HhMmClockSeconds | train_app/helpers.py:21 | a well-formed "HH:MM" never raises and reads as HH·3600 + MM·60 |
| Clock.RolloverIsZeroOrOneDay | train_app/helpers.py:22 | the result minus the clock seconds is 0 or 86400 |
| Clock.NoRolloverFromMidnight | train_app/helpers.py:22 | with reference 0 no day is ever added |
| Clock.NotBeforeReference | train_app/helpers.py:22 | for a reference inside the day, the result is never below it |
| Clock.AfterMidnightExample | train_app/helpers.py:21-22 | "00:10" against 23:00 gives 87000 |
| Clock.SameDayExample | train_app/helpers.py:21-22 | "08:10" against 0 gives 29400 |
| TransportApi.ParseRows | train_app/transport_api.py:39-45 | one row per departure record, in order, tagged with the station; the service is the record's service number read with `int()`; a time is NAT exactly when it is null and otherwise `d_ref + time_to_seconds(t, t_ref)`; parsing raises exactly when some time or some service number is unreadable |
| TransportApi.ParseTimetable | train_app/transport_api.py:29-46 | `None` exactly when there are no departures; raises exactly when there are departures and the response time, some record time or some service number is unreadable; otherwise the rows of `ParseRows` against the response's own time of day, taken without rollover |
| TransportApi.ParsedRows | train_app/transport_api.py:38-45 | for a response time inside the day, each parsed row keeps its record's order, train and service number, carries the response's station, is NAT exactly where the record is null, and is never timed before the response's time of day |
| TransportApi.AssignColumnsAsWritten | train_app/transport_api.py:44 | the two-list column assignment as pandas performs it: raises unless there are exactly two records, and with two, column j holds record j's service and train |
| TransportApi.AssignColumns | train_app/transport_api.py:44 | the assignment as intended: the first column holds every record's service and the second every record's train, row by row |
| TransportApi.AsWrittenColumnsNeverIntended | train_app/transport_api.py:44 | for no number of records does the assignment as written produce the intended columns |
| TransportApi.ParsedColumns | train_app/transport_api.py:44 | the service and train columns of the parsed rows are exactly the intended assignment |
| TransportApi.SliceStarts | train_app/transport_api.py:72-73 | `download_concurrency` slice starts (none for a non-positive count), the first at `t0`, each `t_window` after the previous |
| TransportApi.DefaultSlices | train_app/transport_api.py:72-73 | with the default settings the slices start at `t0`, `t0 + 2` and `t0 + 4` |
| Repositories.IncludesInClosedSpan | train_app/repositories.py:41-42 | under either rule, an including interval holds the point within its closed span |
| Repositories.FetchByStation | train_app/repositories.py:29-30 | exactly the station's intervals |
| Repositories.FirstIncluding | train_app/repositories.py:41-42 | `None` exactly when no interval of the query result includes the value; otherwise one of them that includes it |
| Repositories.FirstIncludingIsFirst | train_app/repositories.py:41-42 | no interval before the returned one in the query result includes the value |
| Repositories.FetchIncluding | train_app/repositories.py:33-42 | `None` exactly when no interval of the station includes the value; otherwise a stored interval of the station that includes it |
| Repositories.FetchIncludingIsFirst | train_app/repositories.py:41-42 | the returned interval is the first of the station's intervals, in storage order, that includes the value |
| Repositories.FilterWithin | train_app/repositories.py:54-55 | exactly the intervals of the query result lying within the bounds under the chosen rule |
| Repositories.FetchIncluded | train_app/repositories.py:45-55 | exactly the station's intervals lying within the bounds under the chosen rule |
| Repositories.CreateInterval | train_app/repositories.py:16-22 | appends the interval under the next primary key and leaves the rows alone |
| Repositories.BulkDeleteById | train_app/repositories.py:64-65 | removes exactly the listed intervals, keeps every other one, and does not touch rows |
| Repositories.FetchByMultipleIntervalIds | train_app/repositories.py:109-110 | exactly the rows whose interval is listed |
| Repositories.MakeTtbDictsAsWritten | train_app/repositories.py:76-86 | one record per frame row, with no station_code; each record is the corrected record of the same row with the station removed |
| Repositories.MakeTtbDicts | train_app/repositories.py:76-86 | one record per frame row, each with a station; an id appears only when `include_id` is set |
| Repositories.MakeTtbDictsRoundTrip | train_app/repositories.py:83-86 | the corrected records with ids read back as the original frame |
| Repositories.AsWrittenDictsForgetStation | train_app/repositories.py:83-86 | the projection as written maps two different frames to the same records |
| Repositories.BulkInsertByDf | train_app/repositories.py:97-98 | appends one row per record under consecutive fresh ids and keeps every stored row and interval |
| Repositories.LastFor | train_app/repositories.py:101-102 | `None` exactly when no record carries the key; otherwise a record that carries it |
| Repositories.LastForIsLast | train_app/repositories.py:101-102 | no record after the one picked carries the same key, so in-order updates end with it |
| Repositories.BulkUpdateByDf | train_app/repositories.py:101-102 | keeps the number, order and ids of the rows; leaves every row that no record names unchanged; rewrites every named row with the columns of the last record naming it |
| Repositories.BulkUpdateRewritesWithLast | train_app/repositories.py:101-102 | a row some record names ends up rewritten with a record that names it and that no later record overrides |
| Etl.ValidDepartures | train_app/etl.py:51 | exactly the departure times that are not NAT |
| Etl.MaxOf | train_app/etl.py:57 | `t_max` is one of the valid departures and none exceeds it |
| Etl.KeepTimed | train_app/etl.py:55 | exactly the rows with a departure or an arrival |
| Etl.KeepTimedDistinct | train_app/etl.py:55 | filtering keeps a duplicate-free frame duplicate-free |
| Etl.WindowHi | train_app/etl.py:57-59 | the window end is at least `t_max`; it is `t_max` itself as written, and never before `t0` under the closed rule |
| Etl.MakePlan | train_app/etl.py:57-67 | `t_max` is the latest valid departure; `left` is the station's interval holding `t0`, `right` the one holding the window end, `middle` the station's intervals inside the window; the new interval starts at `left`'s start if there is one and at `t0` otherwise, and stops at `right`'s stop if there is one and at the window end otherwise; the absorbed ids are those of `left`, `right` and `middle` |
| Etl.Unmatched | train_app/etl.py:79 | exactly the window rows with no identical cached row |
| Etl.OuterJoin | train_app/etl.py:79-80 | every joined row carries the new interval; a row without an id is a window row absent from the cache, and a row with an id is a stored row with its own id and data; conversely every stored row appears with its id, and every window row absent from the cache appears without one |
| Etl.UnmatchedOnColumns | train_app/etl.py:79 | exactly the window rows that no cached row matches on the loader's columns |
| Etl.JoinIgnoresStation | train_app/etl.py:79 | when the window and the cached rows are all of one station, joining on the loader's columns and joining on every data column leave the same new rows |
| Etl.WithId | train_app/etl.py:81 | exactly the joined rows that have an id |
| Etl.WithoutId | train_app/etl.py:82 | exactly the joined rows that have no id |
| Etl.UpdateTimetable | train_app/etl.py:51-53 | without a valid departure the cache is unchanged; otherwise exactly one interval key is consumed |
| Etl.ParseSlice | train_app/etl.py:23-39 | the loader's copy of the parser yields rows all of the loaded station; it fails or returns `None` exactly when the API parser does, and it coincides with it when the response's station is the loaded one |
| Etl.DropDuplicates | train_app/etl.py:107 | the result has no duplicates and holds exactly the input's rows |
| Etl.DropDuplicatesKeepsDistinct | train_app/etl.py:107 | a duplicate-free frame passes through unchanged |
| Etl.NonEmptySlices | train_app/etl.py:107 | exactly the slices that parsed to a frame |
| Etl.Concat | train_app/etl.py:107 | a row is in the concatenation exactly when it is in some slice |
| Etl.LoadWindow | train_app/etl.py:106-107 | fails exactly when no slice parsed to a frame; otherwise the window has no duplicate row and holds exactly the rows of the parsed slices |
| Etl.ParseSlices | train_app/etl.py:106 | raises exactly when some downloaded slice does not parse; otherwise one parse result per slice, in order |
| Etl.NoFrameIffNoDeparture | train_app/etl.py:30-31 | once every slice parses, no slice yields a frame exactly when no download has a departure |
| Etl.SlicesOfStation | train_app/etl.py:106 | every parsed slice holds rows of the loaded station only |
| Etl.WindowOfStation | train_app/etl.py:106-107 | every row of the assembled window is of the loaded station |
| Etl.LoadTimetable | train_app/etl.py:96-108 | raises exactly when some slice does not parse or no slice has a departure; otherwise the window holds rows of the loaded station only and the cache is the merge of that window |
| MergeProperties.UpdateRepoints | train_app/etl.py:80-81 | updating with the records of the absorbed rows moves exactly those rows to the new interval and leaves every other row as it was |
| MergeProperties.InsertAppends | train_app/etl.py:82 | inserting the unmatched rows appends them under the new interval with fresh consecutive ids |
| MergeProperties.SplitFrame | train_app/etl.py:81-82 | the id / no-id split of the joined frame gives back its stored and its new part |
| MergeProperties.MergeRows | train_app/etl.py:77-82 | the rows after the merge are the old rows with the absorbed ones re-pointed to the new interval, followed by the unmatched window rows under fresh ids |
| MergeProperties.MergeIntervals | train_app/etl.py:70-83 | the intervals after the merge are the old ones plus the new one, minus the absorbed ones |
| MergeTheorems.NextIdNotAbsorbed | train_app/etl.py:70-77 | the key the new interval receives is never among the ids of the intervals it absorbs |
| MergeTheorems.MergeReplacesAbsorbed | train_app/etl.py:83 | the new interval is not absorbed; an interval survives the merge exactly when it is the new one or was not absorbed |
| MergeTheorems.AbsorbedAreStationIntervals | train_app/etl.py:58-67 | an absorbed interval belongs to the station and is the interval holding `t0`, the interval holding the window end, or one inside the window |
| MergeTheorems.MergeCoversAbsorbed | train_app/etl.py:61-67 | when the station's intervals are apart and the window does not end before `t0`, the new interval covers `[t0, t_max]` and every absorbed interval |
| MergeTheorems.MergeStandalone | train_app/etl.py:71-74 | with nothing to absorb, the stored rows are kept and exactly the timed window rows are appended under the new interval |
| MergeTheorems.MergeWellFormed | train_app/etl.py:70-83 | keys stay unique and below their counters, and every row still belongs to a stored interval |
| MergeTheorems.MergeAllTimed | train_app/etl.py:55 | if every stored row has a time, every row after the merge has one |
| MergeTheorems.MergeConservesData | train_app/etl.py:77-82 | no row is lost and none is invented: the cached data after the merge is the data before plus the kept window rows |
| MergeTheorems.OwnedAfterRepoint | train_app/etl.py:80-81 | the rows of the new interval after re-pointing are exactly the rows of the absorbed intervals |
| MergeTheorems.MergeNoDuplicates | train_app/etl.py:79-82 | the new interval holds no duplicate row when the window and the absorbed rows had none |
| MergeTheorems.KeptApartClosed | train_app/etl.py:58-67 | under the closed rule every interval of the station that is not absorbed lies apart from the new one |
| MergeTheorems.ClosedMergeKeepsNonOverlapping | train_app/etl.py:58-83 | under the closed rule a merge keeps the intervals of every station pairwise apart |
| MergeTheorems.KeptUnderNew | train_app/etl.py:79-82 | every kept window row is stored under the new interval after the merge |
| MergeTheorems.IncludingIsUnique | train_app/repositories.py:41-42 | among intervals that are apart, the one holding a point is the one the query returns |
| MergeTheorems.SecondMergeAbsorbsNew | train_app/etl.py:58-67 | merging the same window again absorbs the interval the first merge created |
| MergeTheorems.SecondMergeInsertsNothing | train_app/etl.py:79-82 | merging the same window again inserts no row |
| MergeTheorems.ClosedMergeIdempotentIntervals | train_app/etl.py:58-83 | under the closed rule, merging the same window a second time adds no interval |
| MergeTheorems.ClosedMergeIdempotentRows | train_app/etl.py:77-82 | under the closed rule, merging the same window a second time adds no row and keeps the cached data |
| MergeTheorems.ClosedMergeIdempotent | train_app/etl.py:42-83 | under the closed rule, merging the same window twice adds no interval and no row and leaves the cached data unchanged |
| MergeTheorems.AsWrittenMergeOverlaps | train_app/repositories.py:42-55 | as written, an interval starting exactly at `t0` is absorbed by neither query, and the merge leaves two overlapping intervals |
| MergeTheorems.AsWrittenRefetchDuplicates | train_app/repositories.py:42-55 | as written, re-merging a window whose latest departure is `t0` creates a second interval and stores its row twice |
| RouteFinder.Insert | train_app/route_finder.py:64-65 | insertion keeps the rows latest-first and adds exactly one occurrence of the new row |
| RouteFinder.SortedSelect | train_app/route_finder.py:58-65 | every qualifying row appears as often as it is stored and no other row appears; the result is latest-first |
| RouteFinder.GetTimetable | train_app/route_finder.py:58-65 | exactly the station's rows whose departure (or arrival) lies in `[t0, t1]`, with their multiplicity, latest first |
| RouteFinder.LatestFirst | train_app/route_finder.py:64-65 | when a qualifying row exists, the first row returned qualifies and is not earlier than any qualifying row |
| RouteFinder.WaitBound | train_app/route_finder.py:28 | the wait bound is the smaller of the passenger's limit and the configured cap |
| RouteFinder.WindowsBounded | train_app/route_finder.py:28-34 | both queries start at the ready time; the departure window is exactly `min(max_waiting, ub_max_waiting)` minutes long, hence no longer than either limit, and the target window extends it by the longest single journey |
| RouteFinder.Chain | train_app/route_finder.py:29-37 | one leg per consecutive pair of stations, none for fewer than two |
| RouteFinder.ChainLegs | train_app/route_finder.py:27-36 | the first leg starts at the start time, and each later leg queries its own station pair from the previous leg's arrival |
| RouteFinder.SearchRoutes | train_app/route_finder.py:18-38 | the loop returns one leg per consecutive station pair; the first leg departs from the start time and each later one from the previous arrival; the result equals the reference chain |

## Left out

- Network I/O is not modelled: `download_timetable`, the httpx client and the `gather` fan-out (transport_api.py:49-76). The loader takes the decoded responses, one `Download` per slice, each with the midnight of its date.
- Temporary files and `read_json_file` (etl.py:86-104) are I/O and are not modelled.
- Time zone and calendar conversion are not modelled: `tptdt_2_timestamp`, `strptime` and `fromtimestamp` (helpers.py:25-31, transport_api.py:38, 73). The midnight of the response date is a given integer `dRef`, and slice starts stay epoch seconds.
- The web layer in main.py is not part of this model.
- Loading settings from the environment (settings.py) is not modelled. The defaults 180, 14400, 2 and 3 appear as `DefaultSettings`.
- Session mechanics (commit, refresh, `bulk_save_objects`) are not modelled. Each repository call is a function from one cache value to the next.
- Transactions and concurrent merges are not modelled. Each merge is one atomic transition.
- The body of `find_single_route` (route_finder.py:40-47) is empty, so leg selection is the parameter `pick`. It also takes `(dept_station, target_station, t_dept)` while `search_routes` passes two frames; the model follows the call.
- RouteFinder.SearchRoutes: the cache is a fixed value during the search. Downloading on a cache miss and retrying are not modelled, and neither is reporting a missing route or an excessive wait.
- RouteFinder.GetTimetable: modelled as its documentation intends. The source is not syntactically complete: line 62 has an empty `if` block, and the result is never returned. It also reads `A if is_dept else B >= t0`, which Python groups as `A if is_dept else (B >= t0)`. The calls at lines 33-34 omit `is_dept`; the model passes `true` for the departure station and `false` for the target.
- Etl.ParseSlice: the loader's parser (etl.py:37-38) builds its frame without a station_code column. The model fills that column with the station being loaded, which the NOT NULL column needs (see the third finding).
- Repositories.BulkInsertByDf: requires every record to carry a station. This stands for the NOT NULL constraint on station_code (models.py:24); the database's rejection of a record without one is not modelled as an error value.
- Records.Interval: models.py:12-17 declares no station_code column for intervals, although `IntervalRepo` filters and creates by it. The model gives intervals the station the repository code uses.
- Etl.OuterJoin: the joined frame lists the stored rows first, then the new rows. pandas orders an outer join by its keys. Only the order in which new rows receive ids differs.
- Etl.OuterJoin: the window is duplicate-free and joins on the data columns, so no window row fans out.
- Etl.OuterJoin: joins on every data column, station included, while the loader's frame has no station column (etl.py:37-38, 79). `Etl.JoinIgnoresStation` shows the two joins agree when the cached rows of the absorbed intervals are of the loaded station. That the cache keeps each row's station equal to its interval's is not proved.
- Etl.OuterJoin: `pd.DataFrame` of the ORM objects returned at etl.py:78 has no data columns, so the join at line 79 has nothing to match on and would fail. By then `IntervalRepo.create` has already committed the new interval (repositories.py:20). The model instead reads each stored row's fields directly, which is what the merge evidently intends.
- Etl.UpdateTimetable: stores records through the corrected `MakeTtbDicts`, which carries station_code, not through the projection as written (see the third finding).
- TransportApi.ParseRows: reads the column assignment of transport_api.py:44 (and etl.py:38) as intended, one service and one train per record. As written, pandas raises unless there are exactly two records and, with two, puts each record's pair into one column (see the fourth finding).
- TransportApi.ParseTimetable: its failure condition leaves out the error the column assignment raises for any number of records other than two, since it models the intended assignment (see the fourth finding).
- TransportApi.ParsedRows: "keeps its record's train and service number" holds of the intended assignment; as written, it holds for no non-empty response (see the fourth finding).
- Etl.ParseSlice: reads the same assignment at etl.py:38 as intended, like `TransportApi.ParseRows`.
- Clock.TimeToSeconds: models both `time_to_seconds` of helpers.py and its identical copy at transport_api.py:18-26.
- Clock.ParseDecimal: only ASCII digits are accepted, for the clock chunks and the service numbers alike. Python's `int()` also accepts surrounding whitespace, a sign and underscores, so a chunk such as " 5" is rejected here but read by the source. A service number is always taken as text; one that the JSON already delivers as a number is not modelled separately.
- `download_multiple_timetables` cannot serve `load_timetable` as written. etl.py:105 calls it with three arguments `(station, t0, tmp_dirname)`, but transport_api.py:63 takes two, and etl.py:106 treats its result as a list of file names while it returns a frame that wraps the parsed frames (transport_api.py:76). The model takes the decoded responses of the slices directly, parses each as etl.py:106 does, and concatenates them as etl.py:107 does.
- The unit of `t_window` is not modelled. The default 2 is added to epoch seconds as written.
- Interval ids are only compared, never reused. The ORM's `cascade="all, delete"` on `Interval.items` is not modelled: rows are always re-pointed before their intervals are deleted, so it never applies.

## Findings

| source | as written | input that shows it | evidently intended | confidence | as-written member | corrected member |
|---|---|---|---|---|---|---|
| train_app/repositories.py:42-55 | `fetch_including` requires `start < val` and `fetch_included` requires `start > min_val`, so an interval that starts exactly at `t0` is absorbed by neither | cache holds interval 0 of station S over [10, 20]; a window with `t0 = 10` and latest departure 30 is merged | the interval starting at `t0` is absorbed, and station intervals stay apart | not executed | MergeTheorems.AsWrittenMergeOverlaps | MergeTheorems.ClosedMergeKeepsNonOverlapping |
| train_app/repositories.py:42-55 | the same comparisons miss an interval that both starts and ends at `t0`, so re-merging the same window absorbs nothing | empty cache; a window of one row departing at `t0 = 10` is merged twice | the second merge absorbs the first interval and stores no row twice | not executed | MergeTheorems.AsWrittenRefetchDuplicates | MergeTheorems.ClosedMergeIdempotent |
| train_app/repositories.py:83-86 | `make_ttb_dicts_by_df` does not project station_code, which is NOT NULL (models.py:24), so the database rejects every insert of the merge | two frame rows that differ only in station ("AAA" and "BBB") give identical records | the records carry the station, so a row reads back as it was written | not executed | Repositories.AsWrittenDictsForgetStation | Repositories.MakeTtbDictsRoundTrip |
| train_app/transport_api.py:44 | `df[['service', 'train_uid']] = services, uids` hands pandas two lists, which it reads as a table of two rows and n columns; the assignment raises unless n is 2, and with n = 2 the service column receives the first record's service and train (the same statement is at etl.py:38) | a response with three parsable departure records | each record's service goes to its row's service column and its train to the train_uid column | not executed; read from pandas' `__setitem__` for a list key, which may differ between pandas versions | TransportApi.AsWrittenColumnsNeverIntended | TransportApi.ParsedColumns |
