# StatsBomb dashboard: the record-reshaping core, in Dafny

This project models the part of the StatsBomb Streamlit dashboard that turns
raw StatsBomb JSON records into tables and chart data.

- **Validators** (`Validator`). The three `validate_*_data` loops keep, in
  order and unchanged, the records that carry every required key.
- **Tabulators** (`Tabulator`):
  - `process_competitions` sorts by competition name, then season name;
  - `process_matches` parses `match_date` and sorts by it;
  - `process_events` adds the `event_type`, `team_name`, `player_name`,
    `timestamp` and `shot` columns.
- **Statistics** (`Aggregator`). `get_team_stats` and `get_player_stats`
  group the event rows by team, and by team and player. For each group they
  give the number of non-null ids and a per-type `value_counts` breakdown.
- **Chart data** (`ChartData`):
  - the nested loops that flatten the breakdowns into bar-chart rows;
  - the team filter of the player chart;
  - the heatmap's type filter and location unpacking;
  - the per-player counts behind the radar chart.
- **Scenarios** (`Pipeline`). Worked examples through the whole pipeline:
  - the repository's sample event;
  - a three-event player grouping;
  - the competition ordering example.

Supporting modules:

- `Json` holds the JSON value type and the `Option`/`Result` wrappers.
- `Order` holds the orders pandas sorts and groups by. Text is compared
  lexicographically by code point, dates numerically, and a missing value
  sorts last.
- `Sorting` holds `sort_values`, modelled as an insertion sort. Only
  "ascending and a permutation" is claimed: pandas does not promise a
  stable order.

A cell pandas holds as NaN/None/NaT is `Json.Null` in a raw record, and
`None`/`Missing` in a derived column. `groupby` drops rows whose key is
missing and lists its groups in ascending key order. The `'id': 'count'`
aggregation counts the non-null ids. `value_counts` leaves out missing types.

## Model

| member | source | states |
|---|---|---|
| Validator.KeepValid | src/data/processor.py:20-29 | the shared validation loop returns exactly the records of the input that carry every required key, in input order (its result is `KeepComplete`) |
| Validator.ValidateCompetitionData | src/data/processor.py:10-29 | keeps the competitions that have competition_id, competition_name, season_id and season_name |
| Validator.ValidateMatchData | src/data/processor.py:31-53 | keeps the matches that have match_id, home_team, away_team, home_score, away_score and match_date |
| Validator.ValidateEventData | src/data/processor.py:55-78 | keeps the events that have id, type, minute, second, possession, play_pattern, team and player |
| Validator.KeepCompleteIsSelection | src/data/processor.py:23-27 | the output is a subsequence of the input: output k is input idx[k], the positions strictly increase, and position j is picked iff its record has every required key |
| Validator.KeepCompleteCounts | src/data/processor.py:23-27 | each complete record appears in the output exactly as often as in the input; no incomplete record appears at all |
| Validator.KeepCompleteAllComplete | src/data/processor.py:23-27 | every returned record passes the presence check |
| Validator.KeepCompleteAppend | src/data/processor.py:23-27 | validating a concatenation is the concatenation of the validated parts (the check is per record) |
| Validator.KeepCompleteIdempotent | src/data/processor.py:23-27 | validating the output again changes nothing |
| Validator.IdOnlyRecordsAreDropped | tests/test_data_processing.py:41-63 | a record with only its id field is dropped by each of the three validators |
| Sorting.SortBy | src/data/processor.py:91 | the sorted rows are ascending by the key and a permutation of the input |
| Sorting.InsertBy | src/data/processor.py:91 | inserting into an ascending sequence keeps it ascending and adds exactly the inserted row |
| Order.StrLtTrichotomy | src/data/processor.py:91 | the text order is total: two strings are equal or one is smaller |
| Order.StrLtTransitive | src/data/processor.py:91 | the text order is transitive |
| Order.TupleLtTrichotomy | src/data/processor.py:162 | the order on (team, player) group keys is total |
| Order.TupleLtTransitive | src/data/processor.py:162 | the order on group keys is transitive |
| Order.KeyLeTotal | src/data/processor.py:91 | any two sort keys are comparable (the order `sort_values` uses is total) |
| Order.KeyLeTransitive | src/data/processor.py:91 | the sort-key order is transitive |
| Tabulator.ProcessCompetitions | src/data/processor.py:80-92 | the table is a permutation of the input competitions, ascending by competition name and then season name |
| Tabulator.FirstUnparsable | src/data/processor.py:105 | the reported row is the first whose `match_date` does not parse, and none is reported iff every date parses |
| Tabulator.ProcessMatches | src/data/processor.py:94-107 | fails iff some `match_date` does not parse, and names such a row; otherwise the rows are a permutation of the input, each row carries its own parsed date, and the rows are ascending by date |
| Tabulator.ProcessEvents | src/data/processor.py:109-132 | one row per event, in order, keeping its fields; the type, team and player names are the nested `name` when it is text and missing otherwise; timestamp = minute * 60 + second, missing when either is null; `shot` is the event's own shot object for a Shot that has one and `{}` otherwise |
| Tabulator.EmptyCompetitionListFails | src/data/processor.py:90-91 | as written, an empty competition list raises KeyError on `competition_name`; the corrected function returns the empty table |
| Tabulator.EmptyMatchListFails | src/data/processor.py:104-105 | as written, an empty match list raises KeyError on `match_date`; the corrected function returns the empty table |
| Tabulator.EmptyEventListFails | src/data/processor.py:119-122 | as written, an empty event list raises KeyError on `type`; the corrected function returns the empty table |
| Tabulator.ShotWithoutDetailReadsMissing | src/data/processor.py:130 | a Shot without shot detail next to one with it reads the missing value as written, and `{}` when corrected |
| Tabulator.AsWrittenAgreesWhenShotsHaveDetail | src/data/processor.py:119-132 | on a non-empty list where every Shot has its detail, the code as written and the corrected function agree |
| Aggregator.CountInPositive | src/data/processor.py:144-146 | a group's tally is positive iff some row of the group is counted by it |
| Aggregator.InsertKey | src/data/processor.py:144 | inserting a key keeps the group keys strictly ascending and adds exactly that key |
| Aggregator.GroupKeys | src/data/processor.py:144 | the group keys are strictly ascending, and a key is listed iff some row has it (rows with a missing key form no group) |
| Aggregator.Breakdown | src/data/processor.py:146 | a type is in a group's breakdown iff the group has a row of that type, and its value is that number of rows |
| Aggregator.BreakdownSum | src/data/processor.py:146 | a breakdown's values add up to the group's rows that have a type |
| Aggregator.GroupStats | src/data/processor.py:144-149 | one stats row per key present, strictly ascending by key; each row's total is the group's non-null ids and its breakdown is the group's value_counts |
| Aggregator.GetTeamStats | src/data/processor.py:134-150 | one row per team name present in the events, ascending by name; total_events = non-null ids of the team's events; event_breakdown = the team's event types with their counts |
| Aggregator.GetPlayerStats | src/data/processor.py:152-168 | one row per (team, player) pair present, ascending by team then player; totals and breakdowns as for teams |
| Aggregator.BreakdownAddsUpToTotal | src/data/processor.py:144-147 | when every event has an id and a type, each row's breakdown adds up to its total_events |
| Aggregator.TotalsAddUp | src/data/processor.py:144-149 | the total_events of all rows add up to the keyed events with a non-null id |
| ChartData.AppendEntries | src/utils/visualization.py:57-63 | the inner loop appends one (group, type, count) row per breakdown entry, each entry exactly once, and adds every breakdown type to the type set |
| ChartData.UnpackBreakdowns | src/utils/visualization.py:53-63 | the nested loops yield, group by group in table order, one row per breakdown entry in some enumeration of the breakdown; the type set is the union of all breakdown types |
| ChartData.UnpackedLength | src/utils/visualization.py:53-63 | the flattened table has as many rows as there are breakdown entries in all groups |
| ChartData.UnpackedMembership | src/utils/visualization.py:53-63 | a (group, type, count) row is produced iff some group of that label has that type with that count |
| ChartData.TypesOfMembership | src/utils/visualization.py:53-58 | a type is collected iff some group's breakdown has it |
| ChartData.TeamEventBreakdown | src/utils/visualization.py:42-63 | the team chart's rows are the flattened breakdowns in table order, one per breakdown entry; a (team, type, count) row is emitted iff some stats row of that team has that type with that count, and `event_types` holds exactly the types of some breakdown |
| ChartData.TeamPlayers | src/utils/visualization.py:96 | every kept player row belongs to the chosen team |
| ChartData.TeamPlayersSelects | src/utils/visualization.py:96 | the filter keeps exactly the rows of the chosen team, each as often as in the input |
| ChartData.TeamPlayersAscending | src/utils/visualization.py:96 | the filter keeps the ascending (team, player) order of the stats |
| ChartData.PlayerEventBreakdown | src/utils/visualization.py:85-109 | the player chart's rows are the flattened breakdowns of the chosen team's players, one per breakdown entry; a (player, type, count) row is emitted iff some player stats row of that team and player has that type with that count, and `event_types` holds exactly the types of that team's player rows |
| ChartData.TeamPlayersMembership | src/utils/visualization.py:96 | a stats row passes the team mask iff the table holds it and it belongs to the chosen team |
| ChartData.PlayerCountMembership | src/utils/visualization.py:96-109 | a triple is emitted iff some player row of the chosen team has that player, type and count |
| ChartData.PlayerTypeMembership | src/utils/visualization.py:96-104 | a type enters `event_types` iff some player row of the chosen team has it in its breakdown |
| ChartData.HeatmapRows | src/utils/visualization.py:142-143 | with a non-empty type, exactly the rows of that type, each as often as in the input; with no type or an empty one, all rows |
| ChartData.HeatmapAsWritten | src/utils/visualization.py:142-153 | fails with a missing location column exactly when no event has a `location` key, and with missing coordinate columns exactly when no kept row has a coordinate pair; otherwise one point per kept row: the row's two coordinates, or (NaN, NaN) for a row without a location |
| ChartData.UnlocatedTypeFails | src/utils/visualization.py:142-147 | selecting a type whose only event has no location, next to a located event of another type, makes the heatmap raise, while the corrected heatmap is empty |
| ChartData.LocatedRowsSelects | src/utils/visualization.py:146-153 | the plotted rows are exactly the kept rows with a coordinate pair, each as often as given |
| ChartData.HeatmapPoints | src/utils/visualization.py:142-153 | one point per located kept row, in order, holding the two items of its location |
| ChartData.PlottedCoordinates | src/utils/visualization.py:146-153 | dropping the (NaN, NaN) points of the per-row coordinates leaves the coordinates of the located rows |
| ChartData.AsWrittenPlotsSamePoints | src/utils/visualization.py:146-153 | whenever the heatmap as written succeeds, the points it draws (NaN points skipped) are the corrected heatmap's points |
| ChartData.PlayerRowsSelects | src/utils/visualization.py:230 | a player's rows are exactly the events with that player name, each as often as in the input |
| ChartData.CountMetrics | src/utils/visualization.py:237-257 | the metrics dict holds, for Passes, Shots, Dribbles, Pressure Actions and Ball Recoveries in that order, the player's rows of type Pass, Shot, Dribble, Pressure and Ball Recovery |
| ChartData.SelectionSelects | src/utils/visualization.py:228-230 | one row set per selected player, in selection order; set i holds exactly the events naming player i, each as often as in the input |
| ChartData.CategoriesDistinct | src/utils/visualization.py:240-270 | distinct metrics count distinct event types and carry distinct category labels |
| ChartData.ColoursDistinct | src/utils/visualization.py:216-222 | distinct palette colours differ in both their line colour and their fill colour |
| ChartData.NeighbouringTracesDiffer | src/utils/visualization.py:216-267 | two drawn traces of players fewer than five selection positions apart are both in the figure and get different line colours and different fill colours |
| ChartData.PlayerPerformanceRadar | src/utils/visualization.py:200-283 | no players gives the empty figure; otherwise there is one trace per selected player with rows, in selection order, and the grid is drawn over the closed category list |
| ChartData.SomeTraceDrawn | src/utils/visualization.py:228-283 | once some selected player has rows, at least one trace is drawn |
| ChartData.TracesClosed | src/utils/visualization.py:270-275 | each trace has six values and six categories, the last equal to the first, the categories in the fixed order, and its five axes carry five different labels |
| ChartData.TracesAreNonEmptyPlayers | src/utils/visualization.py:228-283 | each trace is the trace of a selected position whose player has rows, and each such position's trace is drawn |
| ChartData.PlayerTraceCounts | src/utils/visualization.py:236-277 | a trace is named after its player, coloured with pair idx % 5, and totals the player's rows; value k is the player's rows of metric k's type; the five values add up to the player's rows of a radar type, which is at most the total |
| ChartData.RadarRowsSplit | src/utils/visualization.py:240-257 | the five metric counts add up to the rows of one of the five counted types |
| ChartData.RadarRowsBound | src/utils/visualization.py:236-257 | the rows of a counted type are at most all of the player's rows |
| Pipeline.SampleEvent | tests/test_data_processing.py:29-39 | the sample event record passes validation and can be tabulated |
| Pipeline.SampleEventRow | src/data/processor.py:122-130 | the sample event tabulates to its type, team and player names, timestamp 630 and an empty shot object |
| Pipeline.OneRowStats | src/data/processor.py:134-168 | a single keyed row gives one team row and one player row, each with total 1 and breakdown {type: 1} |
| Pipeline.OneCompleteEvent | src/data/processor.py:55-168 | a single complete event passes validation, becomes one row, and gives one team row and one player row of one event each |
| Pipeline.OneEventEndToEnd | tests/test_data_processing.py:96-117 | the test's single event gives exactly one team row and one player row, each with one event of its type |
| Pipeline.TwoGroupsOfThreeRows | src/data/processor.py:144-149 | rows in groups p, q, p with p before q give two stats rows: p with two events, then q with one |
| Pipeline.TwoPlayersOfOneTeam | src/data/processor.py:162-167 | two events by player p and one by player q of one team give two player rows: p with 2, then q with 1 |
| Pipeline.Competition | src/data/processor.py:91 | a competition record's sort key is its name, then its season |
| Pipeline.SortReversedThree | src/data/processor.py:91 | three rows with strictly ascending keys that arrive in reverse come out ascending |
| Pipeline.CompetitionsSortByNameThenSeason | src/data/processor.py:80-92 | (B, 2021), (A, 2021), (A, 2020) come out as (A, 2020), (A, 2021), (B, 2021) |

## Left out

- I/O is not part of this model: the loader's HTTP and JSON reading, the Streamlit app, the configuration and caching. Logging is left out too; the warning a validator logs for each skipped record is a side effect with no effect on its result.
- Plotly rendering is not modelled: figure layout, axis titles, colours other than the trace palette, the "No players selected" annotation's styling, and `download_plot`. The model stops at the data each chart is drawn from.
- `create_event_timeline` only passes the event table to a scatter plot, so it is not modelled.
- ChartData.PlayerPerformanceRadar: the percentages (`metrics[key] / total_events * 100`), `max_value` and the grid radius `max_value * 1.1` are floating point and are not modelled. Each trace carries the integer counts and the player's total, from which the percentages follow.
- ChartData.PlayerPerformanceRadar: with players selected but none of them having events, the source reads `categories` before it is assigned and raises. The model takes "no players, or some player with events" as its precondition (`RadarDefined`).
- ChartData.HeatmapAsWritten: requires every `location` to be absent, null, or a two-item array of non-null coordinates. The other shapes are not modelled; as written they behave as follows. A two-item array with a null coordinate gives a half-missing point such as (NaN, 50), and the rename succeeds. A scalar or a one-item array gives a (v, NaN) point next to a two-item row, and a single column (so the rename raises) when no kept row has two items. An array of three or more items, or a non-empty object next to a two-item row, adds columns, so the rename raises; an empty object acts like a missing location.
- ChartData.UnpackBreakdowns: the order in which a breakdown dict is iterated is not fixed by the model. The proof returns it as a ghost enumeration of the dict's keys, each exactly once.
- Tabulator.ProcessMatches: `pd.to_datetime` is not modelled; the date parser is a parameter. Its error is the `UnparsableDate` result.
- Sorting.SortBy: pandas' default quicksort is not stable. The model's insertion sort is one order pandas may return, and only "ascending and a permutation" is stated of it.
- Tabulator.ProcessEvents: requires the nested type, team and player values to be objects whose `name` is text or null, and minute and second to be integers or null. The source also accepts a `name` of another kind, which it copies unchanged into the column, and float minute or second values, which give a float timestamp; those shapes are outside the model. Only a nested value that is not an object makes `.get` raise.
- Tabulator.ProcessCompetitions: requires competition and season names to be text or null, the values `sort_values` compares.
- Pipeline.TwoPlayersOfOneTeam: stated on event rows with the given team and player names rather than on raw records.
- Pipeline.SampleEvent: the sample event without its `location` field. No operation on this path reads it.

## Findings

| source | as written | input that shows it | evidently intended | confidence | as-written member | corrected member |
|---|---|---|---|---|---|---|
| src/data/processor.py:90-91 | `pd.DataFrame([])` has no columns, so `sort_values(['competition_name', 'season_name'])` raises KeyError | an empty competition list (every competition invalid) | an empty table | not executed | Tabulator.ProcessCompetitionsAsWritten, Tabulator.EmptyCompetitionListFails | Tabulator.ProcessCompetitions |
| src/data/processor.py:104-105 | `df['match_date']` raises KeyError on a DataFrame built from an empty list | an empty match list | an empty table | not executed | Tabulator.ProcessMatchesAsWritten, Tabulator.EmptyMatchListFails | Tabulator.ProcessMatches |
| src/data/processor.py:119-122 | `df['type']` raises KeyError on a DataFrame built from an empty list | an empty event list | an empty table | not executed | Tabulator.ProcessEventsAsWritten, Tabulator.EmptyEventListFails | Tabulator.ProcessEvents |
| src/data/processor.py:130 | `x.get('shot', {})` reads the DataFrame row, where the `shot` column exists once any event has it, so a Shot without detail reads NaN rather than `{}` | a Shot event without `shot` next to a Shot event with `shot` | `{}` for a Shot without detail | not executed | Tabulator.ProcessEventsAsWritten, Tabulator.ShotWithoutDetailReadsMissing | Tabulator.ProcessEvents |
| src/utils/visualization.py:142-147 | when no kept row has a location, `apply(pd.Series)` yields one column or none: with one column the rename to x, y raises, and with no row kept at all the lookup of `x` raises | a Pass event with a location and a Starting XI event without one, with Starting XI selected | drop rows without a location; an empty heatmap | not executed | ChartData.HeatmapAsWritten, ChartData.UnlocatedTypeFails | ChartData.HeatmapPoints, ChartData.AsWrittenPlotsSamePoints |
