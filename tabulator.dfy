/** The tabulators of src/data/processor.py: validated records become table
    rows; competitions and matches are sorted, events gain derived columns. */
module Tabulator {
  import opened Json
  import opened Order
  import opened Sorting
  import opened Validator

  /** The hard errors tabulation raises: a column absent from the table (pandas'
      KeyError) or a date `pd.to_datetime` cannot parse. */
  datatype TableError = MissingColumn(column: string) | UnparsableDate(row: nat)

  // ---------------------------------------------------------------- competitions

  /** A field that is text or JSON null, as the column `sort_values` compares. */
  predicate TextOrNull(r: Record, field: string)
  {
    field in r && (r[field].Str? || r[field].Null?)
  }

  function TextCell(r: Record, field: string): Cell
  {
    if field in r && r[field].Str? then Text(r[field].s) else Missing
  }

  predicate SortableCompetition(r: Record)
  {
    TextOrNull(r, "competition_name") && TextOrNull(r, "season_name")
  }

  /** The sort key `['competition_name', 'season_name']`. */
  function CompetitionKey(r: Record): seq<Cell>
  {
    [TextCell(r, "competition_name"), TextCell(r, "season_name")]
  }

  /** `process_competitions`, for every input including the empty list: the same
      records, ascending by competition name and then season name. */
  function ProcessCompetitions(competitions: seq<Record>): (table: seq<Record>)
    requires forall i :: 0 <= i < |competitions| ==> SortableCompetition(competitions[i])
    ensures multiset(table) == multiset(competitions)
    ensures SortedBy(table, CompetitionKey)
  {
    SortBy(competitions, CompetitionKey)
  }

  /** `process_competitions` as written: `pd.DataFrame([])` has no columns, so
      sorting an empty list raises KeyError on 'competition_name'. */
  function ProcessCompetitionsAsWritten(competitions: seq<Record>): Result<seq<Record>, TableError>
    requires forall i :: 0 <= i < |competitions| ==> SortableCompetition(competitions[i])
  {
    if competitions == [] then Err(MissingColumn("competition_name"))
    else Ok(ProcessCompetitions(competitions))
  }

  lemma EmptyCompetitionListFails()
    ensures ProcessCompetitionsAsWritten([]) == Err(MissingColumn("competition_name"))
    ensures ProcessCompetitions([]) == []
  {
  }

  // ---------------------------------------------------------------- matches

  /** A match row: the record's fields, and `match_date` as parsed by `pd.to_datetime`. */
  datatype MatchRow = MatchRow(fields: Record, matchDate: Cell)

  /** `pd.to_datetime` on one cell: null becomes NaT (missing); any other value
      goes to the date parser, which is not modelled and is a parameter here. */
  function DateCell(v: Value, parse: Value -> Option<int>): Option<Cell>
  {
    if v.Null? then Some(Missing)
    else match parse(v)
      case Some(t) => Some(Instant(t))
      case None => None
  }

  /** The first row whose `match_date` the parser rejects, if any: the row
      `pd.to_datetime` raises on when it converts the column. */
  function FirstUnparsable(matches: seq<Record>, parse: Value -> Option<int>): (r: Option<nat>)
    requires forall i :: 0 <= i < |matches| ==> "match_date" in matches[i]
    ensures r.Some? ==> (
      && r.value < |matches|
      && DateCell(matches[r.value]["match_date"], parse) == None
      && forall j :: 0 <= j < r.value ==> DateCell(matches[j]["match_date"], parse).Some?)
    ensures r.None? ==> forall i :: 0 <= i < |matches| ==> DateCell(matches[i]["match_date"], parse).Some?
  {
    if matches == [] then None
    else if DateCell(matches[0]["match_date"], parse).None? then Some(0)
    else match FirstUnparsable(matches[1..], parse)
      case Some(k) => Some(k + 1)
      case None => None
  }

  /** The parsed `match_date` of a record whose date parses. */
  function ParsedDate(m: Record, parse: Value -> Option<int>): Cell
  {
    if "match_date" in m && DateCell(m["match_date"], parse).Some? then DateCell(m["match_date"], parse).value
    else Missing
  }

  /** The sort key `'match_date'` of a row (after parsing). */
  function MatchKey(m: MatchRow): seq<Cell>
  {
    [m.matchDate]
  }

  function Fields(rows: seq<MatchRow>): seq<Record>
  {
    seq(|rows|, i requires 0 <= i < |rows| => rows[i].fields)
  }

  /** `process_matches`, for every input including the empty list: either some
      date does not parse, or the rows are the input records (a permutation),
      each with its own parsed date, ascending by that date. */
  function ProcessMatches(matches: seq<Record>, parse: Value -> Option<int>): (r: Result<seq<MatchRow>, TableError>)
    requires forall i :: 0 <= i < |matches| ==> "match_date" in matches[i]
    ensures r.Err? <==> exists i :: 0 <= i < |matches| && DateCell(matches[i]["match_date"], parse) == None
    ensures r.Err? ==> (
      && r.error.UnparsableDate? && r.error.row < |matches|
      && DateCell(matches[r.error.row]["match_date"], parse) == None)
    ensures r.Ok? ==> multiset(Fields(r.value)) == multiset(matches)
    ensures r.Ok? ==> SortedBy(r.value, MatchKey)
    ensures r.Ok? ==> forall row | row in r.value ::
      "match_date" in row.fields && DateCell(row.fields["match_date"], parse) == Some(row.matchDate)
  {
    match FirstUnparsable(matches, parse)
    case Some(k) => Err(UnparsableDate(k))
    case None =>
      var sorted := SortBy(matches, m => [ParsedDate(m, parse)]);
      DatedRows(matches, sorted, parse);
      Ok(Dated(sorted, parse))
  }

  /** Each record with its parsed date. */
  function Dated(sorted: seq<Record>, parse: Value -> Option<int>): seq<MatchRow>
  {
    seq(|sorted|, i requires 0 <= i < |sorted| => MatchRow(sorted[i], ParsedDate(sorted[i], parse)))
  }

  /** Dating a sorted permutation of records whose dates all parse. */
  lemma DatedRows(matches: seq<Record>, sorted: seq<Record>, parse: Value -> Option<int>)
    requires forall i :: 0 <= i < |matches| ==> "match_date" in matches[i]
    requires forall i :: 0 <= i < |matches| ==> DateCell(matches[i]["match_date"], parse).Some?
    requires multiset(sorted) == multiset(matches)
    requires SortedBy(sorted, m => [ParsedDate(m, parse)])
    ensures Fields(Dated(sorted, parse)) == sorted
    ensures SortedBy(Dated(sorted, parse), MatchKey)
    ensures forall row | row in Dated(sorted, parse) ::
      "match_date" in row.fields && DateCell(row.fields["match_date"], parse) == Some(row.matchDate)
  {
    var rows := Dated(sorted, parse);
    assert Fields(rows) == sorted;
    forall i, j | 0 <= i < j < |rows| ensures KeyLe(MatchKey(rows[i]), MatchKey(rows[j])) {
      assert MatchKey(rows[i]) == [ParsedDate(sorted[i], parse)];
      assert MatchKey(rows[j]) == [ParsedDate(sorted[j], parse)];
    }
    forall row | row in rows
      ensures "match_date" in row.fields && DateCell(row.fields["match_date"], parse) == Some(row.matchDate)
    {
      var i :| 0 <= i < |rows| && rows[i] == row;
      assert sorted[i] in multiset(matches);
      var k :| 0 <= k < |matches| && matches[k] == sorted[i];
    }
  }

  /** `process_matches` as written: on an empty list `df['match_date']` raises KeyError. */
  function ProcessMatchesAsWritten(matches: seq<Record>, parse: Value -> Option<int>): Result<seq<MatchRow>, TableError>
    requires forall i :: 0 <= i < |matches| ==> "match_date" in matches[i]
  {
    if matches == [] then Err(MissingColumn("match_date"))
    else ProcessMatches(matches, parse)
  }

  lemma EmptyMatchListFails(parse: Value -> Option<int>)
    ensures ProcessMatchesAsWritten([], parse) == Err(MissingColumn("match_date"))
    ensures ProcessMatches([], parse) == Ok([])
  {
  }

  // ---------------------------------------------------------------- events

  /** An event row: the record's own fields plus the derived columns. A column
      pandas would hold as None/NaN is `None` here. */
  datatype EventRow = EventRow(
    fields: Record,
    eventType: Option<string>,
    teamName: Option<string>,
    playerName: Option<string>,
    timestamp: Option<int>,
    shot: Value)

  /** A nested object whose `name`, if present, is text or null. */
  predicate NamedObject(v: Value)
  {
    v.Obj? && ("name" in v.fields ==> v.fields["name"].Str? || v.fields["name"].Null?)
  }

  predicate IntOrNull(v: Value)
  {
    v.Int? || v.Null?
  }

  /** What tabulating an event relies on: the validated keys, nested objects
      where `.get('name')` is called, and integer minute and second. */
  predicate Tabulable(e: Record)
  {
    && HasAll(e, EventFields)
    && "type" in e && "team" in e && "player" in e && "minute" in e && "second" in e
    && NamedObject(e["type"]) && NamedObject(e["team"]) && NamedObject(e["player"])
    && IntOrNull(e["minute"]) && IntOrNull(e["second"])
  }

  /** `x.get('name')` on a nested object; null or absent gives None. */
  function NestedName(v: Value): Option<string>
  {
    if v.Obj? && "name" in v.fields && v.fields["name"].Str? then Some(v.fields["name"].s) else None
  }

  function Timestamp(minute: Value, second: Value): Option<int>
  {
    if minute.Int? && second.Int? then Some(minute.i * 60 + second.i) else None
  }

  /** The corrected `shot` column: the event's own `shot` object (or `{}` when it
      has none) for a Shot, `{}` for every other event. */
  function ShotCell(e: Record, eventType: Option<string>): Value
  {
    if eventType == Some("Shot") then Get(e, "shot", Obj(map[])) else Obj(map[])
  }

  function TabulateEvent(e: Record): EventRow
    requires Tabulable(e)
  {
    var eventType := NestedName(e["type"]);
    EventRow(e, eventType, NestedName(e["team"]), NestedName(e["player"]),
             Timestamp(e["minute"], e["second"]), ShotCell(e, eventType))
  }

  /** `process_events`, for every input including the empty list: one row per
      event, in order, keeping the event's fields and adding the derived columns. */
  function ProcessEvents(events: seq<Record>): (table: seq<EventRow>)
    requires forall i :: 0 <= i < |events| ==> Tabulable(events[i])
    ensures |table| == |events|
    ensures forall i :: 0 <= i < |events| ==> table[i].fields == events[i]
    ensures forall i, n :: 0 <= i < |events| ==> (
      && Tabulable(events[i])
      && (table[i].eventType == Some(n) <==> "name" in events[i]["type"].fields && events[i]["type"].fields["name"] == Str(n))
      && (table[i].teamName == Some(n) <==> "name" in events[i]["team"].fields && events[i]["team"].fields["name"] == Str(n))
      && (table[i].playerName == Some(n) <==> "name" in events[i]["player"].fields && events[i]["player"].fields["name"] == Str(n)))
    ensures forall i, m, s ::
      (0 <= i < |events| && Tabulable(events[i]) && events[i]["minute"] == Int(m) && events[i]["second"] == Int(s))
      ==> table[i].timestamp == Some(m * 60 + s)
    ensures forall i ::
      (0 <= i < |events| && Tabulable(events[i]) && (events[i]["minute"].Null? || events[i]["second"].Null?))
      ==> table[i].timestamp == None
    ensures forall i :: 0 <= i < |events| ==>
      table[i].shot == if table[i].eventType == Some("Shot") && "shot" in events[i] then events[i]["shot"] else Obj(map[])
  {
    seq(|events|, i requires 0 <= i < |events| => TabulateEvent(events[i]))
  }

  /** The `shot` column as written: `x.get('shot', {})` reads the row of a
      DataFrame, and once any event carries a `shot` key the column exists and
      a Shot event without one reads the missing value (NaN), not `{}`. */
  function ShotCellAsWritten(e: Record, eventType: Option<string>, shotColumnExists: bool): Value
  {
    if eventType == Some("Shot") then
      (if "shot" in e then e["shot"] else if shotColumnExists then Null else Obj(map[]))
    else Obj(map[])
  }

  /** `process_events` as written: an empty list has no 'type' column (KeyError),
      and the `shot` column follows `ShotCellAsWritten`. */
  function ProcessEventsAsWritten(events: seq<Record>): Result<seq<EventRow>, TableError>
    requires forall i :: 0 <= i < |events| ==> Tabulable(events[i])
  {
    if events == [] then Err(MissingColumn("type"))
    else
      var shotColumnExists := exists e | e in events :: "shot" in e;
      Ok(seq(|events|, i requires 0 <= i < |events| =>
        var row := TabulateEvent(events[i]);
        row.(shot := ShotCellAsWritten(events[i], row.eventType, shotColumnExists))))
  }

  lemma EmptyEventListFails()
    ensures ProcessEventsAsWritten([]) == Err(MissingColumn("type"))
    ensures ProcessEvents([]) == []
  {
  }

  /** A Shot event without shot detail, next to one with it: as written its
      `shot` cell is the missing value; the corrected column gives `{}`. */
  lemma ShotWithoutDetailReadsMissing()
    ensures var bare := map["id" := Int(1), "type" := Obj(map["name" := Str("Shot")]),
                            "minute" := Int(10), "second" := Int(30), "possession" := Int(1),
                            "play_pattern" := Obj(map[]), "team" := Obj(map[]), "player" := Obj(map[])];
            var detailed := bare["id" := Int(2)]["shot" := Obj(map["outcome" := Str("Goal")])];
            && Tabulable(bare) && Tabulable(detailed)
            && ProcessEventsAsWritten([bare, detailed]).Ok?
            && ProcessEventsAsWritten([bare, detailed]).value[0].shot == Null
            && ProcessEvents([bare, detailed])[0].shot == Obj(map[])
  {
    var bare := map["id" := Int(1), "type" := Obj(map["name" := Str("Shot")]),
                    "minute" := Int(10), "second" := Int(30), "possession" := Int(1),
                    "play_pattern" := Obj(map[]), "team" := Obj(map[]), "player" := Obj(map[])];
    var detailed := bare["id" := Int(2)]["shot" := Obj(map["outcome" := Str("Goal")])];
    assert "shot" in detailed && detailed in [bare, detailed];
  }

  /** When every Shot event carries its shot detail, the code as written and the
      corrected column agree on every non-empty event list. */
  lemma AsWrittenAgreesWhenShotsHaveDetail(events: seq<Record>)
    requires events != []
    requires forall i :: 0 <= i < |events| ==> Tabulable(events[i])
    requires forall i :: 0 <= i < |events| && Tabulable(events[i]) && NestedName(events[i]["type"]) == Some("Shot") ==> "shot" in events[i]
    ensures ProcessEventsAsWritten(events) == Ok(ProcessEvents(events))
  {
    var written := ProcessEventsAsWritten(events).value;
    var corrected := ProcessEvents(events);
    assert |written| == |corrected|;
    forall i | 0 <= i < |events| ensures written[i] == corrected[i] {
      assert Tabulable(events[i]);
    }
    assert written == corrected;
  }
}
