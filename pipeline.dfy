/** Worked scenarios through the whole pipeline: raw records are validated,
    tabulated and aggregated, with the values the repository's tests and
    documentation give. */
module Pipeline {
  import opened Json
  import opened Order
  import opened Sorting
  import opened Validator
  import opened Tabulator
  import opened Aggregator

  /** A raw event record with the given identifier, type, team and player,
      at minute 10, second 30. */
  function SampleEvent(id: int, eventType: string, team: string, player: string): (e: Record)
    ensures HasAll(e, EventFields) && Tabulable(e)
  {
    map["id" := Int(id), "type" := Obj(map["name" := Str(eventType)]),
        "minute" := Int(10), "second" := Int(30), "possession" := Int(1),
        "play_pattern" := Obj(map["name" := Str("Regular Play")]),
        "team" := Obj(map["name" := Str(team)]), "player" := Obj(map["name" := Str(player)])]
  }

  /** A single event row with a team, a player, an id and a type gives one team
      row and one player row, each counting one event of that type. */
  lemma {:induction false} OneRowStats(row: EventRow)
    requires row.teamName.Some? && row.playerName.Some? && row.eventType.Some? && HasId(row)
    ensures GetTeamStats([row]) == [StatsRow([row.teamName.value], 1, map[row.eventType.value := 1])]
    ensures GetPlayerStats([row]) ==
      [StatsRow([row.teamName.value, row.playerName.value], 1, map[row.eventType.value := 1])]
  {
    var rows := [row];
    var t := row.eventType.value;
    assert rows[1..] == [];
    forall g: Grouping ensures GroupStats(rows, g) == [StatsRow(GroupKey(row, g).value, 1, map[t := 1])] {
      var k := GroupKey(row, g).value;
      assert GroupKeys(rows[1..], g) == [];
      assert GroupKeys(rows, g) == [k];
      assert CountIn(rows, g, k, WithId) == 1 by {
        assert CountIn(rows[1..], g, k, WithId) == 0;
      }
      assert Breakdown(rows, g, k) == map[t := 1] by {
        assert Breakdown(rows[1..], g, k) == map[];
      }
      assert StatsFor(rows, g, [k])[0] == StatsRow(k, 1, map[t := 1]);
    }
    assert GetTeamStats(rows) == GroupStats(rows, ByTeam);
    assert GetPlayerStats(rows) == GroupStats(rows, ByTeamAndPlayer);
  }

  /** A sample event tabulates to its type, team and player names, at
      10 * 60 + 30 = 630 seconds, with an empty shot object (it has no shot detail). */
  lemma SampleEventRow(id: int, eventType: string, team: string, player: string)
    ensures var e := SampleEvent(id, eventType, team, player);
      TabulateEvent(e) == EventRow(e, Some(eventType), Some(team), Some(player), Some(630), Obj(map[]))
  {
    var e := SampleEvent(id, eventType, team, player);
    assert "shot" !in e;
  }

  /** A single complete event whose row has a team, a player and a type passes
      validation, becomes that one row, and gives one team row and one player
      row, each counting one event of its type. */
  lemma {:induction false} OneCompleteEvent(e: Record)
    requires HasAll(e, EventFields) && Tabulable(e)
    requires var row := TabulateEvent(e); row.teamName.Some? && row.playerName.Some? && row.eventType.Some? && HasId(row)
    ensures var row := TabulateEvent(e);
      && KeepComplete([e], EventFields) == [e]
      && ProcessEvents([e]) == [row]
      && GetTeamStats(ProcessEvents([e])) == [StatsRow([row.teamName.value], 1, map[row.eventType.value := 1])]
      && GetPlayerStats(ProcessEvents([e])) ==
         [StatsRow([row.teamName.value, row.playerName.value], 1, map[row.eventType.value := 1])]
  {
    assert KeepComplete([e], EventFields) == KeepComplete([], EventFields) + [e];
    assert ProcessEvents([e])[0] == TabulateEvent(e);
    OneRowStats(TabulateEvent(e));
  }

  /** One event shaped like the repository's sample (a Shot by Player 1 of
      Team A, there with a location no step here reads): it
      passes validation, becomes a row with timestamp 630 and an empty shot
      object, and gives one team row and one player row, each with one event
      and a breakdown counting one event of its type. */
  lemma OneEventEndToEnd(eventType: string, team: string, player: string)
    ensures var e := SampleEvent(1, eventType, team, player);
      && KeepComplete([e], EventFields) == [e]
      && ProcessEvents([e]) == [EventRow(e, Some(eventType), Some(team), Some(player), Some(630), Obj(map[]))]
      && GetTeamStats(ProcessEvents([e])) == [StatsRow([team], 1, map[eventType := 1])]
      && GetPlayerStats(ProcessEvents([e])) == [StatsRow([team, player], 1, map[eventType := 1])]
  {
    var e := SampleEvent(1, eventType, team, player);
    SampleEventRow(1, eventType, team, player);
    assert HasId(TabulateEvent(e));
    OneCompleteEvent(e);
  }

  /** Three keyed rows, the first and last in group `p`, the middle one in group
      `q` after it: two stats rows, `p` with two events and `q` with one. */
  lemma {:induction false} TwoGroupsOfThreeRows(r0: EventRow, r1: EventRow, r2: EventRow, g: Grouping, p: seq<string>, q: seq<string>)
    requires GroupKey(r0, g) == Some(p) && GroupKey(r1, g) == Some(q) && GroupKey(r2, g) == Some(p)
    requires HasId(r0) && HasId(r1) && HasId(r2)
    requires TupleLt(p, q)
    ensures var stats := GroupStats([r0, r1, r2], g);
      |stats| == 2 && stats[0].key == p && stats[0].totalEvents == 2 && stats[1].key == q && stats[1].totalEvents == 1
  {
    var rows := [r0, r1, r2];
    assert rows[1..] == [r1, r2] && rows[1..][1..] == [r2] && rows[1..][1..][1..] == [];
    TupleLtIrreflexive(p);
    TupleLtIrreflexive(q);
    TupleLtTransitive(q, p, q);
    assert p != q && !TupleLt(q, p);
    assert GroupKeys([r2], g) == [p];
    assert InsertKey(q, [p]) == [p] + InsertKey(q, []);
    assert GroupKeys([r1, r2], g) == [p, q];
    assert GroupKeys(rows, g) == [p, q];
    assert CountIn([r2], g, p, WithId) == 1 && CountIn([r2], g, q, WithId) == 0;
    assert CountIn([r1, r2], g, p, WithId) == 1 && CountIn([r1, r2], g, q, WithId) == 1;
    assert CountIn(rows, g, p, WithId) == 2 && CountIn(rows, g, q, WithId) == 1;
  }

  /** Two keyed events by player `p` and one by player `q` of the same team, in
      the order p, q, p: two player rows, `p` with two events and `q` with one,
      in player order. */
  lemma TwoPlayersOfOneTeam(r0: EventRow, r1: EventRow, r2: EventRow, team: string, p: string, q: string)
    requires r0.teamName == Some(team) && r1.teamName == Some(team) && r2.teamName == Some(team)
    requires r0.playerName == Some(p) && r1.playerName == Some(q) && r2.playerName == Some(p)
    requires HasId(r0) && HasId(r1) && HasId(r2)
    requires StrLt(p, q)
    ensures var stats := GetPlayerStats([r0, r1, r2]);
      && |stats| == 2
      && stats[0].key == [team, p] && stats[0].totalEvents == 2
      && stats[1].key == [team, q] && stats[1].totalEvents == 1
  {
    assert TupleLt([team, p], [team, q]) by {
      assert [team, p][1..] == [p] && [team, q][1..] == [q];
      assert [p][1..] == [] && [q][1..] == [];
    }
    TwoGroupsOfThreeRows(r0, r1, r2, ByTeamAndPlayer, [team, p], [team, q]);
    assert GetPlayerStats([r0, r1, r2]) == GroupStats([r0, r1, r2], ByTeamAndPlayer);
  }

  /** A competition record with the given name and season. */
  function Competition(name: string, season: string): (r: Record)
    ensures SortableCompetition(r) && CompetitionKey(r) == [Text(name), Text(season)]
  {
    map["competition_id" := Int(1), "competition_name" := Str(name), "season_id" := Int(1), "season_name" := Str(season)]
  }

  /** Inserting a row that does not sort before the one row of `[a]` appends it. */
  lemma InsertAfterOne<T>(a: T, b: T, key: T -> seq<Cell>)
    requires !KeyLe(key(b), key(a))
    ensures InsertBy(b, [a], key) == [a, b]
  {
    assert [a][1..] == [];
  }

  /** Inserting a row that sorts before neither row of a sorted `[a, b]` appends it. */
  lemma InsertAfterTwo<T>(a: T, b: T, c: T, key: T -> seq<Cell>)
    requires KeyLe(key(a), key(b))
    requires !KeyLe(key(c), key(a)) && !KeyLe(key(c), key(b))
    ensures InsertBy(c, [a, b], key) == [a, b, c]
  {
    assert [a, b][1..] == [b];
    InsertAfterOne(b, c, key);
  }

  /** Three rows whose keys are strictly ascending in the order x, y, z come
      out of the sort as x, y, z whatever order they come in as z, y, x. */
  lemma {:induction false} SortReversedThree<T>(x: T, y: T, z: T, key: T -> seq<Cell>)
    requires KeyLe(key(x), key(y)) && !KeyLe(key(y), key(x))
    requires !KeyLe(key(z), key(y)) && !KeyLe(key(z), key(x))
    ensures SortBy([z, y, x], key) == [x, y, z]
  {
    var input := [z, y, x];
    assert input[1..] == [y, x] && [y, x][1..] == [x] && [x][1..] == [];
    assert SortBy([x], key) == [x];
    InsertAfterOne(x, y, key);
    assert SortBy([y, x], key) == [x, y];
    InsertAfterTwo(x, y, z, key);
  }

  /** Competitions (B, 2021), (A, 2021), (A, 2020) come out as
      (A, 2020), (A, 2021), (B, 2021). */
  lemma CompetitionsSortByNameThenSeason()
    ensures ProcessCompetitions([Competition("B", "2021"), Competition("A", "2021"), Competition("A", "2020")])
         == [Competition("A", "2020"), Competition("A", "2021"), Competition("B", "2021")]
  {
    var b21, a21, a20 := Competition("B", "2021"), Competition("A", "2021"), Competition("A", "2020");
    assert StrLt("A", "B");
    assert StrLt("2020", "2021") by {
      assert "2020"[1..] == "020" && "2021"[1..] == "021";
      assert "020"[1..] == "20" && "021"[1..] == "21";
      assert "20"[1..] == "0" && "21"[1..] == "1";
    }
    StrLtAsymmetric("A", "B");
    StrLtAsymmetric("2020", "2021");
    SortReversedThree(a20, a21, b21, CompetitionKey);
  }
}
