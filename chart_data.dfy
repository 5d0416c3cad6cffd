/** The data-shaping steps of src/utils/visualization.py that feed the charts:
    flattening stats breakdowns into (group, event type, count) triples, the
    team filter of the player chart, the heatmap's event-type filter and
    location unpacking, and the per-player counts of the radar chart. */
module ChartData {
  import opened Json
  import opened Order
  import opened Tabulator
  import opened Aggregator

  // ------------------------------------------------------------ breakdown flattening

  /** A stats row as the breakdown charts see it: the label drawn on the x axis
      (a team or a player) and its `event_breakdown`. */
  datatype Labelled = Labelled(group: string, breakdown: map<string, nat>)

  /** One entry of `event_counts`: `{'team' or 'player': …, 'event_type': …, 'count': …}`. */
  datatype CountRow = CountRow(group: string, eventType: string, count: nat)

  /** `keys` lists every key of `m` exactly once: one order in which
      `m.items()` may visit the map. */
  ghost predicate Enumerates(keys: seq<string>, m: map<string, nat>)
  {
    && (forall i, j :: 0 <= i < j < |keys| ==> keys[i] != keys[j])
    && (forall k :: k in m <==> k in keys)
  }

  /** The triples one row contributes, visiting its breakdown in the order `keys`. */
  function Block(row: Labelled, keys: seq<string>): seq<CountRow>
  {
    seq(|keys|, i requires 0 <= i < |keys| =>
      CountRow(row.group, keys[i], if keys[i] in row.breakdown then row.breakdown[keys[i]] else 0))
  }

  /** The triples of all rows, row by row in table order; `orders[g]` is the
      order in which row g's breakdown was visited. */
  function Unpacked(rows: seq<Labelled>, orders: seq<seq<string>>): seq<CountRow>
    requires |orders| == |rows|
  {
    if rows == [] then []
    else
      var n := |rows| - 1;
      Unpacked(rows[..n], orders[..n]) + Block(rows[n], orders[n])
  }

  /** The union of the breakdown keys: the `event_types` set. */
  function TypesOf(rows: seq<Labelled>): set<string>
  {
    if rows == [] then {} else TypesOf(rows[..|rows| - 1]) + rows[|rows| - 1].breakdown.Keys
  }

  /** The sum of the breakdown sizes. */
  function EntryCount(rows: seq<Labelled>): nat
  {
    if rows == [] then 0 else EntryCount(rows[..|rows| - 1]) + |rows[|rows| - 1].breakdown|
  }

  lemma BlockSnoc(row: Labelled, keys: seq<string>, t: string)
    requires t in row.breakdown
    ensures Block(row, keys + [t]) == Block(row, keys) + [CountRow(row.group, t, row.breakdown[t])]
  {
  }

  lemma UnpackedSnoc(rows: seq<Labelled>, orders: seq<seq<string>>, g: nat, order: seq<string>)
    requires g < |rows| && |orders| == g
    ensures Unpacked(rows[..g + 1], orders + [order]) == Unpacked(rows[..g], orders) + Block(rows[g], order)
    ensures TypesOf(rows[..g + 1]) == TypesOf(rows[..g]) + rows[g].breakdown.Keys
  {
    assert rows[..g + 1][..g] == rows[..g];
    assert (orders + [order])[..g] == orders;
  }

  /** The inner loop: for each (event type, count) of one row's breakdown, add
      the type to `eventTypes` and append the triple to `counts`, visiting the
      keys in the order `order`. */
  method AppendEntries(row: Labelled, counts0: seq<CountRow>, types0: set<string>)
    returns (counts: seq<CountRow>, eventTypes: set<string>, ghost order: seq<string>)
    ensures Enumerates(order, row.breakdown)
    ensures counts == counts0 + Block(row, order)
    ensures eventTypes == types0 + row.breakdown.Keys
  {
    counts, eventTypes, order := counts0, types0, [];
    var m := row.breakdown;
    var rest := m.Keys;
    while rest != {}
      invariant rest <= m.Keys
      invariant forall i, j :: 0 <= i < j < |order| ==> order[i] != order[j]
      invariant forall k :: k in order <==> k in m && k !in rest
      invariant counts == counts0 + Block(row, order)
      invariant eventTypes == types0 + (m.Keys - rest)
      decreases |rest|
    {
      var t :| t in rest;
      BlockSnoc(row, order, t);
      eventTypes := eventTypes + {t};
      counts := counts + [CountRow(row.group, t, m[t])];
      order := order + [t];
      rest := rest - {t};
    }
  }

  /** The nested loop of `create_team_event_breakdown` and
      `create_player_event_breakdown`: for each row in order, for each
      (event type, count) of its breakdown, add the type to `eventTypes` and
      append the triple to `counts`. The map's visiting order is not fixed by
      the model; `orders` records the one taken. */
  method UnpackBreakdowns(rows: seq<Labelled>) returns (counts: seq<CountRow>, eventTypes: set<string>, ghost orders: seq<seq<string>>)
    ensures |orders| == |rows|
    ensures forall g :: 0 <= g < |rows| ==> Enumerates(orders[g], rows[g].breakdown)
    ensures counts == Unpacked(rows, orders)
    ensures eventTypes == TypesOf(rows)
  {
    counts, eventTypes, orders := [], {}, [];
    for g := 0 to |rows|
      invariant |orders| == g
      invariant forall h :: 0 <= h < g ==> Enumerates(orders[h], rows[h].breakdown)
      invariant counts == Unpacked(rows[..g], orders)
      invariant eventTypes == TypesOf(rows[..g])
    {
      ghost var order;
      counts, eventTypes, order := AppendEntries(rows[g], counts, eventTypes);
      UnpackedSnoc(rows, orders, g, order);
      orders := orders + [order];
    }
    assert rows[..|rows|] == rows;
  }

  lemma {:induction false} DistinctCard(keys: seq<string>)
    requires forall i, j :: 0 <= i < j < |keys| ==> keys[i] != keys[j]
    ensures |set k | k in keys| == |keys|
  {
    if keys != [] {
      var n := |keys| - 1;
      DistinctCard(keys[..n]);
      assert (set k | k in keys) == (set k | k in keys[..n]) + {keys[n]};
      assert keys[n] !in keys[..n];
    }
  }

  /** The flattening emits one triple per breakdown entry of each row. */
  lemma {:induction false} UnpackedLength(rows: seq<Labelled>, orders: seq<seq<string>>)
    requires |orders| == |rows|
    requires forall g :: 0 <= g < |rows| ==> Enumerates(orders[g], rows[g].breakdown)
    ensures |Unpacked(rows, orders)| == EntryCount(rows)
  {
    if rows != [] {
      var n := |rows| - 1;
      UnpackedLength(rows[..n], orders[..n]);
      DistinctCard(orders[n]);
      assert rows[n].breakdown.Keys == set k | k in orders[n];
    }
  }

  /** Labelled row g has the entry of triple `c`. */
  predicate LabelHasEntry(rows: seq<Labelled>, g: int, c: CountRow)
  {
    0 <= g < |rows| && rows[g].group == c.group && c.eventType in rows[g].breakdown && rows[g].breakdown[c.eventType] == c.count
  }

  /** A triple is emitted exactly when some row with that label has that
      event type in its breakdown with that count: counts are copied unchanged
      and nothing else is emitted. */
  lemma {:induction false} UnpackedMembership(rows: seq<Labelled>, orders: seq<seq<string>>, c: CountRow)
    requires |orders| == |rows|
    requires forall g :: 0 <= g < |rows| ==> Enumerates(orders[g], rows[g].breakdown)
    ensures c in Unpacked(rows, orders) <==> exists g :: LabelHasEntry(rows, g, c)
  {
    if rows != [] {
      var n := |rows| - 1;
      UnpackedMembership(rows[..n], orders[..n], c);
      var block := Block(rows[n], orders[n]);
      assert c in block <==> LabelHasEntry(rows, n, c) by {
        if c in block {
          var i :| 0 <= i < |block| && block[i] == c;
          assert orders[n][i] in orders[n];
        }
        if LabelHasEntry(rows, n, c) {
          var i :| 0 <= i < |orders[n]| && orders[n][i] == c.eventType;
          assert block[i] == c;
        }
      }
      forall g ensures LabelHasEntry(rows[..n], g, c) <==> g != n && LabelHasEntry(rows, g, c) {
        if 0 <= g < n {
          assert rows[..n][g] == rows[g];
        }
      }
    }
  }

  /** An event type is in `event_types` exactly when some row's breakdown has it. */
  lemma {:induction false} TypesOfMembership(rows: seq<Labelled>, t: string)
    ensures t in TypesOf(rows) <==> exists g :: 0 <= g < |rows| && t in rows[g].breakdown
  {
    if rows != [] {
      var n := |rows| - 1;
      TypesOfMembership(rows[..n], t);
      forall g | 0 <= g < n ensures rows[..n][g] == rows[g] { }
    }
  }

  /** `create_team_event_breakdown`: each team stats row labelled by its team name. */
  method TeamEventBreakdown(teamStats: seq<StatsRow>) returns (counts: seq<CountRow>, eventTypes: set<string>, ghost orders: seq<seq<string>>)
    requires forall i :: 0 <= i < |teamStats| ==> |teamStats[i].key| == 1
    ensures |orders| == |teamStats|
    ensures forall g :: 0 <= g < |teamStats| ==> Enumerates(orders[g], teamStats[g].eventBreakdown)
    ensures counts == Unpacked(TeamLabels(teamStats), orders)
    ensures eventTypes == TypesOf(TeamLabels(teamStats))
    ensures |counts| == EntryCount(TeamLabels(teamStats))
    ensures forall c :: c in counts <==>
      exists g :: 0 <= g < |teamStats| && teamStats[g].key[0] == c.group
        && c.eventType in teamStats[g].eventBreakdown && teamStats[g].eventBreakdown[c.eventType] == c.count
    ensures forall t :: t in eventTypes <==> exists g :: 0 <= g < |teamStats| && t in teamStats[g].eventBreakdown
  {
    var rows := TeamLabels(teamStats);
    counts, eventTypes, orders := UnpackBreakdowns(rows);
    UnpackedLength(rows, orders);
    forall g | 0 <= g < |teamStats| ensures rows[g] == Labelled(teamStats[g].key[0], teamStats[g].eventBreakdown) { }
    forall c ensures c in counts <==>
      exists g :: 0 <= g < |teamStats| && teamStats[g].key[0] == c.group
        && c.eventType in teamStats[g].eventBreakdown && teamStats[g].eventBreakdown[c.eventType] == c.count
    {
      UnpackedMembership(rows, orders, c);
      forall g ensures LabelHasEntry(rows, g, c) <==>
        (0 <= g < |teamStats| && teamStats[g].key[0] == c.group
         && c.eventType in teamStats[g].eventBreakdown && teamStats[g].eventBreakdown[c.eventType] == c.count) { }
    }
    forall t ensures t in eventTypes <==> exists g :: 0 <= g < |teamStats| && t in teamStats[g].eventBreakdown {
      TypesOfMembership(rows, t);
    }
  }

  /** Each team stats row labelled by its team name. */
  function TeamLabels(teamStats: seq<StatsRow>): seq<Labelled>
    requires forall i :: 0 <= i < |teamStats| ==> |teamStats[i].key| == 1
  {
    seq(|teamStats|, i requires 0 <= i < |teamStats| => Labelled(teamStats[i].key[0], teamStats[i].eventBreakdown))
  }

  // ------------------------------------------------------------ player chart

  /** The row belongs to team `team` (`player_stats['team_name'] == team_name`). */
  predicate OfTeam(s: StatsRow, team: string)
  {
    |s.key| == 2 && s.key[0] == team
  }

  /** The boolean mask of `create_player_event_breakdown`: the player stats rows
      of one team, in their order. */
  function TeamPlayers(playerStats: seq<StatsRow>, team: string): (r: seq<StatsRow>)
    ensures forall i :: 0 <= i < |r| ==> |r[i].key| == 2 && r[i].key[0] == team
  {
    if playerStats == [] then []
    else
      var n := |playerStats| - 1;
      TeamPlayers(playerStats[..n], team) + (if OfTeam(playerStats[n], team) then [playerStats[n]] else [])
  }

  /** The filter keeps exactly the rows of the team, each as often as the table
      holds it. */
  lemma {:induction false} TeamPlayersSelects(playerStats: seq<StatsRow>, team: string)
    ensures forall x :: multiset(TeamPlayers(playerStats, team))[x]
                        == if OfTeam(x, team) then multiset(playerStats)[x] else 0
  {
    if playerStats != [] {
      var n := |playerStats| - 1;
      TeamPlayersSelects(playerStats[..n], team);
      assert playerStats == playerStats[..n] + [playerStats[n]];
    }
  }

  /** Stats rows in strictly ascending key order, as `groupby` emits them. */
  ghost predicate KeysAscending(stats: seq<StatsRow>)
  {
    forall i, j :: 0 <= i < j < |stats| ==> TupleLt(stats[i].key, stats[j].key)
  }

  /** The filter keeps the ascending key order of `get_player_stats`. */
  lemma {:induction false} TeamPlayersAscending(playerStats: seq<StatsRow>, team: string)
    requires KeysAscending(playerStats)
    ensures KeysAscending(TeamPlayers(playerStats, team))
  {
    if playerStats != [] {
      var n := |playerStats| - 1;
      var front := TeamPlayers(playerStats[..n], team);
      TeamPlayersAscending(playerStats[..n], team);
      TeamPlayersSelects(playerStats[..n], team);
      forall i | 0 <= i < |front| ensures TupleLt(front[i].key, playerStats[n].key) {
        assert multiset(front)[front[i]] > 0;
        assert front[i] in playerStats[..n];
        var k :| 0 <= k < n && playerStats[..n][k] == front[i];
        assert TupleLt(playerStats[k].key, playerStats[n].key);
      }
      var r := TeamPlayers(playerStats, team);
      assert r == front + (if OfTeam(playerStats[n], team) then [playerStats[n]] else []);
      forall i, j | 0 <= i < j < |r| ensures TupleLt(r[i].key, r[j].key) {
        if j < |front| {
          assert r[i] == front[i] && r[j] == front[j];
          assert TupleLt(front[i].key, front[j].key);
        } else {
          assert r[i] == front[i] && r[j] == playerStats[n];
          assert TupleLt(front[i].key, playerStats[n].key);
        }
      }
    }
  }

  /** `create_player_event_breakdown`: the team's player rows, labelled by player name. */
  method PlayerEventBreakdown(playerStats: seq<StatsRow>, team: string)
    returns (counts: seq<CountRow>, eventTypes: set<string>, ghost orders: seq<seq<string>>)
    ensures |orders| == |TeamPlayers(playerStats, team)|
    ensures forall g :: 0 <= g < |orders| ==>
      Enumerates(orders[g], TeamPlayers(playerStats, team)[g].eventBreakdown)
    ensures counts == Unpacked(PlayerLabels(TeamPlayers(playerStats, team)), orders)
    ensures eventTypes == TypesOf(PlayerLabels(TeamPlayers(playerStats, team)))
    ensures |counts| == EntryCount(PlayerLabels(TeamPlayers(playerStats, team)))
    ensures forall c :: c in counts <==> exists s :: s in playerStats && HasEntry(s, team, c)
    ensures forall t :: t in eventTypes <==> exists s :: s in playerStats && OfTeam(s, team) && t in s.eventBreakdown
  {
    var players := TeamPlayers(playerStats, team);
    var rows := PlayerLabels(players);
    counts, eventTypes, orders := UnpackBreakdowns(rows);
    UnpackedLength(rows, orders);
    forall c ensures c in counts <==> exists s :: s in playerStats && HasEntry(s, team, c) {
      PlayerCountMembership(playerStats, team, orders, c);
    }
    forall t ensures t in eventTypes <==> exists s :: s in playerStats && OfTeam(s, team) && t in s.eventBreakdown {
      PlayerTypeMembership(playerStats, team, t);
    }
  }

  /** A player row of the team with an entry of its breakdown. */
  predicate HasEntry(s: StatsRow, team: string, c: CountRow)
  {
    OfTeam(s, team) && s.key[1] == c.group && c.eventType in s.eventBreakdown && s.eventBreakdown[c.eventType] == c.count
  }

  /** A triple of the player chart comes from a player row of the team that has
      that type with that count, and every such entry gives one. */
  lemma PlayerCountMembership(playerStats: seq<StatsRow>, team: string, orders: seq<seq<string>>, c: CountRow)
    requires |orders| == |TeamPlayers(playerStats, team)|
    requires forall g :: 0 <= g < |orders| ==> Enumerates(orders[g], TeamPlayers(playerStats, team)[g].eventBreakdown)
    ensures c in Unpacked(PlayerLabels(TeamPlayers(playerStats, team)), orders) <==>
      exists s :: s in playerStats && HasEntry(s, team, c)
  {
    var rows := PlayerLabels(TeamPlayers(playerStats, team));
    UnpackedMembership(rows, orders, c);
    if c in Unpacked(rows, orders) {
      PlayerEntryFromLabel(playerStats, team, c);
    }
    if (exists s :: s in playerStats && HasEntry(s, team, c)) {
      PlayerLabelFromEntry(playerStats, team, c);
    }
  }

  lemma PlayerEntryFromLabel(playerStats: seq<StatsRow>, team: string, c: CountRow)
    requires exists g :: LabelHasEntry(PlayerLabels(TeamPlayers(playerStats, team)), g, c)
    ensures exists s :: s in playerStats && HasEntry(s, team, c)
  {
    var players := TeamPlayers(playerStats, team);
    var g :| LabelHasEntry(PlayerLabels(players), g, c);
    TeamPlayersMembership(playerStats, team);
    assert players[g] in players;
    assert HasEntry(players[g], team, c);
  }

  lemma PlayerLabelFromEntry(playerStats: seq<StatsRow>, team: string, c: CountRow)
    requires exists s :: s in playerStats && HasEntry(s, team, c)
    ensures exists g :: LabelHasEntry(PlayerLabels(TeamPlayers(playerStats, team)), g, c)
  {
    var players := TeamPlayers(playerStats, team);
    var s :| s in playerStats && HasEntry(s, team, c);
    TeamPlayersMembership(playerStats, team);
    var g :| 0 <= g < |players| && players[g] == s;
    assert LabelHasEntry(PlayerLabels(players), g, c);
  }

  /** An event type reaches the player chart exactly when a player row of the
      team has it. */
  lemma PlayerTypeMembership(playerStats: seq<StatsRow>, team: string, t: string)
    ensures t in TypesOf(PlayerLabels(TeamPlayers(playerStats, team))) <==>
      exists s :: s in playerStats && OfTeam(s, team) && t in s.eventBreakdown
  {
    var players := TeamPlayers(playerStats, team);
    var rows := PlayerLabels(players);
    TypesOfMembership(rows, t);
    TeamPlayersMembership(playerStats, team);
    if t in TypesOf(rows) {
      var g :| 0 <= g < |rows| && t in rows[g].breakdown;
      assert players[g] in players;
    }
    if (exists s :: s in playerStats && OfTeam(s, team) && t in s.eventBreakdown) {
      var s :| s in playerStats && OfTeam(s, team) && t in s.eventBreakdown;
      var g :| 0 <= g < |players| && players[g] == s;
      assert t in rows[g].breakdown;
    }
  }

  /** A row is kept by the team filter exactly when the table holds it and it
      belongs to the team. */
  lemma TeamPlayersMembership(playerStats: seq<StatsRow>, team: string)
    ensures forall x :: x in TeamPlayers(playerStats, team) <==> x in playerStats && OfTeam(x, team)
  {
    TeamPlayersSelects(playerStats, team);
    forall x ensures x in TeamPlayers(playerStats, team) <==> x in playerStats && OfTeam(x, team) {
      assert x in TeamPlayers(playerStats, team) <==> multiset(TeamPlayers(playerStats, team))[x] > 0;
      assert x in playerStats <==> multiset(playerStats)[x] > 0;
    }
  }

  /** Each player stats row labelled by its player name. */
  function PlayerLabels(players: seq<StatsRow>): seq<Labelled>
    requires forall i :: 0 <= i < |players| ==> |players[i].key| == 2
  {
    seq(|players|, i requires 0 <= i < |players| => Labelled(players[i].key[1], players[i].eventBreakdown))
  }

  // ------------------------------------------------------------ heatmap

  /** Python truthiness of the optional `event_type` argument. */
  predicate Truthy(eventType: Option<string>)
  {
    eventType.Some? && eventType.value != ""
  }

  /** `create_heatmap`'s filter: with a truthy event type keep exactly the rows
      of that type (a missing type never equals it), otherwise keep every row. */
  function HeatmapRows(rows: seq<EventRow>, eventType: Option<string>): (r: seq<EventRow>)
    ensures Truthy(eventType) ==>
      forall x :: multiset(r)[x] == if x.eventType == eventType then multiset(rows)[x] else 0
    ensures !Truthy(eventType) ==> r == rows
    ensures |r| <= |rows|
  {
    if !Truthy(eventType) || rows == [] then rows
    else
      var n := |rows| - 1;
      assert rows == rows[..n] + [rows[n]];
      HeatmapRows(rows[..n], eventType) + (if rows[n].eventType == eventType then [rows[n]] else [])
  }

  /** A row whose `location` is a two-item array of non-null coordinates. */
  predicate Located(row: EventRow)
  {
    && "location" in row.fields && row.fields["location"].Arr? && |row.fields["location"].items| == 2
    && row.fields["location"].items[0] != Null && row.fields["location"].items[1] != Null
  }

  /** The location shapes the heatmap handles: absent, null, or a coordinate pair. */
  predicate Placeable(row: EventRow)
  {
    "location" !in row.fields || row.fields["location"].Null? || Located(row)
  }

  /** One row of `apply(pd.Series)` after the rename to x, y: the coordinate
      pair, or (NaN, NaN) for a row without one. */
  function Unpack(row: EventRow): (Value, Value)
  {
    if Located(row) then (row.fields["location"].items[0], row.fields["location"].items[1]) else (Null, Null)
  }

  function Coordinates(rows: seq<EventRow>): seq<(Value, Value)>
  {
    seq(|rows|, i requires 0 <= i < |rows| => Unpack(rows[i]))
  }

  /** The heatmap's failures: no event has a `location` at all (KeyError), or
      the unpacked frame has no two columns to call x and y (the rename or the
      lookup of `x` raises). */
  datatype HeatmapError = NoLocationColumn | NoCoordinateColumns

  /** No event carries a `location` key: the table has no such column. */
  predicate LacksLocationColumn(events: seq<EventRow>)
  {
    forall i :: 0 <= i < |events| ==> "location" !in events[i].fields
  }

  predicate NoneLocated(rows: seq<EventRow>)
  {
    forall j :: 0 <= j < |rows| ==> !Located(rows[j])
  }

  /** `create_heatmap`'s data as written: the type filter, then every kept row
      unpacked, a row without a location as (NaN, NaN). When no kept row has a
      location, the frame has one column or none, and naming two columns raises. */
  function HeatmapAsWritten(events: seq<EventRow>, eventType: Option<string>): (r: Result<seq<(Value, Value)>, HeatmapError>)
    requires forall i :: 0 <= i < |events| ==> Placeable(events[i])
    ensures r == Err(NoLocationColumn) <==> LacksLocationColumn(events)
    ensures r.Err? <==> LacksLocationColumn(events) || NoneLocated(HeatmapRows(events, eventType))
    ensures r.Ok? ==> |r.value| == |HeatmapRows(events, eventType)|
    ensures r.Ok? ==> forall j :: 0 <= j < |r.value| ==>
      var row := HeatmapRows(events, eventType)[j];
      if Located(row) then row.fields["location"].items == [r.value[j].0, r.value[j].1] else r.value[j] == (Null, Null)
  {
    if LacksLocationColumn(events) then Err(NoLocationColumn)
    else
      var rows := HeatmapRows(events, eventType);
      if NoneLocated(rows) then Err(NoCoordinateColumns)
      else Ok(Coordinates(rows))
  }

  /** The rows that have a coordinate pair, in order. */
  function LocatedRows(rows: seq<EventRow>): (r: seq<EventRow>)
    ensures forall i :: 0 <= i < |r| ==> Located(r[i])
  {
    if rows == [] then []
    else
      var n := |rows| - 1;
      LocatedRows(rows[..n]) + (if Located(rows[n]) then [rows[n]] else [])
  }

  /** Exactly the rows with a coordinate pair are kept, each as often as given. */
  lemma {:induction false} LocatedRowsSelects(rows: seq<EventRow>)
    ensures forall x :: multiset(LocatedRows(rows))[x] == if Located(x) then multiset(rows)[x] else 0
  {
    if rows != [] {
      var n := |rows| - 1;
      LocatedRowsSelects(rows[..n]);
      assert rows == rows[..n] + [rows[n]];
    }
  }

  /** The corrected heatmap data: the type filter, then the coordinate pair of
      every kept row that has one; rows without a location are dropped, and
      nothing raises. */
  function HeatmapPoints(events: seq<EventRow>, eventType: Option<string>): (points: seq<(Value, Value)>)
    ensures |points| == |LocatedRows(HeatmapRows(events, eventType))|
    ensures forall j :: 0 <= j < |points| ==>
      LocatedRows(HeatmapRows(events, eventType))[j].fields["location"].items == [points[j].0, points[j].1]
  {
    Coordinates(LocatedRows(HeatmapRows(events, eventType)))
  }

  /** The points a 2-D histogram bins: (NaN, NaN) points are skipped. */
  function Plotted(points: seq<(Value, Value)>): seq<(Value, Value)>
  {
    if points == [] then []
    else
      var n := |points| - 1;
      Plotted(points[..n]) + (if points[n] == (Null, Null) then [] else [points[n]])
  }

  /** Dropping the (NaN, NaN) points of the unpacked rows leaves the points of
      the located rows. */
  lemma {:induction false} PlottedCoordinates(rows: seq<EventRow>)
    ensures Plotted(Coordinates(rows)) == Coordinates(LocatedRows(rows))
  {
    if rows != [] {
      var n := |rows| - 1;
      PlottedCoordinates(rows[..n]);
      var c := Coordinates(rows);
      assert c[..n] == Coordinates(rows[..n]);
      assert c[n] == Unpack(rows[n]);
      if Located(rows[n]) {
        assert Coordinates(LocatedRows(rows)) == Coordinates(LocatedRows(rows[..n])) + [Unpack(rows[n])];
      } else {
        assert LocatedRows(rows) == LocatedRows(rows[..n]);
      }
    }
  }

  /** Whenever the heatmap as written draws, it bins the same points as the
      corrected one: the rows it unpacks to (NaN, NaN) are the rows the
      corrected heatmap drops. */
  lemma AsWrittenPlotsSamePoints(events: seq<EventRow>, eventType: Option<string>)
    requires forall i :: 0 <= i < |events| ==> Placeable(events[i])
    ensures HeatmapAsWritten(events, eventType).Ok? ==>
      Plotted(HeatmapAsWritten(events, eventType).value) == HeatmapPoints(events, eventType)
  {
    PlottedCoordinates(HeatmapRows(events, eventType));
  }

  /** An event with a location and one of another type without: selecting the
      second type, the code as written raises, and the corrected heatmap is empty. */
  lemma UnlocatedTypeFails(located: EventRow, bare: EventRow, p: string, q: string)
    requires Located(located) && "location" !in bare.fields
    requires located.eventType == Some(p) && bare.eventType == Some(q) && p != q && q != ""
    ensures HeatmapAsWritten([located, bare], Some(q)) == Err(NoCoordinateColumns)
    ensures HeatmapPoints([located, bare], Some(q)) == []
  {
    OnlySecondKept(located, bare, Some(q));
    assert "location" in [located, bare][0].fields;
    BareRowUnlocated(bare);
  }

  /** Selecting the second row's type keeps only that row when the first differs. */
  lemma OnlySecondKept(first: EventRow, second: EventRow, eventType: Option<string>)
    requires Truthy(eventType) && first.eventType != eventType && second.eventType == eventType
    ensures HeatmapRows([first, second], eventType) == [second]
  {
    assert [first, second][..1] == [first] && [first][..0] == [];
    assert HeatmapRows([first], eventType) == HeatmapRows([], eventType);
  }

  /** A single row without a location has no coordinates to plot. */
  lemma BareRowUnlocated(bare: EventRow)
    requires "location" !in bare.fields
    ensures NoneLocated([bare]) && LocatedRows([bare]) == []
  {
    assert [bare][..0] == [];
  }

  // ------------------------------------------------------------ radar

  /** The five radar metrics, in the order the chart lists its categories. */
  datatype Metric = Passes | Shots | Dribbles | PressureActions | BallRecoveries

  const Metrics: seq<Metric> := [Passes, Shots, Dribbles, PressureActions, BallRecoveries]

  /** The event type a metric counts. */
  function CountedType(m: Metric): string
  {
    match m
    case Passes => "Pass"
    case Shots => "Shot"
    case Dribbles => "Dribble"
    case PressureActions => "Pressure"
    case BallRecoveries => "Ball Recovery"
  }

  /** The category label the chart draws for a metric. */
  function Category(m: Metric): string
  {
    match m
    case Passes => "Passes"
    case Shots => "Shots"
    case Dribbles => "Dribbles"
    case PressureActions => "Pressure Actions"
    case BallRecoveries => "Ball Recoveries"
  }

  /** An event type one of the metrics counts. */
  predicate RadarType(t: string)
  {
    t == CountedType(Passes) || t == CountedType(Shots) || t == CountedType(Dribbles)
    || t == CountedType(PressureActions) || t == CountedType(BallRecoveries)
  }

  /** The neon colours given to players in turn. */
  datatype Neon = NeonBlue | NeonRed | NeonGreen | NeonOrange | NeonPurple

  const Palette: seq<Neon> := [NeonBlue, NeonRed, NeonGreen, NeonOrange, NeonPurple]

  /** The (line colour, fill colour) pair of a neon colour. */
  function Rgb(c: Neon): (string, string)
  {
    match c
    case NeonBlue => ("rgb(0, 200, 255)", "rgba(0, 200, 255, 0.1)")
    case NeonRed => ("rgb(255, 50, 50)", "rgba(255, 50, 50, 0.1)")
    case NeonGreen => ("rgb(0, 255, 100)", "rgba(0, 255, 100, 0.1)")
    case NeonOrange => ("rgb(255, 150, 0)", "rgba(255, 150, 0, 0.1)")
    case NeonPurple => ("rgb(200, 100, 255)", "rgba(200, 100, 255, 0.1)")
  }

  /** The five metrics have distinct event types and distinct category labels:
      the metrics dict gets five keys, one per metric, so every trace has five
      categories before it is closed. */
  lemma CategoriesDistinct()
    ensures forall m: Metric, n: Metric :: m != n ==> CountedType(m) != CountedType(n) && Category(m) != Category(n)
  {
  }


  /** The five neon pairs differ in both their line and their fill colour. */
  lemma ColoursDistinct()
    ensures forall c: Neon, d: Neon :: c != d ==> Rgb(c).0 != Rgb(d).0 && Rgb(c).1 != Rgb(d).1
  {
  }

  /** One player's radar trace: the counts behind each category (`r`, closed by
      repeating the first), the metrics whose `Category` labels the axes
      (`theta`, closed the same way), the player's row count and its colour,
      whose line and fill are `Rgb(color)`. */
  datatype Trace = Trace(name: string, color: Neon, totalEvents: nat, r: seq<nat>, theta: seq<Metric>)

  /** No players selected: the annotated empty figure; otherwise the player
      traces followed by the background grid drawn over `gridTheta`. */
  datatype Radar = NoPlayersSelected | Chart(traces: seq<Trace>, gridTheta: seq<Metric>)

  /** `events_df[events_df['player_name'] == player_name]`. */
  function PlayerRows(events: seq<EventRow>, player: string): seq<EventRow>
  {
    if events == [] then []
    else
      var n := |events| - 1;
      PlayerRows(events[..n], player) + (if events[n].playerName == Some(player) then [events[n]] else [])
  }

  /** The player filter keeps exactly the rows naming that player, each as often
      as the table holds it. */
  lemma {:induction false} PlayerRowsSelects(events: seq<EventRow>, player: string)
    ensures forall x :: multiset(PlayerRows(events, player))[x]
                        == if x.playerName == Some(player) then multiset(events)[x] else 0
  {
    if events != [] {
      var n := |events| - 1;
      PlayerRowsSelects(events[..n], player);
      assert events == events[..n] + [events[n]];
    }
  }

  /** The number of rows of type `t`. */
  function TypeCount(rows: seq<EventRow>, t: string): nat
  {
    if rows == [] then 0 else (if rows[0].eventType == Some(t) then 1 else 0) + TypeCount(rows[1..], t)
  }

  /** The rows whose type one of the metrics counts. */
  function RadarRows(rows: seq<EventRow>): nat
  {
    if rows == [] then 0
    else (if rows[0].eventType.Some? && RadarType(rows[0].eventType.value) then 1 else 0) + RadarRows(rows[1..])
  }

  /** The five metric counts of a player's rows, in category order. */
  function MetricValues(rows: seq<EventRow>): seq<nat>
  {
    seq(5, k requires 0 <= k < 5 => TypeCount(rows, CountedType(Metrics[k])))
  }

  /** The metrics dict of one player: each metric mapped to the number of the
      player's rows of the type it counts, entered in category order. */
  method CountMetrics(playerEvents: seq<EventRow>) returns (values: seq<nat>)
    ensures values == MetricValues(playerEvents)
  {
    var metrics: map<Metric, nat> := map[];
    metrics := metrics[Passes := TypeCount(playerEvents, "Pass")];
    metrics := metrics[Shots := TypeCount(playerEvents, "Shot")];
    metrics := metrics[Dribbles := TypeCount(playerEvents, "Dribble")];
    metrics := metrics[PressureActions := TypeCount(playerEvents, "Pressure")];
    metrics := metrics[BallRecoveries := TypeCount(playerEvents, "Ball Recovery")];
    values := [metrics[Passes], metrics[Shots], metrics[Dribbles], metrics[PressureActions], metrics[BallRecoveries]];
  }

  /** The trace of the player at position `idx` of the selection, whose rows are `rows`. */
  function PlayerTrace(player: string, rows: seq<EventRow>, idx: nat): Trace
  {
    var values := MetricValues(rows);
    Trace(player, Palette[idx % 5], |rows|, values + [values[0]], Metrics + [Metrics[0]])
  }

  /** `rows` holds exactly the events naming `player`, each as often as `events` does. */
  ghost predicate RowsOf(rows: seq<EventRow>, events: seq<EventRow>, player: string)
  {
    forall x :: multiset(rows)[x] == if x.playerName == Some(player) then multiset(events)[x] else 0
  }

  /** The rows of each selected player, position by position. */
  function Selection(events: seq<EventRow>, players: seq<string>): seq<seq<EventRow>>
  {
    seq(|players|, i requires 0 <= i < |players| => PlayerRows(events, players[i]))
  }

  /** Position i of the selection holds exactly the rows of player i. */
  lemma SelectionSelects(events: seq<EventRow>, players: seq<string>)
    ensures |Selection(events, players)| == |players|
    ensures forall i :: 0 <= i < |players| ==> RowsOf(Selection(events, players)[i], events, players[i])
  {
    forall i | 0 <= i < |players| ensures RowsOf(Selection(events, players)[i], events, players[i]) {
      PlayerRowsSelects(events, players[i]);
    }
  }

  /** The traces of the first `n` selected players, `sel[i]` being the rows of
      `players[i]`: a player without rows adds none. */
  function TracesUpTo(players: seq<string>, sel: seq<seq<EventRow>>, n: nat): seq<Trace>
    requires n <= |players| == |sel|
  {
    if n == 0 then []
    else
      TracesUpTo(players, sel, n - 1)
      + (if |sel[n - 1]| == 0 then [] else [PlayerTrace(players[n - 1], sel[n - 1], n - 1)])
  }

  /** The precondition under which the radar is defined: with players selected
      but none of them having rows, the grid trace reads an unbound variable. */
  predicate RadarDefined(events: seq<EventRow>, players: seq<string>)
  {
    players == [] || exists i :: 0 <= i < |players| && |PlayerRows(events, players[i])| > 0
  }

  /** `create_player_performance_radar`, its counts: an empty selection yields the
      empty figure; otherwise one trace per selected player with rows, in the
      order of the selection, then the grid over the closed category list. */
  method PlayerPerformanceRadar(events: seq<EventRow>, players: seq<string>) returns (radar: Radar)
    requires RadarDefined(events, players)
    ensures radar.NoPlayersSelected? <==> players == []
    ensures radar.Chart? ==> radar.traces == TracesUpTo(players, Selection(events, players), |players|)
    ensures radar.Chart? ==> radar.gridTheta == Metrics + [Metrics[0]]
  {
    if players == [] {
      return NoPlayersSelected;
    }
    ghost var sel := Selection(events, players);
    var traces: seq<Trace> := [];
    // Empty until a player is drawn: the source's `categories` is unbound until then.
    var categories: seq<Metric> := [];
    for idx := 0 to |players|
      invariant traces == TracesUpTo(players, sel, idx)
      invariant categories == if traces == [] then [] else Metrics
    {
      var playerEvents := PlayerRows(events, players[idx]);
      assert playerEvents == sel[idx];
      if |playerEvents| == 0 {
        continue;
      }
      var values := CountMetrics(playerEvents);
      var color := Palette[idx % |Palette|];
      categories := Metrics;
      traces := traces + [Trace(players[idx], color, |playerEvents|, values + [values[0]], categories + [categories[0]])];
    }
    SelectionDrawsSome(events, players);
    radar := Chart(traces, categories + [categories[0]]);
  }

  /** Under the radar's precondition, a non-empty selection draws some trace. */
  lemma SelectionDrawsSome(events: seq<EventRow>, players: seq<string>)
    requires RadarDefined(events, players) && players != []
    ensures TracesUpTo(players, Selection(events, players), |players|) != []
  {
    var sel := Selection(events, players);
    var i :| 0 <= i < |players| && |PlayerRows(events, players[i])| > 0;
    assert |sel[i]| > 0;
    SomeTraceDrawn(players, sel, |players|, i);
  }

  /** Some trace is drawn once some selected player has rows. */
  lemma {:induction false} SomeTraceDrawn(players: seq<string>, sel: seq<seq<EventRow>>, n: nat, i: nat)
    requires n <= |players| == |sel|
    requires i < n && |sel[i]| > 0
    ensures TracesUpTo(players, sel, n) != []
  {
    if i < n - 1 {
      SomeTraceDrawn(players, sel, n - 1, i);
    }
  }

  /** Every trace closes its polygon: six values and six categories, the last
      equal to the first, the categories in the fixed order, and the five axes
      carry five different labels. */
  lemma {:induction false} TracesClosed(players: seq<string>, sel: seq<seq<EventRow>>, n: nat)
    requires n <= |players| == |sel|
    ensures forall t | t in TracesUpTo(players, sel, n) ::
      && |t.r| == 6 && |t.theta| == 6 && t.r[5] == t.r[0] && t.theta[5] == t.theta[0]
      && t.theta[..5] == Metrics
      && (forall k, l :: 0 <= k < l < 5 ==> Category(t.theta[k]) != Category(t.theta[l]))
  {
    CategoriesDistinct();
    if n > 0 {
      TracesClosed(players, sel, n - 1);
    }
  }

  /** A trace is emitted for selection position `idx` exactly when that player
      has rows; the traces are those positions' traces, in selection order,
      and position `idx` is coloured with pair `idx % 5`. */
  lemma {:induction false} TracesAreNonEmptyPlayers(players: seq<string>, sel: seq<seq<EventRow>>, n: nat)
    requires n <= |players| == |sel|
    ensures forall t | t in TracesUpTo(players, sel, n) ::
      exists idx :: 0 <= idx < n && |sel[idx]| > 0 && t == PlayerTrace(players[idx], sel[idx], idx)
    ensures forall idx :: 0 <= idx < n && |sel[idx]| > 0 ==>
      PlayerTrace(players[idx], sel[idx], idx) in TracesUpTo(players, sel, n)
  {
    if n > 0 {
      TracesAreNonEmptyPlayers(players, sel, n - 1);
      var prefix := TracesUpTo(players, sel, n - 1);
      var last := n - 1;
      forall t | t in TracesUpTo(players, sel, n)
        ensures exists idx :: 0 <= idx < n && |sel[idx]| > 0 && t == PlayerTrace(players[idx], sel[idx], idx)
      {
        if t !in prefix {
          assert |sel[last]| > 0 && t == PlayerTrace(players[last], sel[last], last);
        }
      }
    }
  }

  /** Two drawn traces fewer than five selection positions apart have different
      line colours and different fill colours. */
  lemma NeighbouringTracesDiffer(players: seq<string>, sel: seq<seq<EventRow>>, i: nat, j: nat)
    requires |players| == |sel| && i < j < |players| && j < i + 5
    requires |sel[i]| > 0 && |sel[j]| > 0
    ensures PlayerTrace(players[i], sel[i], i) in TracesUpTo(players, sel, |players|)
    ensures PlayerTrace(players[j], sel[j], j) in TracesUpTo(players, sel, |players|)
    ensures Rgb(PlayerTrace(players[i], sel[i], i).color).0 != Rgb(PlayerTrace(players[j], sel[j], j).color).0
    ensures Rgb(PlayerTrace(players[i], sel[i], i).color).1 != Rgb(PlayerTrace(players[j], sel[j], j).color).1
  {
    TracesAreNonEmptyPlayers(players, sel, |players|);
    assert PlayerTrace(players[i], sel[i], i).color == Palette[i % 5];
    assert PlayerTrace(players[j], sel[j], j).color == Palette[j % 5];
    PaletteEntriesDiffer(i, j);
  }

  /** Palette positions fewer than five apart hold different line and fill colours. */
  lemma PaletteEntriesDiffer(i: nat, j: nat)
    requires i < j < i + 5
    ensures Rgb(Palette[i % 5]).0 != Rgb(Palette[j % 5]).0 && Rgb(Palette[i % 5]).1 != Rgb(Palette[j % 5]).1
  {
    assert i % 5 != j % 5;
    ColoursDistinct();
  }

  /** The trace of selection position `idx`: its counts are the player's rows of
      each metric's type, its total the player's row count, its colour pair
      `idx % 5`; the five counts add up to the player's rows of a radar type,
      and so to at most the player's row count. */
  lemma PlayerTraceCounts(events: seq<EventRow>, player: string, idx: nat)
    ensures var rows := PlayerRows(events, player); var t := PlayerTrace(player, rows, idx);
      && t.name == player
      && t.color == Palette[idx % 5]
      && t.totalEvents == |rows|
      && (forall k :: 0 <= k < 5 ==> t.r[k] == TypeCount(rows, CountedType(Metrics[k])) && t.theta[k] == Metrics[k])
      && t.r[0] + t.r[1] + t.r[2] + t.r[3] + t.r[4] == RadarRows(rows)
      && RadarRows(rows) <= t.totalEvents
  {
    var rows := PlayerRows(events, player);
    var t := PlayerTrace(player, rows, idx);
    assert t.r[..5] == MetricValues(rows);
    RadarRowsSplit(rows);
    RadarRowsBound(rows);
  }

  /** The five metrics count distinct types, so their counts add up to the rows
      of a radar type. */
  lemma {:induction false} RadarRowsSplit(rows: seq<EventRow>)
    ensures TypeCount(rows, CountedType(Passes)) + TypeCount(rows, CountedType(Shots))
          + TypeCount(rows, CountedType(Dribbles)) + TypeCount(rows, CountedType(PressureActions))
          + TypeCount(rows, CountedType(BallRecoveries)) == RadarRows(rows)
  {
    if rows != [] {
      RadarRowsSplit(rows[1..]);
    }
  }

  lemma {:induction false} RadarRowsBound(rows: seq<EventRow>)
    ensures RadarRows(rows) <= |rows|
  {
    if rows != [] {
      RadarRowsBound(rows[1..]);
    }
  }
}
