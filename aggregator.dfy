/** `get_team_stats` and `get_player_stats` of src/data/processor.py: a pandas
    groupby over the event table, counting non-null ids per group and the
    event types within each group. */
module Aggregator {
  import opened Json
  import opened Order
  import opened Tabulator

  /** The groupby columns: `'team_name'`, or `['team_name', 'player_name']`. */
  datatype Grouping = ByTeam | ByTeamAndPlayer

  /** The group a row falls in, as the tuple of its key columns; `None` when a
      key column is missing, and groupby drops such rows. */
  function GroupKey(row: EventRow, g: Grouping): Option<seq<string>>
  {
    match g
    case ByTeam =>
      if row.teamName.Some? then Some([row.teamName.value]) else None
    case ByTeamAndPlayer =>
      if row.teamName.Some? && row.playerName.Some? then Some([row.teamName.value, row.playerName.value])
      else None
  }

  /** `'id': 'count'` counts only rows whose id is not null. */
  predicate HasId(row: EventRow)
  {
    "id" in row.fields && row.fields["id"] != Null
  }

  /** What a count counts among the rows of a group. */
  datatype Tally = AllRows | WithId | OfType(t: string) | Typed

  predicate Tallied(row: EventRow, tally: Tally)
  {
    match tally
    case AllRows => true
    case WithId => HasId(row)
    case OfType(t) => row.eventType == Some(t)
    case Typed => row.eventType.Some?
  }

  /** The number of rows of group `k` that `tally` counts. */
  function CountIn(rows: seq<EventRow>, g: Grouping, k: seq<string>, tally: Tally): nat
  {
    if rows == [] then 0
    else (if GroupKey(rows[0], g) == Some(k) && Tallied(rows[0], tally) then 1 else 0)
         + CountIn(rows[1..], g, k, tally)
  }

  /** A count is positive exactly when some row of the group is counted. */
  lemma {:induction false} CountInPositive(rows: seq<EventRow>, g: Grouping, k: seq<string>, tally: Tally)
    ensures CountIn(rows, g, k, tally) > 0 <==>
      exists i :: 0 <= i < |rows| && GroupKey(rows[i], g) == Some(k) && Tallied(rows[i], tally)
  {
    if rows != [] {
      CountInPositive(rows[1..], g, k, tally);
      if CountIn(rows[1..], g, k, tally) > 0 {
        var i :| 0 <= i < |rows[1..]| && GroupKey(rows[1..][i], g) == Some(k) && Tallied(rows[1..][i], tally);
        assert rows[i + 1] == rows[1..][i];
      }
      forall i | 1 <= i < |rows| && GroupKey(rows[i], g) == Some(k) && Tallied(rows[i], tally)
        ensures CountIn(rows[1..], g, k, tally) > 0
      {
        assert rows[1..][i - 1] == rows[i];
      }
    }
  }

  // ------------------------------------------------------------ group keys

  ghost predicate StrictlyAscending(ks: seq<seq<string>>)
  {
    forall i, j :: 0 <= i < j < |ks| ==> TupleLt(ks[i], ks[j])
  }

  function InsertKey(k: seq<string>, ks: seq<seq<string>>): (r: seq<seq<string>>)
    requires StrictlyAscending(ks)
    ensures StrictlyAscending(r)
    ensures forall x :: x in r <==> x == k || x in ks
  {
    if ks == [] then [k]
    else if k == ks[0] then ks
    else if TupleLt(k, ks[0]) then
      assert StrictlyAscending([k] + ks) by {
        forall j | 0 < j < |ks| {
          TupleLtTransitive(k, ks[0], ks[j]);
        }
      }
      [k] + ks
    else
      var rest := InsertKey(k, ks[1..]);
      assert ks == [ks[0]] + ks[1..];
      assert StrictlyAscending([ks[0]] + rest) by {
        TupleLtTrichotomy(k, ks[0]);
        forall j | 0 <= j < |rest| ensures TupleLt(ks[0], rest[j]) {
          assert rest[j] in rest;
          if rest[j] != k {
            var m :| 0 <= m < |ks[1..]| && ks[1..][m] == rest[j];
            assert ks[m + 1] == rest[j];
          }
        }
      }
      [ks[0]] + rest
  }

  /** The distinct non-null group keys, ascending, as groupby emits its groups. */
  function GroupKeys(rows: seq<EventRow>, g: Grouping): (ks: seq<seq<string>>)
    ensures StrictlyAscending(ks)
    ensures forall k :: k in ks <==> CountIn(rows, g, k, AllRows) > 0
  {
    if rows == [] then []
    else
      var rest := GroupKeys(rows[1..], g);
      match GroupKey(rows[0], g)
      case None => rest
      case Some(k0) => InsertKey(k0, rest)
  }

  // ------------------------------------------------------------ breakdown

  /** `x.value_counts().to_dict()` on the `event_type` column of group `k`:
      each non-null type mapped to the number of the group's rows of that type. */
  function Breakdown(rows: seq<EventRow>, g: Grouping, k: seq<string>): (m: map<string, nat>)
    ensures forall t :: t in m <==> CountIn(rows, g, k, OfType(t)) > 0
    ensures forall t :: t in m ==> m[t] == CountIn(rows, g, k, OfType(t))
  {
    if rows == [] then map[]
    else
      var m := Breakdown(rows[1..], g, k);
      if GroupKey(rows[0], g) == Some(k) && rows[0].eventType.Some? then
        var t := rows[0].eventType.value;
        m[t := (if t in m then m[t] else 0) + 1]
      else m
  }

  /** The sum of a breakdown's counts. */
  ghost function MapSum(m: map<string, nat>): nat
    decreases |m|
  {
    if m.Keys == {} then 0
    else
      var k :| k in m.Keys;
      m[k] + MapSum(m - {k})
  }

  lemma {:induction false} MapSumRemove(m: map<string, nat>, k: string)
    requires k in m
    ensures MapSum(m) == m[k] + MapSum(m - {k})
    decreases |m|
  {
    var j :| j in m.Keys && MapSum(m) == m[j] + MapSum(m - {j});
    if j != k {
      assert (m - {j}).Keys == m.Keys - {j};
      assert (m - {k}).Keys == m.Keys - {k};
      MapSumRemove(m - {j}, k);
      MapSumRemove(m - {k}, j);
      assert m - {j} - {k} == m - {k} - {j};
    }
  }

  /** Counting one more row of type `t` adds one to the sum. */
  lemma MapSumIncrement(m: map<string, nat>, t: string)
    ensures MapSum(m[t := (if t in m then m[t] else 0) + 1]) == MapSum(m) + 1
  {
    var m' := m[t := (if t in m then m[t] else 0) + 1];
    MapSumRemove(m', t);
    if t in m {
      MapSumRemove(m, t);
      assert m' - {t} == m - {t};
    } else {
      assert m' - {t} == m;
    }
  }

  /** The breakdown of a group adds up to the group's rows with a non-null type. */
  lemma {:induction false} BreakdownSum(rows: seq<EventRow>, g: Grouping, k: seq<string>)
    ensures MapSum(Breakdown(rows, g, k)) == CountIn(rows, g, k, Typed)
  {
    if rows == [] {
      assert Breakdown(rows, g, k).Keys == {};
    } else {
      BreakdownSum(rows[1..], g, k);
      if GroupKey(rows[0], g) == Some(k) && rows[0].eventType.Some? {
        MapSumIncrement(Breakdown(rows[1..], g, k), rows[0].eventType.value);
      }
    }
  }

  // ------------------------------------------------------------ stats rows

  /** One row of the stats table: the group key (`[team]` or `[team, player]`),
      `total_events` and `event_breakdown`. */
  datatype StatsRow = StatsRow(key: seq<string>, totalEvents: nat, eventBreakdown: map<string, nat>)

  /** A stats row holds the counts of its group. */
  ghost predicate Summarises(s: StatsRow, rows: seq<EventRow>, g: Grouping)
  {
    && s.totalEvents == CountIn(rows, g, s.key, WithId)
    && (forall t :: t in s.eventBreakdown <==> CountIn(rows, g, s.key, OfType(t)) > 0)
    && (forall t :: t in s.eventBreakdown ==> s.eventBreakdown[t] == CountIn(rows, g, s.key, OfType(t)))
  }

  function StatsFor(rows: seq<EventRow>, g: Grouping, ks: seq<seq<string>>): seq<StatsRow>
  {
    seq(|ks|, i requires 0 <= i < |ks| => StatsRow(ks[i], CountIn(rows, g, ks[i], WithId), Breakdown(rows, g, ks[i])))
  }

  /** The distinct non-null group keys that occur among the rows. */
  function KeysOf(rows: seq<EventRow>, g: Grouping): set<seq<string>>
  {
    set e | 0 <= e < |rows| && GroupKey(rows[e], g).Some? :: GroupKey(rows[e], g).value
  }

  /** The keys of a stats table. */
  function KeysIn(stats: seq<StatsRow>): set<seq<string>>
  {
    set s | s in stats :: s.key
  }

  lemma KeysOfCounted(rows: seq<EventRow>, g: Grouping)
    ensures forall k :: k in KeysOf(rows, g) <==> CountIn(rows, g, k, AllRows) > 0
  {
    forall k ensures k in KeysOf(rows, g) <==> CountIn(rows, g, k, AllRows) > 0 {
      CountInPositive(rows, g, k, AllRows);
      if CountIn(rows, g, k, AllRows) > 0 {
        var e :| 0 <= e < |rows| && GroupKey(rows[e], g) == Some(k) && Tallied(rows[e], AllRows);
      }
    }
  }

  /** `groupby(...).agg({'id': 'count', 'event_type': value_counts})`: one row
      per group key that occurs, ascending by key, each holding its group's counts. */
  function GroupStats(rows: seq<EventRow>, g: Grouping): (stats: seq<StatsRow>)
    ensures forall i, j :: 0 <= i < j < |stats| ==> TupleLt(stats[i].key, stats[j].key)
    ensures KeysIn(stats) == KeysOf(rows, g)
    ensures forall i :: 0 <= i < |stats| ==> Summarises(stats[i], rows, g)
  {
    var ks := GroupKeys(rows, g);
    var stats := StatsFor(rows, g, ks);
    KeysOfCounted(rows, g);
    assert KeysIn(stats) == KeysOf(rows, g) by {
      forall k | k in KeysOf(rows, g) ensures k in KeysIn(stats) {
        var i :| 0 <= i < |ks| && ks[i] == k;
        assert stats[i] in stats;
      }
    }
    stats
  }

  /** `get_team_stats`: one row per distinct non-null team name, in ascending
      name order; the keys are exactly the teams the events name, and each row
      counts that team's non-null ids and the types of its events. */
  function GetTeamStats(events: seq<EventRow>): (stats: seq<StatsRow>)
    ensures forall i :: 0 <= i < |stats| ==> |stats[i].key| == 1
    ensures forall i, j :: 0 <= i < j < |stats| ==> StrLt(stats[i].key[0], stats[j].key[0])
    ensures KeysIn(stats) == set e | 0 <= e < |events| && events[e].teamName.Some? :: [events[e].teamName.value]
    ensures forall i :: 0 <= i < |stats| ==> Summarises(stats[i], events, ByTeam)
  {
    var stats := GroupStats(events, ByTeam);
    assert forall i :: 0 <= i < |stats| ==> |stats[i].key| == 1 by {
      forall i | 0 <= i < |stats| ensures |stats[i].key| == 1 {
        assert stats[i].key in KeysIn(stats);
      }
    }
    assert forall i, j :: 0 <= i < j < |stats| ==> StrLt(stats[i].key[0], stats[j].key[0]) by {
      forall i, j | 0 <= i < j < |stats| ensures StrLt(stats[i].key[0], stats[j].key[0]) {
        assert TupleLt(stats[i].key, stats[j].key);
        assert !TupleLt(stats[i].key[1..], stats[j].key[1..]) by {
          assert |stats[j].key[1..]| == 0;
        }
      }
    }
    stats
  }

  /** `get_player_stats`: the same contract, keyed by (team name, player name)
      in ascending tuple order. */
  function GetPlayerStats(events: seq<EventRow>): (stats: seq<StatsRow>)
    ensures forall i :: 0 <= i < |stats| ==> |stats[i].key| == 2
    ensures forall i, j :: 0 <= i < j < |stats| ==> TupleLt(stats[i].key, stats[j].key)
    ensures KeysIn(stats) == set e | 0 <= e < |events| && events[e].teamName.Some? && events[e].playerName.Some?
                                   :: [events[e].teamName.value, events[e].playerName.value]
    ensures forall i :: 0 <= i < |stats| ==> Summarises(stats[i], events, ByTeamAndPlayer)
  {
    var stats := GroupStats(events, ByTeamAndPlayer);
    assert forall i :: 0 <= i < |stats| ==> |stats[i].key| == 2 by {
      forall i | 0 <= i < |stats| ensures |stats[i].key| == 2 {
        assert stats[i].key in KeysIn(stats);
      }
    }
    stats
  }

  // ------------------------------------------------------------ totals add up

  /** When every row has an id and a type, each group's breakdown adds up to
      its `total_events`. */
  lemma BreakdownAddsUpToTotal(events: seq<EventRow>, g: Grouping)
    requires forall e :: 0 <= e < |events| ==> HasId(events[e]) && events[e].eventType.Some?
    ensures forall i :: 0 <= i < |GroupStats(events, g)| ==>
      MapSum(GroupStats(events, g)[i].eventBreakdown) == GroupStats(events, g)[i].totalEvents
  {
    var stats := GroupStats(events, g);
    forall i | 0 <= i < |stats|
      ensures MapSum(stats[i].eventBreakdown) == stats[i].totalEvents
    {
      var k := stats[i].key;
      assert stats[i].eventBreakdown == Breakdown(events, g, k);
      BreakdownSum(events, g, k);
      CountsAgree(events, g, k);
    }
  }

  lemma {:induction false} CountsAgree(rows: seq<EventRow>, g: Grouping, k: seq<string>)
    requires forall e :: 0 <= e < |rows| ==> HasId(rows[e]) && rows[e].eventType.Some?
    ensures CountIn(rows, g, k, WithId) == CountIn(rows, g, k, Typed)
  {
    if rows != [] {
      assert HasId(rows[0]) && rows[0].eventType.Some?;
      CountsAgree(rows[1..], g, k);
    }
  }

  /** The rows that fall in some group and that `tally` counts. */
  function CountKeyed(rows: seq<EventRow>, g: Grouping, tally: Tally): nat
  {
    if rows == [] then 0
    else (if GroupKey(rows[0], g).Some? && Tallied(rows[0], tally) then 1 else 0) + CountKeyed(rows[1..], g, tally)
  }

  function SumOver(rows: seq<EventRow>, g: Grouping, ks: seq<seq<string>>, tally: Tally): nat
  {
    if ks == [] then 0 else CountIn(rows, g, ks[0], tally) + SumOver(rows, g, ks[1..], tally)
  }

  function SumTotals(stats: seq<StatsRow>): nat
  {
    if stats == [] then 0 else stats[0].totalEvents + SumTotals(stats[1..])
  }

  lemma {:induction false} SumOverEmpty(g: Grouping, ks: seq<seq<string>>, tally: Tally)
    ensures SumOver([], g, ks, tally) == 0
  {
    if ks != [] {
      SumOverEmpty(g, ks[1..], tally);
    }
  }

  /** Adding one row to the table adds one to exactly the sum over the keys
      that contain that row's group, when the keys are distinct. */
  lemma {:induction false} SumOverCons(rows: seq<EventRow>, g: Grouping, ks: seq<seq<string>>, tally: Tally)
    requires rows != []
    requires forall i, j :: 0 <= i < j < |ks| ==> ks[i] != ks[j]
    ensures SumOver(rows, g, ks, tally) == SumOver(rows[1..], g, ks, tally)
      + (if GroupKey(rows[0], g).Some? && GroupKey(rows[0], g).value in ks && Tallied(rows[0], tally) then 1 else 0)
  {
    if ks != [] {
      SumOverCons(rows, g, ks[1..], tally);
      assert ks == [ks[0]] + ks[1..];
    }
  }

  /** Summing a count over a set of distinct keys that covers every row's group
      counts every keyed row once. */
  lemma {:induction false} SumOverCovers(rows: seq<EventRow>, g: Grouping, ks: seq<seq<string>>, tally: Tally)
    requires forall i, j :: 0 <= i < j < |ks| ==> ks[i] != ks[j]
    requires forall e :: 0 <= e < |rows| && GroupKey(rows[e], g).Some? ==> GroupKey(rows[e], g).value in ks
    ensures SumOver(rows, g, ks, tally) == CountKeyed(rows, g, tally)
  {
    if rows == [] {
      SumOverEmpty(g, ks, tally);
    } else {
      assert forall e :: 0 <= e < |rows[1..]| ==> rows[1..][e] == rows[e + 1];
      SumOverCovers(rows[1..], g, ks, tally);
      SumOverCons(rows, g, ks, tally);
    }
  }

  lemma {:induction false} SumTotalsFor(rows: seq<EventRow>, g: Grouping, ks: seq<seq<string>>)
    ensures SumTotals(StatsFor(rows, g, ks)) == SumOver(rows, g, ks, WithId)
  {
    if ks != [] {
      assert StatsFor(rows, g, ks)[1..] == StatsFor(rows, g, ks[1..]);
      SumTotalsFor(rows, g, ks[1..]);
    }
  }

  /** The `total_events` of all groups add up to the number of rows that have
      a group and a non-null id: every such row is counted in exactly one group. */
  lemma TotalsAddUp(events: seq<EventRow>, g: Grouping)
    ensures SumTotals(GroupStats(events, g)) == CountKeyed(events, g, WithId)
  {
    var ks := GroupKeys(events, g);
    forall i, j | 0 <= i < j < |ks| ensures ks[i] != ks[j] {
      TupleLtIrreflexive(ks[i]);
    }
    KeysOfCounted(events, g);
    forall e | 0 <= e < |events| && GroupKey(events[e], g).Some?
      ensures GroupKey(events[e], g).value in ks
    {
      assert GroupKey(events[e], g).value in KeysOf(events, g);
    }
    SumOverCovers(events, g, ks, WithId);
    SumTotalsFor(events, g, ks);
  }
}
