/** The three validators of src/data/processor.py: each walks the raw records
    and keeps, in order and unchanged, those that carry every required key. */
module Validator {
  import opened Json

  const CompetitionFields: set<string> :=
    {"competition_id", "competition_name", "season_id", "season_name"}

  const MatchFields: set<string> :=
    {"match_id", "home_team", "away_team", "home_score", "away_score", "match_date"}

  const EventFields: set<string> :=
    {"id", "type", "minute", "second", "possession", "play_pattern", "team", "player"}

  /** The records of `rs` that carry every key of `required`, in their order. */
  function KeepComplete(rs: seq<Record>, required: set<string>): seq<Record>
  {
    if rs == [] then []
    else
      var last := rs[|rs| - 1];
      KeepComplete(rs[..|rs| - 1], required) + (if HasAll(last, required) then [last] else [])
  }

  /** The positions of `rs` whose record carries every required key, ascending. */
  function CompleteIndices(rs: seq<Record>, required: set<string>): seq<nat>
  {
    if rs == [] then []
    else
      var n := |rs| - 1;
      CompleteIndices(rs[..n], required) + (if HasAll(rs[n], required) then [n] else [])
  }

  ghost predicate StrictlyIncreasing(idx: seq<nat>)
  {
    forall a, b :: 0 <= a < b < |idx| ==> idx[a] < idx[b]
  }

  /** Position k of the output is the input record at position idx[k]. */
  lemma {:induction false} CompleteIndicesPick(rs: seq<Record>, required: set<string>)
    ensures var out, idx := KeepComplete(rs, required), CompleteIndices(rs, required);
      && |idx| == |out| <= |rs|
      && forall k :: 0 <= k < |idx| ==> idx[k] < |rs| && out[k] == rs[idx[k]]
  {
    if rs != [] {
      var n := |rs| - 1;
      var prefix := rs[..n];
      CompleteIndicesPick(prefix, required);
      var idx0 := CompleteIndices(prefix, required);
      forall k | 0 <= k < |idx0| ensures prefix[idx0[k]] == rs[idx0[k]] {
      }
    }
  }

  /** The picked positions increase: the output keeps the input's order. */
  lemma {:induction false} CompleteIndicesIncrease(rs: seq<Record>, required: set<string>)
    ensures StrictlyIncreasing(CompleteIndices(rs, required))
    ensures forall k :: 0 <= k < |CompleteIndices(rs, required)| ==> CompleteIndices(rs, required)[k] < |rs|
  {
    if rs != [] {
      var n := |rs| - 1;
      CompleteIndicesIncrease(rs[..n], required);
    }
  }

  /** A position is picked exactly when its record carries every required key. */
  lemma {:induction false} CompleteIndicesExactly(rs: seq<Record>, required: set<string>)
    ensures forall j :: 0 <= j < |rs| ==> (j in CompleteIndices(rs, required) <==> HasAll(rs[j], required))
  {
    if rs != [] {
      var n := |rs| - 1;
      var prefix := rs[..n];
      CompleteIndicesExactly(prefix, required);
      CompleteIndicesIncrease(prefix, required);
      var idx0 := CompleteIndices(prefix, required);
      var idx := CompleteIndices(rs, required);
      assert n !in idx0;
      forall j | 0 <= j < n ensures j in idx <==> HasAll(rs[j], required) {
        assert prefix[j] == rs[j];
      }
    }
  }

  /** The validator's output is the subsequence of its input picked out by the
      presence check: position k of the output is the input record at idx[k],
      the positions increase (original order), and a position is picked exactly
      when its record carries every required key (records are not altered). */
  lemma KeepCompleteIsSelection(rs: seq<Record>, required: set<string>)
    ensures var out, idx := KeepComplete(rs, required), CompleteIndices(rs, required);
      && |idx| == |out| <= |rs|
      && StrictlyIncreasing(idx)
      && (forall k :: 0 <= k < |idx| ==> idx[k] < |rs| && out[k] == rs[idx[k]])
      && (forall j :: 0 <= j < |rs| ==> (j in idx <==> HasAll(rs[j], required)))
  {
    CompleteIndicesPick(rs, required);
    CompleteIndicesIncrease(rs, required);
    CompleteIndicesExactly(rs, required);
  }

  /** Membership with multiplicity: the output holds each complete input record
      as often as the input does, and no incomplete record at all. */
  lemma {:induction false} KeepCompleteCounts(rs: seq<Record>, required: set<string>)
    ensures forall r :: multiset(KeepComplete(rs, required))[r]
                        == if HasAll(r, required) then multiset(rs)[r] else 0
  {
    if rs != [] {
      var n := |rs| - 1;
      KeepCompleteCounts(rs[..n], required);
      assert rs == rs[..n] + [rs[n]];
    }
  }

  /** Every record the validator returns passes the presence check. */
  lemma {:induction false} KeepCompleteAllComplete(rs: seq<Record>, required: set<string>)
    ensures forall r | r in KeepComplete(rs, required) :: HasAll(r, required)
  {
    KeepCompleteCounts(rs, required);
    forall r | r in KeepComplete(rs, required) ensures HasAll(r, required) {
      assert multiset(KeepComplete(rs, required))[r] > 0;
    }
  }

  /** Validating splits over concatenation: the check looks at one record at a time. */
  lemma {:induction false} KeepCompleteAppend(a: seq<Record>, b: seq<Record>, required: set<string>)
    ensures KeepComplete(a + b, required) == KeepComplete(a, required) + KeepComplete(b, required)
    decreases |b|
  {
    if b != [] {
      var n := |b| - 1;
      KeepCompleteAppend(a, b[..n], required);
      assert (a + b)[..|a + b| - 1] == a + b[..n];
    } else {
      assert a + b == a;
    }
  }

  /** Re-validating the output changes nothing. */
  lemma {:induction false} KeepCompleteIdempotent(rs: seq<Record>, required: set<string>)
    ensures KeepComplete(KeepComplete(rs, required), required) == KeepComplete(rs, required)
  {
    if rs != [] {
      var n := |rs| - 1;
      KeepCompleteIdempotent(rs[..n], required);
      var tail := if HasAll(rs[n], required) then [rs[n]] else [];
      KeepCompleteAppend(KeepComplete(rs[..n], required), tail, required);
      if tail != [] {
        assert tail[..0] == [];
      }
    }
  }

  /** The shared loop of the three validators: keep a record when all required
      fields are present, skip (and, in the source, log) it otherwise. */
  method KeepValid(records: seq<Record>, required: set<string>) returns (valid: seq<Record>)
    ensures valid == KeepComplete(records, required)
  {
    valid := [];
    for i := 0 to |records|
      invariant valid == KeepComplete(records[..i], required)
    {
      assert records[..i + 1][..i] == records[..i];
      if HasAll(records[i], required) {
        valid := valid + [records[i]];
      }
    }
    assert records[..|records|] == records;
  }

  method ValidateCompetitionData(competitions: seq<Record>) returns (valid: seq<Record>)
    ensures valid == KeepComplete(competitions, CompetitionFields)
  {
    valid := KeepValid(competitions, CompetitionFields);
  }

  method ValidateMatchData(matches: seq<Record>) returns (valid: seq<Record>)
    ensures valid == KeepComplete(matches, MatchFields)
  {
    valid := KeepValid(matches, MatchFields);
  }

  method ValidateEventData(events: seq<Record>) returns (valid: seq<Record>)
    ensures valid == KeepComplete(events, EventFields)
  {
    valid := KeepValid(events, EventFields);
  }

  /** A record with only an identifier is dropped by each validator. */
  lemma IdOnlyRecordsAreDropped()
    ensures KeepComplete([map["competition_id" := Int(1)]], CompetitionFields) == []
    ensures KeepComplete([map["match_id" := Int(1)]], MatchFields) == []
    ensures KeepComplete([map["id" := Int(1)]], EventFields) == []
  {
    assert "competition_name" in CompetitionFields;
    assert "home_team" in MatchFields;
    assert "type" in EventFields;
  }
}
