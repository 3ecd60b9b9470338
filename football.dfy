/** The match-data side of the service: the matches the football data
    provider returns, the `TIMED` post-filter, the join of upcoming matches
    with a user's uncounted predictions, and the id list sent when asking for
    finished matches. */
module FootballApi {
  import opened Wrappers
  import opened Text
  import opened Store

  /** `{"status": ..., "winner": ...}`, the tag added to each upcoming match. */
  datatype Tag = Tag(status: bool, winner: Option<Value>)

  /** A match as the provider returns it: its numeric `id`, `status`,
      `score.winner` (`None` for a null winner) and, once annotated, the
      `prediction` tag. */
  datatype Match = Match(id: int, status: string, winner: Option<string>, prediction: Option<Tag>)

  /** `filter_matches_by_status`. */
  predicate HasStatus(m: Match, status: string)
  {
    m.status == status
  }

  /** The comprehension of `get_timed_matches`: the `TIMED` matches, in order. */
  function TimedMatches(ms: seq<Match>): (r: seq<Match>)
    ensures |r| <= |ms|
    ensures forall m :: m in r ==> HasStatus(m, "TIMED")
  {
    if ms == [] then []
    else
      var rest := TimedMatches(ms[..|ms| - 1]);
      if HasStatus(ms[|ms| - 1], "TIMED") then rest + [ms[|ms| - 1]] else rest
  }

  /** The filter keeps exactly the `TIMED` matches. */
  lemma {:induction false} TimedMatchesMembers(ms: seq<Match>)
    ensures forall m :: m in TimedMatches(ms) <==> m in ms && HasStatus(m, "TIMED")
  {
    if ms != [] {
      TimedMatchesMembers(ms[..|ms| - 1]);
      assert ms == ms[..|ms| - 1] + [ms[|ms| - 1]];
    }
  }

  /** The filter keeps the original order: it distributes over concatenation. */
  lemma {:induction false} TimedMatchesAppend(a: seq<Match>, b: seq<Match>)
    ensures TimedMatches(a + b) == TimedMatches(a) + TimedMatches(b)
    decreases |b|
  {
    if b == [] {
      assert a + b == a;
    } else {
      var b', last := b[..|b| - 1], b[|b| - 1];
      TimedMatchesAppend(a, b');
      assert (a + b)[..|a + b| - 1] == a + b';
      assert (a + b)[|a + b| - 1] == last;
      var ta, tb := TimedMatches(a), TimedMatches(b');
      if HasStatus(last, "TIMED") {
        assert TimedMatches(a + b) == (ta + tb) + [last];
        assert TimedMatches(b) == tb + [last];
        assert (ta + tb) + [last] == ta + (tb + [last]);
      } else {
        assert TimedMatches(a + b) == ta + tb;
        assert TimedMatches(b) == tb;
      }
    }
  }

  /** An element of the `uncounted_prediction_records` list. */
  datatype Record = Dict(fields: Item) | NotADict

  /** The argument of `get_matches_to_display`, which need not be a list. */
  datatype RecordsArg = RecordList(records: seq<Record>) | NotAList

  /** A record that contributes to the lookup: a dictionary with `match_id`
      and `prediction`. */
  predicate Usable(r: Record)
  {
    r.Dict? && "match_id" in r.fields && "prediction" in r.fields
  }

  /** The lookup key of a usable record: `str(record["match_id"])`. */
  function LookupKey(r: Record): string
    requires Usable(r)
  {
    PyStr(r.fields["match_id"])
  }

  /** `predicted_matches` after its loop has seen `rs`: each usable record
      writes its prediction under its key, later records overwriting earlier ones. */
  function Lookup(rs: seq<Record>): (m: map<string, Value>)
  {
    if rs == [] then map[]
    else
      var last := rs[|rs| - 1];
      var m := Lookup(rs[..|rs| - 1]);
      if Usable(last) then m[LookupKey(last) := last.fields["prediction"]] else m
  }

  /** A key is in the lookup exactly when some usable record carries it;
      malformed records never contribute. */
  lemma {:induction false} LookupKeys(rs: seq<Record>)
    ensures forall k :: k in Lookup(rs) <==> exists i :: 0 <= i < |rs| && Usable(rs[i]) && LookupKey(rs[i]) == k
  {
    if rs != [] {
      var p := rs[..|rs| - 1];
      LookupKeys(p);
      assert forall i :: 0 <= i < |p| ==> p[i] == rs[i];
    }
  }

  /** `rs[i]` is the last usable record whose key is `k`. */
  predicate LastNaming(rs: seq<Record>, i: int, k: string)
  {
    && 0 <= i < |rs| && Usable(rs[i]) && LookupKey(rs[i]) == k
    && forall j :: i < j < |rs| && Usable(rs[j]) ==> LookupKey(rs[j]) != k
  }

  /** For duplicate ids the last usable record in input order wins. */
  lemma {:induction false} LookupLastWins(rs: seq<Record>, i: nat)
    requires i < |rs| && Usable(rs[i]) && LastNaming(rs, i, LookupKey(rs[i]))
    ensures LookupKey(rs[i]) in Lookup(rs) && Lookup(rs)[LookupKey(rs[i])] == rs[i].fields["prediction"]
  {
    var p := rs[..|rs| - 1];
    if i < |rs| - 1 {
      assert forall j :: i < j < |p| ==> p[j] == rs[j];
      LookupLastWins(p, i);
    }
  }

  /** The prediction loop of `get_matches_to_display`: builds
      `predicted_matches`, skipping (and warning about) malformed records. */
  method BuildLookup(rs: seq<Record>) returns (predicted: map<string, Value>)
    ensures predicted == Lookup(rs)
  {
    predicted := map[];
    var i := 0;
    while i < |rs|
      invariant 0 <= i <= |rs|
      invariant predicted == Lookup(rs[..i])
    {
      var record := rs[i];
      assert rs[..i + 1][..i] == rs[..i];
      if record.Dict? && "match_id" in record.fields && "prediction" in record.fields {
        predicted := predicted[PyStr(record.fields["match_id"]) := record.fields["prediction"]];
      }
      i := i + 1;
    }
    assert rs[..|rs|] == rs;
  }

  /** The tag a match receives from `predicted`. */
  function TagFor(predicted: map<string, Value>, m: Match): Tag
  {
    var k := IntToDecimal(m.id);
    Tag(k in predicted, if k in predicted then Some(predicted[k]) else None)
  }

  /** `get_matches_to_display`, with the scheduled matches of the provider
      passed in: `[]` for a non-list argument; otherwise the `TIMED` matches,
      in order, each tagged with whether the user predicted it and what. */
  method GetMatchesToDisplay(arg: RecordsArg, scheduled: seq<Match>) returns (matches: seq<Match>)
    ensures arg.NotAList? ==> matches == []
    ensures arg.RecordList? ==>
      var timed := TimedMatches(scheduled);
      && |matches| == |timed|
      && forall i :: 0 <= i < |timed| ==>
           && matches[i] == timed[i].(prediction := matches[i].prediction)
           && matches[i].prediction == Some(TagFor(Lookup(arg.records), timed[i]))
  {
    if !arg.RecordList? {
      return [];
    }
    matches := TimedMatches(scheduled);
    ghost var timed := matches;
    var predicted := BuildLookup(arg.records);
    var i := 0;
    while i < |matches|
      invariant 0 <= i <= |matches| == |timed|
      invariant forall j :: i <= j < |timed| ==> matches[j] == timed[j]
      invariant forall j :: 0 <= j < i ==> matches[j] == timed[j].(prediction := Some(TagFor(predicted, timed[j])))
    {
      var matchId := IntToDecimal(matches[i].id);
      matches := matches[i := matches[i].(prediction := Some(Tag(matchId in predicted,
        if matchId in predicted then Some(predicted[matchId]) else None)))];
      i := i + 1;
    }
  }

  /** The tag says "predicted" exactly when some usable record names the
      match's id; its winner is then the prediction of the last record naming
      it, and `None` otherwise. */
  lemma TagMeaning(rs: seq<Record>, m: Match)
    ensures TagFor(Lookup(rs), m).status <==>
      exists i :: 0 <= i < |rs| && Usable(rs[i]) && LookupKey(rs[i]) == IntToDecimal(m.id)
    ensures !TagFor(Lookup(rs), m).status ==> TagFor(Lookup(rs), m).winner == None
    ensures forall i :: LastNaming(rs, i, IntToDecimal(m.id)) ==>
      TagFor(Lookup(rs), m).winner == Some(rs[i].fields["prediction"])
  {
    LookupKeys(rs);
    forall i | LastNaming(rs, i, IntToDecimal(m.id))
      ensures TagFor(Lookup(rs), m).winner == Some(rs[i].fields["prediction"])
    {
      LookupLastWins(rs, i);
    }
  }

  /** The `ids` parameter of `get_matches_to_evaluate`: the ids joined with ",". */
  function IdsParam(ids: seq<string>): (p: string)
    ensures |ids| > 0 && (forall i :: 0 <= i < |ids| ==> ',' !in ids[i]) ==> Split(p) == ids
  {
    if |ids| > 0 && (forall i :: 0 <= i < |ids| ==> ',' !in ids[i]) then
      SplitJoin(ids);
      Join(ids)
    else
      Join(ids)
  }
}
