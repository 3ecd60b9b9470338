/** The request handlers of the service that carry logic: sign-up and login,
    the list of upcoming matches, prediction submission and the evaluation of
    a user's pending predictions against finished results. The user id that
    the access token carries is a parameter. */
module App {
  import opened Wrappers
  import opened Text
  import opened Store
  import opened FootballApi
  import PT = PredictionsTable
  import UT = UsersTable

  // ---------------------------------------------------------------------
  // Evaluation: the pieces of `evaluate_user_score`
  // ---------------------------------------------------------------------

  /** The actual outcome of a finished match, from `score.winner` (`None`
      when the winner is null). */
  function Outcome(winner: Option<string>): (o: string)
    ensures o == "HOME" <==> winner == Some("HOME_TEAM")
    ensures o == "AWAY" <==> winner == Some("AWAY_TEAM")
    ensures o == "DRAW" <==> winner != Some("HOME_TEAM") && winner != Some("AWAY_TEAM")
    ensures o == Upper(o)
  {
    if winner == Some("HOME_TEAM") then "HOME"
    else if winner == Some("AWAY_TEAM") then "AWAY"
    else "DRAW"
  }

  /** `[record['match_id'] for record in records]`, as far as `",".join`
      accepts it: every record must carry a string id, otherwise the handler
      raises before the provider is asked. */
  function MatchIds(rs: seq<Item>): (ids: Option<seq<string>>)
    ensures ids.Some? <==> forall i :: 0 <= i < |rs| ==> Attr(rs[i], "match_id").Str?
    ensures ids.Some? ==> |ids.value| == |rs| && forall i :: 0 <= i < |rs| ==> Str(ids.value[i]) == rs[i]["match_id"]
  {
    if rs == [] then Some([])
    else
      match MatchIds(rs[..|rs| - 1])
      case None => None
      case Some(ids) =>
        var last := Attr(rs[|rs| - 1], "match_id");
        if last.Str? then Some(ids + [last.s]) else None
  }

  /** One turn of the nested loop: a finished match and a pending record. */
  datatype Pair = Pair(m: Match, r: Item)

  /** `str(record['match_id']) == str(match["id"])`. */
  predicate SameMatch(p: Pair)
  {
    PyStr(Attr(p.r, "match_id")) == IntToDecimal(p.m.id)
  }

  /** The turn raises a `KeyError`: the record names the match but has no
      `prediction`. */
  predicate Crashes(p: Pair)
  {
    SameMatch(p) && "prediction" !in p.r
  }

  /** The turn earns a point. */
  predicate Correct(p: Pair)
  {
    SameMatch(p) && "prediction" in p.r && p.r["prediction"] == Str(Outcome(p.m.winner))
  }

  /** The turns of the inner loop for match `m`. */
  function Row(m: Match, rs: seq<Item>): (ps: seq<Pair>)
    ensures |ps| == |rs| && forall j :: 0 <= j < |rs| ==> ps[j] == Pair(m, rs[j])
  {
    seq(|rs|, j requires 0 <= j < |rs| => Pair(m, rs[j]))
  }

  /** All turns, in the order the loops take them: matches outside, records inside. */
  function Pairs(ms: seq<Match>, rs: seq<Item>): (ps: seq<Pair>)
  {
    if ms == [] then [] else Pairs(ms[..|ms| - 1], rs) + Row(ms[|ms| - 1], rs)
  }

  lemma {:induction false} PairsAppend(a: seq<Match>, b: seq<Match>, rs: seq<Item>)
    ensures Pairs(a + b, rs) == Pairs(a, rs) + Pairs(b, rs)
    decreases |b|
  {
    if b == [] {
      assert a + b == a;
    } else {
      var b', last := b[..|b| - 1], b[|b| - 1];
      PairsAppend(a, b', rs);
      assert (a + b)[..|a + b| - 1] == a + b';
      assert (a + b)[|a + b| - 1] == last;
      var pa, pb, row := Pairs(a, rs), Pairs(b', rs), Row(last, rs);
      assert Pairs(a + b, rs) == (pa + pb) + row;
      assert Pairs(b, rs) == pb + row;
      assert (pa + pb) + row == pa + (pb + row);
    }
  }

  lemma PairsExtend(ms: seq<Match>, rs: seq<Item>, i: nat)
    requires i < |ms|
    ensures Pairs(ms[..i + 1], rs) == Pairs(ms[..i], rs) + Row(ms[i], rs)
  {
    assert ms[..i + 1][..i] == ms[..i];
  }

  lemma PairsSplit(ms: seq<Match>, rs: seq<Item>, i: nat)
    requires i < |ms|
    ensures Pairs(ms, rs) == Pairs(ms[..i], rs) + Row(ms[i], rs) + Pairs(ms[i + 1..], rs)
  {
    var m := ms[i];
    assert ms == ms[..i] + ([m] + ms[i + 1..]);
    PairsAppend(ms[..i], [m] + ms[i + 1..], rs);
    PairsAppend([m], ms[i + 1..], rs);
    assert [m][..0] == [];
    assert Pairs([m], rs) == Row(m, rs);
  }

  /** No turn of `ps` raises. */
  predicate NoCrash(ps: seq<Pair>)
  {
    forall t :: 0 <= t < |ps| ==> !Crashes(ps[t])
  }

  /** How many turns the handler completes: the index of the first turn that
      raises, or `|ps|`. */
  function FirstCrash(ps: seq<Pair>): (k: nat)
    ensures k <= |ps| && forall t :: 0 <= t < k ==> !Crashes(ps[t])
    ensures k < |ps| ==> Crashes(ps[k])
  {
    if ps == [] then 0
    else if Crashes(ps[0]) then 0
    else
      var k := FirstCrash(ps[1..]);
      assert forall t :: 0 < t <= k ==> ps[t] == ps[1..][t - 1];
      k + 1
  }

  lemma NoCrashAppend(a: seq<Pair>, b: seq<Pair>)
    requires NoCrash(a) && NoCrash(b)
    ensures NoCrash(a + b)
  {
    assert forall t :: |a| <= t < |a + b| ==> (a + b)[t] == b[t - |a|];
  }

  /** The first turn that raises is the one after a stretch of turns that do not. */
  lemma FirstCrashAt(ps: seq<Pair>, k: nat)
    requires k < |ps| && (forall t :: 0 <= t < k ==> !Crashes(ps[t])) && Crashes(ps[k])
    ensures FirstCrash(ps) == k
  {
    var f := FirstCrash(ps);
    assert forall t :: 0 <= t < f ==> !Crashes(ps[t]) by {
      forall t | 0 <= t < f ensures !Crashes(ps[t]) { assert ps[..f][t] == ps[t]; }
    }
  }

  lemma CrashAfter(ps: seq<Pair>, done: seq<Pair>, k: nat)
    requires k < |ps| && done == ps[..k] && NoCrash(done) && Crashes(ps[k])
    ensures FirstCrash(ps) == k && ps[..FirstCrash(ps)] == done
  {
    assert forall t :: 0 <= t < k ==> ps[t] == done[t];
    FirstCrashAt(ps, k);
  }

  lemma PrefixNoCrash(ps: seq<Pair>, k: nat)
    requires k <= |ps| && forall t :: 0 <= t < k ==> !Crashes(ps[t])
    ensures NoCrash(ps[..k])
  {
    assert forall t :: 0 <= t < k ==> ps[..k][t] == ps[t];
  }

  lemma NoCrashPrefix(ps: seq<Pair>, k: nat)
    requires k <= |ps| && NoCrash(ps[..k])
    ensures forall t :: 0 <= t < k ==> !Crashes(ps[t])
  {
    assert forall t :: 0 <= t < k ==> ps[..k][t] == ps[t];
  }

  /** Without a raising turn, every turn is completed. */
  lemma FirstCrashNone(ps: seq<Pair>)
    requires NoCrash(ps)
    ensures FirstCrash(ps) == |ps| && ps[..FirstCrash(ps)] == ps
  {
    assert ps[..|ps|] == ps;
  }

  lemma SliceExtend<T>(a: seq<T>, j: nat)
    requires j < |a|
    ensures a[..j + 1] == a[..j] + [a[j]]
  {
  }

  lemma AppendAssoc<T>(a: seq<T>, b: seq<T>, c: seq<T>)
    ensures a + (b + c) == (a + b) + c
  {
  }

  lemma ConcatPrefix<T>(a: seq<T>, b: seq<T>, c: seq<T>, k: nat)
    requires k < |b|
    ensures (a + b + c)[..|a| + k] == a + b[..k] && (a + b + c)[|a| + k] == b[k]
  {
  }

  /** A turn that raises inside the stretch `row`, after the completed
      stretch `done`, is the first one of the whole sequence. */
  lemma CrashInside(done: seq<Pair>, row: seq<Pair>, rest: seq<Pair>)
    requires NoCrash(done) && FirstCrash(row) < |row|
    ensures FirstCrash(done + row + rest) == |done| + FirstCrash(row)
    ensures (done + row + rest)[..|done| + FirstCrash(row)] == done + row[..FirstCrash(row)]
  {
    var k := FirstCrash(row);
    var ps := done + row + rest;
    var j := |done| + k;
    ConcatPrefix(done, row, rest, k);
    PrefixNoCrash(row, k);
    NoCrashAppend(done, row[..k]);
    NoCrashPrefix(ps, j);
    FirstCrashAt(ps, j);
  }

  /** A turn of match `i` that raises is the first of the whole nested loop. */
  lemma CrashInMatch(ms: seq<Match>, rs: seq<Item>, i: nat, done: seq<Pair>)
    requires i < |ms| && done == Pairs(ms[..i], rs) && NoCrash(done)
    requires FirstCrash(Row(ms[i], rs)) < |rs|
    ensures var ps, row := Pairs(ms, rs), Row(ms[i], rs);
      FirstCrash(ps) < |ps| && ps[..FirstCrash(ps)] == done + row[..FirstCrash(row)]
  {
    PairsSplit(ms, rs, i);
    CrashInside(done, Row(ms[i], rs), Pairs(ms[i + 1..], rs));
  }

  /** Match `i` completed without a raising turn. */
  lemma MatchCompleted(ms: seq<Match>, rs: seq<Item>, i: nat, done: seq<Pair>)
    requires i < |ms| && done == Pairs(ms[..i], rs) && NoCrash(done)
    requires FirstCrash(Row(ms[i], rs)) == |rs|
    ensures var row := Row(ms[i], rs);
      && done + row == Pairs(ms[..i + 1], rs) && NoCrash(done + row)
      && Hits(done + row) == Hits(done) + Hits(row)
      && row[..FirstCrash(row)] == row
  {
    CompletedStretch(done, Row(ms[i], rs));
    PairsExtend(ms, rs, i);
  }

  /** Every match completed: no turn raised. */
  lemma AllMatchesCompleted(ms: seq<Match>, rs: seq<Item>, done: seq<Pair>)
    requires done == Pairs(ms[..|ms|], rs) && NoCrash(done)
    ensures var ps := Pairs(ms, rs); done == ps && FirstCrash(ps) == |ps| && ps[..FirstCrash(ps)] == done
  {
    assert ms[..|ms|] == ms;
    FirstCrashNone(done);
  }

  /** A stretch without a raising turn extends the completed stretch. */
  lemma CompletedStretch(done: seq<Pair>, row: seq<Pair>)
    requires NoCrash(done) && FirstCrash(row) == |row|
    ensures NoCrash(done + row) && Hits(done + row) == Hits(done) + Hits(row)
    ensures row[..FirstCrash(row)] == row
  {
    assert row[..|row|] == row;
    NoCrashAppend(done, row);
    HitsAppend(done, row);
  }

  /** `score_increment` after the turns `ps`. */
  function Hits(ps: seq<Pair>): (n: nat)
  {
    if ps == [] then 0
    else Hits(ps[..|ps| - 1]) + (if Correct(ps[|ps| - 1]) then 1 else 0)
  }

  /** The number of `update_record` calls the turns `ps` make. */
  function Writes(ps: seq<Pair>): (n: nat)
  {
    if ps == [] then 0
    else Writes(ps[..|ps| - 1]) + (if SameMatch(ps[|ps| - 1]) then 1 else 0)
  }

  lemma {:induction false} HitsAppend(a: seq<Pair>, b: seq<Pair>)
    ensures Hits(a + b) == Hits(a) + Hits(b)
    decreases |b|
  {
    if b == [] {
      assert a + b == a;
    } else {
      var b' := b[..|b| - 1];
      HitsAppend(a, b');
      assert (a + b)[..|a + b| - 1] == a + b';
    }
  }

  lemma HitsStep(ps: seq<Pair>, p: Pair)
    ensures Hits(ps + [p]) == Hits(ps) + (if Correct(p) then 1 else 0)
  {
    assert (ps + [p])[..|ps|] == ps;
  }

  /** A point is only ever earned on a turn that also writes the record: the
      increment is at most the number of updates, and at most the number of turns. */
  lemma {:induction false} HitsAtMostWrites(ps: seq<Pair>)
    ensures Hits(ps) <= Writes(ps) <= |ps|
  {
    if ps != [] {
      HitsAtMostWrites(ps[..|ps| - 1]);
    }
  }

  /** One finished match and one pending record: the increment is 1 exactly
      when the record names the match and its prediction is the outcome. */
  lemma HitsOfOneRecord(m: Match, r: Item)
    requires "prediction" in r
    ensures Hits(Pairs([m], [r])) == (if SameMatch(Pair(m, r)) && r["prediction"] == Str(Outcome(m.winner)) then 1 else 0)
  {
    assert [m][..0] == [];
    assert Pairs([m], [r]) == [Pair(m, r)];
    assert [Pair(m, r)][..0] == [];
  }

  /** The attributes the evaluation sets on a record. */
  function EvalAttrs(outcome: string): (attrs: map<string, Value>)
    ensures attrs.Keys == EvaluatedFields
  {
    map["counted" := Bool(true), "actual_outcome" := Str(outcome), "isFinished" := Bool(true)]
  }

  const EvaluatedFields: set<string> := {"counted", "actual_outcome", "isFinished"}

  /** The key `update_record(match_id=match["id"], ...)` addresses. */
  function WriteKey(p: Pair, userId: string): Key
  {
    PT.RecordKey(Num(p.m.id), userId)
  }

  /** The predictions table after the `update_record` calls of the turns `ps`. */
  function Written(failing: set<Key>, s: Snapshot, userId: string, ps: seq<Pair>): (r: Snapshot)
    ensures Indexed(s) && Keyed(PT.KeySchema, s) ==> Indexed(r) && Keyed(PT.KeySchema, r)
  {
    if ps == [] then s
    else
      var prev := Written(failing, s, userId, ps[..|ps| - 1]);
      var p := ps[|ps| - 1];
      if SameMatch(p) then AfterUpdate(PT.KeySchema, failing, prev, WriteKey(p, userId), EvalAttrs(Outcome(p.m.winner)))
      else prev
  }

  /** One turn of the inner loop moves the table from `cur` to `next`. */
  lemma TurnStep(failing: set<Key>, s: Snapshot, userId: string, ps: seq<Pair>, p: Pair, outcome: string, cur: Snapshot, next: Snapshot)
    requires cur == Written(failing, s, userId, ps) && outcome == Outcome(p.m.winner)
    requires SameMatch(p) ==> next == AfterUpdate(PT.KeySchema, failing, cur, PT.RecordKey(Num(p.m.id), userId), EvalAttrs(outcome))
    requires !SameMatch(p) ==> next == cur
    ensures next == Written(failing, s, userId, ps + [p])
  {
    assert (ps + [p])[..|ps|] == ps;
  }

  /** The turn `p` calls `update_record` on `key`. */
  predicate WritesKey(p: Pair, userId: string, key: Key)
  {
    SameMatch(p) && WriteKey(p, userId) == key
  }

  /** The last turn of `ps` that writes `key`, or -1. */
  function LastWrite(ps: seq<Pair>, userId: string, key: Key): (i: int)
    ensures -1 <= i < |ps|
    ensures i >= 0 ==> WritesKey(ps[i], userId, key)
    ensures forall j :: i < j < |ps| ==> !WritesKey(ps[j], userId, key)
  {
    LastWriteBefore(ps, |ps|, userId, key)
  }

  /** The last of the first `n` turns that writes `key`, or -1. */
  function LastWriteBefore(ps: seq<Pair>, n: nat, userId: string, key: Key): (i: int)
    requires n <= |ps|
    ensures -1 <= i < n
    ensures i >= 0 ==> WritesKey(ps[i], userId, key)
    ensures forall j :: i < j < n ==> !WritesKey(ps[j], userId, key)
  {
    if n == 0 then -1
    else if WritesKey(ps[n - 1], userId, key) then n - 1
    else LastWriteBefore(ps, n - 1, userId, key)
  }

  /** Dropping a last turn that does not write `key` leaves the last write where it was. */
  lemma LastWriteInit(ps: seq<Pair>, userId: string, key: Key)
    requires ps != [] && !WritesKey(ps[|ps| - 1], userId, key)
    ensures LastWrite(ps[..|ps| - 1], userId, key) == LastWrite(ps, userId, key)
  {
    var ps' := ps[..|ps| - 1];
    LastWriteBeforeAgree(ps', ps, |ps'|, userId, key);
  }

  /** The last write among the first `n` turns depends only on those turns. */
  lemma {:induction false} LastWriteBeforeAgree(ps: seq<Pair>, qs: seq<Pair>, n: nat, userId: string, key: Key)
    requires n <= |ps| && n <= |qs| && forall j :: 0 <= j < n ==> ps[j] == qs[j]
    ensures LastWriteBefore(ps, n, userId, key) == LastWriteBefore(qs, n, userId, key)
  {
    if n > 0 {
      LastWriteBeforeAgree(ps, qs, n - 1, userId, key);
    }
  }

  /** A turn that does not raise extends the completed stretch of a row by one. */
  lemma RecordCompleted(failing: set<Key>, s: Snapshot, userId: string, done: seq<Pair>, row: seq<Pair>,
                        seen: seq<Pair>, j: nat, outcome: string, cur: Snapshot, next: Snapshot)
    requires j < |row| && seen == row[..j] && NoCrash(seen) && !Crashes(row[j])
    requires cur == Written(failing, s, userId, done + seen) && outcome == Outcome(row[j].m.winner)
    requires SameMatch(row[j]) ==> next == AfterUpdate(PT.KeySchema, failing, cur, PT.RecordKey(Num(row[j].m.id), userId), EvalAttrs(outcome))
    requires !SameMatch(row[j]) ==> next == cur
    ensures var seen' := seen + [row[j]];
      && seen' == row[..j + 1] && NoCrash(seen')
      && Hits(seen') == Hits(seen) + (if Correct(row[j]) then 1 else 0)
      && next == Written(failing, s, userId, done + seen')
  {
    var p := row[j];
    TurnStep(failing, s, userId, done + seen, p, outcome, cur, next);
    HitsStep(seen, p);
    NoCrashAppend(seen, [p]);
    SliceExtend(row, j);
    AppendAssoc(done, seen, [p]);
  }

  /** `after` agrees with `before` on every attribute the evaluation does not set. */
  ghost predicate OthersKept(before: Item, after: Item)
  {
    forall a :: a !in EvaluatedFields ==> (a in after <==> a in before) && (a in before ==> after[a] == before[a])
  }

  /** The row carries what the evaluation writes for `outcome`. */
  predicate CountedAs(row: Item, outcome: string)
  {
    && "counted" in row && row["counted"] == Bool(true)
    && "actual_outcome" in row && row["actual_outcome"] == Str(outcome)
    && "isFinished" in row && row["isFinished"] == Bool(true)
  }

  /** The store accepts the evaluation's update of a well-formed key it does not fail on. */
  lemma EvalUpdateAccepted(failing: set<Key>, key: Key, outcome: string)
    requires key.Keys == SchemaSet(PT.KeySchema) && key !in failing
    ensures !UpdateRejected(PT.KeySchema, failing, key, EvalAttrs(outcome))
  {
    assert SchemaSet(PT.KeySchema) == {"match_id", "user_id"};
    assert "counted" in EvalAttrs(outcome);
  }

  /** A row no turn writes is untouched, and no row appears under its key. */
  lemma {:induction false} WrittenUntouched(failing: set<Key>, s: Snapshot, userId: string, ps: seq<Pair>, key: Key)
    requires LastWrite(ps, userId, key) < 0
    ensures var r := Written(failing, s, userId, ps);
      (key in r.rows <==> key in s.rows) && (key in s.rows ==> r.rows[key] == s.rows[key])
  {
    if ps != [] {
      WrittenUntouched(failing, s, userId, ps[..|ps| - 1], key);
    }
  }

  /** The row of the last turn that writes `key` carries that turn's
      outcome, unless the store fails on the key. */
  lemma {:induction false} WrittenCounted(failing: set<Key>, s: Snapshot, userId: string, ps: seq<Pair>, key: Key)
    requires LastWrite(ps, userId, key) >= 0 && key !in failing
    ensures var r := Written(failing, s, userId, ps);
      key in r.rows && CountedAs(r.rows[key], Outcome(ps[LastWrite(ps, userId, key)].m.winner))
  {
    var ps' := ps[..|ps| - 1];
    var p := ps[|ps| - 1];
    var prev := Written(failing, s, userId, ps');
    var attrs := EvalAttrs(Outcome(p.m.winner));
    if WritesKey(p, userId, key) {
      assert LastWrite(ps, userId, key) == |ps| - 1;
      assert Written(failing, s, userId, ps) == AfterUpdate(PT.KeySchema, failing, prev, key, attrs);
      EvalUpdateAccepted(failing, key, Outcome(p.m.winner));
      UpdateEffect(PT.KeySchema, failing, prev, key, attrs);
    } else {
      LastWriteInit(ps, userId, key);
      WrittenCounted(failing, s, userId, ps', key);
      if SameMatch(p) {
        assert Written(failing, s, userId, ps) == AfterUpdate(PT.KeySchema, failing, prev, WriteKey(p, userId), attrs);
        UpdateEffect(PT.KeySchema, failing, prev, WriteKey(p, userId), attrs);
      }
    }
  }

  /** An existing row keeps every attribute the evaluation does not set. */
  lemma {:induction false} WrittenKeepsOthers(failing: set<Key>, s: Snapshot, userId: string, ps: seq<Pair>, key: Key)
    requires key in s.rows
    ensures var r := Written(failing, s, userId, ps);
      key in r.rows && OthersKept(s.rows[key], r.rows[key])
  {
    if ps != [] {
      WrittenKeepsOthers(failing, s, userId, ps[..|ps| - 1], key);
    }
  }

  /** The key a turn writes is the key of the record it came from, when that
      record stores its id as a string and belongs to the user. */
  lemma WriteAddressesRecord(p: Pair, userId: string)
    requires SameMatch(p) && Attr(p.r, "match_id").Str? && Attr(p.r, "user_id") == Str(userId)
    ensures WriteKey(p, userId) == KeyOf(PT.KeySchema, p.r)
  {
    assert SchemaSet(PT.KeySchema) == {"match_id", "user_id"};
  }

  /** A record that names a finished match ends up counted, with the outcome
      of the last turn that wrote it, unless the store fails on its key. */
  lemma EvaluatedRecordIsCounted(failing: set<Key>, s: Snapshot, userId: string, ps: seq<Pair>, k: nat)
    requires k < |ps| && SameMatch(ps[k]) && Attr(ps[k].r, "match_id").Str? && Attr(ps[k].r, "user_id") == Str(userId)
    requires KeyOf(PT.KeySchema, ps[k].r) !in failing
    ensures var key := KeyOf(PT.KeySchema, ps[k].r); var r := Written(failing, s, userId, ps);
      && LastWrite(ps, userId, key) >= k
      && key in r.rows && CountedAs(r.rows[key], Outcome(ps[LastWrite(ps, userId, key)].m.winner))
  {
    WriteAddressesRecord(ps[k], userId);
    WrittenCounted(failing, s, userId, ps, KeyOf(PT.KeySchema, ps[k].r));
  }

  /** `user_record.get(attr, 0)`, as the number the handler adds to: the
      error dictionary of a failed read has no such key, a missing user
      (`None`) raises, and so does a value `+` refuses; a boolean counts as 0 or 1. */
  function CounterBase(user: Result<Option<Item>>, attr: string): Option<int>
  {
    match user
    case Err(_) => Some(0)
    case Ok(None) => None
    case Ok(Some(row)) => if attr !in row then Some(0) else IntOf(row[attr])
  }

  /** The `SET` list `{attr: n}` the handlers send to `update_user`. */
  function Counter(attr: string, n: int): (attrs: map<string, Value>)
    ensures attrs.Keys == {attr} && attrs[attr] == Num(n)
  {
    map[attr := Num(n)]
  }

  /** The response of `evaluate_user_score`. The `"Failed"` response is
      absent: the update result it tests is always a non-empty dictionary. */
  datatype EvalResponse = NoUncounted | NoFinished | ScoreUpdated(newScore: int) | EvalError

  /** The response together with both tables afterwards. */
  datatype Evaluated = Evaluated(resp: EvalResponse, preds: Snapshot, users: Snapshot)

  /** The reference definition of `evaluate_user_score`, on table contents:
      `s` and `u` are the predictions and users tables, `user` is what
      `get_user` answers and `finishedFor` is the provider, asked with the
      `ids` parameter for the finished matches. */
  function Evaluation(predsFailing: set<Key>, s: Snapshot, pageSize: nat, usersFailing: set<Key>, u: Snapshot,
                      user: Result<Option<Item>>, userId: string, finishedFor: string -> seq<Match>): Evaluated
    requires Indexed(s) && pageSize > 0
  {
    Reconciliation(predsFailing, s, usersFailing, u, user, userId, PT.Drain(s, pageSize, userId, 0), finishedFor)
  }

  /** The handler once `get_records_to_evaluate` has answered `recs`. */
  function Reconciliation(predsFailing: set<Key>, s: Snapshot, usersFailing: set<Key>, u: Snapshot,
                          user: Result<Option<Item>>, userId: string, recs: seq<Item>, finishedFor: string -> seq<Match>): Evaluated
  {
    if recs == [] then Evaluated(NoUncounted, s, u)
    else match MatchIds(recs)
      case None => Evaluated(EvalError, s, u)
      case Some(ids) =>
        var finished := finishedFor(IdsParam(ids));
        if finished == [] then Evaluated(NoFinished, s, u)
        else Scoring(predsFailing, s, usersFailing, u, user, userId, Pairs(finished, recs))
  }

  /** The nested loop over the turns `ps` and the score update after it. */
  function Scoring(predsFailing: set<Key>, s: Snapshot, usersFailing: set<Key>, u: Snapshot,
                   user: Result<Option<Item>>, userId: string, ps: seq<Pair>): Evaluated
  {
    var k := FirstCrash(ps);
    var s' := Written(predsFailing, s, userId, ps[..k]);
    if k < |ps| then Evaluated(EvalError, s', u)
    else Credited(usersFailing, u, user, userId, Hits(ps), s')
  }

  /** The score update after the loop: the stored score plus `increment`;
      `s'` is the predictions table as the loop left it. */
  function Credited(usersFailing: set<Key>, u: Snapshot, user: Result<Option<Item>>, userId: string,
                    increment: int, s': Snapshot): Evaluated
  {
    match CounterBase(user, "score")
    case None => Evaluated(EvalError, s', u)
    case Some(base) =>
      var score := base + increment;
      Evaluated(ScoreUpdated(score), s', AfterUpdate(UT.KeySchema, usersFailing, u, UT.UserKey(userId), Counter("score", score)))
  }

  /** The early exits write nothing: with no pending record, or no finished
      match among them, both tables are untouched and every pending record
      stays pending. */
  lemma EarlyExitWritesNothing(predsFailing: set<Key>, s: Snapshot, pageSize: nat, usersFailing: set<Key>, u: Snapshot,
                               user: Result<Option<Item>>, userId: string, finishedFor: string -> seq<Match>)
    requires Indexed(s) && pageSize > 0
    ensures var e := Evaluation(predsFailing, s, pageSize, usersFailing, u, user, userId, finishedFor);
      && (e.resp == NoUncounted <==> PT.Drain(s, pageSize, userId, 0) == [])
      && (e.resp == NoUncounted || e.resp == NoFinished ==> e.preds == s && e.users == u)
      && (e.resp == NoFinished ==> forall r :: r in PT.Drain(s, pageSize, userId, 0) ==>
            r in e.preds.rows.Values && Attr(r, "counted") == Bool(false))
  {
    PT.DrainIsUncounted(s, pageSize, userId);
  }

  /** On completion the new score is the stored score (0 when absent) plus
      the number of correct turns, that number never exceeds the number of
      updates made, and the users table receives one `SET score` on the
      user's row (see `CounterUpdate` for what that changes). */
  lemma CompletedEvaluationScore(predsFailing: set<Key>, s: Snapshot, usersFailing: set<Key>, u: Snapshot,
                                 user: Result<Option<Item>>, userId: string, recs: seq<Item>, finishedFor: string -> seq<Match>)
    requires Reconciliation(predsFailing, s, usersFailing, u, user, userId, recs, finishedFor).resp.ScoreUpdated?
    ensures var e := Reconciliation(predsFailing, s, usersFailing, u, user, userId, recs, finishedFor);
      && recs != [] && MatchIds(recs).Some?
      && var ps := Pairs(finishedFor(IdsParam(MatchIds(recs).value)), recs);
         && NoCrash(ps)
         && CounterBase(user, "score").Some?
         && e.resp.newScore == CounterBase(user, "score").value + Hits(ps)
         && Hits(ps) <= Writes(ps)
         && e.preds == Written(predsFailing, s, userId, ps)
         && e.users == AfterUpdate(UT.KeySchema, usersFailing, u, UT.UserKey(userId), Counter("score", e.resp.newScore))
  {
    var ps := Pairs(finishedFor(IdsParam(MatchIds(recs).value)), recs);
    ScoringCompleted(predsFailing, s, usersFailing, u, user, userId, ps);
  }

  lemma ScoringCompleted(predsFailing: set<Key>, s: Snapshot, usersFailing: set<Key>, u: Snapshot,
                         user: Result<Option<Item>>, userId: string, ps: seq<Pair>)
    requires Scoring(predsFailing, s, usersFailing, u, user, userId, ps).resp.ScoreUpdated?
    ensures var e := Scoring(predsFailing, s, usersFailing, u, user, userId, ps);
      && NoCrash(ps)
      && CounterBase(user, "score").Some?
      && e.resp.newScore == CounterBase(user, "score").value + Hits(ps)
      && Hits(ps) <= Writes(ps)
      && e.preds == Written(predsFailing, s, userId, ps)
      && e.users == AfterUpdate(UT.KeySchema, usersFailing, u, UT.UserKey(userId), Counter("score", e.resp.newScore))
  {
    assert FirstCrash(ps) == |ps|;
    assert ps[..|ps|] == ps;
    CreditedUpdated(usersFailing, u, user, userId, Hits(ps), Written(predsFailing, s, userId, ps));
    HitsAtMostWrites(ps);
  }

  lemma CreditedUpdated(usersFailing: set<Key>, u: Snapshot, user: Result<Option<Item>>, userId: string,
                        increment: int, s': Snapshot)
    requires Credited(usersFailing, u, user, userId, increment, s').resp.ScoreUpdated?
    ensures var e := Credited(usersFailing, u, user, userId, increment, s');
      && CounterBase(user, "score").Some?
      && e.resp.newScore == CounterBase(user, "score").value + increment
      && e.preds == s'
      && e.users == AfterUpdate(UT.KeySchema, usersFailing, u, UT.UserKey(userId), Counter("score", e.resp.newScore))
  {
  }

  /** `after` differs from `before` in `attr` at most. */
  ghost predicate OnlyChanged(before: Item, after: Item, attr: string)
  {
    forall a :: a != attr ==> (a in after <==> a in before) && (a in before ==> after[a] == before[a])
  }

  /** `update_user(user_id, {attr: n})` sets `attr` to `n` on an existing
      user the store does not fail on, changes nothing else on that row, and
      leaves every other user's row as it was. */
  lemma CounterUpdate(failing: set<Key>, u: Snapshot, userId: string, attr: string, n: int)
    requires attr != "user_id"
    ensures var key := UT.UserKey(userId);
      var r := AfterUpdate(UT.KeySchema, failing, u, key, Counter(attr, n));
      && (key in u.rows && key !in failing ==>
            key in r.rows && Attr(r.rows[key], attr) == Num(n) && OnlyChanged(u.rows[key], r.rows[key], attr))
      && (forall k :: k in u.rows && k != key ==> k in r.rows && r.rows[k] == u.rows[k])
  {
    var key := UT.UserKey(userId);
    if key in u.rows && key !in failing {
      assert SchemaSet(UT.KeySchema) == {"user_id"};
      assert !UpdateRejected(UT.KeySchema, failing, key, Counter(attr, n));
      assert attr in Counter(attr, n);
    }
  }

  /** The users table after `post_matches` has counted a submission:
      `prediction_counts` set to the value read plus one, or untouched when
      the read does not yield a number. */
  function CountedUsers(failing: set<Key>, u: Snapshot, user: Result<Option<Item>>, userId: string): Snapshot
  {
    match CounterBase(user, "prediction_counts")
    case None => u
    case Some(base) => AfterUpdate(UT.KeySchema, failing, u, UT.UserKey(userId), Counter("prediction_counts", base + 1))
  }

  /** Counting a submission of a stored user the store does not fail on adds
      one to that user's `prediction_counts` and changes nothing else. */
  lemma SubmissionCounted(failing: set<Key>, u: Snapshot, userId: string, n: int)
    requires UT.UserKey(userId) in u.rows && UT.UserKey(userId) !in failing
    requires CounterBase(Ok(Some(u.rows[UT.UserKey(userId)])), "prediction_counts") == Some(n)
    ensures var key := UT.UserKey(userId);
      var r := CountedUsers(failing, u, Ok(Some(u.rows[key])), userId);
      && key in r.rows && Attr(r.rows[key], "prediction_counts") == Num(n + 1)
      && OnlyChanged(u.rows[key], r.rows[key], "prediction_counts")
      && (forall k :: k in u.rows && k != key ==> k in r.rows && r.rows[k] == u.rows[k])
  {
    CounterUpdate(failing, u, userId, "prediction_counts", n + 1);
  }

  /** A failed read of the user counts as a zero score: the error dictionary
      has no `score`, so when the write goes through the stored score is
      overwritten by the bare increment, and nothing else on the row changes. */
  lemma LostReadOverwritesScore(usersFailing: set<Key>, u: Snapshot, msg: string, userId: string,
                                increment: int, s': Snapshot)
    requires UT.UserKey(userId) in u.rows && UT.UserKey(userId) !in usersFailing
    ensures var key := UT.UserKey(userId);
      var e := Credited(usersFailing, u, Err(msg), userId, increment, s');
      && e.resp == ScoreUpdated(increment)
      && key in e.users.rows && Attr(e.users.rows[key], "score") == Num(increment)
      && OnlyChanged(u.rows[key], e.users.rows[key], "score")
  {
    CounterUpdate(usersFailing, u, userId, "score", increment);
  }

  /** Likewise a failed read in `post_matches` resets `prediction_counts`
      to 1 when the write goes through. */
  lemma LostReadResetsCount(failing: set<Key>, u: Snapshot, msg: string, userId: string)
    requires UT.UserKey(userId) in u.rows && UT.UserKey(userId) !in failing
    ensures var key := UT.UserKey(userId);
      var r := CountedUsers(failing, u, Err(msg), userId);
      && key in r.rows && Attr(r.rows[key], "prediction_counts") == Num(1)
      && OnlyChanged(u.rows[key], r.rows[key], "prediction_counts")
  {
    CounterUpdate(failing, u, userId, "prediction_counts", 1);
  }

  // ---------------------------------------------------------------------
  // Submission: the pieces of `post_matches`
  // ---------------------------------------------------------------------

  /** The request fields copied unchanged into the stored record. */
  const CopiedFields: set<string> := {"home_team", "away_team", "home_team_flag", "away_team_flag", "match_date"}

  /** The `item` `post_matches` builds from the request body, or `None` when
      building it raises: a required field is missing or `prediction` is
      not a string. */
  function SubmissionItem(userId: string, data: map<string, Value>): (item: Option<Item>)
    ensures item.Some? <==> "match_id" in data && "prediction" in data && data["prediction"].Str? && CopiedFields <= data.Keys
    ensures item.Some? ==>
      var row := item.value;
      && "match_id" in row && row["match_id"] == Str(PyStr(data["match_id"]))
      && "user_id" in row && row["user_id"] == Str(userId)
      && "prediction" in row && row["prediction"] == Str(Upper(data["prediction"].s))
      && "counted" in row && row["counted"] == Bool(false)
      && "actual_outcome" in row && row["actual_outcome"] == Null
      && "isFinished" in row && row["isFinished"] == (if "isFinished" in data then data["isFinished"] else Bool(false))
  {
    if "match_id" in data && "prediction" in data && data["prediction"].Str? && CopiedFields <= data.Keys then
      Some(map["match_id" := Str(PyStr(data["match_id"])), "user_id" := Str(userId),
               "home_team" := data["home_team"], "away_team" := data["away_team"],
               "home_team_flag" := data["home_team_flag"], "away_team_flag" := data["away_team_flag"],
               "match_date" := data["match_date"],
               "isFinished" := if "isFinished" in data then data["isFinished"] else Bool(false),
               "counted" := Bool(false), "actual_outcome" := Null,
               "prediction" := Str(Upper(data["prediction"].s))])
    else None
  }

  /** The stored record holds exactly the copied match details and the
      fields the handler sets, and its prediction is already normalised: it
      holds no lower-case letter and upper-casing it again changes nothing. */
  lemma SubmissionFields(userId: string, data: map<string, Value>)
    requires SubmissionItem(userId, data).Some?
    ensures var row := SubmissionItem(userId, data).value;
      && row.Keys == CopiedFields + {"match_id", "user_id", "isFinished", "counted", "actual_outcome", "prediction"}
      && (forall f :: f in CopiedFields ==> row[f] == data[f])
      && var p := Upper(data["prediction"].s);
         && row["prediction"] == Str(p) && Upper(p) == p
         && forall i :: 0 <= i < |p| ==> !('a' <= p[i] <= 'z')
  {
    UpperIdempotent(data["prediction"].s);
    UpperHasNoLowerCase(data["prediction"].s);
  }

  /** The submission is stored under `(str(match_id), user_id)`, the key
      `update_record` addresses for the same match id. */
  lemma SubmissionKey(userId: string, data: map<string, Value>)
    requires SubmissionItem(userId, data).Some?
    ensures KeyOf(PT.KeySchema, SubmissionItem(userId, data).value) == PT.RecordKey(data["match_id"], userId)
  {
    var row := SubmissionItem(userId, data).value;
    var k, rk := KeyOf(PT.KeySchema, row), PT.RecordKey(data["match_id"], userId);
    assert SchemaSet(PT.KeySchema) == {"match_id", "user_id"};
    assert k.Keys == rk.Keys;
    assert k["match_id"] == rk["match_id"] && k["user_id"] == rk["user_id"];
  }

  /** A stored submission is what the evaluation later picks up: it is
      pending for its user, its id is a string, and when a finished match
      carries the id it named, that turn writes exactly this record and
      earns a point iff the upper-cased prediction is the outcome. */
  lemma SubmissionIsEvaluated(userId: string, data: map<string, Value>, m: Match)
    requires SubmissionItem(userId, data).Some?
    ensures var row := SubmissionItem(userId, data).value;
      && Holds(PT.UncountedFilter(userId), row)
      && MatchIds([row]).Some?
      && (SameMatch(Pair(m, row)) <==> PyStr(data["match_id"]) == IntToDecimal(m.id))
      && (data["match_id"].Num? ==> (SameMatch(Pair(m, row)) <==> data["match_id"].n == m.id))
      && (SameMatch(Pair(m, row)) ==>
            && WriteKey(Pair(m, row), userId) == KeyOf(PT.KeySchema, row)
            && (Correct(Pair(m, row)) <==> Upper(data["prediction"].s) == Outcome(m.winner)))
  {
    var row := SubmissionItem(userId, data).value;
    assert SchemaSet(PT.KeySchema) == {"match_id", "user_id"};
    assert [row][0] == row;
    if data["match_id"].Num? {
      IntToDecimalInjective(data["match_id"].n, m.id);
    }
  }

  /** Resubmitting a prediction for the same match replaces the stored
      record: the position in the scan order does not change and only the
      newer record remains under the key. */
  lemma ResubmissionReplaces(failing: set<Key>, s: Snapshot, userId: string, first: map<string, Value>, second: map<string, Value>)
    requires Indexed(s) && Keyed(PT.KeySchema, s)
    requires SubmissionItem(userId, first).Some? && SubmissionItem(userId, second).Some?
    requires PyStr(first["match_id"]) == PyStr(second["match_id"])
    requires PT.RecordKey(first["match_id"], userId) !in failing
    ensures var a := SubmissionItem(userId, first).value; var b := SubmissionItem(userId, second).value;
      var once := AfterPut(PT.KeySchema, failing, s, a);
      var twice := AfterPut(PT.KeySchema, failing, once, b);
      var key := PT.RecordKey(first["match_id"], userId);
      && twice.order == once.order && twice.rows == once.rows[key := b]
  {
    SubmissionKey(userId, first);
    SubmissionKey(userId, second);
    PT.RecordKeyOfString(first["match_id"], second["match_id"], userId);
    assert SchemaSet(PT.KeySchema) == {"match_id", "user_id"};
    PT.CreateRecordReplaces(failing, s, SubmissionItem(userId, first).value, SubmissionItem(userId, second).value);
  }

  // ---------------------------------------------------------------------
  // Sign-up and login: the pieces of `auth`
  // ---------------------------------------------------------------------

  /** The stored pin hash, as `check_password_hash` accepts it. */
  function PinHash(user: Item): (h: Option<string>)
    ensures h.Some? <==> Attr(user, "pin").Str?
    ensures h.Some? ==> Str(h.value) == user["pin"]
  {
    if "pin" in user && user["pin"].Str? then Some(user["pin"].s) else None
  }

  datatype PostResponse = PredictionCreated | PostError

  datatype AuthResponse = SignedUp(user: Item) | LoggedIn(user: Item) | InvalidPin | AuthError

  /** The records given to `get_matches_to_display`. */
  function AsRecords(rs: seq<Item>): (records: seq<Record>)
    ensures |records| == |rs| && forall i :: 0 <= i < |rs| ==> records[i] == Dict(rs[i])
  {
    seq(|rs|, i requires 0 <= i < |rs| => Dict(rs[i]))
  }

  /** The service: the two repositories over two distinct tables. */
  class Service {
    const records: PT.PredictionsManager
    const users: UT.UserManager

    ghost predicate Valid()
      reads this, records, records.table, users, users.table
    {
      records.Valid() && users.Valid() && records.table != users.table
    }

    constructor (records: PT.PredictionsManager, users: UT.UserManager)
      requires records.Valid() && users.Valid() && records.table != users.table
      ensures Valid() && this.records == records && this.users == users
    {
      this.records := records;
      this.users := users;
    }

    /** `evaluate_user_score`: proved equal to `Evaluation` on the tables'
        contents before the call. */
    method EvaluateUserScore(userId: string, finishedFor: string -> seq<Match>) returns (resp: EvalResponse)
      requires Valid()
      modifies records.table, users.table
      ensures Valid()
      ensures Evaluated(resp, records.table.Contents(), users.table.Contents()) ==
        Evaluation(records.table.failing, old(records.table.Contents()), records.table.pageSize,
                   users.table.failing, old(users.table.Contents()), old(users.GetUser(userId)), userId, finishedFor)
    {
      ghost var s, u := records.table.Contents(), users.table.Contents();
      ghost var user := users.GetUser(userId);
      var recs := records.GetRecordsToEvaluate(userId);
      ghost var e := Reconciliation(records.table.failing, s, users.table.failing, u, user, userId, recs, finishedFor);
      assert e == Evaluation(records.table.failing, s, records.table.pageSize, users.table.failing, u, user, userId, finishedFor);
      if |recs| == 0 {
        return NoUncounted;
      }
      var ids := MatchIds(recs);
      if ids.None? {
        return EvalError;
      }
      var finished := finishedFor(IdsParam(ids.value));
      if |finished| == 0 {
        return NoFinished;
      }
      ghost var ps := Pairs(finished, recs);
      assert e == Scoring(records.table.failing, s, users.table.failing, u, user, userId, ps);
      var crashed, increment := ScoreTurns(userId, finished, recs);
      if crashed {
        return EvalError;
      }
      assert users.GetUser(userId) == user;
      resp := CreditScore(userId, increment, records.table.Contents());
    }

    /** The end of `evaluate_user_score`: `SET score` to the stored score
        plus `increment`; a stored score that is not a number raises. */
    method CreditScore(userId: string, increment: int, ghost written: Snapshot) returns (resp: EvalResponse)
      requires Valid()
      modifies users.table
      ensures Valid()
      ensures Evaluated(resp, written, users.table.Contents()) ==
        Credited(users.table.failing, old(users.table.Contents()), old(users.GetUser(userId)), userId, increment, written)
    {
      ghost var u := users.table.Contents();
      var userRecord := users.GetUser(userId);
      ghost var e := Credited(users.table.failing, u, userRecord, userId, increment, written);
      var base := CounterBase(userRecord, "score");
      if base.Some? {
        var newScore := base.value + increment;
        assert e == Evaluated(ScoreUpdated(newScore), written,
          AfterUpdate(UT.KeySchema, users.table.failing, u, UT.UserKey(userId), Counter("score", newScore)));
        var _ := users.UpdateUser(userId, Counter("score", newScore));
        resp := ScoreUpdated(newScore);
      } else {
        assert e == Evaluated(EvalError, written, u);
        resp := EvalError;
      }
    }

    /** The nested loop of `evaluate_user_score` (`for match in
        matches_with_result`), stopping at the first turn that raises. */
    method ScoreTurns(userId: string, finished: seq<Match>, recs: seq<Item>) returns (crashed: bool, increment: int)
      requires Valid()
      modifies records.table
      ensures Valid()
      ensures var ps := Pairs(finished, recs); var k := FirstCrash(ps);
        && records.table.Contents() == Written(records.table.failing, old(records.table.Contents()), userId, ps[..k])
        && (crashed <==> k < |ps|)
        && (!crashed ==> increment == Hits(ps))
    {
      ghost var s := records.table.Contents();
      ghost var ps := Pairs(finished, recs);
      ghost var done: seq<Pair> := [];
      increment := 0;
      var i := 0;
      while i < |finished|
        invariant 0 <= i <= |finished|
        invariant Valid()
        invariant done == Pairs(finished[..i], recs) && NoCrash(done)
        invariant increment == Hits(done)
        invariant records.table.Contents() == Written(records.table.failing, s, userId, done)
      {
        ghost var row := Row(finished[i], recs);
        var crashedHere, gained := ScoreMatch(userId, finished[i], recs, done, s);
        if crashedHere {
          CrashInMatch(finished, recs, i, done);
          return true, increment;
        }
        MatchCompleted(finished, recs, i, done);
        increment := increment + gained;
        done := done + row;
        i := i + 1;
      }
      AllMatchesCompleted(finished, recs, done);
      crashed := false;
    }

    /** The inner loop (`for record in records`) for one finished match,
        after the turns `done`; `gained` is what it adds to `score_increment`. */
    method ScoreMatch(userId: string, game: Match, recs: seq<Item>, ghost done: seq<Pair>, ghost s: Snapshot)
      returns (crashed: bool, gained: int)
      requires Valid()
      requires records.table.Contents() == Written(records.table.failing, s, userId, done)
      modifies records.table
      ensures Valid()
      ensures var row := Row(game, recs); var k := FirstCrash(row);
        && records.table.Contents() == Written(records.table.failing, s, userId, done + row[..k])
        && (crashed <==> k < |row|)
        && (!crashed ==> gained == Hits(row))
    {
      ghost var row := Row(game, recs);
      var outcome := Outcome(game.winner);
      gained := 0;
      var j := 0;
      ghost var seen: seq<Pair> := [];
      assert done + seen == done;
      while j < |recs|
        invariant 0 <= j <= |recs| && seen == row[..j]
        invariant Valid()
        invariant NoCrash(seen) && gained == Hits(seen)
        invariant records.table.Contents() == Written(records.table.failing, s, userId, done + seen)
      {
        ghost var p := row[j];
        ghost var cur := records.table.Contents();
        var crashedHere, point := ScoreRecord(userId, game, recs[j], outcome, p);
        if crashedHere {
          CrashAfter(row, seen, j);
          return true, gained;
        }
        gained := gained + point;
        RecordCompleted(records.table.failing, s, userId, done, row, seen, j, outcome, cur, records.table.Contents());
        seen := seen + [p];
        j := j + 1;
      }
      assert seen == row;
      FirstCrashNone(row);
      crashed := false;
    }

    /** One turn of the inner loop: a record naming the match is compared
        with the actual outcome and marked as counted; one without a
        `prediction` raises. */
    method ScoreRecord(userId: string, game: Match, record: Item, outcome: string, ghost p: Pair)
      returns (crashed: bool, point: int)
      requires Valid() && p == Pair(game, record) && outcome == Outcome(game.winner)
      modifies records.table
      ensures Valid()
      ensures crashed <==> Crashes(p)
      ensures !crashed ==> point == (if Correct(p) then 1 else 0)
      ensures records.table.Contents() ==
        if SameMatch(p) && !crashed
        then AfterUpdate(PT.KeySchema, records.table.failing, old(records.table.Contents()), PT.RecordKey(Num(game.id), userId), EvalAttrs(outcome))
        else old(records.table.Contents())
    {
      point := 0;
      if PyStr(Attr(record, "match_id")) == IntToDecimal(game.id) {
        if "prediction" !in record {
          return true, 0;
        }
        if record["prediction"] == Str(outcome) {
          point := 1;
        }
        var response := records.UpdateRecord(Num(game.id), userId, EvalAttrs(outcome));
      }
      crashed := false;
    }

    /** `post_matches`: stores the submission unconditionally, then adds 1
        to the user's `prediction_counts` read just before. */
    method PostMatches(userId: string, data: map<string, Value>) returns (resp: PostResponse)
      requires Valid()
      modifies records.table, users.table
      ensures Valid()
      ensures SubmissionItem(userId, data).None? ==>
        resp == PostError && records.table.Contents() == old(records.table.Contents()) &&
        users.table.Contents() == old(users.table.Contents())
      ensures SubmissionItem(userId, data).Some? ==>
        && records.table.Contents() == AfterPut(PT.KeySchema, records.table.failing, old(records.table.Contents()), SubmissionItem(userId, data).value)
        && (resp == PredictionCreated <==> CounterBase(old(users.GetUser(userId)), "prediction_counts").Some?)
        && users.table.Contents() == CountedUsers(users.table.failing, old(users.table.Contents()), old(users.GetUser(userId)), userId)
    {
      var item := SubmissionItem(userId, data);
      if item.None? {
        return PostError;
      }
      ghost var u0 := users.table.Contents();
      var _ := records.CreateRecord(item.value);
      assert users.table.Contents() == u0;
      assert users.GetUser(userId) == old(users.GetUser(userId));
      var counted := CountSubmission(userId);
      resp := if counted then PredictionCreated else PostError;
    }

    /** The second half of `post_matches`: reads the user and writes back
        `prediction_counts + 1`; a read that does not yield a number fails. */
    method CountSubmission(userId: string) returns (counted: bool)
      requires Valid()
      modifies users.table
      ensures Valid()
      ensures counted <==> CounterBase(old(users.GetUser(userId)), "prediction_counts").Some?
      ensures users.table.Contents() == CountedUsers(users.table.failing, old(users.table.Contents()), old(users.GetUser(userId)), userId)
    {
      var userRecord := users.GetUser(userId);
      var base := CounterBase(userRecord, "prediction_counts");
      if base.Some? {
        var _ := users.UpdateUser(userId, Counter("prediction_counts", base.value + 1));
        counted := true;
      } else {
        counted := false;
      }
    }

    /** The create-or-login branching of `auth`. `freshId` is the id
        `create_user` draws, `hash` stands for `generate_password_hash` and
        `check` for `check_password_hash`. A missing username or pin makes
        the handler raise. */
    method Auth(username: Option<string>, pin: Option<string>, freshId: string,
                hash: string -> string, check: (string, string) -> bool) returns (resp: AuthResponse)
      requires Valid()
      modifies users.table
      ensures Valid()
      ensures username.None? ==> resp == AuthError && users.table.Contents() == old(users.table.Contents())
      ensures username.Some? && |old(users.CheckIfUserExists(username.value))| == 0 ==>
        if pin.None? then resp == AuthError && users.table.Contents() == old(users.table.Contents())
        else
          var newUser := UT.NewUser(freshId, username.value, hash(pin.value));
          && users.table.Contents() == AfterPut(UT.KeySchema, users.table.failing, old(users.table.Contents()), newUser)
          && (UT.UserKey(freshId) !in users.table.failing && UT.UserKey(freshId) !in users.table.readFailing ==>
                resp == SignedUp(newUser))
          && (UT.UserKey(freshId) in users.table.failing || UT.UserKey(freshId) in users.table.readFailing ==>
                resp == AuthError)
      ensures username.Some? && |old(users.CheckIfUserExists(username.value))| > 0 ==>
        var found := old(users.CheckIfUserExists(username.value))[0];
        && users.table.Contents() == old(users.table.Contents())
        && (PinHash(found).None? || pin.None? ==> resp == AuthError)
        && (PinHash(found).Some? && pin.Some? ==>
              resp == if check(PinHash(found).value, pin.value) then LoggedIn(found) else InvalidPin)
    {
      if username.None? {
        return AuthError;
      }
      var found := users.CheckIfUserExists(username.value);
      if |found| == 0 {
        if pin.None? {
          return AuthError;
        }
        var created := users.CreateUser(freshId, username.value, hash(pin.value));
        if created.Err? || created.value.None? {
          return AuthError;
        }
        return SignedUp(created.value.value);
      }
      var record := found[0];
      var stored := PinHash(record);
      if stored.None? || pin.None? {
        return AuthError;
      }
      if check(stored.value, pin.value) {
        return LoggedIn(record);
      }
      return InvalidPin;
    }

    /** `get_matches`: the upcoming matches, each tagged from the user's
        pending predictions. */
    method GetMatches(userId: string, scheduled: seq<Match>) returns (matches: seq<Match>)
      requires Valid()
      ensures var pending := AsRecords(PT.Drain(records.table.Contents(), records.table.pageSize, userId, 0));
        var timed := TimedMatches(scheduled);
        && |matches| == |timed|
        && forall i :: 0 <= i < |timed| ==>
             matches[i] == timed[i].(prediction := Some(TagFor(Lookup(pending), timed[i])))
    {
      var recs := records.GetRecordsToEvaluate(userId);
      matches := GetMatchesToDisplay(RecordList(AsRecords(recs)), scheduled);
    }
  }
}
