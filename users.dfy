/** The users repository: one row per user, keyed by `user_id`, holding the
    username, the pin hash, the number of predictions submitted and the score. */
module UsersTable {
  import opened Wrappers
  import opened Text
  import opened Store
  import opened Leaderboard

  const KeySchema: seq<string> := ["user_id"]

  /** The key `{'user_id': user_id}`. */
  function UserKey(userId: string): (k: Key)
    ensures k.Keys == SchemaSet(KeySchema)
  {
    assert SchemaSet(KeySchema) == {"user_id"};
    map["user_id" := Str(userId)]
  }

  /** `calculate_winning_rate`: `score / prediction_counts`, or 0 when the
      count is not positive (`score` is then never read); a boolean counts
      as 0 or 1, and the lookups and comparisons that raise become `Err`. */
  function WinningRate(user: Item): (r: Result<real>)
    ensures r.Ok? <==> (IntOf(Attr(user, "prediction_counts")).Some? &&
      (IntOf(Attr(user, "prediction_counts")).value > 0 ==> IntOf(Attr(user, "score")).Some?))
    ensures r.Ok? && IntOf(Attr(user, "prediction_counts")).value <= 0 ==> r.value == 0.0
  {
    var counts := IntOf(Attr(user, "prediction_counts"));
    if counts.None? then Err("cannot compare 'prediction_counts' with 0")
    else if counts.value <= 0 then Ok(0.0)
    else
      var score := IntOf(Attr(user, "score"));
      if score.None? then Err("cannot divide 'score'")
      else Ok(score.value as real / counts.value as real)
  }

  /** With a positive count the rate is the exact quotient; it lies in
      `[0, 1]` whenever the score does not exceed the count. */
  lemma WinningRateIsQuotient(user: Item)
    requires WinningRate(user).Ok? && IntOf(Attr(user, "prediction_counts")).value > 0
    ensures var c, sc := IntOf(Attr(user, "prediction_counts")).value, IntOf(Attr(user, "score")).value;
      && WinningRate(user).value * c as real == sc as real
      && (0 <= sc <= c ==> 0.0 <= WinningRate(user).value <= 1.0)
  {
    var c := IntOf(Attr(user, "prediction_counts")).value as real;
    var q := WinningRate(user).value;
    assert q * c == IntOf(Attr(user, "score")).value as real;
  }

  /** The tuple `(winning_rate, user["username"])` pushed for one user. */
  function EntryOf(user: Item): (r: Result<Entry>)
    ensures r.Ok? <==> WinningRate(user).Ok? && Attr(user, "username").Str?
    ensures r.Ok? ==> r.value.rate == WinningRate(user).value && r.value.name == Attr(user, "username").s
  {
    match WinningRate(user)
    case Err(e) => Err(e)
    case Ok(rate) =>
      if Attr(user, "username").Str? then Ok(Entry(rate, Attr(user, "username").s))
      else Err("KeyError: 'username'")
  }

  /** Every user can be ranked. */
  predicate AllRanked(users: seq<Item>)
  {
    forall i :: 0 <= i < |users| ==> EntryOf(users[i]).Ok?
  }

  /** The tuples of all users, in scan order. */
  function Entries(users: seq<Item>): (es: seq<Entry>)
    requires AllRanked(users)
    ensures |es| == |users|
    ensures forall i :: 0 <= i < |users| ==> EntryOf(users[i]) == Ok(es[i])
  {
    seq(|users|, i requires 0 <= i < |users| => EntryOf(users[i]).value)
  }

  /** Ranking two consecutive stretches of users ranks their union, and the
      tuples come out in the same order. */
  lemma RankedSplit(users: seq<Item>, n: nat, m: nat)
    requires n <= m <= |users|
    ensures AllRanked(users[..m]) <==> AllRanked(users[..n]) && AllRanked(users[n..m])
    ensures AllRanked(users[..m]) ==> Entries(users[..m]) == Entries(users[..n]) + Entries(users[n..m])
  {
    assert forall i :: 0 <= i < n ==> users[..m][i] == users[..n][i];
    assert forall i :: n <= i < m ==> users[..m][i] == users[n..m][i - n];
  }

  /** One more page of a fully ranked prefix: ranking it extends the prefix
      and its tuples; failing on it fails the whole table. */
  lemma PageRanked(all: seq<Item>, pos: nat, end: nat, seen: seq<Entry>)
    requires pos <= end <= |all| && AllRanked(all[..pos]) && seen == Entries(all[..pos])
    ensures AllRanked(all[pos..end]) ==> AllRanked(all[..end]) && Entries(all[..end]) == seen + Entries(all[pos..end])
    ensures !AllRanked(all[pos..end]) ==> !AllRanked(all)
  {
    RankedSplit(all, pos, end);
    RankedSplit(all, end, |all|);
    assert all[..|all|] == all;
  }

  /** The `for user in response['Items']` loop of `fetch_top_users`: offers
      each user's tuple to the heap, stopping at the first user that cannot
      be ranked. */
  method RankPage(users: seq<Item>, limit: int, top0: seq<Entry>, ghost seen0: seq<Entry>) returns (r: Result<seq<Entry>>)
    requires top0 == Heap(seen0, limit)
    ensures r.Ok? <==> AllRanked(users)
    ensures r.Ok? ==> r.value == Heap(seen0 + Entries(users), limit)
  {
    var top := top0;
    ghost var seen := seen0;
    var j := 0;
    while j < |users|
      invariant 0 <= j <= |users|
      invariant |seen| == |seen0| + j && seen[..|seen0|] == seen0
      invariant forall i :: 0 <= i < j ==> EntryOf(users[i]) == Ok(seen[|seen0| + i])
      invariant top == Heap(seen, limit)
    {
      var e := EntryOf(users[j]);
      if e.Err? {
        return Err(e.message);
      }
      if |top| < limit {
        top := top + [e.value];
      } else {
        var popped := PushPop(top, e.value);
        top := popped.0;
      }
      assert (seen + [e.value])[..|seen|] == seen;
      seen := seen + [e.value];
      j := j + 1;
    }
    assert seen == seen0 + Entries(users);
    r := Ok(top);
  }

  /** The row `create_user` stores. */
  function NewUser(userId: string, username: string, pinHash: string): (u: Item)
    ensures KeyOf(KeySchema, u) == UserKey(userId)
    ensures Attr(u, "username") == Str(Lower(username)) && Attr(u, "pin") == Str(pinHash)
    ensures Attr(u, "prediction_counts") == Num(0) && Attr(u, "score") == Num(0)
    ensures WinningRate(u) == Ok(0.0)
  {
    map["user_id" := Str(userId), "username" := Str(Lower(username)), "pin" := Str(pinHash),
        "prediction_counts" := Num(0), "score" := Num(0)]
  }

  /** The repository object; `table` is the users table. */
  class UserManager {
    const table: Table

    ghost predicate Valid()
      reads this, table
    {
      table.Valid() && table.schema == KeySchema
    }

    constructor (table: Table)
      requires table.Valid() && table.schema == KeySchema
      ensures Valid() && this.table == table
    {
      this.table := table;
    }

    /** `fetch_top_users`: scans every page, offers each user's tuple to a
        heap bounded by `limit`, and returns the heap sorted by rate, highest
        first. A user that cannot be ranked makes the call fail. */
    method FetchTopUsers(limit: int) returns (r: Result<seq<Entry>>)
      requires Valid()
      ensures r.Ok? <==> AllRanked(Listing(table.Contents()))
      ensures r.Ok? ==> IsTopK(r.value, Entries(Listing(table.Contents())), limit)
      ensures r.Ok? ==> RateNonIncreasing(r.value)
    {
      var ranked := RankTable(limit);
      if ranked.Err? {
        return Handled("fetch_top_users", Err(ranked.message));
      }
      ghost var seen := Entries(Listing(table.Contents()));
      var top := ranked.value;
      HeapIsTopK(seen, limit);
      var sorted := SortByRateDesc(top);
      TopKPermutation(top, sorted, seen, limit);
      r := Ok(Take(sorted, limit));
    }

    /** The paging loop of `fetch_top_users`: every page of the scan, in
        order, goes through the heap; it stops at the first user that cannot
        be ranked. */
    method RankTable(limit: int) returns (r: Result<seq<Entry>>)
      requires Valid()
      ensures r.Ok? <==> AllRanked(Listing(table.Contents()))
      ensures r.Ok? ==> r.value == Heap(Entries(Listing(table.Contents())), limit)
    {
      ghost var s := table.Contents();
      ghost var all := Listing(s);
      var top: seq<Entry> := [];
      ghost var seen: seq<Entry> := [];
      var start: Option<Key> := None;
      ghost var pos: nat := 0;
      while true
        invariant pos <= |s.order| && pos == StartPos(s.order, start)
        invariant AllRanked(all[..pos]) && seen == Entries(all[..pos])
        invariant top == Heap(seen, limit)
        decreases |s.order| - pos
      {
        ScanAdvances(s, table.pageSize, Any, pos);
        var response := table.Scan(Any, start);
        ghost var end := PageEnd(|s.order|, table.pageSize, pos);
        FilterAny(all[pos..end]);
        assert response.items == all[pos..end];
        var ranked := RankPage(response.items, limit, top, seen);
        PageRanked(all, pos, end, seen);
        if ranked.Err? {
          return Err(ranked.message);
        }
        top := ranked.value;
        seen := Entries(all[..end]);
        if response.cursor.None? {
          break;
        }
        start := response.cursor;
        pos := end;
      }
      assert all[..|all|] == all;
      r := Ok(top);
    }

    /** `create_user`: stores a fresh row under `userId` (the fresh id comes
        from outside), then reads it back with `get_user`. A failing read-back
        answers an error although the row has been stored. */
    method CreateUser(userId: string, username: string, pinHash: string) returns (r: Result<Option<Item>>)
      requires Valid()
      modifies table
      ensures Valid()
      ensures table.Contents() == AfterPut(KeySchema, table.failing, old(table.Contents()), NewUser(userId, username, pinHash))
      ensures r.Err? <==> UserKey(userId) in table.failing || UserKey(userId) in table.readFailing
      ensures r.Ok? ==> r.value == Some(NewUser(userId, username, pinHash))
    {
      var item := NewUser(userId, username, pinHash);
      var put := table.PutItem(item);
      if put.Err? {
        return Handled("create_user", Err(put.message));
      }
      r := GetUser(userId);
    }

    /** `get_user`: the row, `None` when absent, or the caught error. */
    function GetUser(userId: string): (r: Result<Option<Item>>)
      reads this, table
      requires Valid()
      ensures r.Err? <==> UserKey(userId) in table.readFailing
      ensures r.Ok? ==> (r.value.Some? <==> UserKey(userId) in table.rows)
      ensures r.Ok? && r.value.Some? ==> r.value.value == table.rows[UserKey(userId)]
    {
      Handled("get_user", table.GetItem(map["user_id" := Str(userId)]))
    }

    /** `check_if_user_exists`: one scan page filtered on the lower-cased
        username; rows past the first page are never looked at. */
    function CheckIfUserExists(username: string): (users: seq<Item>)
      reads this, table
      requires Valid()
      ensures forall u :: u in users ==> u in table.rows.Values && Attr(u, "username") == Str(Lower(username))
      ensures users == FirstPageMatches(table.Contents(), table.pageSize, username)
    {
      var c := Eq("username", Str(Lower(username)));
      var firstPage := Listing(table.Contents())[..PageEnd(|table.order|, table.pageSize, 0)];
      FilterMembers(c, firstPage);
      ListingValues(table.Contents());
      assert forall u :: u in firstPage ==> u in Listing(table.Contents());
      table.Scan(c, None).items
    }

    /** `update_user`: `SET` the given attributes on the user's row. */
    method UpdateUser(userId: string, attrs: map<string, Value>) returns (r: Result<()>)
      requires Valid()
      modifies table
      ensures Valid()
      ensures r.Err? <==> UpdateRejected(KeySchema, table.failing, UserKey(userId), attrs)
      ensures table.Contents() == AfterUpdate(KeySchema, table.failing, old(table.Contents()), UserKey(userId), attrs)
    {
      r := table.UpdateItem(map["user_id" := Str(userId)], attrs);
      r := Handled("update_user", r);
    }
  }

  /** The rows of the first scan page whose username is `username` lower-cased. */
  function FirstPageMatches(s: Snapshot, pageSize: nat, username: string): seq<Item>
    requires Indexed(s) && pageSize > 0
  {
    Filter(Eq("username", Str(Lower(username))), Listing(s)[..PageEnd(|s.order|, pageSize, 0)])
  }

  /** On a table that fits in one page the username lookup is complete. */
  lemma CheckIfUserExistsOnOnePage(s: Snapshot, pageSize: nat, username: string)
    requires Indexed(s) && pageSize > 0 && |s.order| <= pageSize
    ensures forall u :: u in FirstPageMatches(s, pageSize, username) <==>
      u in s.rows.Values && Attr(u, "username") == Str(Lower(username))
  {
    ListingValues(s);
    assert Listing(s)[..PageEnd(|s.order|, pageSize, 0)] == Listing(s);
    FilterMembers(Eq("username", Str(Lower(username))), Listing(s));
  }

  /** A user signed up under `name` is found again on a one-page table by any
      spelling of the name that lower-cases alike: the name itself, its
      stored lower-cased form and its upper-cased form among them. */
  lemma CreatedUserIsFound(failing: set<Key>, s: Snapshot, pageSize: nat, userId: string, name: string, pinHash: string)
    requires Indexed(s) && Keyed(KeySchema, s) && pageSize > 0 && UserKey(userId) !in failing
    requires |AfterPut(KeySchema, failing, s, NewUser(userId, name, pinHash)).order| <= pageSize
    ensures var t := AfterPut(KeySchema, failing, s, NewUser(userId, name, pinHash));
      && (forall query :: Lower(query) == Lower(name) ==>
            NewUser(userId, name, pinHash) in FirstPageMatches(t, pageSize, query))
      && NewUser(userId, name, pinHash) in FirstPageMatches(t, pageSize, Lower(name))
      && NewUser(userId, name, pinHash) in FirstPageMatches(t, pageSize, Upper(name))
  {
    var item := NewUser(userId, name, pinHash);
    var t := AfterPut(KeySchema, failing, s, item);
    assert SchemaSet(KeySchema) == {"user_id"};
    assert !PutRejected(KeySchema, failing, item);
    assert item in t.rows.Values by {
      assert t.rows[UserKey(userId)] == item;
    }
    forall query | Lower(query) == Lower(name)
      ensures item in FirstPageMatches(t, pageSize, query)
    {
      CheckIfUserExistsOnOnePage(t, pageSize, query);
    }
    LowerIdempotent(name);
    LowerIgnoresUpper(name);
  }
}
