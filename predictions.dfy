/** The prediction repository: prediction records keyed by
    `(match_id, user_id)`, written by submission and evaluation, and read back
    by two filtered scans. */
module PredictionsTable {
  import opened Wrappers
  import opened Store

  const KeySchema: seq<string> := ["match_id", "user_id"]

  /** `Attr('user_id').eq(user_id)`. */
  function UserFilter(userId: string): Cond
  {
    Eq("user_id", Str(userId))
  }

  /** `Attr('counted').eq(False) & Attr('user_id').eq(user_id)`. */
  function UncountedFilter(userId: string): Cond
  {
    And(Eq("counted", Bool(false)), Eq("user_id", Str(userId)))
  }

  /** The key `update_record` addresses: the match id coerced to a string. */
  function RecordKey(matchId: Value, userId: string): (k: Key)
    ensures k.Keys == SchemaSet(KeySchema)
  {
    assert SchemaSet(KeySchema) == {"match_id", "user_id"};
    map["match_id" := Str(PyStr(matchId)), "user_id" := Str(userId)]
  }

  /** Two match ids that print alike address the same record. */
  lemma RecordKeyOfString(a: Value, b: Value, userId: string)
    requires PyStr(a) == PyStr(b)
    ensures RecordKey(a, userId) == RecordKey(b, userId)
  {
  }

  /** A put over an existing key keeps the row's place in the scan order and
      leaves only the newer record there. */
  lemma CreateRecordReplaces(failing: set<Key>, s: Snapshot, a: Item, b: Item)
    requires !PutRejected(KeySchema, failing, a)
    requires SchemaSet(KeySchema) <= b.Keys && KeyOf(KeySchema, b) == KeyOf(KeySchema, a)
    ensures var once := AfterPut(KeySchema, failing, s, a);
      var twice := AfterPut(KeySchema, failing, once, b);
      twice.order == once.order && twice.rows == once.rows[KeyOf(KeySchema, a) := b]
  {
  }

  /** Python truthiness of a cursor: present and not an empty dictionary. */
  predicate Truthy(cursor: Option<Key>)
  {
    cursor.Some? && cursor.value != map[]
  }

  /** The scan loop goes on after a page whose cursor belongs to another user. */
  predicate KeepScanning(cursor: Option<Key>, userId: string)
  {
    Truthy(cursor) && Attr(cursor.value, "user_id") != Str(userId)
  }

  /** Where the first scan of `_scan_with_filter` begins: a falsy start key is ignored. */
  function EntryPos(order: seq<Key>, start: Option<Key>): (p: nat)
    ensures p <= |order|
  {
    if Truthy(start) then StartPos(order, start) else 0
  }

  /** The loop of `_scan_with_filter` from position `pos`: the page it
      finally returns. */
  function ScanLoop(s: Snapshot, pageSize: nat, c: Cond, userId: string, pos: nat): Page
    requires Indexed(s) && pageSize > 0 && pos <= |s.order|
    decreases |s.order| - pos
  {
    ScanAdvances(s, pageSize, c, pos);
    var page := ScanPage(s, pageSize, c, pos);
    if KeepScanning(page.cursor, userId) then ScanLoop(s, pageSize, c, userId, StartPos(s.order, page.cursor))
    else page
  }

  /** The position of the page that ends the scan loop. */
  function FinalPagePos(s: Snapshot, pageSize: nat, c: Cond, userId: string, pos: nat): (q: nat)
    requires Indexed(s) && pageSize > 0 && pos <= |s.order|
    ensures pos <= q <= |s.order|
    decreases |s.order| - pos
  {
    ScanAdvances(s, pageSize, c, pos);
    var page := ScanPage(s, pageSize, c, pos);
    if KeepScanning(page.cursor, userId) then FinalPagePos(s, pageSize, c, userId, StartPos(s.order, page.cursor))
    else pos
  }

  /** `_scan_with_filter` returns exactly one page, the last one it scanned:
      its items and its cursor, and nothing from the pages before it. */
  lemma {:induction false} ScanLoopReturnsFinalPage(s: Snapshot, pageSize: nat, c: Cond, userId: string, pos: nat)
    requires Indexed(s) && pageSize > 0 && pos <= |s.order|
    ensures ScanLoop(s, pageSize, c, userId, pos) == ScanPage(s, pageSize, c, FinalPagePos(s, pageSize, c, userId, pos))
    decreases |s.order| - pos
  {
    ScanAdvances(s, pageSize, c, pos);
    var page := ScanPage(s, pageSize, c, pos);
    if KeepScanning(page.cursor, userId) {
      ScanLoopReturnsFinalPage(s, pageSize, c, userId, StartPos(s.order, page.cursor));
    }
  }

  /** The loop stops only when the cursor is absent (or falsy) or belongs to
      the user the scan filters on. */
  lemma {:induction false} ScanLoopExit(s: Snapshot, pageSize: nat, c: Cond, userId: string, pos: nat)
    requires Indexed(s) && pageSize > 0 && pos <= |s.order|
    ensures var p := ScanLoop(s, pageSize, c, userId, pos);
      !Truthy(p.cursor) || Attr(p.cursor.value, "user_id") == Str(userId)
    decreases |s.order| - pos
  {
    ScanAdvances(s, pageSize, c, pos);
    var page := ScanPage(s, pageSize, c, pos);
    if KeepScanning(page.cursor, userId) {
      ScanLoopExit(s, pageSize, c, userId, StartPos(s.order, page.cursor));
    }
  }

  /** Every returned item satisfies the filter and lies at or after `pos`;
      a returned cursor is a row key from which the next scan starts further on. */
  lemma {:induction false} ScanLoopItems(s: Snapshot, pageSize: nat, c: Cond, userId: string, pos: nat)
    requires Indexed(s) && pageSize > 0 && pos <= |s.order|
    ensures var p := ScanLoop(s, pageSize, c, userId, pos);
      && (forall x :: x in p.items ==> Holds(c, x) && x in Listing(s)[pos..])
      && (p.cursor.Some? ==> p.cursor.value in s.rows && pos < StartPos(s.order, p.cursor))
    decreases |s.order| - pos
  {
    ScanAdvances(s, pageSize, c, pos);
    var page := ScanPage(s, pageSize, c, pos);
    if KeepScanning(page.cursor, userId) {
      var next := StartPos(s.order, page.cursor);
      ScanLoopItems(s, pageSize, c, userId, next);
      assert Listing(s)[next..] == Listing(s)[pos..][next - pos..];
    } else {
      var end := PageEnd(|s.order|, pageSize, pos);
      FilterMembers(c, Listing(s)[pos..end]);
      assert Listing(s)[pos..end] == Listing(s)[pos..][..end - pos];
    }
  }

  /** Rows examined by a page that the loop skips (its cursor belonged to
      another user) are lost: none of them is returned, even when it matches
      the filter. */
  lemma SkippedPageIsLost(schema: seq<string>, s: Snapshot, pageSize: nat, c: Cond, userId: string, pos: nat, i: nat)
    requires Indexed(s) && Keyed(schema, s) && pageSize > 0 && pos <= i < PageEnd(|s.order|, pageSize, pos)
    requires KeepScanning(ScanPage(s, pageSize, c, pos).cursor, userId)
    ensures Listing(s)[i] !in ScanLoop(s, pageSize, c, userId, pos).items
  {
    ScanAdvances(s, pageSize, c, pos);
    var next := StartPos(s.order, ScanPage(s, pageSize, c, pos).cursor);
    var loop := ScanLoop(s, pageSize, c, userId, next);
    assert ScanLoop(s, pageSize, c, userId, pos) == loop;
    ScanLoopItems(s, pageSize, c, userId, next);
    ListingLaterDiffers(schema, s, i, next);
  }

  /** The loop of `get_records_to_evaluate`: the concatenation of successive
      `_scan_with_filter` results, until a result carries no cursor. */
  function Drain(s: Snapshot, pageSize: nat, userId: string, pos: nat): seq<Item>
    requires Indexed(s) && pageSize > 0 && pos <= |s.order|
    decreases |s.order| - pos
  {
    var p := ScanLoop(s, pageSize, UncountedFilter(userId), userId, pos);
    ScanLoopItems(s, pageSize, UncountedFilter(userId), userId, pos);
    if Truthy(p.cursor) then p.items + Drain(s, pageSize, userId, StartPos(s.order, p.cursor))
    else p.items
  }

  /** Every record `get_records_to_evaluate` returns is a stored row, at or
      after `pos`, that passes the uncounted filter. */
  lemma {:induction false} DrainIsFiltered(s: Snapshot, pageSize: nat, userId: string, pos: nat)
    requires Indexed(s) && pageSize > 0 && pos <= |s.order|
    ensures forall r :: r in Drain(s, pageSize, userId, pos) ==>
      r in Listing(s)[pos..] && Holds(UncountedFilter(userId), r)
    decreases |s.order| - pos
  {
    var p := ScanLoop(s, pageSize, UncountedFilter(userId), userId, pos);
    ScanLoopItems(s, pageSize, UncountedFilter(userId), userId, pos);
    if Truthy(p.cursor) {
      var next := StartPos(s.order, p.cursor);
      DrainIsFiltered(s, pageSize, userId, next);
      var rest := Drain(s, pageSize, userId, next);
      assert Drain(s, pageSize, userId, pos) == p.items + rest;
      assert Listing(s)[next..] == Listing(s)[pos..][next - pos..];
      forall r | r in rest ensures r in Listing(s)[pos..] {
        assert r in Listing(s)[pos..][next - pos..];
      }
    }
  }

  /** The records of `get_records_to_evaluate` all have `counted == False` and
      `user_id == user_id`. */
  lemma DrainIsUncounted(s: Snapshot, pageSize: nat, userId: string)
    requires Indexed(s) && pageSize > 0
    ensures forall r :: r in Drain(s, pageSize, userId, 0) ==>
      r in s.rows.Values && Attr(r, "counted") == Bool(false) && Attr(r, "user_id") == Str(userId)
  {
    DrainIsFiltered(s, pageSize, userId, 0);
    forall r | r in Drain(s, pageSize, userId, 0)
      ensures r in s.rows.Values
    {
      assert r in Listing(s)[0..];
      var i :| 0 <= i < |s.order| && Listing(s)[i] == r;
      assert s.order[i] in s.rows;
    }
    forall r | r in Drain(s, pageSize, userId, 0)
      ensures Attr(r, "counted") == Bool(false) && Attr(r, "user_id") == Str(userId)
    {
      assert Holds(Eq("counted", Bool(false)), r) && Holds(Eq("user_id", Str(userId)), r);
    }
  }

  /** One turn of the loop of `get_records_to_evaluate`: the drain from
      `pos` is the page fetched there, then (if it carries a cursor) the drain
      from that cursor on. */
  lemma DrainStep(s: Snapshot, pageSize: nat, userId: string, pos: nat, fetched: seq<Item>, next: Option<Key>)
    requires Indexed(s) && pageSize > 0 && pos <= |s.order|
    requires Page(fetched, next) == ScanLoop(s, pageSize, UncountedFilter(userId), userId, pos)
    ensures !Truthy(next) ==> Drain(s, pageSize, userId, pos) == fetched
    ensures Truthy(next) ==>
      && pos < EntryPos(s.order, next)
      && Drain(s, pageSize, userId, pos) == fetched + Drain(s, pageSize, userId, EntryPos(s.order, next))
  {
    ScanLoopItems(s, pageSize, UncountedFilter(userId), userId, pos);
  }

  /** The loop invariant of `get_records_to_evaluate` survives one turn: what
      is gathered so far plus the drain still ahead is the whole drain. */
  lemma DrainLoopStep(s: Snapshot, pageSize: nat, userId: string, records: seq<Item>, pos: nat, fetched: seq<Item>, next: Option<Key>, total: seq<Item>)
    requires Indexed(s) && pageSize > 0 && pos <= |s.order|
    requires Page(fetched, next) == ScanLoop(s, pageSize, UncountedFilter(userId), userId, pos)
    requires records + Drain(s, pageSize, userId, pos) == total
    ensures !Truthy(next) ==> records + fetched == total
    ensures Truthy(next) ==> pos < EntryPos(s.order, next) && (records + fetched) + Drain(s, pageSize, userId, EntryPos(s.order, next)) == total
  {
    DrainStep(s, pageSize, userId, pos, fetched, next);
    if Truthy(next) {
      var rest := Drain(s, pageSize, userId, EntryPos(s.order, next));
      assert total == records + (fetched + rest);
      assert records + (fetched + rest) == (records + fetched) + rest;
    } else {
      assert total == records + fetched;
    }
  }

  /** When the table fits in one page nothing is lost: the result is every
      uncounted record of the user, in scan order. */
  lemma SinglePageDrain(s: Snapshot, pageSize: nat, userId: string)
    requires Indexed(s) && |s.order| <= pageSize && pageSize > 0
    ensures Drain(s, pageSize, userId, 0) == Filter(UncountedFilter(userId), Listing(s))
  {
    assert Listing(s)[0..|s.order|] == Listing(s);
  }

  /** The repository object; `table` is the predictions table. */
  class PredictionsManager {
    const table: Table

    ghost predicate Valid()
      reads this, table
    {
      table.Valid() && table.schema == KeySchema
    }

    constructor (table: Table)
      requires table.Valid() && table.schema == KeySchema
      ensures Valid() && this.table == table
    {
      this.table := table;
    }

    /** `_scan_with_filter`: scans until the cursor is absent or belongs to
        `userId`, and returns the last page only. */
    method ScanWithFilter(userId: string, filter: Cond, start: Option<Key>) returns (items: seq<Item>, cursor: Option<Key>)
      requires Valid()
      ensures Page(items, cursor) == ScanLoop(table.Contents(), table.pageSize, filter, userId, EntryPos(table.order, start))
    {
      ghost var s := table.Contents();
      ghost var target := ScanLoop(s, table.pageSize, filter, userId, EntryPos(table.order, start));
      // Accumulated as `_scan_with_filter` does, but never returned.
      var records: seq<Item> := [];
      var lastKey := start;
      var startKey: Option<Key> := None;
      var response := Page([], None);
      while true
        invariant startKey == None || Truthy(startKey)
        invariant ScanLoop(s, table.pageSize, filter, userId, EntryPos(s.order, if Truthy(lastKey) then lastKey else startKey)) == target
        decreases |s.order| - EntryPos(s.order, if Truthy(lastKey) then lastKey else startKey)
      {
        if Truthy(lastKey) {
          startKey := lastKey;
        }
        ghost var pos := StartPos(s.order, startKey);
        ScanAdvances(s, table.pageSize, filter, pos);
        response := table.Scan(filter, startKey);
        records := records + response.items;
        lastKey := response.cursor;
        if KeepScanning(lastKey, userId) {
          continue;
        }
        break;
      }
      items, cursor := response.items, response.cursor;
    }

    /** `create_record`: an unconditional put. */
    method CreateRecord(item: Item) returns (r: Result<()>)
      requires Valid()
      modifies table
      ensures Valid()
      ensures r.Err? <==> PutRejected(KeySchema, table.failing, item)
      ensures table.Contents() == AfterPut(KeySchema, table.failing, old(table.Contents()), item)
    {
      r := table.PutItem(item);
      r := Handled("create_record", r);
    }

    /** `update_record`: `SET` the given attributes on `(str(match_id), user_id)`. */
    method UpdateRecord(matchId: Value, userId: string, attrs: map<string, Value>) returns (r: Result<()>)
      requires Valid()
      modifies table
      ensures Valid()
      ensures r.Err? <==> UpdateRejected(KeySchema, table.failing, RecordKey(matchId, userId), attrs)
      ensures table.Contents() == AfterUpdate(KeySchema, table.failing, old(table.Contents()), RecordKey(matchId, userId), attrs)
    {
      var matchIdStr := PyStr(matchId);
      r := table.UpdateItem(map["match_id" := Str(matchIdStr), "user_id" := Str(userId)], attrs);
      r := Handled("update_record", r);
    }

    /** `get_records_by_user`: one `_scan_with_filter` call on `user_id`. */
    method GetRecordsByUser(userId: string, start: Option<Key>) returns (records: seq<Item>, cursor: Option<Key>)
      requires Valid()
      ensures Page(records, cursor) == ScanLoop(table.Contents(), table.pageSize, UserFilter(userId), userId, EntryPos(table.order, start))
      ensures forall r :: r in records ==> Attr(r, "user_id") == Str(userId)
      ensures !Truthy(cursor) || Attr(cursor.value, "user_id") == Str(userId)
    {
      records, cursor := ScanWithFilter(userId, UserFilter(userId), start);
      ScanLoopItems(table.Contents(), table.pageSize, UserFilter(userId), userId, EntryPos(table.order, start));
      ScanLoopExit(table.Contents(), table.pageSize, UserFilter(userId), userId, EntryPos(table.order, start));
    }

    /** `get_records_to_evaluate`: repeats `_scan_with_filter` on the
        uncounted filter until it returns no cursor. */
    method GetRecordsToEvaluate(userId: string) returns (records: seq<Item>)
      requires Valid()
      ensures records == Drain(table.Contents(), table.pageSize, userId, 0)
      ensures forall r :: r in records ==>
        r in table.rows.Values && Attr(r, "counted") == Bool(false) && Attr(r, "user_id") == Str(userId)
    {
      ghost var s := table.Contents();
      ghost var ps := table.pageSize;
      ghost var total := Drain(s, ps, userId, 0);
      records := [];
      var lastKey: Option<Key> := None;
      while true
        invariant lastKey == None || Truthy(lastKey)
        invariant records + Drain(s, ps, userId, EntryPos(s.order, lastKey)) == total
        decreases |s.order| - EntryPos(s.order, lastKey)
      {
        ghost var pos := EntryPos(s.order, lastKey);
        var fetched, next := ScanWithFilter(userId, UncountedFilter(userId), lastKey);
        assert Page(fetched, next) == ScanLoop(s, ps, UncountedFilter(userId), userId, pos);
        DrainLoopStep(s, ps, userId, records, pos, fetched, next, total);
        records := records + fetched;
        lastKey := next;
        if !Truthy(lastKey) {
          break;
        }
      }
      DrainIsUncounted(s, table.pageSize, userId);
    }
  }
}
