/** The record store the two repositories sit on: a DynamoDB table seen as a
    map from keys to attribute maps, together with the order in which a scan
    visits the keys. A scan examines at most `pageSize` rows per call, applies
    its filter to those rows only, and hands back the key of the last row it
    examined as the continuation cursor. */
module Store {
  import opened Wrappers
  import Text

  /** An attribute value (string, number, boolean or null). */
  datatype Value = Str(s: string) | Num(n: int) | Bool(b: bool) | Null

  /** A stored item, a request payload or a key: attribute name to value. */
  type Item = map<string, Value>
  type Key = map<string, Value>

  /** `item.get(attr)`, with `Null` for a missing attribute. */
  function Attr(item: Item, attr: string): (v: Value)
    ensures attr in item ==> v == item[attr]
    ensures attr !in item ==> v == Null
  {
    if attr in item then item[attr] else Null
  }

  /** The integer Python's arithmetic and comparisons see in `v`: a number
      itself, a boolean as 0 or 1; `None` for a string or null, on which
      `+`, `/` and `>` raise. */
  function IntOf(v: Value): (n: Option<int>)
    ensures n.Some? <==> v.Num? || v.Bool?
    ensures v.Num? ==> n == Some(v.n)
    ensures v.Bool? ==> n == Some(if v.b then 1 else 0)
  {
    match v
    case Num(n) => Some(n)
    case Bool(b) => Some(if b then 1 else 0)
    case _ => None
  }

  /** Python's `str(v)`. */
  function PyStr(v: Value): (s: string)
    ensures v.Str? ==> s == v.s
    ensures v.Num? ==> s == Text.IntToDecimal(v.n)
  {
    match v
    case Str(s) => s
    case Num(n) => Text.IntToDecimal(n)
    case Bool(b) => if b then "True" else "False"
    case Null => "None"
  }

  /** The `dynamo_error_handler` decorator: an error raised inside the
      decorated operation comes back as `{"error": "Error occurred in <name>: ..."}`. */
  function Handled<T>(name: string, r: Result<T>): (h: Result<T>)
    ensures h.Ok? <==> r.Ok?
    ensures r.Ok? ==> h == r
  {
    match r
    case Ok(_) => r
    case Err(e) => Err("Error occurred in " + name + ": " + e)
  }

  /** A scan filter: `Attr(a).eq(v)`, `&`, or no filter at all. */
  datatype Cond = Any | Eq(attr: string, value: Value) | And(left: Cond, right: Cond)

  predicate Holds(c: Cond, item: Item)
  {
    match c
    case Any => true
    case Eq(a, v) => a in item && item[a] == v
    case And(l, r) => Holds(l, item) && Holds(r, item)
  }

  function SchemaSet(schema: seq<string>): set<string>
  {
    set a | a in schema
  }

  /** The key attributes of an item. */
  function KeyOf(schema: seq<string>, item: Item): (k: Key)
    ensures k.Keys == SchemaSet(schema) * item.Keys
    ensures forall a :: a in k ==> k[a] == item[a]
  {
    map a | a in schema && a in item :: item[a]
  }

  /** The contents of a table: scan order and rows. */
  datatype Snapshot = Snapshot(order: seq<Key>, rows: map<Key, Item>)

  ghost predicate Distinct(order: seq<Key>)
  {
    forall i, j :: 0 <= i < j < |order| ==> order[i] != order[j]
  }

  /** Every row appears exactly once in the scan order. */
  ghost predicate Indexed(s: Snapshot)
  {
    Distinct(s.order) && forall k :: k in s.rows <==> k in s.order
  }

  /** Every row is stored under its own key, and keys name exactly the key attributes. */
  ghost predicate Keyed(schema: seq<string>, s: Snapshot)
  {
    forall k :: k in s.rows ==> k.Keys == SchemaSet(schema) && KeyOf(schema, s.rows[k]) == k
  }

  function IndexOf(order: seq<Key>, k: Key): (i: nat)
    requires k in order
    ensures i < |order| && order[i] == k
  {
    if order[0] == k then 0 else 1 + IndexOf(order[1..], k)
  }

  lemma IndexOfDistinct(order: seq<Key>, j: nat)
    requires Distinct(order) && j < |order|
    ensures IndexOf(order, order[j]) == j
  {
  }

  /** Where a scan with `ExclusiveStartKey = start` begins: just after the
      start key, at the front when there is none; a start key that is not in
      the table is placed after every row. */
  function StartPos(order: seq<Key>, start: Option<Key>): (p: nat)
    ensures p <= |order|
  {
    match start
    case None => 0
    case Some(k) => if k in order then IndexOf(order, k) + 1 else |order|
  }

  /** One past the last row examined by a page that starts at `pos`. */
  function PageEnd(n: nat, pageSize: nat, pos: nat): nat
  {
    if pos + pageSize < n then pos + pageSize else n
  }

  /** The rows in scan order. */
  function Listing(s: Snapshot): (items: seq<Item>)
    requires Indexed(s)
    ensures |items| == |s.order|
    ensures forall i :: 0 <= i < |s.order| ==> items[i] == s.rows[s.order[i]]
  {
    seq(|s.order|, i requires 0 <= i < |s.order| => s.rows[s.order[i]])
  }

  /** Rows at two positions of the scan order differ, since each carries its own key. */
  lemma ListingDistinct(schema: seq<string>, s: Snapshot, i: nat, j: nat)
    requires Indexed(s) && Keyed(schema, s) && i < j < |s.order|
    ensures Listing(s)[i] != Listing(s)[j]
  {
    var ki, kj := s.order[i], s.order[j];
    assert ki in s.rows && kj in s.rows;
    assert KeyOf(schema, Listing(s)[i]) == ki && KeyOf(schema, Listing(s)[j]) == kj;
  }

  /** The row at position `i` appears nowhere from position `next` on. */
  lemma ListingLaterDiffers(schema: seq<string>, s: Snapshot, i: nat, next: nat)
    requires Indexed(s) && Keyed(schema, s) && i < next <= |s.order|
    ensures Listing(s)[i] !in Listing(s)[next..]
  {
    var rows := Listing(s);
    forall y | y in rows[next..]
      ensures y != rows[i]
    {
      var j :| 0 <= j < |rows| - next && rows[next..][j] == y;
      assert y == rows[next + j];
      ListingDistinct(schema, s, i, next + j);
    }
  }

  /** The listing holds exactly the stored rows. */
  lemma ListingValues(s: Snapshot)
    requires Indexed(s)
    ensures forall u :: u in Listing(s) <==> u in s.rows.Values
  {
    forall u | u in s.rows.Values ensures u in Listing(s) {
      var k :| k in s.rows && s.rows[k] == u;
      var i :| 0 <= i < |s.order| && s.order[i] == k;
      assert Listing(s)[i] == u;
    }
  }

  /** The items that satisfy a filter, in their original order. */
  function Filter(c: Cond, items: seq<Item>): (r: seq<Item>)
    ensures |r| <= |items|
  {
    if items == [] then []
    else (if Holds(c, items[0]) then [items[0]] else []) + Filter(c, items[1..])
  }

  /** A filter keeps exactly the items that satisfy it. */
  lemma {:induction false} FilterMembers(c: Cond, items: seq<Item>)
    ensures forall x :: x in Filter(c, items) <==> x in items && Holds(c, x)
  {
    if items != [] {
      FilterMembers(c, items[1..]);
      assert items == [items[0]] + items[1..];
    }
  }

  lemma {:induction false} FilterAny(items: seq<Item>)
    ensures Filter(Any, items) == items
  {
    if items != [] {
      FilterAny(items[1..]);
      assert items == [items[0]] + items[1..];
    }
  }

  /** The result of one `scan` call. */
  datatype Page = Page(items: seq<Item>, cursor: Option<Key>)

  /** One page of a filtered scan beginning at position `pos`. */
  function ScanPage(s: Snapshot, pageSize: nat, c: Cond, pos: nat): Page
    requires Indexed(s) && pageSize > 0 && pos <= |s.order|
  {
    var end := PageEnd(|s.order|, pageSize, pos);
    Page(Filter(c, Listing(s)[pos..end]),
         if end < |s.order| then Some(s.order[end - 1]) else None)
  }

  /** A page either reaches the end of the table, or its cursor is a row key
      from which the next scan starts strictly further on. */
  lemma ScanAdvances(s: Snapshot, pageSize: nat, c: Cond, pos: nat)
    requires Indexed(s) && pageSize > 0 && pos <= |s.order|
    ensures var p := ScanPage(s, pageSize, c, pos);
      && (p.cursor.None? <==> PageEnd(|s.order|, pageSize, pos) == |s.order|)
      && (p.cursor.Some? ==>
            && p.cursor.value in s.rows
            && pos < StartPos(s.order, p.cursor) == PageEnd(|s.order|, pageSize, pos) < |s.order|)
  {
    var end := PageEnd(|s.order|, pageSize, pos);
    if end < |s.order| {
      IndexOfDistinct(s.order, end - 1);
    }
  }

  /** DynamoDB refuses a put whose item lacks a key attribute; the environment
      fails calls on the keys in `failing`. */
  predicate PutRejected(schema: seq<string>, failing: set<Key>, item: Item)
  {
    !(SchemaSet(schema) <= item.Keys) || KeyOf(schema, item) in failing
  }

  /** DynamoDB refuses an update whose key does not name exactly the key
      attributes, whose `SET` list is empty, or which sets a key attribute. */
  predicate UpdateRejected(schema: seq<string>, failing: set<Key>, key: Key, attrs: map<string, Value>)
  {
    key.Keys != SchemaSet(schema) || attrs == map[] || !(attrs.Keys !! SchemaSet(schema)) || key in failing
  }

  /** Stores `item` under `k`; a new key goes to the end of the scan order. */
  function Placed(s: Snapshot, k: Key, item: Item): Snapshot
  {
    Snapshot(if k in s.rows then s.order else s.order + [k], s.rows[k := item])
  }

  /** `SET a = :a, ...` on the row at `key`, or on a new row that holds only the key. */
  function Upserted(s: Snapshot, key: Key, attrs: map<string, Value>): Item
  {
    (if key in s.rows then s.rows[key] else key) + attrs
  }

  lemma KeyOfKey(schema: seq<string>, key: Key)
    requires key.Keys == SchemaSet(schema)
    ensures KeyOf(schema, key) == key
  {
  }

  lemma KeyOfMerge(schema: seq<string>, base: Item, attrs: map<string, Value>)
    requires attrs.Keys !! SchemaSet(schema)
    ensures KeyOf(schema, base + attrs) == KeyOf(schema, base)
  {
  }

  /** The table after `put_item(Item=item)`: an unconditional replace. */
  function AfterPut(schema: seq<string>, failing: set<Key>, s: Snapshot, item: Item): (r: Snapshot)
    ensures Indexed(s) && Keyed(schema, s) ==> Indexed(r) && Keyed(schema, r)
    ensures !PutRejected(schema, failing, item) ==>
      var k := KeyOf(schema, item);
      k in r.rows && r.rows[k] == item && forall k' :: k' != k ==> (k' in r.rows <==> k' in s.rows)
    ensures forall k' :: k' in s.rows && (PutRejected(schema, failing, item) || k' != KeyOf(schema, item)) ==>
      k' in r.rows && r.rows[k'] == s.rows[k']
  {
    if PutRejected(schema, failing, item) then s
    else
      var k := KeyOf(schema, item);
      assert KeyOf(schema, k) == k by { KeyOfKey(schema, k); }
      Placed(s, k, item)
  }

  /** The table after `update_item(Key=key, SET attrs)`. */
  function AfterUpdate(schema: seq<string>, failing: set<Key>, s: Snapshot, key: Key, attrs: map<string, Value>): (r: Snapshot)
    ensures Indexed(s) && Keyed(schema, s) ==> Indexed(r) && Keyed(schema, r)
  {
    if UpdateRejected(schema, failing, key, attrs) then s
    else
      var item := Upserted(s, key, attrs);
      assert Keyed(schema, s) ==> KeyOf(schema, item) == key by {
        if Keyed(schema, s) {
          KeyOfMerge(schema, if key in s.rows then s.rows[key] else key, attrs);
          if key !in s.rows { KeyOfKey(schema, key); }
        }
      }
      Placed(s, key, item)
  }

  /** What an update does: an accepted update sets exactly `attrs` on the
      row at `key` (creating it, holding only the key, when absent) and keeps
      its other attributes; a rejected one changes nothing; no other row
      changes and no other row appears. */
  lemma UpdateEffect(schema: seq<string>, failing: set<Key>, s: Snapshot, key: Key, attrs: map<string, Value>)
    ensures var r := AfterUpdate(schema, failing, s, key, attrs);
      && (!UpdateRejected(schema, failing, key, attrs) ==> key in r.rows && r.rows[key] == Upserted(s, key, attrs))
      && (forall k' :: k' in s.rows && (UpdateRejected(schema, failing, key, attrs) || k' != key) ==>
            k' in r.rows && r.rows[k'] == s.rows[k'])
      && (forall k' :: k' in r.rows ==> k' in s.rows || (k' == key && !UpdateRejected(schema, failing, key, attrs)))
      && (!UpdateRejected(schema, failing, key, attrs) && key in s.rows ==>
            forall a :: (a in attrs ==> a in r.rows[key] && r.rows[key][a] == attrs[a]) &&
              (a !in attrs ==> (a in r.rows[key] <==> a in s.rows[key]) && (a in s.rows[key] ==> r.rows[key][a] == s.rows[key][a])))
  {
  }

  /** A DynamoDB table. The constants `failing` and `readFailing` stand for
      the environment: every put or update addressed to a key in `failing`
      raises, and so does every get addressed to a key in `readFailing`. The
      two are independent, so a read can fail while a write to the same key
      goes through, and the other way round. */
  class Table {
    const schema: seq<string>
    const pageSize: nat
    const failing: set<Key>
    const readFailing: set<Key>
    var order: seq<Key>
    var rows: map<Key, Item>

    function Contents(): Snapshot
      reads this
    {
      Snapshot(order, rows)
    }

    ghost predicate Valid()
      reads this
    {
      pageSize > 0 && |schema| > 0 && Indexed(Contents()) && Keyed(schema, Contents())
    }

    constructor (schema: seq<string>, pageSize: nat, failing: set<Key>, readFailing: set<Key>)
      requires pageSize > 0 && |schema| > 0
      ensures Valid() && Contents() == Snapshot([], map[])
      ensures this.schema == schema && this.pageSize == pageSize
      ensures this.failing == failing && this.readFailing == readFailing
    {
      this.schema, this.pageSize, this.failing, this.readFailing := schema, pageSize, failing, readFailing;
      order, rows := [], map[];
    }

    /** `scan(FilterExpression=c, ExclusiveStartKey=start)`. */
    function Scan(c: Cond, start: Option<Key>): (p: Page)
      reads this
      requires Valid()
      ensures forall x :: x in p.items ==> Holds(c, x)
      ensures p.cursor.Some? ==> p.cursor.value in rows
    {
      var pos := StartPos(order, start);
      ScanAdvances(Contents(), pageSize, c, pos);
      FilterMembers(c, Listing(Contents())[pos..PageEnd(|order|, pageSize, pos)]);
      ScanPage(Contents(), pageSize, c, pos)
    }

    /** `get_item(Key=key)`: the row, `None` when absent, or the caught error. */
    function GetItem(key: Key): (r: Result<Option<Item>>)
      reads this
      ensures r.Err? <==> key.Keys != SchemaSet(schema) || key in readFailing
      ensures r.Ok? ==> (r.value.Some? <==> key in rows)
      ensures r.Ok? && r.value.Some? ==> r.value.value == rows[key]
    {
      if key.Keys != SchemaSet(schema) then Err("ValidationException: key does not match the schema")
      else if key in readFailing then Err("store unavailable")
      else if key in rows then Ok(Some(rows[key]))
      else Ok(None)
    }

    /** `put_item(Item=item)`. */
    method PutItem(item: Item) returns (r: Result<()>)
      requires Valid()
      modifies this
      ensures Valid()
      ensures r.Err? <==> PutRejected(schema, failing, item)
      ensures Contents() == AfterPut(schema, failing, old(Contents()), item)
    {
      if !(SchemaSet(schema) <= item.Keys) {
        return Err("ValidationException: missing key attribute");
      }
      var k := KeyOf(schema, item);
      if k in failing {
        return Err("store unavailable");
      }
      var after := AfterPut(schema, failing, Contents(), item);
      order, rows := after.order, after.rows;
      r := Ok(());
    }

    /** `update_item(Key=key, UpdateExpression="SET a = :a, ...")`. */
    method UpdateItem(key: Key, attrs: map<string, Value>) returns (r: Result<()>)
      requires Valid()
      modifies this
      ensures Valid()
      ensures r.Err? <==> UpdateRejected(schema, failing, key, attrs)
      ensures Contents() == AfterUpdate(schema, failing, old(Contents()), key, attrs)
    {
      if key.Keys != SchemaSet(schema) || attrs == map[] || !(attrs.Keys !! SchemaSet(schema)) {
        return Err("ValidationException: invalid update");
      }
      if key in failing {
        return Err("store unavailable");
      }
      var after := AfterUpdate(schema, failing, Contents(), key, attrs);
      order, rows := after.order, after.rows;
      r := Ok(());
    }
  }
}
