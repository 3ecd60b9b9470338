/** The leaderboard arithmetic of `fetch_top_users`: `(winning_rate, username)`
    tuples, the bounded `heapq` min-heap that keeps the best of them, and the
    final sort by rate, highest first. */
module Leaderboard {
  import opened Text

  /** A leaderboard tuple `(winning_rate, username)`. */
  datatype Entry = Entry(rate: real, name: string)

  /** Python's tuple `<`: by rate, ties broken by username. */
  predicate EntryLt(a: Entry, b: Entry)
  {
    a.rate < b.rate || (a.rate == b.rate && StrLt(a.name, b.name))
  }

  lemma EntryLtIrreflexive(a: Entry)
    ensures !EntryLt(a, a)
  {
    StrLtIrreflexive(a.name);
  }

  lemma EntryLtTransitive(a: Entry, b: Entry, c: Entry)
    requires EntryLt(a, b) && EntryLt(b, c)
    ensures EntryLt(a, c)
  {
    if a.rate == b.rate && b.rate == c.rate {
      StrLtTransitive(a.name, b.name, c.name);
    }
  }

  lemma EntryLtTotal(a: Entry, b: Entry)
    ensures a == b || EntryLt(a, b) || EntryLt(b, a)
  {
    StrLtTotal(a.name, b.name);
  }

  /** "Not greater" is transitive too, since tuple order is total. */
  lemma EntryLeTransitive(a: Entry, b: Entry, c: Entry)
    requires !EntryLt(b, a) && !EntryLt(c, b)
    ensures !EntryLt(c, a)
  {
    EntryLtTotal(a, b);
    EntryLtTotal(b, c);
    if EntryLt(c, a) {
      if a == b {
      } else if b == c {
      } else {
        EntryLtTransitive(a, b, c);
        EntryLtTransitive(c, a, b);
        EntryLtIrreflexive(b);
      }
    }
  }

  /** The position of a least entry; `heap[0]` in a `heapq` heap. */
  function MinIndex(h: seq<Entry>): (i: nat)
    requires |h| > 0
    ensures i < |h|
    ensures forall j :: 0 <= j < |h| ==> !EntryLt(h[j], h[i])
  {
    if |h| == 1 then
      EntryLtIrreflexive(h[0]);
      0
    else
      var i := MinIndex(h[..|h| - 1]);
      if EntryLt(h[|h| - 1], h[i]) then
        assert forall j :: 0 <= j < |h| - 1 ==> !EntryLt(h[j], h[|h| - 1]) by {
          forall j | 0 <= j < |h| - 1 && EntryLt(h[j], h[|h| - 1]) ensures false {
            assert !EntryLt(h[..|h| - 1][j], h[i]);
            EntryLtTransitive(h[j], h[|h| - 1], h[i]);
          }
        }
        EntryLtIrreflexive(h[|h| - 1]);
        |h| - 1
      else
        assert forall j :: 0 <= j < |h| - 1 ==> h[..|h| - 1][j] == h[j];
        i
  }

  /** `heapq.heappushpop(heap, x)`: push `x`, then pop and return the least
      entry. The heap keeps its size; the popped entry is no greater than
      anything kept, and nothing is lost or invented. */
  function PushPop(h: seq<Entry>, x: Entry): (r: (seq<Entry>, Entry))
    ensures |r.0| == |h|
    ensures multiset(r.0) + multiset{r.1} == multiset(h) + multiset{x}
    ensures forall y :: y in r.0 ==> !EntryLt(y, r.1)
    ensures |h| == 0 ==> r == (h, x)
  {
    if |h| > 0 && EntryLt(h[MinIndex(h)], x) then
      var i := MinIndex(h);
      assert forall y :: y in h[i := x] ==> !EntryLt(y, h[i]) by {
        forall y | y in h[i := x] ensures !EntryLt(y, h[i]) {
          var j :| 0 <= j < |h| && h[i := x][j] == y;
          if j == i {
            EntryLtTotal(h[i], x);
            if EntryLt(x, h[i]) {
              EntryLtTransitive(x, h[i], x);
              EntryLtIrreflexive(x);
            }
          }
        }
      }
      (h[i := x], h[i])
    else
      assert forall y :: y in h ==> !EntryLt(y, x) by {
        forall y | y in h ensures !EntryLt(y, x) {
          var j :| 0 <= j < |h| && h[j] == y;
          EntryLeTransitive(x, h[MinIndex(h)], y);
        }
      }
      (h, x)
  }

  /** The number of entries kept for `limit`: at most `limit`, never negative. */
  function Cap(limit: int, n: nat): nat
  {
    if limit <= 0 then 0 else if limit < n then limit else n
  }

  /** `kept` is a top-`limit` selection from `seen`: it has `min(limit, |seen|)`
      entries, all drawn from `seen`, and no entry left out is greater than
      an entry kept. */
  ghost predicate IsTopK(kept: seq<Entry>, seen: seq<Entry>, limit: int)
  {
    && |kept| == Cap(limit, |seen|)
    && multiset(kept) <= multiset(seen)
    && forall a, b :: a in multiset(seen) - multiset(kept) && b in multiset(kept) ==> !EntryLt(b, a)
  }

  /** The loop state of `fetch_top_users`: the heap `kept` and the entries
      `dropped` by `heappushpop` so far split `seen`. */
  ghost predicate KeptDropped(kept: seq<Entry>, dropped: seq<Entry>, seen: seq<Entry>, limit: int)
  {
    && |kept| == Cap(limit, |seen|)
    && multiset(kept) + multiset(dropped) == multiset(seen)
    && forall a, b :: a in dropped && b in kept ==> !EntryLt(b, a)
  }

  lemma KeptDroppedIsTopK(kept: seq<Entry>, dropped: seq<Entry>, seen: seq<Entry>, limit: int)
    requires KeptDropped(kept, dropped, seen, limit)
    ensures IsTopK(kept, seen, limit)
  {
    assert multiset(seen) - multiset(kept) == multiset(dropped);
  }

  /** One user offered to the heap: a push while there is room, a
      push-and-pop once it is full. The split is preserved. */
  lemma OfferKeepsSplit(kept: seq<Entry>, dropped: seq<Entry>, seen: seq<Entry>, limit: int, x: Entry)
    requires KeptDropped(kept, dropped, seen, limit)
    ensures |kept| < limit ==> KeptDropped(kept + [x], dropped, seen + [x], limit)
    ensures |kept| >= limit ==>
      var r := PushPop(kept, x);
      KeptDropped(r.0, dropped + [r.1], seen + [x], limit)
  {
    if |kept| < limit {
      PushKeepsSplit(kept, dropped, seen, limit, x);
    } else {
      PushPopKeepsSplit(kept, dropped, seen, limit, x);
    }
  }

  /** While the heap has room nothing has been dropped, and a push keeps everything. */
  lemma PushKeepsSplit(kept: seq<Entry>, dropped: seq<Entry>, seen: seq<Entry>, limit: int, x: Entry)
    requires KeptDropped(kept, dropped, seen, limit) && |kept| < limit
    ensures KeptDropped(kept + [x], dropped, seen + [x], limit)
  {
    assert |kept| == |seen|;
    assert dropped == [] by {
      assert |multiset(kept)| == |multiset(seen)|;
      assert |multiset(dropped)| == 0;
    }
    assert multiset(kept + [x]) == multiset(kept) + multiset{x};
  }

  /** On a full heap the popped entry joins the dropped ones, and no kept
      entry ranks below a dropped one. */
  lemma PushPopKeepsSplit(kept: seq<Entry>, dropped: seq<Entry>, seen: seq<Entry>, limit: int, x: Entry)
    requires KeptDropped(kept, dropped, seen, limit) && |kept| >= limit
    ensures var r := PushPop(kept, x);
      KeptDropped(r.0, dropped + [r.1], seen + [x], limit)
  {
    var r := PushPop(kept, x);
    assert multiset(r.0) + multiset(dropped + [r.1]) == multiset(seen + [x]) by {
      assert multiset(dropped + [r.1]) == multiset(dropped) + multiset{r.1};
      assert multiset(seen + [x]) == multiset(seen) + multiset{x};
    }
    forall a, b | a in dropped + [r.1] && b in r.0 ensures !EntryLt(b, a) {
      if a != r.1 || a in dropped {
        assert a in dropped;
        if b !in kept {
          // b is x, kept in place of the popped entry
          assert b in multiset(r.0);
          assert b == x;
          if r.1 in kept {
            EntryLeTransitive(a, r.1, b);
          }
        }
      }
    }
  }

  /** One tuple offered by `fetch_top_users`: `heappush` while the heap
      holds fewer than `limit` entries, `heappushpop` once it is full. */
  function Offer(kept: seq<Entry>, limit: int, x: Entry): seq<Entry>
  {
    if |kept| < limit then kept + [x] else PushPop(kept, x).0
  }

  /** The heap after offering the tuples of `seen` in order, from empty. */
  function Heap(seen: seq<Entry>, limit: int): seq<Entry>
  {
    if seen == [] then [] else Offer(Heap(seen[..|seen| - 1], limit), limit, seen[|seen| - 1])
  }

  /** The tuples that `heappushpop` returned (and the code discarded) on the way. */
  ghost function Dropped(seen: seq<Entry>, limit: int): seq<Entry>
  {
    if seen == [] then []
    else
      var prefix := seen[..|seen| - 1];
      var h := Heap(prefix, limit);
      if |h| < limit then Dropped(prefix, limit) else Dropped(prefix, limit) + [PushPop(h, seen[|seen| - 1]).1]
  }

  /** The heap and the discarded tuples always split what was offered, with
      nothing discarded above anything kept. */
  lemma {:induction false} HeapSplitsSeen(seen: seq<Entry>, limit: int)
    ensures KeptDropped(Heap(seen, limit), Dropped(seen, limit), seen, limit)
  {
    if seen != [] {
      var prefix := seen[..|seen| - 1];
      HeapSplitsSeen(prefix, limit);
      OfferKeepsSplit(Heap(prefix, limit), Dropped(prefix, limit), prefix, limit, seen[|seen| - 1]);
      assert prefix + [seen[|seen| - 1]] == seen;
    }
  }

  /** The heap `fetch_top_users` ends with is a top-`limit` selection. */
  lemma HeapIsTopK(seen: seq<Entry>, limit: int)
    ensures IsTopK(Heap(seen, limit), seen, limit)
  {
    HeapSplitsSeen(seen, limit);
    KeptDroppedIsTopK(Heap(seen, limit), Dropped(seen, limit), seen, limit);
  }

  /** Python's `sorted(..., key=rate, reverse=True)` order: rate non-increasing. */
  predicate RateNonIncreasing(s: seq<Entry>)
  {
    forall i, j :: 0 <= i < j < |s| ==> s[i].rate >= s[j].rate
  }

  /** Places `x` before the first entry of no higher rate (keeps earlier
      entries of equal rate first, as a stable sort does). */
  function InsertByRate(x: Entry, s: seq<Entry>): (r: seq<Entry>)
    ensures multiset(r) == multiset(s) + multiset{x}
  {
    if s == [] then [x]
    else if s[0].rate <= x.rate then [x] + s
    else
      assert s == [s[0]] + s[1..];
      [s[0]] + InsertByRate(x, s[1..])
  }

  lemma {:induction false} InsertByRateSorted(x: Entry, s: seq<Entry>)
    requires RateNonIncreasing(s)
    ensures RateNonIncreasing(InsertByRate(x, s))
  {
    if s != [] && s[0].rate > x.rate {
      var t := InsertByRate(x, s[1..]);
      InsertByRateSorted(x, s[1..]);
      forall k | 0 <= k < |t| ensures s[0].rate >= t[k].rate {
        assert t[k] in multiset(t);
        if t[k] != x {
          assert t[k] in multiset(s[1..]);
          var j :| 0 <= j < |s[1..]| && s[1..][j] == t[k];
          assert s[1 + j] == t[k];
        }
      }
    }
  }

  /** `sorted(top_users, key=lambda x: x[0], reverse=True)`: a permutation of
      the heap, rate non-increasing. */
  function SortByRateDesc(h: seq<Entry>): (r: seq<Entry>)
    ensures multiset(r) == multiset(h)
    ensures RateNonIncreasing(r)
    ensures |r| == |h|
  {
    if h == [] then []
    else
      assert h == [h[0]] + h[1..];
      var t := SortByRateDesc(h[1..]);
      InsertByRateSorted(h[0], t);
      assert |multiset(InsertByRate(h[0], t))| == |t| + 1;
      InsertByRate(h[0], t)
  }

  /** Python's `s[:n]`. */
  function Take(s: seq<Entry>, n: int): (r: seq<Entry>)
    ensures n >= |s| ==> r == s
    ensures |r| <= |s|
  {
    if n >= |s| then s
    else if n >= 0 then s[..n]
    else if |s| + n >= 0 then s[..|s| + n]
    else []
  }

  /** The top-K property depends only on how many times each entry is
      kept, so it survives the final sort. */
  lemma TopKPermutation(kept: seq<Entry>, r: seq<Entry>, seen: seq<Entry>, limit: int)
    requires IsTopK(kept, seen, limit) && multiset(r) == multiset(kept)
    ensures IsTopK(r, seen, limit)
  {
    assert |r| == |multiset(r)| == |multiset(kept)| == |kept|;
  }

  /** With room for at least one entry, a greatest entry seen is kept. */
  lemma TopKKeepsMaximum(kept: seq<Entry>, seen: seq<Entry>, limit: int, m: Entry)
    requires IsTopK(kept, seen, limit) && limit > 0
    requires m in seen && forall y :: y in seen ==> !EntryLt(m, y)
    ensures m in kept
  {
    assert |kept| > 0;
    if m !in kept {
      assert m in multiset(seen) - multiset(kept);
      var b := kept[0];
      assert b in multiset(kept);
      assert b in multiset(seen);
      EntryLtTotal(m, b);
    }
  }
}
