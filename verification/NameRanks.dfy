/**
  * The loops that keep and search the name order, over the byte tables. They read the
  * folded bytes of live ids from the arena; `keys` names what those bytes are.
  */
module NameRanks {
  import opened Bytes
  import opened NameArena
  import opened NameOrder
  import opened Options

  /** The arena reads `keys[id]` for every live id. */
  ghost predicate Reads(a: Arenas, rc: seq<nat>, keys: seq<ByteString>) {
    && |a.pairs| == |rc| == |keys|
    && forall id {:trigger rc[id]} :: 0 <= id < |rc| && rc[id] > 0 ==> a.InBounds(id) && a.FoldedBytes(id) == keys[id]
  }

  /** First position at or after `from` holding a live id. */
  method FirstLiveAt(rc: seq<nat>, order: seq<nat>, from: nat, ghost t: Ranking) returns (p: Option<nat>)
    requires t.Shaped() && t.rc == rc && t.order == order && from <= |order|
    ensures p == if t.FirstLive(from) < |order| then Some(t.FirstLive(from)) else None
  {
    var q := from;
    while q < |order|
      invariant from <= q <= |order|
      invariant t.FirstLive(from) == t.FirstLive(q)
    {
      if rc[order[q]] > 0 {
        return Some(q);
      }
      q := q + 1;
    }
    return None;
  }

  /** A position before which every live id folds below `x`, and from which on none does. */
  method InsertionPoint(a: Arenas, rc: seq<nat>, order: seq<nat>, x: ByteString, ghost t: Ranking) returns (p: nat)
    requires t.Shaped() && Sorted(t.keys, t.order) && t.rc == rc && t.order == order && Reads(a, rc, t.keys)
    ensures p == t.Gap(x)
  {
    var lo: nat, hi: nat := 0, |order|;
    while lo < hi
      invariant lo <= hi <= |order|
      invariant lo > 0 ==> t.LiveAt(lo - 1) && Less(t.KeyAt(lo - 1), x)
      invariant forall q :: hi <= q < |order| && t.LiveAt(q) ==> !Less(t.KeyAt(q), x)
    {
      var mid := lo + (hi - lo) / 2;
      var live := FirstLiveAt(rc, order, mid, t);
      if live == None || live.value >= hi {
        hi := mid;
      } else if Less(a.FoldedBytes(order[live.value]), x) {
        lo := live.value + 1;
      } else {
        NoneBelowFrom(t, x, live.value);
        hi := mid;
      }
    }
    p := lo;
    GapIs(t, x, p);
  }

  /** From a position that does not fold below `x` on, none does. */
  lemma NoneBelowFrom(t: Ranking, x: ByteString, p: nat)
    requires t.Shaped() && Sorted(t.keys, t.order) && p < |t.order| && !Less(t.KeyAt(p), x)
    ensures forall q :: p <= q < |t.order| ==> !Less(t.KeyAt(q), x)
  {
    forall q | p < q < |t.order| ensures !Less(t.KeyAt(q), x) {
      assert Before(t.keys, t.order[p], t.order[q]);
      if Less(t.KeyAt(p), t.KeyAt(q)) && Less(t.KeyAt(q), x) {
        LessTransitive(t.KeyAt(p), t.KeyAt(q), x);
      }
    }
  }

  /** Only one position has what the search establishes. */
  lemma GapIs(t: Ranking, x: ByteString, p: nat)
    requires t.Shaped() && p <= |t.order|
    requires p > 0 ==> t.LiveAt(p - 1) && Less(t.KeyAt(p - 1), x)
    requires forall q :: p <= q < |t.order| && t.LiveAt(q) ==> !Less(t.KeyAt(q), x)
    ensures p == t.Gap(x)
  {
    var _ := t.Gap(x);
  }

  /** The integer a name-sorted candidate is ordered by. */
  method RankKey(a: Arenas, rc: seq<nat>, order: seq<nat>, rank: seq<nat>, id: nat, ghost keys: seq<ByteString>)
    returns (k: nat)
    requires Ranking(keys, rc, order, rank).Ranked() && Reads(a, rc, keys) && id < |rc| && rc[id] > 0
    ensures k == Ranking(keys, rc, order, rank).RankKey(id)
  {
    ghost var t := Ranking(keys, rc, order, rank);
    if rank[id] != UNRANKED {
      return 2 * rank[id] + 1;
    }
    var x := a.FoldedBytes(id);
    var p := InsertionPoint(a, rc, order, x, t);
    var live := FirstLiveAt(rc, order, p, t);
    if live.Some? && a.FoldedBytes(order[live.value]) == x {
      return 2 * rank[order[live.value]] + 1;
    }
    return 2 * p;
  }

  // -- merging ------------------------------------------------------------------------

  /** The live ids of a list, in its order. */
  function OnlyLive(rc: seq<nat>, ids: seq<nat>): (r: seq<nat>)
    requires InRange(|rc|, ids)
    ensures AllLive(rc, r)
    ensures forall id {:trigger id in r} :: id in r <==> id in ids && rc[id] > 0
  {
    if ids == [] then [] else
    var last := |ids| - 1;
    assert ids == ids[..last] + [ids[last]];
    var rest := OnlyLive(rc, ids[..last]);
    if rc[ids[last]] > 0 then rest + [ids[last]] else rest
  }

  lemma {:induction false} OnlyLiveSorted(keys: seq<ByteString>, rc: seq<nat>, ids: seq<nat>)
    requires |keys| == |rc| && Sorted(keys, ids)
    ensures Sorted(keys, OnlyLive(rc, ids))
    decreases |ids|
  {
    if ids != [] {
      var last := |ids| - 1;
      var rest := OnlyLive(rc, ids[..last]);
      OnlyLiveSorted(keys, rc, ids[..last]);
      forall k | 0 <= k < |rest| ensures Before(keys, rest[k], ids[last]) {
        assert rest[k] in rest;
        assert rest[k] in ids[..last];
        var p :| 0 <= p < last && ids[p] == rest[k];
        assert Before(keys, ids[p], ids[last]);
      }
    }
  }

  /** `done` is sorted, holds what `a[..i]` and `b[..j]` hold, and comes before what is left. */
  ghost predicate Merging(keys: seq<ByteString>, a: seq<nat>, i: nat, b: seq<nat>, j: nat, done: seq<nat>) {
    && i <= |a| && j <= |b|
    && InRange(|keys|, a) && InRange(|keys|, b)
    && Sorted(keys, done)
    && (forall id {:trigger id in done} :: id in done <==> id in a[..i] || id in b[..j])
    && (forall k, m :: 0 <= k < |done| && i <= m < |a| ==> Before(keys, done[k], a[m]))
    && (forall k, m :: 0 <= k < |done| && j <= m < |b| ==> Before(keys, done[k], b[m]))
  }

  /** Taking the head of `a` when it comes before the head of `b`. */
  lemma MergeStep(keys: seq<ByteString>, a: seq<nat>, i: nat, b: seq<nat>, j: nat, done: seq<nat>)
    requires Sorted(keys, a) && Sorted(keys, b) && Merging(keys, a, i, b, j, done) && i < |a|
    requires j < |b| ==> Before(keys, a[i], b[j])
    ensures Merging(keys, a, i + 1, b, j, done + [a[i]])
  {
    var done' := done + [a[i]];
    assert a[..i + 1] == a[..i] + [a[i]];
    assert done'[|done|] == a[i];
    forall id ensures id in done' <==> id in a[..i + 1] || id in b[..j] {
      assert id in done <==> id in a[..i] || id in b[..j];
    }
    forall m | j <= m < |b| ensures Before(keys, a[i], b[m]) {
      if m > j { BeforeTransitive(keys, a[i], b[j], b[m]); }
    }
  }

  lemma MergingSwap(keys: seq<ByteString>, a: seq<nat>, i: nat, b: seq<nat>, j: nat, done: seq<nat>)
    requires Merging(keys, a, i, b, j, done)
    ensures Merging(keys, b, j, a, i, done)
  {
  }

  /** Merges the live ids of the order with the sorted new ids. */
  method MergeIds(a: Arenas, rc: seq<nat>, old_: seq<nat>, new_: seq<nat>, ghost keys: seq<ByteString>)
    returns (merged: seq<nat>)
    requires Reads(a, rc, keys) && Sorted(keys, old_) && Sorted(keys, new_) && AllLive(rc, old_) && AllLive(rc, new_)
    requires forall id :: id in new_ ==> id !in old_
    ensures Sorted(keys, merged)
    ensures forall id {:trigger id in merged} :: id in merged <==> id in old_ || id in new_
  {
    merged := [];
    var i, j := 0, 0;
    while i < |old_| && j < |new_|
      invariant Merging(keys, old_, i, new_, j, merged)
    {
      var o, n := old_[i], new_[j];
      var fo, fn := a.FoldedBytes(o), a.FoldedBytes(n);
      assert n in new_ && o in old_;
      if Less(fn, fo) || (fn == fo && n < o) {
        MergingSwap(keys, old_, i, new_, j, merged);
        MergeStep(keys, new_, j, old_, i, merged);
        merged, j := merged + [n], j + 1;
        MergingSwap(keys, new_, j, old_, i, merged);
      } else {
        BeforeIsStrictTotal(keys, n, o);
        MergeStep(keys, old_, i, new_, j, merged);
        merged, i := merged + [o], i + 1;
      }
    }
    while i < |old_|
      invariant Merging(keys, old_, i, new_, j, merged) && (i == |old_| || j == |new_|)
    {
      MergeStep(keys, old_, i, new_, j, merged);
      merged, i := merged + [old_[i]], i + 1;
    }
    while j < |new_|
      invariant Merging(keys, old_, i, new_, j, merged) && i == |old_|
    {
      MergingSwap(keys, old_, i, new_, j, merged);
      MergeStep(keys, new_, j, old_, i, merged);
      merged, j := merged + [new_[j]], j + 1;
      MergingSwap(keys, new_, j, old_, i, merged);
    }
    assert old_[..i] == old_ && new_[..j] == new_;
  }

  // -- ranking -------------------------------------------------------------------------

  /**
    * Every live id at a position below `n` is ranked by the first live position folding
    * like it, no other id is ranked.
    */
  ghost predicate RanksLive(keys: seq<ByteString>, rc: seq<nat>, order: seq<nat>, rank: seq<nat>, n: nat) {
    && |keys| == |rc| == |rank| && InRange(|keys|, order) && n <= |order|
    && (forall p {:trigger order[p]} :: 0 <= p < n && rc[order[p]] > 0 ==>
      FirstOfGroup(keys, rc, order, rank[order[p]], p))
    && (forall id :: 0 <= id < |rank| && (id !in order[..n] || rc[id] == 0) ==> rank[id] == UNRANKED)
  }

  /** Over an order with no dead ids these are the ranks of `Ranked`. */
  lemma RanksLiveRanked(t: Ranking)
    requires RanksLive(t.keys, t.rc, t.order, t.rank, |t.order|)
    requires Sorted(t.keys, t.order) && AllLive(t.rc, t.order) && |t.order| < UNRANKED
    ensures t.Ranked() && |t.rank| == |t.keys|
  {
    assert t.order[..|t.order|] == t.order;
    forall p | 0 <= p < |t.order| ensures t.RankedAt(p) {
      var r := t.rank[t.order[p]];
      assert FirstOfGroup(t.keys, t.rc, t.order, r, p);
      if r > 0 {
        assert t.rc[t.order[r - 1]] > 0;
      }
    }
  }

  /** Recomputes every rank from the order. */
  method Rerank(a: Arenas, rc: seq<nat>, order: seq<nat>, ghost keys: seq<ByteString>) returns (rank: seq<nat>)
    requires Reads(a, rc, keys) && Sorted(keys, order)
    ensures RanksLive(keys, rc, order, rank, |order|)
  {
    hide FirstOfGroup, Before, Less;
    rank := seq(|rc|, _ => UNRANKED);
    var groupStart, prev := 0, None;
    ghost var last := 0;
    SortedDistinct(keys, order);
    var pos := 0;
    while pos < |order|
      invariant pos <= |order| && |rank| == |rc|
      invariant RanksLive(keys, rc, order, rank, pos)
      invariant prev.None? ==> NoneLive(rc, order, pos)
      invariant prev.Some? ==> GroupOpen(keys, rc, order, groupStart, last, pos) && prev.value == keys[order[last]]
    {
      hide RanksLive, GroupOpen, NoneLive;
      var id := order[pos];
      if rc[id] > 0 {
        var f := a.FoldedBytes(id);
        if prev.None? {
          FirstGroup(keys, rc, order, pos);
          groupStart := pos;
        } else if prev.value != f {
          NewGroup(keys, rc, order, groupStart, last, pos);
          groupStart := pos;
        } else {
          SameGroup(keys, rc, order, groupStart, last, pos);
        }
        prev := Some(f);
        RankOne(keys, rc, order, rank, groupStart, pos);
        rank := rank[id := groupStart];
        last := pos;
      } else {
        RankNone(keys, rc, order, rank, groupStart, last, pos);
      }
      pos := pos + 1;
    }
  }

  ghost predicate NoneLive(rc: seq<nat>, order: seq<nat>, n: nat) {
    InRange(|rc|, order) && n <= |order| && forall k :: 0 <= k < n ==> rc[order[k]] == 0
  }

  /** `last` is the last live position before `n`, and `start` the first one of its group. */
  ghost predicate GroupOpen(keys: seq<ByteString>, rc: seq<nat>, order: seq<nat>, start: nat, last: nat, n: nat) {
    && |keys| == |rc| && InRange(|keys|, order) && last < n <= |order|
    && rc[order[last]] > 0 && FirstOfGroup(keys, rc, order, start, last)
    && forall k :: last < k < n ==> rc[order[k]] == 0
  }

  lemma FirstGroup(keys: seq<ByteString>, rc: seq<nat>, order: seq<nat>, pos: nat)
    requires NoneLive(rc, order, pos) && |keys| == |rc| && pos < |order| && rc[order[pos]] > 0
    ensures FirstOfGroup(keys, rc, order, pos, pos) && GroupOpen(keys, rc, order, pos, pos, pos + 1)
  {
  }

  lemma NewGroup(keys: seq<ByteString>, rc: seq<nat>, order: seq<nat>, start: nat, last: nat, pos: nat)
    requires GroupOpen(keys, rc, order, start, last, pos) && pos < |order| && Sorted(keys, order)
    requires rc[order[pos]] > 0 && keys[order[pos]] != keys[order[last]]
    ensures FirstOfGroup(keys, rc, order, pos, pos) && GroupOpen(keys, rc, order, pos, pos, pos + 1)
  {
    forall k | 0 <= k < pos && rc[order[k]] > 0 ensures keys[order[k]] != keys[order[pos]] {
      if keys[order[k]] == keys[order[pos]] {
        GroupIsRun(Ranking(keys, rc, order, rc), k, pos, last);
      }
    }
  }

  lemma SameGroup(keys: seq<ByteString>, rc: seq<nat>, order: seq<nat>, start: nat, last: nat, pos: nat)
    requires GroupOpen(keys, rc, order, start, last, pos) && pos < |order|
    requires rc[order[pos]] > 0 && keys[order[pos]] == keys[order[last]]
    ensures FirstOfGroup(keys, rc, order, start, pos) && GroupOpen(keys, rc, order, start, pos, pos + 1)
  {
  }

  lemma RankOne(keys: seq<ByteString>, rc: seq<nat>, order: seq<nat>, rank: seq<nat>, start: nat, pos: nat)
    requires RanksLive(keys, rc, order, rank, pos) && pos < |order| && rc[order[pos]] > 0
    requires FirstOfGroup(keys, rc, order, start, pos)
    requires Distinct(order)
    ensures RanksLive(keys, rc, order, rank[order[pos] := start], pos + 1)
  {
    hide FirstOfGroup;
    assert order[..pos + 1] == order[..pos] + [order[pos]];
  }

  lemma RankNone(keys: seq<ByteString>, rc: seq<nat>, order: seq<nat>, rank: seq<nat>, start: nat, last: nat, pos: nat)
    requires RanksLive(keys, rc, order, rank, pos) && pos < |order| && rc[order[pos]] == 0
    ensures RanksLive(keys, rc, order, rank, pos + 1)
    ensures NoneLive(rc, order, pos) ==> NoneLive(rc, order, pos + 1)
    ensures GroupOpen(keys, rc, order, start, last, pos) ==> GroupOpen(keys, rc, order, start, last, pos + 1)
  {
    hide FirstOfGroup;
    assert order[..pos + 1] == order[..pos] + [order[pos]];
  }
}
