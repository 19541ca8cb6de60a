/**
  * The name order of a store, apart from where its bytes lie: `keys[id]` is the
  * folded name of `id`, `rc[id]` its reference count (0 = dead), `order` the
  * ranked ids and `rank` the rank of every id. A dead id keeps its place in the
  * order, with the key it died with, until the next merge.
  */
module NameOrder {
  import opened Bytes

  /** The rank of a name that is not (yet) in the order: `u32::MAX`. */
  const UNRANKED: nat := 0xFFFF_FFFF

  /** `a` comes before `b` by folded bytes, ties by id. */
  predicate Before(keys: seq<ByteString>, a: nat, b: nat)
    requires a < |keys| && b < |keys|
  {
    Less(keys[a], keys[b]) || (keys[a] == keys[b] && a < b)
  }

  lemma BeforeIsStrictTotal(keys: seq<ByteString>, a: nat, b: nat)
    requires a < |keys| && b < |keys|
    ensures Before(keys, a, b) || a == b || Before(keys, b, a)
    ensures !(Before(keys, a, b) && Before(keys, b, a))
    ensures a == b ==> !Before(keys, a, b)
  {
    LessTrichotomy(keys[a], keys[b]);
  }

  lemma BeforeTransitive(keys: seq<ByteString>, a: nat, b: nat, c: nat)
    requires a < |keys| && b < |keys| && c < |keys|
    requires Before(keys, a, b) && Before(keys, b, c)
    ensures Before(keys, a, c)
  {
    if Less(keys[a], keys[b]) && Less(keys[b], keys[c]) {
      LessTransitive(keys[a], keys[b], keys[c]);
    }
  }

  predicate InRange(n: nat, ids: seq<nat>) {
    forall p :: 0 <= p < |ids| ==> ids[p] < n
  }

  ghost predicate Ascends(ids: seq<nat>) {
    forall p, q :: 0 <= p < q < |ids| ==> ids[p] < ids[q]
  }

  ghost predicate Distinct(ids: seq<nat>) {
    forall p, q :: 0 <= p < q < |ids| ==> ids[p] != ids[q]
  }

  ghost predicate Sorted(keys: seq<ByteString>, ids: seq<nat>) {
    && InRange(|keys|, ids)
    && forall p, q :: 0 <= p < q < |ids| ==> Before(keys, ids[p], ids[q])
  }

  ghost predicate AllLive(rc: seq<nat>, ids: seq<nat>) {
    forall p :: 0 <= p < |ids| ==> ids[p] < |rc| && rc[ids[p]] > 0
  }

  /** Every live id of the store, and nothing else, is listed. */
  ghost predicate ListsLive(rc: seq<nat>, ids: seq<nat>) {
    && AllLive(rc, ids)
    && forall id {:trigger id in ids} :: 0 <= id < |rc| && rc[id] > 0 ==> id in ids
  }

  /** The same ids in the same strict order are the same list. */
  lemma {:induction false} SortedUnique(keys: seq<ByteString>, s: seq<nat>, t: seq<nat>)
    requires Sorted(keys, s) && Sorted(keys, t)
    requires forall id :: id in s <==> id in t
    ensures s == t
  {
    assert s != [] ==> s[0] in t;
    assert t != [] ==> t[0] in s;
    if s != [] {
      BeforeIsStrictTotal(keys, s[0], t[0]);
      assert s[0] == t[0];
      forall id ensures id in s[1..] <==> id in t[1..] {
        SortedTail(keys, s, id);
        SortedTail(keys, t, id);
      }
      SortedUnique(keys, s[1..], t[1..]);
      assert s == [s[0]] + s[1..] && t == [t[0]] + t[1..];
    }
  }

  lemma SortedTail(keys: seq<ByteString>, s: seq<nat>, id: nat)
    requires Sorted(keys, s) && s != []
    ensures id in s[1..] <==> id in s && id != s[0]
  {
    if id in s && id != s[0] {
      var p :| 0 <= p < |s| && s[p] == id;
      assert s[1..][p - 1] == id;
    }
    if id in s[1..] {
      var p :| 0 <= p < |s| - 1 && s[1..][p] == id;
      BeforeIsStrictTotal(keys, s[0], s[p + 1]);
    }
  }

  // -- the full sort --------------------------------------------------------------

  /** The ids below `n` that are live, ascending. */
  function LiveIds(rc: seq<nat>, n: nat): (ids: seq<nat>)
    requires n <= |rc|
    ensures forall p :: 0 <= p < |ids| ==> ids[p] < n && rc[ids[p]] > 0
  {
    if n == 0 then [] else
    var rest := LiveIds(rc, n - 1);
    if rc[n - 1] > 0 then rest + [n - 1] else rest
  }

  lemma {:induction false} LiveIdsMembers(rc: seq<nat>, n: nat)
    requires n <= |rc|
    ensures forall id {:trigger id in LiveIds(rc, n)} :: id in LiveIds(rc, n) <==> 0 <= id < n && rc[id] > 0
  {
    if n > 0 {
      LiveIdsMembers(rc, n - 1);
      forall id ensures id in LiveIds(rc, n) <==> 0 <= id < n && rc[id] > 0 {
        assert id in LiveIds(rc, n - 1) <==> 0 <= id < n - 1 && rc[id] > 0;
      }
    }
  }

  lemma {:induction false} LiveIdsAscend(rc: seq<nat>, n: nat)
    requires n <= |rc|
    ensures Ascends(LiveIds(rc, n))
  {
    if n > 0 { LiveIdsAscend(rc, n - 1); }
  }

  /** `x` put into the sorted list `ids`. */
  function InsertSorted(keys: seq<ByteString>, x: nat, ids: seq<nat>): (r: seq<nat>)
    requires x < |keys| && Sorted(keys, ids) && x !in ids
    ensures Sorted(keys, r)
    ensures forall id :: id in r <==> id == x || id in ids
  {
    if ids == [] || Before(keys, x, ids[0]) then
      assert forall p :: 0 <= p < |ids| ==> Before(keys, x, ids[p]) by {
        forall p | 0 <= p < |ids| ensures Before(keys, x, ids[p]) {
          if p > 0 { BeforeTransitive(keys, x, ids[0], ids[p]); }
        }
      }
      [x] + ids
    else
      assert Before(keys, ids[0], x) by { BeforeIsStrictTotal(keys, x, ids[0]); }
      assert ids == [ids[0]] + ids[1..];
      var rest := InsertSorted(keys, x, ids[1..]);
      assert forall p :: 0 <= p < |rest| ==> rest[p] in rest;
      [ids[0]] + rest
  }

  /** The distinct ids sorted by (folded bytes, id): what the library sort returns. */
  function SortIds(keys: seq<ByteString>, ids: seq<nat>): (r: seq<nat>)
    requires InRange(|keys|, ids)
    requires Distinct(ids)
    ensures Sorted(keys, r)
    ensures forall id :: id in r <==> id in ids
  {
    if ids == [] then [] else
    assert ids == [ids[0]] + ids[1..];
    InsertSorted(keys, ids[0], SortIds(keys, ids[1..]))
  }

  /** The order a full sort of the store gives: every live id, sorted. */
  function FullOrder(keys: seq<ByteString>, rc: seq<nat>): (r: seq<nat>)
    requires |keys| == |rc|
    ensures Sorted(keys, r) && ListsLive(rc, r)
  {
    LiveIdsMembers(rc, |rc|);
    LiveIdsAscend(rc, |rc|);
    var r := SortIds(keys, LiveIds(rc, |rc|));
    assert forall p :: 0 <= p < |r| ==> r[p] in r;
    r
  }

  // -- ranks ------------------------------------------------------------------------

  /** The folded name and reference count of every id, the order, and the ranks. */
  datatype Ranking = Ranking(keys: seq<ByteString>, rc: seq<nat>, order: seq<nat>, rank: seq<nat>) {

    ghost predicate Shaped() {
      |keys| == |rc| == |rank| && InRange(|keys|, order)
    }

    /** The id at position `p` is live. */
    predicate LiveAt(p: nat)
      requires Shaped() && p < |order|
    {
      rc[order[p]] > 0
    }

    /** The folded name at position `p`. */
    function KeyAt(p: nat): ByteString
      requires Shaped() && p < |order|
    {
      keys[order[p]]
    }

    /** The id at position `p` is ranked by where the run of positions folding like it starts. */
    ghost predicate RankedAt(p: nat)
      requires Shaped() && p < |order|
    {
      var r := rank[order[p]];
      r <= p && KeyAt(r) == KeyAt(p) && (r == 0 || KeyAt(r - 1) != KeyAt(p))
    }

    /**
      * The order and the ranks agree: the order is sorted, dead ids included, each id in
      * it holds the start of its group, and only the ids in it are ranked.
      */
    ghost predicate Ranked() {
      && Shaped()
      && Sorted(keys, order)
      && |order| < UNRANKED
      && (forall p {:trigger RankedAt(p)} :: 0 <= p < |order| ==> RankedAt(p))
      && (forall id :: 0 <= id < |rank| && id !in order ==> rank[id] == UNRANKED)
    }

    /**
      * How many positions lie up to and including the last live id below position `n`
      * that folds below `x`: 0, or the slot just after a live id below `x`.
      */
    function InsertionPoint(x: ByteString, n: nat): (p: nat)
      requires Shaped() && n <= |order|
      ensures p <= n
      ensures p > 0 ==> LiveAt(p - 1) && Less(KeyAt(p - 1), x)
      ensures forall q :: p <= q < n && LiveAt(q) ==> !Less(KeyAt(q), x)
    {
      if n == 0 then 0
      else if LiveAt(n - 1) && Less(KeyAt(n - 1), x) then n
      else InsertionPoint(x, n - 1)
    }

    /** The first position at or after `from` that holds a live id, or `|order|`. */
    function FirstLive(from: nat): (p: nat)
      requires Shaped() && from <= |order|
      ensures from <= p <= |order|
      ensures p < |order| ==> LiveAt(p)
      ensures forall q :: from <= q < p ==> !LiveAt(q)
      decreases |order| - from
    {
      if from == |order| || LiveAt(from) then from else FirstLive(from + 1)
    }

    /** The gap a name folding to `x` falls in. */
    function Gap(x: ByteString): (p: nat)
      requires Shaped()
      ensures p <= |order|
    {
      InsertionPoint(x, |order|)
    }

    /** The integer a name is ordered by. */
    function RankKey(id: nat): nat
      requires Shaped() && id < |keys|
    {
      if rank[id] != UNRANKED then 2 * rank[id] + 1
      else
        var live := FirstLive(Gap(keys[id]));
        if live < |order| && KeyAt(live) == keys[id] then 2 * rank[order[live]] + 1
        else 2 * Gap(keys[id])
    }

    /** A live id in the order folds to `x`. */
    ghost predicate HasGroup(x: ByteString)
      requires Shaped()
    {
      exists q :: 0 <= q < |order| && LiveAt(q) && KeyAt(q) == x
    }
  }

  /** `q` is the first position that holds a live id folding like the one at `p`. */
  ghost predicate FirstOfGroup(keys: seq<ByteString>, rc: seq<nat>, order: seq<nat>, q: nat, p: nat)
    requires |keys| == |rc| && InRange(|keys|, order) && p < |order|
  {
    && q < |order| && rc[order[q]] > 0 && keys[order[q]] == keys[order[p]]
    && forall k {:trigger order[k]} :: 0 <= k < q && rc[order[k]] > 0 ==> keys[order[k]] != keys[order[p]]
  }

  /** Between two positions with one key every position has it. */
  lemma GroupIsRun(t: Ranking, p: nat, q: nat, k: nat)
    requires t.Shaped() && Sorted(t.keys, t.order) && p <= k <= q < |t.order|
    requires t.KeyAt(p) == t.KeyAt(q)
    ensures t.KeyAt(k) == t.KeyAt(p)
  {
    if p < k < q {
      assert Before(t.keys, t.order[p], t.order[k]) && Before(t.keys, t.order[k], t.order[q]);
      LessTrichotomy(t.KeyAt(p), t.KeyAt(k));
    }
  }

  /** Equal keys in the order, equal ranks, whichever of them are dead. */
  lemma OneRankPerGroup(t: Ranking, p: nat, q: nat)
    requires t.Ranked() && p < |t.order| && q < |t.order| && t.KeyAt(p) == t.KeyAt(q)
    ensures t.rank[t.order[p]] == t.rank[t.order[q]]
  {
    assert t.RankedAt(p) && t.RankedAt(q);
    var r, s := t.rank[t.order[p]], t.rank[t.order[q]];
    if r < s {
      GroupIsRun(t, r, q, s - 1);
    } else if s < r {
      GroupIsRun(t, s, p, r - 1);
    }
  }

  /** The rank table is determined by the order. */
  lemma RankedUnique(t: Ranking, rank: seq<nat>)
    requires t.Ranked() && t.(rank := rank).Ranked()
    ensures t.rank == rank
  {
    var u := t.(rank := rank);
    forall id | 0 <= id < |rank| ensures t.rank[id] == rank[id] {
      if id in t.order {
        var p :| 0 <= p < |t.order| && t.order[p] == id;
        assert t.RankedAt(p) && u.RankedAt(p);
        var r, s := t.rank[id], rank[id];
        if r < s {
          GroupIsRun(t, r, p, s - 1);
        } else if s < r {
          GroupIsRun(t, s, p, r - 1);
        }
      }
    }
  }

  /** The gap of `x` lies at or before a position that does not fold below `x`. */
  lemma GapAtOrBefore(t: Ranking, x: ByteString, q: nat)
    requires t.Shaped() && Sorted(t.keys, t.order) && q < |t.order| && !Less(t.KeyAt(q), x)
    ensures t.Gap(x) <= q
  {
    var p := t.Gap(x);
    if p > q + 1 {
      assert Before(t.keys, t.order[q], t.order[p - 1]);
      if Less(t.KeyAt(q), t.KeyAt(p - 1)) {
        LessTransitive(t.KeyAt(q), t.KeyAt(p - 1), x);
      }
    }
  }

  /** A live id in the order gives every live name that folds like it its own group's key. */
  lemma GroupKey(t: Ranking, id: nat, q: nat)
    requires t.Ranked() && id < |t.keys| && t.rc[id] > 0
    requires q < |t.order| && t.LiveAt(q) && t.KeyAt(q) == t.keys[id]
    ensures t.RankKey(id) == 2 * t.rank[t.order[q]] + 1
  {
    if t.rank[id] != UNRANKED {
      var p :| 0 <= p < |t.order| && t.order[p] == id;
      OneRankPerGroup(t, p, q);
    } else {
      var x := t.keys[id];
      LessTrichotomy(x, x);
      GapAtOrBefore(t, x, q);
      var live := t.FirstLive(t.Gap(x));
      if live < q {
        assert Before(t.keys, t.order[live], t.order[q]);
      }
      OneRankPerGroup(t, live, q);
    }
  }

  /** A live name that no live id in the order folds like is keyed by its gap. */
  lemma GapKey(t: Ranking, id: nat)
    requires t.Ranked() && id < |t.keys| && t.rc[id] > 0 && !t.HasGroup(t.keys[id])
    ensures t.rank[id] == UNRANKED && t.RankKey(id) == 2 * t.Gap(t.keys[id])
  {
    forall p | 0 <= p < |t.order| ensures t.order[p] != id {
      assert !(t.LiveAt(p) && t.KeyAt(p) == t.keys[id]);
    }
  }

  /** Groups below `x` start before the gap of `x`, the others at or after it. */
  lemma GapSeparates(t: Ranking, x: ByteString, q: nat)
    requires t.Ranked() && q < |t.order| && t.LiveAt(q)
    ensures Less(t.KeyAt(q), x) ==> t.rank[t.order[q]] < t.Gap(x)
    ensures !Less(t.KeyAt(q), x) ==> t.Gap(x) <= t.rank[t.order[q]]
  {
    assert t.RankedAt(q);
    if !Less(t.KeyAt(q), x) {
      GapAtOrBefore(t, x, t.rank[t.order[q]]);
    }
  }

  lemma GapMonotone(t: Ranking, x: ByteString, y: ByteString)
    requires t.Shaped() && Less(x, y)
    ensures t.Gap(x) <= t.Gap(y)
  {
    var p := t.Gap(x);
    if p > 0 {
      LessTransitive(t.KeyAt(p - 1), x, y);
    }
  }

  lemma EqualFoldsShareKey(t: Ranking, a: nat, b: nat)
    requires t.Ranked() && a < |t.keys| && b < |t.keys| && t.rc[a] > 0 && t.rc[b] > 0
    requires t.keys[a] == t.keys[b]
    ensures t.RankKey(a) == t.RankKey(b)
  {
    if t.HasGroup(t.keys[a]) {
      var q :| 0 <= q < |t.order| && t.LiveAt(q) && t.KeyAt(q) == t.keys[a];
      GroupKey(t, a, q);
      GroupKey(t, b, q);
    } else {
      GapKey(t, a);
      GapKey(t, b);
    }
  }

  lemma SmallerFoldSmallerKey(t: Ranking, a: nat, b: nat)
    requires t.Ranked() && a < |t.keys| && b < |t.keys| && t.rc[a] > 0 && t.rc[b] > 0
    requires Less(t.keys[a], t.keys[b])
    ensures t.RankKey(a) <= t.RankKey(b)
    ensures t.RankKey(a) == t.RankKey(b) ==>
              t.rank[a] == t.rank[b] == UNRANKED && t.Gap(t.keys[a]) == t.Gap(t.keys[b])
  {
    LessTrichotomy(t.keys[a], t.keys[b]);
    LessTrichotomy(t.keys[b], t.keys[b]);
    if t.HasGroup(t.keys[a]) {
      var p :| 0 <= p < |t.order| && t.LiveAt(p) && t.KeyAt(p) == t.keys[a];
      GroupKey(t, a, p);
      GapSeparates(t, t.keys[b], p);
    } else {
      GapKey(t, a);
    }
    if t.HasGroup(t.keys[b]) {
      var q :| 0 <= q < |t.order| && t.LiveAt(q) && t.KeyAt(q) == t.keys[b];
      GroupKey(t, b, q);
      GapSeparates(t, t.keys[b], q);
      GapSeparates(t, t.keys[a], q);
    } else {
      GapKey(t, b);
      GapMonotone(t, t.keys[a], t.keys[b]);
    }
  }

  /**
    * The order of live names by (rank key, folded bytes) is their order by folded
    * bytes: equal folds share a key, a smaller fold never has a larger key, and two
    * different folds tie only when both wait outside the order in the same gap.
    */
  lemma RankKeyOrders(t: Ranking, a: nat, b: nat)
    requires t.Ranked() && a < |t.keys| && b < |t.keys| && t.rc[a] > 0 && t.rc[b] > 0
    ensures t.keys[a] == t.keys[b] ==> t.RankKey(a) == t.RankKey(b)
    ensures t.RankKey(a) < t.RankKey(b) ==> Less(t.keys[a], t.keys[b])
    ensures t.RankKey(a) == t.RankKey(b) && t.keys[a] != t.keys[b] ==>
              t.rank[a] == t.rank[b] == UNRANKED && t.Gap(t.keys[a]) == t.Gap(t.keys[b])
    ensures Less(t.keys[a], t.keys[b]) <==>
            t.RankKey(a) < t.RankKey(b) || (t.RankKey(a) == t.RankKey(b) && Less(t.keys[a], t.keys[b]))
  {
    LessTrichotomy(t.keys[a], t.keys[b]);
    if t.keys[a] == t.keys[b] {
      EqualFoldsShareKey(t, a, b);
    } else if Less(t.keys[a], t.keys[b]) {
      SmallerFoldSmallerKey(t, a, b);
    } else {
      SmallerFoldSmallerKey(t, b, a);
    }
  }

  /**
    * A rank is documented as the position of the first live id of its group. Once the
    * group's first id has died that no longer holds: it holds exactly while that id lives.
    */
  lemma RankIsFirstLiveIff(t: Ranking, p: nat)
    requires t.Ranked() && p < |t.order| && t.LiveAt(p)
    ensures t.RankedAt(p)
    ensures FirstOfGroup(t.keys, t.rc, t.order, t.rank[t.order[p]], p) <==> t.LiveAt(t.rank[t.order[p]])
  {
    assert t.RankedAt(p);
    forall k | 0 <= k < t.rank[t.order[p]] ensures t.keys[t.order[k]] != t.KeyAt(p) {
      if t.KeyAt(k) == t.KeyAt(p) {
        GroupIsRun(t, k, p, t.rank[t.order[p]] - 1);
        assert false;
      }
    }
  }

  // -- where in a run of dead ids a name may be placed ------------------------------------

  /** Position `p` has the live ids that fold below `x` before it, and the other live ids from it on. */
  ghost predicate Separates(t: Ranking, x: ByteString, p: nat)
    requires t.Shaped()
  {
    p <= |t.order| && forall q {:trigger t.order[q]} :: 0 <= q < |t.order| && t.LiveAt(q) ==>
      (q < p <==> Less(t.KeyAt(q), x))
  }

  /** Keyed by place `p`, a name folding to `x` sorts against the live ranked ids as the bytes do. */
  ghost predicate Places(t: Ranking, x: ByteString, p: nat)
    requires t.Shaped()
  {
    forall q {:trigger t.order[q]} :: 0 <= q < |t.order| && t.LiveAt(q) ==>
      (2 * t.rank[t.order[q]] + 1 < 2 * p <==> Less(t.KeyAt(q), x))
  }

  lemma RankMonotone(t: Ranking, p: nat, q: nat)
    requires t.Ranked() && p <= q < |t.order|
    ensures t.rank[t.order[p]] <= t.rank[t.order[q]]
  {
    assert t.RankedAt(p) && t.RankedAt(q);
    if t.rank[t.order[q]] <= p {
      GroupIsRun(t, t.rank[t.order[q]], q, p);
      OneRankPerGroup(t, p, q);
    }
  }

  /**
    * A place in a run of dead ids is a right one exactly when the group that follows the run does not
    * start before it.
    */
  lemma PlaceIsRightIff(t: Ranking, x: ByteString, p: nat)
    requires t.Ranked() && Separates(t, x, p)
    ensures var next := t.FirstLive(p);
            Places(t, x, p) <==> (next < |t.order| ==> p <= t.rank[t.order[next]])
  {
    var next := t.FirstLive(p);
    forall q | 0 <= q < |t.order| && t.LiveAt(q)
      ensures q < p ==> t.rank[t.order[q]] < p
      ensures q >= p ==> next <= q && t.rank[t.order[next]] <= t.rank[t.order[q]]
    {
      assert t.RankedAt(q);
      if q >= p { RankMonotone(t, next, q); }
    }
    assert next < |t.order| ==> t.LiveAt(next) && t.order[next] == t.order[next];
  }

  /**
    * A group whose start is dead: its start separates the live ids by a smaller key as well as any later
    * place up to its first live id does, but of these only the start sorts a name of that key right.
    */
  lemma DeadRunPlaceMatters(t: Ranking, x: ByteString, start: nat, p: nat)
    requires t.Ranked() && Separates(t, x, start) && t.FirstLive(start) < |t.order|
    requires t.rank[t.order[t.FirstLive(start)]] == start < p <= t.FirstLive(start)
    ensures Places(t, x, start) && Separates(t, x, p) && !Places(t, x, p)
  {
    var first := t.FirstLive(start);
    assert t.FirstLive(p) == first by { FirstLiveSame(t, start, p); }
    forall q | 0 <= q < |t.order| && t.LiveAt(q) ensures q < p <==> Less(t.KeyAt(q), x) {
      assert t.order[q] == t.order[q];
    }
    PlaceIsRightIff(t, x, start);
    PlaceIsRightIff(t, x, p);
  }

  lemma FirstLiveSame(t: Ranking, start: nat, p: nat)
    requires t.Shaped() && start <= p <= |t.order| && p <= t.FirstLive(start)
    ensures t.FirstLive(p) == t.FirstLive(start)
  {
  }

  // -- keeping the order ---------------------------------------------------------------

  /** The ids interned since the last merge, ascending; with the order they cover every live id. */
  ghost predicate Waiting(rc: seq<nat>, order: seq<nat>, unranked: seq<nat>) {
    && InRange(|rc|, unranked)
    && Ascends(unranked)
    && (forall id :: id in unranked ==> id !in order)
    && (forall id {:trigger id in order} {:trigger id in unranked} ::
         0 <= id < |rc| && rc[id] > 0 ==> id in order || id in unranked)
  }

  /** How many of the first `n` ids are dead. */
  function CountDead(rc: seq<nat>, ids: seq<nat>, n: nat): nat
    requires InRange(|rc|, ids) && n <= |ids|
  {
    if n == 0 then 0 else CountDead(rc, ids, n - 1) + if rc[ids[n - 1]] == 0 then 1 else 0
  }

  lemma {:induction false} CountDeadAllLive(rc: seq<nat>, ids: seq<nat>, n: nat)
    requires AllLive(rc, ids) && n <= |ids|
    ensures CountDead(rc, ids, n) == 0
  {
    if n > 0 { CountDeadAllLive(rc, ids, n - 1); }
  }

  /** Recounting one id of the order changes the number of dead ones only if it dies. */
  lemma {:induction false} CountDeadRecount(rc: seq<nat>, ids: seq<nat>, id: nat, count: nat, n: nat)
    requires InRange(|rc|, ids) && n <= |ids| && id < |rc| && rc[id] > 0
    requires Distinct(ids)
    ensures CountDead(rc[id := count], ids, n)
            == CountDead(rc, ids, n) + if count == 0 && id in ids[..n] then 1 else 0
  {
    if n > 0 {
      CountDeadRecount(rc, ids, id, count, n - 1);
      assert ids[..n] == ids[..n - 1] + [ids[n - 1]];
    }
  }

  lemma {:induction false} CountDeadGrow(rc: seq<nat>, ids: seq<nat>, count: nat, n: nat)
    requires InRange(|rc|, ids) && n <= |ids|
    ensures CountDead(rc + [count], ids, n) == CountDead(rc, ids, n)
  {
    if n > 0 { CountDeadGrow(rc, ids, count, n - 1); }
  }

  lemma SortedDistinct(keys: seq<ByteString>, ids: seq<nat>)
    requires Sorted(keys, ids)
    ensures Distinct(ids)
  {
    forall p, q | 0 <= p < q < |ids| ensures ids[p] != ids[q] {
      BeforeIsStrictTotal(keys, ids[p], ids[q]);
    }
  }

  /** Distinct ids below `n` are at most `n`. */
  lemma {:induction false} DistinctBelow(ids: seq<nat>, n: nat)
    requires InRange(n, ids)
    requires Distinct(ids)
    ensures |ids| <= n
    decreases n
  {
    if ids != [] {
      assert ids[0] < n;
      if n - 1 in ids {
        var p :| 0 <= p < |ids| && ids[p] == n - 1;
        DistinctBelow(ids[..p] + ids[p + 1..], n - 1);
      } else {
        DistinctBelow(ids, n - 1);
      }
    }
  }

  /** Keys that agree on live ids sort them alike. */
  lemma SortedTransfer(f: seq<ByteString>, keys: seq<ByteString>, rc: seq<nat>, ids: seq<nat>)
    requires |f| == |keys| == |rc| && AllLive(rc, ids) && Sorted(f, ids)
    requires forall id :: 0 <= id < |rc| && rc[id] > 0 ==> f[id] == keys[id]
    ensures Sorted(keys, ids)
  {
    forall p, q | 0 <= p < q < |ids| ensures Before(keys, ids[p], ids[q]) {
      assert Before(f, ids[p], ids[q]);
    }
  }

  /** A new name waits: the order and every other rank stay. */
  lemma RankedGrow(t: Ranking, key: ByteString)
    requires t.Ranked()
    ensures Ranking(t.keys + [key], t.rc + [1], t.order, t.rank + [UNRANKED]).Ranked()
  {
    var u := Ranking(t.keys + [key], t.rc + [1], t.order, t.rank + [UNRANKED]);
    forall p, q | 0 <= p < q < |u.order| ensures Before(u.keys, u.order[p], u.order[q]) {
      assert Before(t.keys, t.order[p], t.order[q]);
    }
    forall p | 0 <= p < |u.order| ensures u.RankedAt(p) {
      assert t.RankedAt(p);
    }
  }

  lemma WaitingGrow(rc: seq<nat>, order: seq<nat>, unranked: seq<nat>)
    requires Waiting(rc, order, unranked) && InRange(|rc|, order)
    ensures Waiting(rc + [1], order, unranked + [|rc|])
  {
    var unranked' := unranked + [|rc|];
    assert unranked'[|unranked|] == |rc|;
    forall id | 0 <= id < |rc| + 1 && (rc + [1])[id] > 0 ensures id in order || id in unranked' {
      if id < |rc| {
        assert id in order || id in unranked;
      }
    }
  }

  /** Ranks do not depend on who is alive. */
  lemma RankedRecount(t: Ranking, rc: seq<nat>)
    requires t.Ranked() && |rc| == |t.rc|
    ensures t.(rc := rc).Ranked()
  {
    forall p | 0 <= p < |t.order| ensures t.(rc := rc).RankedAt(p) {
      assert t.RankedAt(p);
    }
  }

  lemma WaitingRecount(rc: seq<nat>, order: seq<nat>, unranked: seq<nat>, id: nat, count: nat)
    requires Waiting(rc, order, unranked) && id < |rc| && rc[id] > 0
    ensures Waiting(rc[id := count], order, unranked)
  {
  }
}
