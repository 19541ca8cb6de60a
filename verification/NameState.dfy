/**
  * The state of the interned name store as a value, what each operation makes of it,
  * and that every operation keeps it valid.
  */
module NameState {
  import opened Bytes
  import opened NameArena
  import opened NameOrder
  import opened NameCompaction
  import opened NameRanks

  /** Freshly compacted storage and the renumbering of every id, built beside the store. */
  datatype CompactedNames = CompactedNames(arenas: Arenas, refcount: seq<nat>, head: seq<nat>, remap: seq<nat>)

  function FoldAll(fold: Fold, names: seq<ByteString>): (keys: seq<ByteString>)
    ensures |keys| == |names| && forall i :: 0 <= i < |names| ==> keys[i] == fold(names[i])
  {
    seq(|names|, i requires 0 <= i < |names| => fold(names[i]))
  }

  /** The table of `n` interned names. */
  function AllIds(n: nat): (ids: set<nat>)
    ensures forall id: nat {:trigger id in ids} :: id in ids <==> id < n
  {
    if n == 0 then {} else AllIds(n - 1) + {n - 1}
  }

  /** The live id that holds `name`. */
  ghost predicate Holds(names: seq<ByteString>, rc: seq<nat>, name: ByteString, id: nat) {
    id < |names| == |rc| && rc[id] > 0 && names[id] == name
  }

  /**
    * The intern table lists exactly the live ids, live ids have distinct names, and the
    * count of each is the number of references `refs` has to its name.
    */
  ghost predicate Interned(names: seq<ByteString>, rc: seq<nat>, table: set<nat>, refs: multiset<ByteString>) {
    && |names| == |rc|
    && (forall id: nat {:trigger id in table} :: id in table <==> id < |rc| && rc[id] > 0)
    && (forall i, j :: 0 <= i < j < |names| && rc[i] > 0 && rc[j] > 0 ==> names[i] != names[j])
    && (forall i {:trigger names[i]} :: 0 <= i < |names| && rc[i] > 0 ==> refs[names[i]] == rc[i])
    && (forall n {:trigger refs[n]} :: refs[n] > 0 ==> exists id: nat :: Holds(names, rc, n, id))
  }

  lemma InternedFresh(names: seq<ByteString>, rc: seq<nat>, table: set<nat>, refs: multiset<ByteString>,
    name: ByteString)
    requires Interned(names, rc, table, refs)
    requires forall id: nat :: !Holds(names, rc, name, id)
    ensures Interned(names + [name], rc + [1], table + {|names|}, refs + multiset{name})
  {
    var names', rc', refs' := names + [name], rc + [1], refs + multiset{name};
    forall i | 0 <= i < |names| && rc[i] > 0 ensures names[i] != name {
      assert !Holds(names, rc, name, i);
    }
    assert refs[name] == 0;
    forall n | refs'[n] > 0 ensures exists id: nat :: Holds(names', rc', n, id) {
      if n == name {
        assert Holds(names', rc', n, |names|);
      } else {
        var id: nat :| Holds(names, rc, n, id);
        assert Holds(names', rc', n, id);
      }
    }
  }

  lemma InternedAgain(names: seq<ByteString>, rc: seq<nat>, table: set<nat>, refs: multiset<ByteString>, id: nat)
    requires Interned(names, rc, table, refs) && id < |rc| && rc[id] > 0
    ensures Interned(names, rc[id := rc[id] + 1], table, refs + multiset{names[id]})
  {
    var rc', refs' := rc[id := rc[id] + 1], refs + multiset{names[id]};
    forall i | 0 <= i < |names| && rc[i] > 0 && i != id ensures names[i] != names[id] {
      assert i < id || id < i;
    }
    forall n | refs'[n] > 0 ensures exists k: nat :: Holds(names, rc', n, k) {
      assert n != names[id] ==> refs[n] > 0;
      var k: nat :| Holds(names, rc, n, k);
      assert Holds(names, rc', n, k);
    }
  }

  lemma InternedLess(names: seq<ByteString>, rc: seq<nat>, table: set<nat>, refs: multiset<ByteString>, id: nat)
    requires Interned(names, rc, table, refs) && id < |rc| && rc[id] > 0
    ensures Interned(names, rc[id := rc[id] - 1], if rc[id] == 1 then table - {id} else table,
      refs - multiset{names[id]})
  {
    var rc', refs' := rc[id := rc[id] - 1], refs - multiset{names[id]};
    forall i | 0 <= i < |names| && rc[i] > 0 && i != id ensures names[i] != names[id] {
      assert i < id || id < i;
    }
    forall n | refs'[n] > 0 ensures exists k: nat :: Holds(names, rc', n, k) {
      assert refs[n] > 0;
      var k: nat :| Holds(names, rc, n, k);
      assert Holds(names, rc', n, k);
    }
  }

  /**
    * The whole state of a name store, with what the program does not keep: the name each
    * id was interned as, dead ids included, and every reference handed out and not yet
    * released, by name.
    */
  datatype Store = Store(
    fold: Fold, arenas: Arenas, refcount: seq<nat>, head: seq<nat>, table: set<nat>, garbage: nat,
    order: seq<nat>, rank: seq<nat>, unranked: seq<nat>, deadRanked: nat,
    names: seq<ByteString>, refs: multiset<ByteString>)
  {
    function Keys(): (keys: seq<ByteString>)
      ensures |keys| == |names|
    {
      FoldAll(fold, names)
    }

    function View(): Ranking {
      Ranking(Keys(), refcount, order, rank)
    }

    /** The order covers what a merge will put in it, and its dead ids are counted. */
    ghost predicate Ordered() {
      && View().Ranked()
      && Waiting(refcount, order, unranked)
      && InRange(|refcount|, order)
      && deadRanked == CountDead(refcount, order, |order|)
    }

    ghost predicate Valid() {
      && |names| == |arenas.pairs| == |refcount| == |head| == |rank|
      && arenas.Lay(fold, names, refcount)
      && Interned(names, refcount, table, refs)
      && garbage == BytesOf(fold, names, refcount, false, |names|)
      && Ordered()
    }

    predicate Live(id: nat) {
      id < |refcount| && refcount[id] > 0
    }

    /** One more reference to the live id `id`. */
    function InternAgain(id: nat): Store {
      if !Live(id) || id >= |names| then this
      else this.(refcount := refcount[id := refcount[id] + 1], refs := refs + multiset{names[id]})
    }

    /** The name `name` under a new id. */
    function InternFresh(name: ByteString): Store {
      this.(arenas := Push(arenas, fold, name), refcount := refcount + [1], head := head + [NIL],
            table := table + {|names|}, rank := rank + [UNRANKED], unranked := unranked + [|names|],
            names := names + [name], refs := refs + multiset{name})
    }

    /** One reference less to `id`, not the last one. */
    function Drop(id: nat): Store
      requires Live(id) && id < |names|
    {
      this.(refcount := refcount[id := refcount[id] - 1], refs := refs - multiset{names[id]})
    }

    /** The last reference to `id` is gone. */
    function Bury(id: nat): Store
      requires id < |names| && id < |refcount| && id < |rank| && arenas.InBounds(id)
    {
      this.(refcount := refcount[id := 0], refs := refs - multiset{names[id]},
            arenas := Kill(arenas, id), table := table - {id}, garbage := garbage + CellBytes(fold, names[id]),
            deadRanked := deadRanked + if rank[id] != UNRANKED then 1 else 0)
    }

    /** One reference less to the live id `id`, which dies with the last one. */
    function Release(id: nat): Store {
      if !Live(id) || id >= |names| || id >= |rank| || !arenas.InBounds(id) then this
      else if refcount[id] > 1 then Drop(id)
      else Bury(id)
    }

    /** The order a full sort gives. */
    function SortedIds(): seq<nat> {
      if |names| == |refcount| then FullOrder(Keys(), refcount) else []
    }

    /** The integer a name is ordered by. */
    function RankKey(id: nat): nat {
      if id < |names| == |refcount| == |rank| && InRange(|names|, order) then View().RankKey(id) else 0
    }

    /** Every live id in one sorted order, none waiting. */
    function Reordered(order': seq<nat>, rank': seq<nat>): Store {
      this.(order := order', rank := rank', unranked := [], deadRanked := 0)
    }

    /** The store after its live names moved to `c`; `rank'` ranks the renumbered order. */
    function Compacted(c: CompactedNames, rank': seq<nat>): Store {
      if !InRange(|names|, Kept(refcount)) || !InRange(|c.remap|, order) || !InRange(|c.remap|, unranked) then this
      else this.(arenas := c.arenas, refcount := c.refcount, head := c.head,
            table := AllIds(|c.refcount|), garbage := 0,
            order := Renumber(order, c.remap), rank := rank', unranked := Renumber(unranked, c.remap),
            deadRanked := 0, names := Pick(names, Kept(refcount)))
    }

    /** `c` holds exactly the live names of this store, in id order, with their counts and heads. */
    ghost predicate PlannedBy(c: CompactedNames) {
      && |names| == |refcount| == |head|
      && c.refcount == Pick(refcount, Kept(refcount))
      && c.head == Pick(head, Kept(refcount))
      && c.arenas.Lay(fold, Pick(names, Kept(refcount)), c.refcount)
      && IsRemap(refcount, c.remap)
    }
  }

  lemma InternAgainValid(s: Store, id: nat)
    requires s.Valid() && s.Live(id)
    ensures s.InternAgain(id).Valid()
  {
    hide Arenas.Lay, Interned, BytesOf, Ranking.Ranked, Waiting, CountDead, FoldAll, InRange;
    var count := s.refcount[id] + 1;
    LayRecount(s.arenas, s.fold, s.names, s.refcount, id, count);
    InternedAgain(s.names, s.refcount, s.table, s.refs, id);
    BytesOfRecount(s.fold, s.names, s.refcount, id, count, |s.names|);
    RankedRecount(s.View(), s.refcount[id := count]);
    WaitingRecount(s.refcount, s.order, s.unranked, id, count);
    RankedDistinct(s.View());
    CountDeadRecount(s.refcount, s.order, id, count, |s.order|);
  }

  lemma RankedDistinct(t: Ranking)
    requires t.Ranked()
    ensures InRange(|t.rc|, t.order) && Distinct(t.order)
    ensures forall id :: 0 <= id < |t.rank| ==> (t.rank[id] != UNRANKED <==> id in t.order)
  {
    SortedDistinct(t.keys, t.order);
    forall id | id in t.order ensures id < |t.rank| && t.rank[id] != UNRANKED {
      var p :| 0 <= p < |t.order| && t.order[p] == id;
      assert t.RankedAt(p);
    }
  }

  lemma InternFreshValid(s: Store, name: ByteString)
    requires s.Valid() && Nameable(s.fold, name) && HasRoom(s.arenas, s.fold, name)
    requires forall i: nat :: !Holds(s.names, s.refcount, name, i)
    ensures s.InternFresh(name).Valid()
  {
    hide Arenas.Lay, Interned, BytesOf, Ranking.Ranked, Waiting, CountDead, Nameable;
    LayPush(s.arenas, s.fold, s.names, s.refcount, name, 1);
    InternedFresh(s.names, s.refcount, s.table, s.refs, name);
    BytesOfGrow(s.fold, s.names, s.refcount, name, 1, false);
    RankedGrow(s.View(), s.fold(name));
    WaitingGrow(s.refcount, s.order, s.unranked);
    CountDeadGrow(s.refcount, s.order, 1, |s.order|);
    assert FoldAll(s.fold, s.names + [name]) == s.Keys() + [s.fold(name)];
  }

  lemma ReleaseValid(s: Store, id: nat)
    requires s.Valid() && s.Live(id)
    ensures s.Release(id).Valid()
  {
    hide Arenas.Lay, Interned, BytesOf, Ranking.Ranked, Waiting, CountDead, FoldAll, InRange, Kill;
    var count := s.refcount[id] - 1;
    NameInBounds(s.arenas, s.fold, s.names, s.refcount, id);
    InternedLess(s.names, s.refcount, s.table, s.refs, id);
    BytesOfRecount(s.fold, s.names, s.refcount, id, count, |s.names|);
    RankedRecount(s.View(), s.refcount[id := count]);
    WaitingRecount(s.refcount, s.order, s.unranked, id, count);
    RankedDistinct(s.View());
    CountDeadRecount(s.refcount, s.order, id, count, |s.order|);
    assert s.order[..|s.order|] == s.order;
    if count > 0 {
      LayRecount(s.arenas, s.fold, s.names, s.refcount, id, count);
    } else {
      LayKill(s.arenas, s.fold, s.names, s.refcount, id);
    }
  }

  /**
    * A release leaves the rank of a live id `j`, current until then, naming a dead position exactly
    * when it was the last one of the id at that position: nothing is ranked anew.
    */
  lemma RankGoesStaleIff(s: Store, i: nat, j: nat)
    requires s.Valid() && s.Live(i) && s.Live(j) && i != j && j in s.order
    requires j < |s.rank| && s.rank[j] < |s.order| && s.Live(s.order[s.rank[j]])
    ensures var t := s.Release(i);
            && t.Valid() && t.Live(j) && t.rank == s.rank && t.order == s.order
            && (!t.Live(t.order[t.rank[j]]) <==> s.refcount[i] == 1 && s.order[s.rank[j]] == i)
  {
    hide Store.Valid, Arenas.InBounds, Kill, CellBytes;
    ReleaseValid(s, i);
    StoreSizes(s);
    NameBounds(s, i);
  }

  lemma StoreSizes(s: Store)
    requires s.Valid()
    ensures |s.names| == |s.arenas.pairs| == |s.refcount| == |s.head| == |s.rank|
  {
  }

  /** What the loops of the store need of a valid state. */
  lemma StoreReads(s: Store)
    requires s.Valid()
    ensures |s.names| == |s.arenas.pairs| == |s.refcount| == |s.head| == |s.rank|
    ensures forall id :: 0 <= id < |s.refcount| ==> s.arenas.InBounds(id)
    ensures Reads(s.arenas, s.refcount, s.Keys())
    ensures forall id: nat :: s.Live(id) ==> s.arenas.InBounds(id) && s.arenas.RawBytes(id) == s.names[id]
  {
    hide Arenas.Lay, Interned, BytesOf, CountDead, Waiting, Ranking.Ranked;
    forall id | 0 <= id < |s.refcount| ensures s.arenas.InBounds(id) {
      NameInBounds(s.arenas, s.fold, s.names, s.refcount, id);
    }
    forall id: nat | s.Live(id)
      ensures s.arenas.FoldedBytes(id) == s.Keys()[id] && s.arenas.RawBytes(id) == s.names[id]
    {
      LiveNameReads(s.arenas, s.fold, s.names, s.refcount, id);
    }
  }

  function Empty(fold: Fold): Store {
    Store(fold, Arenas([], [], []), [], [], {}, 0, [], [], [], 0, [], multiset{})
  }

  lemma EmptyValid(fold: Fold)
    ensures Empty(fold).Valid()
  {
  }

  lemma TableListsLive(s: Store)
    requires s.Valid()
    ensures forall id: nat :: id in s.table <==> s.Live(id)
  {
  }

  /** The references of a name say how many arena bytes it takes. */
  lemma CellBytesOf(s: Store, id: nat)
    requires s.Valid() && id < |s.names|
    ensures var p := s.arenas.pairs[id];
            CellBytes(s.fold, s.names[id]) == p.folded.len + 1 + if p.SharesFolded() then 0 else p.raw.len + 1
  {
    NameInBounds(s.arenas, s.fold, s.names, s.refcount, id);
    assert s.arenas.PairFits(s.fold, s.names, s.refcount, id);
  }

  lemma NameBounds(s: Store, id: nat)
    requires s.Valid() && id < |s.names|
    ensures s.arenas.InBounds(id)
  {
    NameInBounds(s.arenas, s.fold, s.names, s.refcount, id);
  }

  lemma SetHeadValid(s: Store, id: nat, e: nat)
    requires s.Valid() && id < |s.head|
    ensures s.(head := s.head[id := e]).Valid()
  {
    hide Arenas.Lay, Interned, BytesOf, Ranking.Ranked, Waiting, CountDead;
  }

  lemma WaitingOf(s: Store)
    requires s.Valid()
    ensures s.View().Ranked() && Waiting(s.refcount, s.order, s.unranked)
  {
  }

  // -- merging -------------------------------------------------------------------------

  /** The one sorted list of the live ids is the full order. */
  lemma FullOrderUnique(keys: seq<ByteString>, rc: seq<nat>, ids: seq<nat>)
    requires |keys| == |rc| && Sorted(keys, ids)
    requires forall id {:trigger id in ids} :: id in ids <==> 0 <= id < |rc| && rc[id] > 0
    ensures ids == FullOrder(keys, rc)
  {
    var full := FullOrder(keys, rc);
    forall id ensures id in ids <==> id in full {
      if id in full {
        var p :| 0 <= p < |full| && full[p] == id;
      }
    }
    SortedUnique(keys, ids, full);
  }

  /** The folded bytes of every id as the arena reads them now. */
  function FoldedTable(a: Arenas): (f: seq<ByteString>)
    requires forall id :: 0 <= id < |a.pairs| ==> a.InBounds(id)
    ensures |f| == |a.pairs| && forall id :: 0 <= id < |f| ==> f[id] == a.FoldedBytes(id)
  {
    seq(|a.pairs|, id requires 0 <= id < |a.pairs| => a.FoldedBytes(id))
  }

  /** Live ids sorted by what the arena reads are sorted by their keys. */
  lemma SortedByTable(a: Arenas, rc: seq<nat>, keys: seq<ByteString>, ids: seq<nat>)
    requires Reads(a, rc, keys) && forall id :: 0 <= id < |a.pairs| ==> a.InBounds(id)
    requires forall id :: id in ids ==> id < |rc| && rc[id] > 0
    requires Sorted(FoldedTable(a), ids)
    ensures Sorted(keys, ids) && AllLive(rc, ids)
  {
    forall p | 0 <= p < |ids| ensures ids[p] < |rc| && rc[ids[p]] > 0 {
      assert ids[p] in ids;
    }
    SortedTransfer(FoldedTable(a), keys, rc, ids);
  }

  lemma SortedLiveIsFull(a: Arenas, rc: seq<nat>, keys: seq<ByteString>, order: seq<nat>)
    requires Reads(a, rc, keys) && forall id :: 0 <= id < |a.pairs| ==> a.InBounds(id)
    requires Sorted(FoldedTable(a), order)
    requires forall id :: id in order <==> id in LiveIds(rc, |rc|)
    ensures order == FullOrder(keys, rc)
  {
    hide Sorted, FoldedTable, FullOrder, AllLive, Arenas.InBounds;
    LiveIdsMembers(rc, |rc|);
    SortedByTable(a, rc, keys, order);
    FullOrderUnique(keys, rc, order);
  }

  lemma {:induction false} OnlyLiveAscends(rc: seq<nat>, ids: seq<nat>)
    requires InRange(|rc|, ids) && Ascends(ids)
    ensures Ascends(OnlyLive(rc, ids))
    decreases |ids|
  {
    if ids != [] {
      var last := |ids| - 1;
      var rest := OnlyLive(rc, ids[..last]);
      OnlyLiveAscends(rc, ids[..last]);
      forall k | 0 <= k < |rest| ensures rest[k] < ids[last] {
        assert rest[k] in rest;
        assert rest[k] in ids[..last];
      }
    }
  }

  lemma {:induction false} StartAtLeast(fold: Fold, names: seq<ByteString>, rc: seq<nat>, n: nat)
    requires n <= |names| == |rc|
    ensures Start(FoldedCells(fold, names, rc), n) >= n
  {
    if n > 0 {
      StartAtLeast(fold, names, rc, n - 1);
      StartStep(FoldedCells(fold, names, rc), n - 1);
    }
  }

  /** Every name has a separator, so 2 GiB of arena bound the ids, and with them the order. */
  lemma OrderBelowUnranked(s: Store, order: seq<nat>)
    requires |s.names| == |s.refcount| && s.arenas.Lay(s.fold, s.names, s.refcount) && Sorted(s.Keys(), order)
    ensures |order| <= |s.names| <= RAW_IN_FOLDED < UNRANKED
  {
    var cells := FoldedCells(s.fold, s.names, s.refcount);
    StartAtLeast(s.fold, s.names, s.refcount, |s.names|);
    assert cells[..|s.names|] == cells;
    SortedDistinct(s.Keys(), order);
    DistinctBelow(order, |s.names|);
  }

  lemma WaitingNone(rc: seq<nat>, order: seq<nat>)
    requires ListsLive(rc, order)
    ensures Waiting(rc, order, []) && InRange(|rc|, order)
  {
  }

  lemma ReorderedValid(s: Store, order: seq<nat>, rank: seq<nat>)
    requires s.Valid() && order == s.SortedIds()
    requires RanksLive(s.Keys(), s.refcount, order, rank, |order|)
    ensures s.Reordered(order, rank).Valid()
  {
    hide Arenas.Lay, Interned, BytesOf, Ranking.Ranked, CountDead, FoldAll, RanksLive, FullOrder, Sorted, AllLive,
      Waiting;
    OrderBelowUnranked(s, order);
    RanksLiveRanked(Ranking(s.Keys(), s.refcount, order, rank));
    CountDeadAllLive(s.refcount, order, |order|);
    WaitingNone(s.refcount, order);
  }

  // -- compaction ------------------------------------------------------------------------

  lemma InternedKept(names: seq<ByteString>, rc: seq<nat>, table: set<nat>, refs: multiset<ByteString>, remap: seq<nat>)
    requires Interned(names, rc, table, refs) && IsRemap(rc, remap)
    ensures Interned(Pick(names, Kept(rc)), Pick(rc, Kept(rc)), AllIds(|Kept(rc)|), refs)
  {
    var kept := Kept(rc);
    LiveIdsAscend(rc, |rc|);
    var names', rc' := Pick(names, kept), Pick(rc, kept);
    forall n | refs[n] > 0 ensures exists id: nat :: Holds(names', rc', n, id) {
      var id: nat :| Holds(names, rc, n, id);
      RemapFinds(rc, remap, id);
      assert Holds(names', rc', n, remap[id]);
    }
    forall i, j | 0 <= i < j < |names'| ensures names'[i] != names'[j] {
      assert kept[i] < kept[j];
    }
  }

  lemma {:induction false} NoDeadBytes(fold: Fold, names: seq<ByteString>, rc: seq<nat>, n: nat)
    requires n <= |names| == |rc| && forall i :: 0 <= i < |rc| ==> rc[i] > 0
    ensures BytesOf(fold, names, rc, false, n) == 0
  {
    if n > 0 { NoDeadBytes(fold, names, rc, n - 1); }
  }

  /** The kept names take the bytes the live names took. */
  lemma {:induction false} KeptBytes(fold: Fold, names: seq<ByteString>, rc: seq<nat>, n: nat)
    requires n <= |names| == |rc|
    ensures var ids := LiveIds(rc, n);
            BytesOf(fold, Pick(names, ids), Pick(rc, ids), true, |ids|) == BytesOf(fold, names, rc, true, n)
  {
    hide CellBytes, Pick;
    if n > 0 {
      KeptBytes(fold, names, rc, n - 1);
      if rc[n - 1] > 0 {
        var ids := LiveIds(rc, n - 1);
        PickAppend(names, ids, n - 1);
        PickAppend(rc, ids, n - 1);
        BytesOfGrow(fold, Pick(names, ids), Pick(rc, ids), names[n - 1], rc[n - 1], true);
      }
    }
  }

  lemma PickAppend<T>(s: seq<T>, ids: seq<nat>, i: nat)
    requires InRange(|s|, ids) && i < |s|
    ensures Pick(s, ids + [i]) == Pick(s, ids) + [s[i]]
  {
  }

  /** Compaction frees exactly the garbage. */
  lemma CompactionFreesGarbage(s: Store, c: CompactedNames)
    requires s.Valid() && s.PlannedBy(c)
    ensures |c.arenas.raw| + |c.arenas.folded| == |s.arenas.raw| + |s.arenas.folded| - s.garbage
  {
    var names' := Pick(s.names, Kept(s.refcount));
    ArenaBytes(s.arenas, s.fold, s.names, s.refcount);
    ArenaBytes(c.arenas, s.fold, names', c.refcount);
    NoDeadBytes(s.fold, names', c.refcount, |c.refcount|);
    KeptBytes(s.fold, s.names, s.refcount, |s.refcount|);
  }

  /** The renumbered order is sorted in the new store and lists only live ids. */
  lemma CompactedOrder(s: Store, c: CompactedNames)
    requires s.Valid() && s.PlannedBy(c)
    ensures InRange(|c.remap|, s.order) && InRange(|c.remap|, s.unranked)
    ensures var keys' := FoldAll(s.fold, Pick(s.names, Kept(s.refcount)));
            && Sorted(keys', Renumber(s.order, c.remap))
            && AllLive(c.refcount, Renumber(s.order, c.remap))
    ensures Waiting(c.refcount, Renumber(s.order, c.remap), Renumber(s.unranked, c.remap))
  {
    hide Arenas.Lay, Interned, BytesOf, CountDead, Ranking.RankedAt, Before, Renumber;
    RenumberSorted(s.Keys(), s.refcount, s.order, c.remap);
    assert FoldAll(s.fold, Pick(s.names, Kept(s.refcount))) == Pick(s.Keys(), Kept(s.refcount));
    RenumberWaiting(s.refcount, s.order, s.unranked, c.remap);
  }

  lemma CompactedValid(s: Store, c: CompactedNames, rank: seq<nat>)
    requires s.Valid() && s.PlannedBy(c)
    requires InRange(|c.remap|, s.order) && InRange(|c.remap|, s.unranked)
    requires var keys' := FoldAll(s.fold, Pick(s.names, Kept(s.refcount)));
             var order' := Renumber(s.order, c.remap);
             RanksLive(keys', c.refcount, order', rank, |order'|)
    ensures s.Compacted(c, rank).Valid()
  {
    hide Arenas.Lay, Interned, BytesOf, Ranking.Ranked, Waiting, CountDead, FoldAll, Sorted, Renumber, RanksLive;
    var d := s.Compacted(c, rank);
    CompactedOrder(s, c);
    OrderBelowUnranked(d, d.order);
    InternedKept(s.names, s.refcount, s.table, s.refs, c.remap);
    NoDeadBytes(s.fold, d.names, d.refcount, |d.names|);
    LaySizes(d.arenas, d.fold, d.names, d.refcount);
    CountDeadAllLive(d.refcount, d.order, |d.order|);
    RanksLiveRanked(d.View());
  }

  /**
    * What a name was before compaction it is after, under its new id: its bytes, count
    * and chain head. New ids keep the order of the old ones, and every one has an old one.
    */
  lemma CompactionKeepsNames(s: Store, c: CompactedNames, rank: seq<nat>, id: nat)
    requires s.Valid() && s.PlannedBy(c) && s.Live(id)
    requires InRange(|c.remap|, s.order) && InRange(|c.remap|, s.unranked) && s.Compacted(c, rank).Valid()
    ensures var d, n := s.Compacted(c, rank), c.remap[id];
            && d.Live(n)
            && Holds(d.names, d.refcount, s.names[id], n)
            && s.arenas.InBounds(id) && d.arenas.InBounds(n)
            && d.arenas.RawBytes(n) == s.arenas.RawBytes(id)
            && d.arenas.FoldedBytes(n) == s.arenas.FoldedBytes(id)
            && d.refcount[n] == s.refcount[id] && d.head[n] == s.head[id]
            && (forall j :: id < j && s.Live(j) ==> n < c.remap[j])
            && (id in s.order <==> n in d.order)
            && (id in s.unranked <==> n in d.unranked)
  {
    hide Arenas.Lay, Interned, BytesOf, Ranking.Ranked, CountDead, Waiting;
    RemapFinds(s.refcount, c.remap, id);
    LiveNameReads(s.arenas, s.fold, s.names, s.refcount, id);
    LiveNameReads(c.arenas, s.fold, Pick(s.names, Kept(s.refcount)), c.refcount, c.remap[id]);
    forall j | id < j && s.Live(j) ensures c.remap[id] < c.remap[j] {
      RemapMonotone(s.refcount, c.remap, id, j);
    }
    RenumberHolds(s.refcount, s.order, c.remap, id);
    RenumberHolds(s.refcount, s.unranked, c.remap, id);
  }

  // -- building the plan -----------------------------------------------------------------

  /** `c` holds the live names below `i`, in arenas no longer than the originals up to there. */
  ghost predicate PlanSoFar(
    fold: Fold, names: seq<ByteString>, rc: seq<nat>, head: seq<nat>, c: CompactedNames, i: nat)
  {
    && i <= |rc| == |names| == |head| == |c.remap| <= NIL
    && c.refcount == Pick(rc, LiveIds(rc, i))
    && c.head == Pick(head, LiveIds(rc, i))
    && c.arenas.Lay(fold, Pick(names, LiveIds(rc, i)), c.refcount)
    && |c.arenas.folded| <= Start(FoldedCells(fold, names, rc), i)
    && |c.arenas.raw| <= Start(RawCells(fold, names, rc), i)
    && (forall j {:trigger c.remap[j]} :: 0 <= j < |rc| ==>
          c.remap[j] == if j < i && rc[j] > 0 then |LiveIds(rc, j)| else NIL)
  }

  /** The plan with one more live name. */
  function PlanWith(c: CompactedNames, fold: Fold, name: ByteString, i: nat, count: nat, e: nat): CompactedNames
    requires i < |c.remap|
  {
    CompactedNames(Push(c.arenas, fold, name), c.refcount + [count], c.head + [e], c.remap[i := |c.arenas.pairs|])
  }

  lemma PlanStepLive(a: Arenas, fold: Fold, names: seq<ByteString>, rc: seq<nat>, head: seq<nat>, c: CompactedNames,
    i: nat)
    requires a.Lay(fold, names, rc) && PlanSoFar(fold, names, rc, head, c, i) && i < |rc| && rc[i] > 0
    ensures PlanSoFar(fold, names, rc, head, PlanWith(c, fold, names[i], i, rc[i], head[i]), i + 1)
  {
    hide Arenas.Lay, FoldedCells, RawCells, Start, LiveIds, Pick;
    var ids := LiveIds(rc, i);
    PlanRoom(a, fold, names, rc, i);
    LayNames(a, fold, names, rc, i);
    LaySizes(c.arenas, fold, Pick(names, ids), c.refcount);
    LiveIdsStep(rc, i);
    PickAppend(names, ids, i);
    PickAppend(rc, ids, i);
    PickAppend(head, ids, i);
    hide Nameable;
    LayPush(c.arenas, fold, Pick(names, ids), c.refcount, names[i], rc[i]);
  }

  lemma LiveIdsStep(rc: seq<nat>, i: nat)
    requires i < |rc| && rc[i] > 0
    ensures LiveIds(rc, i + 1) == LiveIds(rc, i) + [i]
  {
  }

  lemma LiveIdsSkip(rc: seq<nat>, i: nat)
    requires i < |rc| && rc[i] == 0
    ensures LiveIds(rc, i + 1) == LiveIds(rc, i)
  {
  }

  lemma LayNames(a: Arenas, fold: Fold, names: seq<ByteString>, rc: seq<nat>, i: nat)
    requires a.Lay(fold, names, rc) && i < |names|
    ensures Nameable(fold, names[i])
  {
  }

  lemma LaySizes(a: Arenas, fold: Fold, names: seq<ByteString>, rc: seq<nat>)
    requires a.Lay(fold, names, rc)
    ensures |a.pairs| == |names| == |rc|
  {
  }

  /** Cell `i` still fits where the original arenas held it. */
  lemma PlanRoom(a: Arenas, fold: Fold, names: seq<ByteString>, rc: seq<nat>, i: nat)
    requires a.Lay(fold, names, rc) && i < |rc|
    ensures Start(FoldedCells(fold, names, rc), i + 1) == Start(FoldedCells(fold, names, rc), i) + |fold(names[i])| + 1
    ensures Start(RawCells(fold, names, rc), i + 1)
            == Start(RawCells(fold, names, rc), i) + if fold(names[i]) == names[i] then 0 else |names[i]| + 1
    ensures Start(FoldedCells(fold, names, rc), i + 1) <= RAW_IN_FOLDED
    ensures Start(RawCells(fold, names, rc), i + 1) <= RAW_IN_FOLDED
  {
    var fcells, rcells := FoldedCells(fold, names, rc), RawCells(fold, names, rc);
    StartStep(fcells, i);
    StartStep(rcells, i);
    FlatSplit(fcells, i);
    FlatSplit(rcells, i);
  }

  lemma PlanStepDead(fold: Fold, names: seq<ByteString>, rc: seq<nat>, head: seq<nat>, c: CompactedNames, i: nat)
    requires PlanSoFar(fold, names, rc, head, c, i) && i < |rc| && rc[i] == 0
    ensures PlanSoFar(fold, names, rc, head, c, i + 1)
  {
    hide Arenas.Lay, FoldedCells, RawCells, Start, LiveIds, Pick;
    StartMonotone(FoldedCells(fold, names, rc), i, i + 1);
    StartMonotone(RawCells(fold, names, rc), i, i + 1);
    LiveIdsSkip(rc, i);
  }

  lemma PlanDone(s: Store, c: CompactedNames)
    requires |s.names| == |s.refcount| && PlanSoFar(s.fold, s.names, s.refcount, s.head, c, |s.refcount|)
    ensures s.PlannedBy(c)
  {
    hide Arenas.Lay, FoldedCells, RawCells, Start;
  }

  lemma PlanStart(fold: Fold, names: seq<ByteString>, rc: seq<nat>, head: seq<nat>, c: CompactedNames)
    requires |rc| == |names| == |head| == |c.remap| <= NIL
    requires c == CompactedNames(Arenas([], [], []), [], [], c.remap) && forall j :: 0 <= j < |rc| ==> c.remap[j] == NIL
    ensures PlanSoFar(fold, names, rc, head, c, 0)
  {
  }

  lemma LayOf(s: Store)
    requires s.Valid()
    ensures s.arenas.Lay(s.fold, s.names, s.refcount) && |s.names| == |s.refcount| == |s.head| <= NIL
  {
    OrderBelowUnranked(s, []);
  }

  lemma PlannedSizes(s: Store, c: CompactedNames)
    requires s.Valid() && s.PlannedBy(c)
    ensures InRange(|s.names|, Kept(s.refcount)) && |c.arenas.pairs| == |c.refcount|
  {
  }

  lemma CompactedReads(s: Store, c: CompactedNames)
    requires s.Valid() && s.PlannedBy(c)
    ensures Reads(c.arenas, c.refcount, FoldAll(s.fold, Pick(s.names, Kept(s.refcount))))
  {
    var names' := Pick(s.names, Kept(s.refcount));
    assert c.arenas.Lay(s.fold, names', c.refcount) && |names'| == |c.refcount| == |c.arenas.pairs|;
    hide Arenas.Lay, Store.Valid, Store.PlannedBy;
    forall id | 0 <= id < |c.refcount| && c.refcount[id] > 0
      ensures c.arenas.InBounds(id) && c.arenas.FoldedBytes(id) == FoldAll(s.fold, names')[id]
    {
      LiveNameReads(c.arenas, s.fold, names', c.refcount, id);
    }
  }
}
