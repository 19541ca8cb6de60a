/**
  * The interned name store: every distinct name once, in two NUL-separated arenas, with
  * reference counts, an intern table, and an incrementally kept name order. Each method
  * makes of the state what the matching function of `NameState.Store` makes of it.
  */
module Names {
  import opened Bytes
  import opened NameArena
  import opened NameOrder
  import opened NameCompaction
  import opened NameState
  import NameRanks

  /** The fields of the store. */
  datatype Tables = Tables(
    /** Both arenas and the references into them, by id. */
    bytes: Arenas,
    /** References and chain head of every id. */
    refcount: seq<nat>, head: seq<nat>,
    /** The intern table: it stores only ids, the key bytes are in the arenas. */
    byBytes: set<nat>,
    /** Dead bytes in both arenas. */
    garbage: nat,
    /** The name order, the ranks, the ids that wait outside it, and how many in it are dead. */
    order: seq<nat>, rankOf: seq<nat>, unranked: seq<nat>, deadRanked: nat)

  /** Appends `bytes` and their separator to an arena. */
  method PushBytes(buf: ByteString, bytes: ByteString) returns (out: ByteString, r: NameRef)
    ensures out == buf + bytes + [0] && r == NameRef(|buf|, |bytes|)
  {
    out := buf + bytes + [0];
    r := NameRef(|buf|, |bytes|);
  }

  /** Stores a new name: the folded bytes, the raw ones unless they are the same, and their references. */
  method PushName(a: Arenas, fold: Fold, name: ByteString) returns (b: Arenas)
    ensures b == Push(a, fold, name)
  {
    var foldedBytes := fold(name);
    var folded, foldedRef := PushBytes(a.folded, foldedBytes);
    var raw, rawRef := a.raw, NameRef(foldedRef.off + RAW_IN_FOLDED, foldedRef.len);
    if foldedBytes != name {
      raw, rawRef := PushBytes(a.raw, name);
    }
    b := Arenas(raw, folded, a.pairs + [NamePair(rawRef, foldedRef)]);
  }

  /** Zero-fills the bytes of a reference. */
  method ZeroFill(buf: ByteString, r: NameRef) returns (out: ByteString)
    requires r.off + r.len <= |buf|
    ensures out == Blank(buf, r)
  {
    out := buf;
    var k := 0;
    while k < r.len
      invariant 0 <= k <= r.len && |out| == |buf|
      invariant forall i :: 0 <= i < |buf| ==> out[i] == if r.off <= i < r.off + k then 0 else buf[i]
    {
      out := out[r.off + k := 0];
      k := k + 1;
    }
  }

  /** Zero-fills the bytes of a dead name and counts them, separators included. */
  method KillName(a: Arenas, id: nat) returns (b: Arenas, freed: nat)
    requires a.InBounds(id)
    ensures b == Kill(a, id)
    ensures var p := a.pairs[id]; freed == p.folded.len + 1 + if p.SharesFolded() then 0 else p.raw.len + 1
  {
    var pair := a.pairs[id];
    var folded := ZeroFill(a.folded, pair.folded);
    freed := pair.folded.len + 1;
    var raw := a.raw;
    if !pair.SharesFolded() {
      raw := ZeroFill(a.raw, pair.raw);
      freed := freed + pair.raw.len + 1;
    }
    b := Arenas(raw, folded, a.pairs);
  }

  /** The order with the waiting ids merged in and the dead ones left out: one merge, never a re-sort. */
  method MergedOrder(a: Arenas, rc: seq<nat>, order: seq<nat>, unranked: seq<nat>, ghost keys: seq<ByteString>)
    returns (merged: seq<nat>)
    requires NameRanks.Reads(a, rc, keys) && Sorted(keys, order) && Waiting(rc, order, unranked)
    requires forall id :: 0 <= id < |a.pairs| ==> a.InBounds(id)
    ensures merged == FullOrder(keys, rc)
  {
    hide Arenas.InBounds, FullOrder, SortIds, AllLive, Before;
    var waiting := NameRanks.OnlyLive(rc, unranked);
    OnlyLiveAscends(rc, unranked);
    assert InRange(|rc|, waiting) by {
      forall p | 0 <= p < |waiting| ensures waiting[p] < |rc| { assert waiting[p] in waiting; }
    }
    waiting := SortIds(FoldedTable(a), waiting);
    SortedByTable(a, rc, keys, waiting);
    var ranked := NameRanks.OnlyLive(rc, order);
    NameRanks.OnlyLiveSorted(keys, rc, order);
    merged := NameRanks.MergeIds(a, rc, ranked, waiting, keys);
    FullOrderUnique(keys, rc, merged);
  }

  /** The intern table of `n` distinct names, one id after the other. */
  method RebuildTable(n: nat) returns (table: set<nat>)
    ensures table == AllIds(n)
  {
    table := {};
    var id := 0;
    while id < n
      invariant 0 <= id <= n && table == AllIds(id)
    {
      table := table + {id};
      id := id + 1;
    }
  }

  /** Copies the live name `i` into the compacted arenas. */
  method CopyName(a: Arenas, i: nat, b: Arenas, ghost fold: Fold, ghost names: seq<ByteString>, ghost rc: seq<nat>)
    returns (b': Arenas)
    requires a.Lay(fold, names, rc) && i < |rc| && rc[i] > 0
    ensures b' == Push(b, fold, names[i])
  {
    LiveNameReads(a, fold, names, rc, i);
    NameInBounds(a, fold, names, rc, i);
    hide Arenas.Lay, Arenas.InBounds, Arenas.RawBytes, Arenas.FoldedBytes;
    var folded, foldedRef := PushBytes(b.folded, a.FoldedBytes(i));
    var raw, rawRef := b.raw, NameRef(foldedRef.off + RAW_IN_FOLDED, foldedRef.len);
    if !a.pairs[i].SharesFolded() {
      raw, rawRef := PushBytes(b.raw, a.RawBytes(i));
    }
    b' := Arenas(raw, folded, b.pairs + [NamePair(rawRef, foldedRef)]);
  }

  /** Builds compacted storage that keeps only the live names, in id order. */
  method PlanNames(a: Arenas, rc: seq<nat>, head: seq<nat>, ghost fold: Fold, ghost names: seq<ByteString>)
    returns (c: CompactedNames)
    requires a.Lay(fold, names, rc) && |rc| == |head| <= NIL && |names| == |rc|
    ensures PlanSoFar(fold, names, rc, head, c, |rc|)
  {
    hide Arenas.Lay, PlanSoFar;
    c := CompactedNames(Arenas([], [], []), [], [], seq(|rc|, _ => NIL));
    PlanStart(fold, names, rc, head, c);
    var i := 0;
    while i < |rc|
      invariant 0 <= i <= |rc| == |c.remap|
      invariant PlanSoFar(fold, names, rc, head, c, i)
    {
      if rc[i] > 0 {
        PlanStepLive(a, fold, names, rc, head, c, i);
        var arenas := CopyName(a, i, c.arenas, fold, names, rc);
        c := CompactedNames(arenas, c.refcount + [rc[i]], c.head + [head[i]], c.remap[i := |c.arenas.pairs|]);
      } else {
        PlanStepDead(fold, names, rc, head, c, i);
      }
      i := i + 1;
    }
  }

  class NameStore {
    const fold: Fold
    var t: Tables
    /** The name each id was interned as, dead ids included. */
    ghost var names: seq<ByteString>
    /** Every reference handed out and not yet released, by name. */
    ghost var refs: multiset<ByteString>

    ghost function State(): Store
      reads this
    {
      Store(fold, t.bytes, t.refcount, t.head, t.byBytes, t.garbage, t.order, t.rankOf, t.unranked, t.deadRanked,
            names, refs)
    }

    ghost predicate Valid()
      reads this
    {
      State().Valid()
    }

    /** An empty store that folds names by `fold`. */
    constructor (fold: Fold)
      ensures State() == Empty(fold) && Valid()
    {
      this.fold := fold;
      t := Tables(Arenas([], [], []), [], [], {}, 0, [], [], [], 0);
      names, refs := [], multiset{};
      EmptyValid(fold);
    }

    /** No live id holds `name`. */
    ghost predicate Misses(name: ByteString)
      reads this
    {
      forall i: nat :: !Holds(names, t.refcount, name, i)
    }

    /**
      * Interns `name`: one more reference to the live id that holds it, or a fresh id at
      * the end. An id that died is never returned again.
      */
    method Intern(name: ByteString) returns (id: nat)
      requires Valid() && (Misses(name) ==> Nameable(fold, name) && HasRoom(t.bytes, fold, name))
      modifies this
      ensures Valid()
      ensures id < |old(names)| ==>
                Holds(old(names), old(t.refcount), name, id) && State() == old(State()).InternAgain(id)
      ensures id >= |old(names)| ==>
                && id == |old(names)| && old(Misses(name))
                && State() == old(State()).InternFresh(name)
    {
      hide Store.Valid, Store.InternFresh, Nameable, HasRoom, Arenas.InBounds, Arenas.RawBytes, NameRanks.Reads;
      StoreReads(State());
      TableListsLive(State());
      if found: nat :| found in t.byBytes && t.bytes.RawBytes(found) == name {
        InternAgainValid(State(), found);
        t := t.(refcount := t.refcount[found := t.refcount[found] + 1]);
        refs := refs + multiset{name};
        id := found;
      } else {
        id := InternFresh(name);
      }
    }

    /** The miss path of `Intern`. */
    method InternFresh(name: ByteString) returns (id: nat)
      requires Valid() && Nameable(fold, name) && HasRoom(t.bytes, fold, name)
      requires Misses(name)
      modifies this
      ensures Valid() && State() == old(State()).InternFresh(name) && id == |old(names)|
    {
      hide Store.Valid, Nameable, HasRoom, Holds, Push;
      InternFreshValid(State(), name);
      StoreSizes(State());
      id := |t.bytes.pairs|;
      var bytes := PushName(t.bytes, fold, name);
      t := t.(bytes := bytes, refcount := t.refcount + [1], head := t.head + [NIL],
              rankOf := t.rankOf + [UNRANKED], unranked := t.unranked + [id], byBytes := t.byBytes + {id});
      names, refs := names + [name], refs + multiset{name};
    }

    /**
      * Drops one reference to `id`. With the last one the bytes are zero-filled, the
      * intern entry goes, and the bytes count as garbage.
      */
    method Release(id: nat)
      requires Valid() && State().Live(id)
      requires id < |t.head| && (t.refcount[id] == 1 ==> t.head[id] == NIL)
      modifies this
      ensures Valid() && State() == old(State()).Release(id)
    {
      hide Store.Valid, Kill, CellBytes, Arenas.InBounds;
      StoreSizes(State());
      NameBounds(State(), id);
      ReleaseValid(State(), id);
      CellBytesOf(State(), id);
      refs := refs - multiset{names[id]};
      var left := t.(refcount := t.refcount[id := t.refcount[id] - 1]);
      if left.refcount[id] == 0 {
        left := left.(byBytes := left.byBytes - {id});
        if left.rankOf[id] != UNRANKED {
          left := left.(deadRanked := left.deadRanked + 1);
        }
        var bytes, freed := KillName(left.bytes, id);
        left := left.(bytes := bytes, garbage := left.garbage + freed);
      }
      t := left;
    }

    /** Points the same-name chain of `id` at entry `e`. */
    method SetChainHead(id: nat, e: nat)
      requires Valid() && id < |t.head|
      modifies this`t
      ensures Valid() && State() == old(State()).(head := old(t.head)[id := e])
    {
      hide Store.Valid;
      SetHeadValid(State(), id, e);
      t := t.(head := t.head[id := e]);
    }

    // -- compaction ---------------------------------------------------------------------

    /** Builds compacted storage without touching the store. */
    method PlanCompact() returns (c: CompactedNames)
      requires Valid()
      ensures State().PlannedBy(c)
    {
      hide Store.Valid, Arenas.Lay, Store.PlannedBy;
      LayOf(State());
      c := PlanNames(t.bytes, t.refcount, t.head, fold, names);
      PlanDone(State(), c);
    }

    /** Installs storage planned for exactly this state and returns the renumbering of its ids. */
    method InstallCompacted(c: CompactedNames) returns (remap: seq<nat>)
      requires Valid() && State().PlannedBy(c)
      modifies this
      ensures Valid() && remap == c.remap && State() == old(State()).Compacted(c, t.rankOf)
    {
      hide Store.Valid, Store.PlannedBy, Sorted, AllLive, Waiting, InRange, NameRanks.Reads, NameRanks.RanksLive,
        Pick, Renumber, FoldAll;
      PlannedSizes(State(), c);
      CompactedOrder(State(), c);
      CompactedReads(State(), c);
      var order, unranked := Renumber(t.order, c.remap), Renumber(t.unranked, c.remap);
      ghost var keys := FoldAll(fold, Pick(names, Kept(t.refcount)));
      var table := RebuildTable(|c.arenas.pairs|);
      var rank := NameRanks.Rerank(c.arenas, c.refcount, order, keys);
      CompactedValid(State(), c, rank);
      names := Pick(names, Kept(t.refcount));
      t := Tables(c.arenas, c.refcount, c.head, table, 0, order, rank, unranked, 0);
      remap := c.remap;
    }

    // -- name order ---------------------------------------------------------------------

    /** Sorts every live id into the name order and ranks it. */
    method BuildOrder()
      requires Valid()
      modifies this`t
      ensures Valid() && t.order == State().SortedIds()
      ensures State() == old(State()).Reordered(t.order, t.rankOf)
    {
      hide Store.Valid, NameRanks.Reads, Arenas.InBounds, FullOrder, FoldAll, SortIds, Sorted, NameRanks.RanksLive;
      StoreReads(State());
      ghost var keys := State().Keys();
      LiveIdsAscend(t.refcount, |t.refcount|);
      var order := SortIds(FoldedTable(t.bytes), LiveIds(t.refcount, |t.refcount|));
      SortedLiveIsFull(t.bytes, t.refcount, keys, order);
      var rank := NameRanks.Rerank(t.bytes, t.refcount, order, keys);
      ReorderedValid(State(), order, rank);
      t := t.(order := order, rankOf := rank, unranked := [], deadRanked := 0);
    }

    /** Folds the waiting ids into the order and drops the dead ones. */
    method MergeUnranked()
      requires Valid()
      modifies this`t
      ensures Valid() && t.order == State().SortedIds()
      ensures State() == old(State()).Reordered(t.order, t.rankOf)
    {
      if t.order == [] {
        BuildOrder();
        return;
      }
      hide Store.Valid, NameRanks.Reads, Arenas.InBounds, FullOrder, FoldAll, Sorted, NameRanks.RanksLive, Waiting;
      StoreReads(State());
      WaitingOf(State());
      ghost var keys := State().Keys();
      var order := MergedOrder(t.bytes, t.refcount, t.order, t.unranked, keys);
      var rank := NameRanks.Rerank(t.bytes, t.refcount, order, keys);
      ReorderedValid(State(), order, rank);
      t := t.(order := order, rankOf := rank, unranked := [], deadRanked := 0);
    }

    /** The integer a name-sorted candidate is ordered by. */
    method RankKey(id: nat) returns (k: nat)
      requires Valid() && State().Live(id)
      ensures k == State().RankKey(id)
    {
      hide Store.Valid;
      StoreReads(State());
      WaitingOf(State());
      k := NameRanks.RankKey(t.bytes, t.refcount, t.order, t.rankOf, id, State().Keys());
    }
  }
}
