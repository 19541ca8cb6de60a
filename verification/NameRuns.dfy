/**
  * Every run of a name store: any sequence of interning, releasing, re-chaining, sorting,
  * merging and compacting, from the empty store on.
  */
module NameRuns {
  import opened Bytes
  import opened NameArena
  import opened NameCompaction
  import opened NameOrder
  import opened NameRanks
  import opened NameState

  datatype Op = Intern(name: ByteString) | Release(id: nat) | SetHead(id: nat, e: nat) | Sort | Compact

  /** `t` is what the operation makes of `s`. Building the order and merging into it both sort it. */
  ghost predicate Step(s: Store, op: Op, t: Store) {
    match op
    case Intern(name) => InternStep(s, name, t)
    case Release(id) => s.Live(id) && t == s.Release(id)
    case SetHead(id, e) => id < |s.head| && t == s.(head := s.head[id := e])
    case Sort => SortStep(s, t)
    case Compact => exists c :: CompactStep(s, c, t)
  }

  ghost predicate InternStep(s: Store, name: ByteString, t: Store) {
    if forall id: nat :: !Holds(s.names, s.refcount, name, id)
    then Nameable(s.fold, name) && HasRoom(s.arenas, s.fold, name) && t == s.InternFresh(name)
    else exists id: nat :: Holds(s.names, s.refcount, name, id) && t == s.InternAgain(id)
  }

  ghost predicate SortStep(s: Store, t: Store) {
    && t == s.Reordered(s.SortedIds(), t.rank)
    && RanksLive(t.Keys(), t.refcount, t.order, t.rank, |t.order|)
  }

  ghost predicate CompactStep(s: Store, c: CompactedNames, t: Store) {
    && s.PlannedBy(c) && t == s.Compacted(c, t.rank)
    && RanksLive(t.Keys(), t.refcount, t.order, t.rank, |t.order|)
  }

  /** `states` is a run of `ops` from the empty store. */
  ghost predicate Run(fold: Fold, ops: seq<Op>, states: seq<Store>) {
    && |states| == |ops| + 1
    && states[0] == Empty(fold)
    && forall k :: 0 <= k < |ops| ==> Step(states[k], ops[k], states[k + 1])
  }

  lemma StepValid(s: Store, op: Op, t: Store)
    requires s.Valid() && Step(s, op, t)
    ensures t.Valid() && t.fold == s.fold
  {
    hide Store.Valid, RanksLive, Nameable, HasRoom, Holds;
    match op
    case Intern(name) =>
      if forall id: nat :: !Holds(s.names, s.refcount, name, id) {
        InternFreshValid(s, name);
      } else {
        var id: nat :| Holds(s.names, s.refcount, name, id) && t == s.InternAgain(id);
        HoldsLive(s, name, id);
        InternAgainValid(s, id);
      }
    case Release(id) => ReleaseValid(s, id);
    case SetHead(id, e) => SetHeadValid(s, id, e);
    case Sort => ReorderedValid(s, t.order, t.rank);
    case Compact =>
      var c :| CompactStep(s, c, t);
      CompactStepValid(s, c, t);
  }

  lemma HoldsLive(s: Store, name: ByteString, id: nat)
    requires Holds(s.names, s.refcount, name, id)
    ensures s.Live(id)
  {
  }

  lemma CompactStepValid(s: Store, c: CompactedNames, t: Store)
    requires s.Valid() && CompactStep(s, c, t)
    ensures t.Valid()
  {
    hide Store.Valid, RanksLive;
    PlannedSizes(s, c);
    CompactedOrder(s, c);
    CompactedValid(s, c, t.rank);
  }

  /** Every state of every run is valid. */
  lemma {:induction false} RunValid(fold: Fold, ops: seq<Op>, states: seq<Store>, k: nat)
    requires Run(fold, ops, states) && k < |states|
    ensures states[k].Valid() && states[k].fold == fold
    decreases k
  {
    hide Store.Valid, Step;
    if k == 0 {
      EmptyValid(fold);
    } else {
      RunValid(fold, ops, states, k - 1);
      StepValid(states[k - 1], ops[k - 1], states[k]);
    }
  }

  // -- counts over a run -----------------------------------------------------------------

  /** How often the first `n` operations intern `name`. */
  function Interns(ops: seq<Op>, name: ByteString, n: nat): nat
    requires n <= |ops|
  {
    if n == 0 then 0 else
    Interns(ops, name, n - 1) + if ops[n - 1] == Intern(name) then 1 else 0
  }

  /** How often the first `n` operations release an id that holds `name` then. */
  function Releases(ops: seq<Op>, states: seq<Store>, name: ByteString, n: nat): nat
    requires n <= |ops| < |states|
  {
    if n == 0 then 0 else
    var s, op := states[n - 1], ops[n - 1];
    Releases(ops, states, name, n - 1)
    + if op.Release? && op.id < |s.names| && s.names[op.id] == name then 1 else 0
  }

  lemma StepRefs(s: Store, op: Op, t: Store)
    requires s.Valid() && Step(s, op, t)
    ensures op.Intern? ==> t.refs == s.refs + multiset{op.name}
    ensures op.Release? ==>
              && op.id < |s.names| && s.refs[s.names[op.id]] > 0
              && t.refs == s.refs - multiset{s.names[op.id]}
    ensures !op.Intern? && !op.Release? ==> t.refs == s.refs
  {
    hide Store.Valid, Store.PlannedBy, RanksLive, Arenas.InBounds, Kill, Push, Nameable, HasRoom, CellBytes;
    if op.Release? {
      StoreSizes(s);
      NameBounds(s, op.id);
      HeldCounts(s, op.id);
    }
  }

  /** A live id counts the references to its name. */
  lemma HeldCounts(s: Store, id: nat)
    requires s.Valid() && s.Live(id)
    ensures id < |s.names| && s.refs[s.names[id]] == s.refcount[id]
  {
    hide Arenas.Lay, BytesOf, Ranking.Ranked, CountDead, Waiting;
  }

  lemma {:induction false} RunRefs(fold: Fold, ops: seq<Op>, states: seq<Store>, name: ByteString, n: nat)
    requires Run(fold, ops, states) && n <= |ops|
    ensures states[n].refs[name] == Interns(ops, name, n) - Releases(ops, states, name, n)
    decreases n
  {
    hide Store.Valid, Step;
    if n > 0 {
      RunRefs(fold, ops, states, name, n - 1);
      RunValid(fold, ops, states, n - 1);
      StepRefs(states[n - 1], ops[n - 1], states[n]);
    }
  }

  /**
    * After any run a live id has as many references as its name was interned more often
    * than released, no two live ids share a name, and a name interned more often than
    * released is held by a live id.
    */
  lemma InterningExact(fold: Fold, ops: seq<Op>, states: seq<Store>, n: nat)
    requires Run(fold, ops, states) && n <= |ops|
    ensures forall id: nat :: states[n].Live(id) && id < |states[n].names| ==>
              var name := states[n].names[id];
              states[n].refcount[id] == Interns(ops, name, n) - Releases(ops, states, name, n)
    ensures forall i: nat, j: nat :: states[n].Live(i) && states[n].Live(j) && i < j < |states[n].names| ==>
              states[n].names[i] != states[n].names[j]
    ensures forall name :: Interns(ops, name, n) > Releases(ops, states, name, n) ==>
              exists id: nat :: Holds(states[n].names, states[n].refcount, name, id)
    ensures forall id: nat :: id in states[n].table <==> states[n].Live(id)
  {
    hide Store.Valid, Step, Holds;
    var s := states[n];
    RunValid(fold, ops, states, n);
    TableListsLive(s);
    forall id: nat | s.Live(id) && id < |s.names|
      ensures s.refcount[id] == Interns(ops, s.names[id], n) - Releases(ops, states, s.names[id], n)
    {
      HeldCounts(s, id);
      RunRefs(fold, ops, states, s.names[id], n);
    }
    forall name | Interns(ops, name, n) > Releases(ops, states, name, n)
      ensures exists id: nat :: Holds(s.names, s.refcount, name, id)
    {
      RunRefs(fold, ops, states, name, n);
      RefsHeld(s, name);
    }
    DistinctLive(s);
  }

  lemma RefsHeld(s: Store, name: ByteString)
    requires s.Valid() && s.refs[name] > 0
    ensures exists id: nat :: Holds(s.names, s.refcount, name, id)
  {
    hide Arenas.Lay, BytesOf, Ranking.Ranked, CountDead, Waiting, Holds;
  }

  lemma DistinctLive(s: Store)
    requires s.Valid()
    ensures forall i: nat, j: nat :: s.Live(i) && s.Live(j) && i < j < |s.names| ==> s.names[i] != s.names[j]
  {
    hide Arenas.Lay, BytesOf, Ranking.Ranked, CountDead, Waiting;
  }

  /** Between compactions an id keeps its name, and a dead id stays dead: it is never handed out again. */
  lemma {:induction false} DeadStaysDead(fold: Fold, ops: seq<Op>, states: seq<Store>, j: nat, k: nat, id: nat)
    requires Run(fold, ops, states) && j <= k <= |ops| && forall m :: j <= m < k ==> ops[m] != Compact
    requires id < |states[j].names|
    ensures id < |states[k].names| && states[k].names[id] == states[j].names[id]
    ensures !states[j].Live(id) ==> !states[k].Live(id)
    decreases k
  {
    hide Store.Valid, Step;
    if j < k {
      DeadStaysDead(fold, ops, states, j, k - 1, id);
      RunValid(fold, ops, states, k - 1);
      StepKeepsNames(states[k - 1], ops[k - 1], states[k], id);
    }
  }

  lemma StepKeepsNames(s: Store, op: Op, t: Store, id: nat)
    requires s.Valid() && Step(s, op, t) && op != Compact && id < |s.names|
    ensures id < |t.names| && t.names[id] == s.names[id]
    ensures !s.Live(id) ==> !t.Live(id)
  {
    hide Store.Valid, Store.PlannedBy, RanksLive, Arenas.InBounds, Kill, Push, Nameable, HasRoom, CellBytes, Holds;
    StoreSizes(s);
  }

  // -- chain heads over a run ---------------------------------------------------------------

  /** The operation points the chain of `name` at an entry. */
  predicate Chains(s: Store, op: Op, name: ByteString) {
    op.SetHead? && op.id < |s.names| && s.names[op.id] == name && s.Live(op.id)
  }

  /** The last entry the chain of `name` was pointed at since the name was last new, or `NIL`. */
  ghost function ChainOf(ops: seq<Op>, states: seq<Store>, name: ByteString, n: nat): nat
    requires n <= |ops| < |states|
  {
    if n == 0 then NIL else
    var s, op := states[n - 1], ops[n - 1];
    if Chains(s, op, name) then op.e
    else if op == Intern(name) && forall id: nat :: !Holds(s.names, s.refcount, name, id) then NIL
    else ChainOf(ops, states, name, n - 1)
  }

  /** The id comes from a live id of `s` with its name, whose head it has, unless the operation set it. */
  ghost predicate HeadCame(s: Store, op: Op, t: Store, id: nat)
    requires id < |t.names| && id < |t.head|
  {
    exists j: nat ::
      && Holds(s.names, s.refcount, t.names[id], j) && j < |s.head|
      && t.head[id] == if op.SetHead? && op.id == j then op.e else s.head[j]
  }

  /** A live id was live before, under some id, or its name is new. */
  lemma StepHeads(s: Store, op: Op, t: Store, id: nat)
    requires s.Valid() && Step(s, op, t) && t.Live(id) && t.Valid()
    ensures id < |t.names| == |t.head|
    ensures if op == Intern(t.names[id]) && (forall j: nat :: !Holds(s.names, s.refcount, t.names[id], j))
            then t.head[id] == NIL else HeadCame(s, op, t, id)
  {
    hide Store.Valid, Step, Holds, HeadCame;
    StoreSizes(s);
    StoreSizes(t);
    match op
    case Intern(name) => InternHeads(s, name, t, id);
    case Release(j) => ReleaseHeads(s, j, t, id);
    case SetHead(j, e) => SetHeads(s, j, e, t, id);
    case Sort => SortHeads(s, t, id);
    case Compact => CompactHeads(s, t, id);
  }

  lemma StaysHead(s: Store, op: Op, t: Store, id: nat)
    requires |s.names| == |s.refcount| == |s.head| && t.names == s.names && |t.head| == |s.head| && s.Live(id)
    requires t.head[id] == if op.SetHead? && op.id == id then op.e else s.head[id]
    ensures HeadCame(s, op, t, id)
  {
    assert Holds(s.names, s.refcount, t.names[id], id);
  }

  lemma ReleaseHeads(s: Store, j: nat, t: Store, id: nat)
    requires |s.names| == |s.refcount| == |s.head| && Step(s, Release(j), t) && t.Live(id)
    ensures t.names == s.names && t.head == s.head && id < |s.names| && HeadCame(s, Release(j), t, id)
  {
    hide Arenas.InBounds, Kill, CellBytes, HeadCame;
    StaysHead(s, Release(j), t, id);
  }

  lemma SetHeads(s: Store, j: nat, e: nat, t: Store, id: nat)
    requires |s.names| == |s.refcount| == |s.head| && Step(s, SetHead(j, e), t) && t.Live(id)
    ensures t.names == s.names && |t.head| == |s.head| && id < |s.names| && HeadCame(s, SetHead(j, e), t, id)
  {
    hide HeadCame;
    StaysHead(s, SetHead(j, e), t, id);
  }

  lemma SortHeads(s: Store, t: Store, id: nat)
    requires |s.names| == |s.refcount| == |s.head| && Step(s, Sort, t) && t.Live(id)
    ensures t.names == s.names && t.head == s.head && id < |s.names| && HeadCame(s, Sort, t, id)
  {
    hide RanksLive, FullOrder, HeadCame;
    StaysHead(s, Sort, t, id);
  }

  lemma InternHeads(s: Store, name: ByteString, t: Store, id: nat)
    requires |s.names| == |s.refcount| == |s.head| && |t.names| == |t.refcount| == |t.head|
    requires Step(s, Intern(name), t) && t.Live(id)
    ensures if t.names[id] == name && (forall j: nat :: !Holds(s.names, s.refcount, name, j)) then t.head[id] == NIL
            else HeadCame(s, Intern(name), t, id)
  {
    hide Nameable, HasRoom, Push;
    if id < |s.names| {
      assert s.Live(id) ==> Holds(s.names, s.refcount, t.names[id], id);
    }
  }

  lemma CompactHeads(s: Store, t: Store, id: nat)
    requires s.Valid() && Step(s, Compact, t) && id < |t.names| == |t.head|
    ensures HeadCame(s, Compact, t, id)
  {
    var c :| CompactStep(s, c, t);
    PlannedSizes(s, c);
    CompactedOrder(s, c);
    StoreSizes(s);
    hide Store.Valid, RanksLive, Arenas.Lay, IsRemap, Renumber;
    LiveIdsMembers(s.refcount, |s.refcount|);
    var j := Kept(s.refcount)[id];
    assert j in Kept(s.refcount);
    assert Holds(s.names, s.refcount, t.names[id], j);
  }

  /**
    * After any run the chain head of a live id is the last entry set for its name since the name was
    * last new, whatever was interned, released, sorted and renumbered since, or `NIL`.
    */
  lemma {:induction false} RunHeads(fold: Fold, ops: seq<Op>, states: seq<Store>, n: nat, id: nat)
    requires Run(fold, ops, states) && n <= |ops| && states[n].Live(id)
    ensures id < |states[n].names| == |states[n].head|
    ensures states[n].head[id] == ChainOf(ops, states, states[n].names[id], n)
    decreases n
  {
    hide Store.Valid, Step, Holds;
    RunValid(fold, ops, states, n);
    StoreSizes(states[n]);
    if n > 0 {
      var s, op, name := states[n - 1], ops[n - 1], states[n].names;
      RunValid(fold, ops, states, n - 1);
      StepHeads(s, op, states[n], id);
      if !(op == Intern(name[id]) && forall j: nat :: !Holds(s.names, s.refcount, name[id], j)) {
        var j: nat :| Holds(s.names, s.refcount, name[id], j) && j < |s.head| &&
          states[n].head[id] == if op.SetHead? && op.id == j then op.e else s.head[j];
        RunHeads(fold, ops, states, n - 1, HeldId(s, name[id], j));
        OneHolder(s, op, name[id], j);
      }
    }
  }

  /** The id, known to be live. */
  ghost function HeldId(s: Store, name: ByteString, id: nat): (j: nat)
    requires Holds(s.names, s.refcount, name, id)
    ensures j == id && s.Live(id) && id < |s.names| && s.names[id] == name
  {
    id
  }

  /** The chain of a name is set through its one live holder only. */
  lemma OneHolder(s: Store, op: Op, name: ByteString, id: nat)
    requires s.Valid() && Holds(s.names, s.refcount, name, id)
    ensures Chains(s, op, name) <==> op.SetHead? && op.id == id
  {
    DistinctLive(s);
    hide Store.Valid;
  }

  // -- what queries read after a run -----------------------------------------------------

  /** After any run, comparing live names by (rank key, folded bytes) is comparing their folded bytes. */
  lemma RunOrdersNames(fold: Fold, ops: seq<Op>, states: seq<Store>, n: nat, a: nat, b: nat)
    requires Run(fold, ops, states) && n <= |ops| && states[n].Live(a) && states[n].Live(b)
    ensures var s := states[n];
            && s.arenas.InBounds(a) && s.arenas.InBounds(b)
            && var fa, fb := s.arenas.FoldedBytes(a), s.arenas.FoldedBytes(b);
               && (Less(fa, fb) <==> s.RankKey(a) < s.RankKey(b) || (s.RankKey(a) == s.RankKey(b) && Less(fa, fb)))
               && (fa == fb ==> s.RankKey(a) == s.RankKey(b))
               && (s.RankKey(a) == s.RankKey(b) && fa != fb ==> a in s.unranked && b in s.unranked)
  {
    hide Store.Valid, Step, Arenas.InBounds, Ranking.Ranked, Ranking.RankKey;
    var s := states[n];
    RunValid(fold, ops, states, n);
    StoreReads(s);
    WaitingOf(s);
    RankKeyOrders(s.View(), a, b);
    RankedDistinct(s.View());
    assert Listed(s, a) && Listed(s, b);
  }

  /** A live id is ranked or it waits. */
  predicate Listed(s: Store, id: nat) {
    id in s.order || id in s.unranked
  }

  /**
    * After any run, a NUL-free needle occurs in the folded arena exactly where it occurs
    * inside the folded bytes of a live name, and of only one.
    */
  lemma RunScans(fold: Fold, ops: seq<Op>, states: seq<Store>, n: nat, needle: ByteString, k: nat)
    requires Run(fold, ops, states) && n <= |ops| && needle != [] && NulFree(needle)
    ensures var s := states[n];
            && (OccursAt(s.arenas.folded, needle, k) <==> exists id: nat :: HitIn(s.arenas, s.refcount, needle, k, id))
            && forall i: nat, j: nat ::
                 HitIn(s.arenas, s.refcount, needle, k, i) && HitIn(s.arenas, s.refcount, needle, k, j) ==> i == j
  {
    var s := states[n];
    RunValid(fold, ops, states, n);
    LayOf(s);
    hide Store.Valid, Arenas.Lay, HitIn, Run;
    ScanExact(s.arenas, s.fold, s.names, s.refcount, needle, k);
    forall i: nat, j: nat | HitIn(s.arenas, s.refcount, needle, k, i) && HitIn(s.arenas, s.refcount, needle, k, j)
      ensures i == j
    {
      ScanUnique(s.arenas, s.fold, s.names, s.refcount, needle, k, i, j);
    }
  }

  // -- sorting ---------------------------------------------------------------------------

  /** What building the order and merging into it both promise. */
  ghost predicate SortedFrom(s: Store, t: Store) {
    t.Valid() && t.order == t.SortedIds() && t == s.Reordered(t.order, t.rank)
  }

  /** Whichever way the order is sorted, built in full or merged, it comes out the same, ranks included. */
  lemma SortDeterministic(s: Store, t: Store, u: Store)
    requires SortedFrom(s, t) && SortedFrom(s, u)
    ensures t == u && ListsLive(t.refcount, t.order) && Sorted(t.Keys(), t.order)
  {
    hide Store.Valid, FullOrder;
    StoreSizes(t);
    StoreSizes(u);
    WaitingOf(t);
    WaitingOf(u);
    RankedUnique(t.View(), u.rank);
  }

  /** Over live ids only, group starts are first live positions. */
  lemma RankedIsLive(t: Ranking)
    requires t.Ranked() && AllLive(t.rc, t.order)
    ensures RanksLive(t.keys, t.rc, t.order, t.rank, |t.order|)
  {
    assert t.order[..|t.order|] == t.order;
    forall p | 0 <= p < |t.order| ensures FirstOfGroup(t.keys, t.rc, t.order, t.rank[t.order[p]], p) {
      assert t.RankedAt(p);
      var r := t.rank[t.order[p]];
      forall k | 0 <= k < r ensures t.keys[t.order[k]] != t.keys[t.order[p]] {
        if t.KeyAt(k) == t.KeyAt(p) { GroupIsRun(t, k, p, r - 1); }
      }
    }
  }

  /** So every sort is a step of the runs above. */
  lemma SortedIsStep(s: Store, t: Store)
    requires s.Valid() && SortedFrom(s, t)
    ensures Step(s, Sort, t)
  {
    hide Store.Valid, FullOrder, RanksLive;
    StoreSizes(t);
    WaitingOf(t);
    RankedIsLive(t.View());
  }

  /** And so is every compaction installed. */
  lemma CompactedIsStep(s: Store, c: CompactedNames, t: Store)
    requires s.Valid() && s.PlannedBy(c) && t.Valid() && t == s.Compacted(c, t.rank)
    ensures Step(s, Compact, t)
  {
    hide Store.Valid, Store.PlannedBy, RanksLive;
    PlannedSizes(s, c);
    CompactedOrder(s, c);
    StoreSizes(t);
    WaitingOf(t);
    RankedIsLive(t.View());
    assert CompactStep(s, c, t);
  }

  // -- a stale rank is reached --------------------------------------------------------------

  lemma Extend(fold: Fold, ops: seq<Op>, states: seq<Store>, op: Op, t: Store)
    requires Run(fold, ops, states) && Step(states[|ops|], op, t)
    ensures Run(fold, ops + [op], states + [t])
  {
    hide Step;
  }

  lemma FreshIsStep(s: Store, name: ByteString)
    requires Nameable(s.fold, name) && HasRoom(s.arenas, s.fold, name)
    requires forall id: nat :: !Holds(s.names, s.refcount, name, id)
    ensures Step(s, Intern(name), s.InternFresh(name))
  {
    hide Nameable, HasRoom, Store.InternFresh;
  }

  /** Two names interned. */
  function Two(fold: Fold, a: ByteString, b: ByteString): Store {
    Empty(fold).InternFresh(a).InternFresh(b)
  }

  lemma TwoShape(fold: Fold, a: ByteString, b: ByteString)
    ensures Empty(fold).InternFresh(a).names == [a] && Empty(fold).InternFresh(a).refcount == [1]
    ensures Two(fold, a, b).names == [a, b] && Two(fold, a, b).refcount == [1, 1] && Two(fold, a, b).fold == fold
    ensures Two(fold, a, b).Keys() == [fold(a), fold(b)]
  {
    hide Push;
  }

  lemma TwoRun(fold: Fold, a: ByteString, b: ByteString) returns (ops: seq<Op>, states: seq<Store>)
    requires a != b && Nameable(fold, a) && Nameable(fold, b)
    ensures Run(fold, ops, states) && |ops| == 2 && states[2] == Two(fold, a, b)
  {
    hide Step, Store.InternFresh;
    var s0 := Empty(fold);
    var s1 := s0.InternFresh(a);
    TwoShape(fold, a, b);
    assert HasRoom(s0.arenas, fold, a);
    assert s1.fold == fold && HasRoom(s1.arenas, fold, b) by { RoomForSecond(fold, a, b); }
    hide Nameable, HasRoom, Two;
    FreshIsStep(s0, a);
    FreshIsStep(s1, b);
    assert Run(fold, [], [s0]);
    Extend(fold, [], [s0], Intern(a), s1);
    Extend(fold, [] + [Intern(a)], [s0] + [s1], Intern(b), s1.InternFresh(b));
    ops, states := [] + [Intern(a)] + [Intern(b)], [s0] + [s1] + [s1.InternFresh(b)];
    assert states[2] == s1.InternFresh(b) == Two(fold, a, b) by { TwoIs(fold, a, b); }
  }

  lemma TwoIs(fold: Fold, a: ByteString, b: ByteString)
    ensures Two(fold, a, b) == Empty(fold).InternFresh(a).InternFresh(b)
  {
    hide Store.InternFresh;
  }

  lemma RoomForSecond(fold: Fold, a: ByteString, b: ByteString)
    requires Nameable(fold, a) && Nameable(fold, b)
    ensures Empty(fold).InternFresh(a).fold == fold && HasRoom(Empty(fold).InternFresh(a).arenas, fold, b)
  {
  }

  /** Two names that fold alike sort by id and share the rank 0. */
  lemma SortsTwo(fold: Fold, a: ByteString, b: ByteString)
    requires fold(a) == fold(b)
    ensures Step(Two(fold, a, b), Sort, Two(fold, a, b).Reordered([0, 1], [0, 0]))
  {
    TwoShape(fold, a, b);
    hide Less, FullOrder, Two;
    var s, t := Two(fold, a, b), Two(fold, a, b).Reordered([0, 1], [0, 0]);
    assert t.Keys() == s.Keys();
    assert [0, 1][0] == 0 && [0, 1][1] == 1;
    FullOrderUnique(s.Keys(), s.refcount, [0, 1]);
    assert t.order[..2] == t.order;
  }

  /**
    * A run that leaves a stale rank: of two names that fold alike the first is released. The second
    * keeps the rank 0, where the first lies dead, and a smaller key may be placed before it only.
    */
  lemma StaleRun(fold: Fold, a: ByteString, b: ByteString) returns (ops: seq<Op>, states: seq<Store>)
    requires a != b && fold(a) == fold(b) && Nameable(fold, a) && Nameable(fold, b)
    ensures Run(fold, ops, states) && |ops| == 4
    ensures var s := states[4];
            && s.Valid() && s.order == [0, 1] && s.rank == [0, 0] && !s.Live(0) && s.Live(1)
            && forall x :: Less(x, fold(b)) ==>
                 Separates(s.View(), x, 0) && Places(s.View(), x, 0) && Separates(s.View(), x, 1) &&
                   !Places(s.View(), x, 1)
  {
    hide Step, Run, Store.Valid, Store.Release, Store.View, Ranking.Ranked, Separates, Places, Less, Nameable, Two;
    ops, states := TwoRun(fold, a, b);
    TwoShape(fold, a, b);
    SortsTwo(fold, a, b);
    var t := Two(fold, a, b).Reordered([0, 1], [0, 0]);
    RunLength(fold, ops, states);
    Extend(fold, ops, states, Sort, t);
    ops, states := ops + [Sort], states + [t];
    RunValid(fold, ops, states, 3);
    ReleaseIsStep(t, 0);
    Extend(fold, ops, states, Release(0), t.Release(0));
    ops, states := ops + [Release(0)], states + [t.Release(0)];
    StaleStore(t, fold(b));
  }

  lemma RunLength(fold: Fold, ops: seq<Op>, states: seq<Store>)
    requires Run(fold, ops, states)
    ensures |states| == |ops| + 1
  {
    hide Step;
  }

  lemma StaleStore(t: Store, key: ByteString)
    requires t.Valid() && t.order == [0, 1] && t.rank == [0, 0] && t.refcount == [1, 1] && |t.names| == 2 &&
      t.Keys()[1] == key
    ensures var s := t.Release(0);
            && s.Valid() && s.order == [0, 1] && s.rank == [0, 0] && !s.Live(0) && s.Live(1)
            && forall x :: Less(x, key) ==>
                 Separates(s.View(), x, 0) && Places(s.View(), x, 0) && Separates(s.View(), x, 1) &&
                   !Places(s.View(), x, 1)
  {
    hide Store.Valid, Store.Release, Ranking.Ranked, Separates, Places, Less;
    var s := t.Release(0);
    assert t.order[1] == 1 && t.order[0] == 0;
    RankGoesStaleIff(t, 0, 1);
    ReleaseKeepsKeys(t, 0);
    WaitingOf(s);
    StoreSizes(s);
    forall x | Less(x, key)
      ensures Separates(s.View(), x, 0) && Places(s.View(), x, 0) && Separates(s.View(), x, 1) &&
        !Places(s.View(), x, 1)
    {
      StalePlace(s.View(), x);
    }
  }

  lemma ReleaseIsStep(s: Store, id: nat)
    requires s.Live(id)
    ensures Step(s, Release(id), s.Release(id))
  {
  }

  lemma ReleaseKeepsKeys(s: Store, id: nat)
    ensures s.Release(id).Keys() == s.Keys()
  {
    hide Arenas.InBounds, Kill, CellBytes;
  }

  lemma StalePlace(t: Ranking, x: ByteString)
    requires t.Ranked() && t.order == [0, 1] && t.rank == [0, 0] && t.rc[0] == 0 && t.rc[1] > 0 && Less(x, t.keys[1])
    ensures Separates(t, x, 0) && Places(t, x, 0) && Separates(t, x, 1) && !Places(t, x, 1)
  {
    LessTrichotomy(x, t.keys[1]);
    hide Less, Ranking.Ranked, Places;
    assert t.FirstLive(1) == 1 && t.FirstLive(0) == 1;
    DeadRunPlaceMatters(t, x, 0, 1);
  }
}
