/** The supervisor's loops over its volumes, proved against what the fleet's functions say. */
module FleetOwner {
  import opened Registry
  import opened Fleet

  /** A removal event as posted; a query is known by its number. */
  datatype Posted = Posted(id: nat, guid: string, event: Event)

  /** The queries among the removals, oldest first. */
  function Queries(posted: seq<Posted>): seq<nat> {
    if posted == [] then [] else
    var last := posted[|posted| - 1];
    Queries(posted[..|posted| - 1]) + if last.event.QueryRemove? then [last.id] else []
  }

  /** The removals acted on one after another, the `k`-th at `clock(k)`. */
  function ActAll(s: State, posted: seq<Posted>, clock: nat -> nat): State {
    if posted == [] then s else
    var k := |posted| - 1;
    OnRemoval(ActAll(s, posted[..k], clock), posted[k].guid, posted[k].event, clock(k))
  }

  /** The positions of exactly the queries among the removals, in order. */
  ghost predicate QueryPositions(posted: seq<Posted>, at: seq<nat>) {
    && (forall i :: 0 <= i < |at| ==> at[i] < |posted| && posted[at[i]].event.QueryRemove?)
    && (forall i, j :: 0 <= i < j < |at| ==> at[i] < at[j])
    && (forall k: nat :: k < |posted| && posted[k].event.QueryRemove? ==> k in at)
  }

  lemma PositionsBefore(posted: seq<Posted>, at: seq<nat>)
    requires QueryPositions(posted, at) && posted != []
    ensures var k, before := |posted| - 1, posted[..|posted| - 1];
            if posted[k].event.QueryRemove?
            then at != [] && at[|at| - 1] == k && QueryPositions(before, at[..|at| - 1])
            else QueryPositions(before, at)
  {
    var k: nat, before := |posted| - 1, posted[..|posted| - 1];
    if posted[k].event.QueryRemove? {
      assert k in at;
      var rest := at[..|at| - 1];
      forall n: nat | n < |before| && before[n].event.QueryRemove? ensures n in rest {
        assert before[n] == posted[n] && n in at;
        var i :| 0 <= i < |at| && at[i] == n;
        assert rest[i] == n;
      }
    } else {
      forall n: nat | n < |before| && before[n].event.QueryRemove? ensures n in at {
        assert before[n] == posted[n];
      }
    }
  }

  lemma NoPositions(posted: seq<Posted>, at: seq<nat>)
    requires posted == [] && at != []
    ensures !QueryPositions(posted, at)
  {
    assert !(at[0] < |posted|);
  }

  /** Every query is listed, once and in order. */
  lemma {:induction false} QueriesExact(posted: seq<Posted>, at: seq<nat>)
    requires QueryPositions(posted, at)
    ensures |Queries(posted)| == |at|
    ensures forall i :: 0 <= i < |at| ==> at[i] < |posted| && Queries(posted)[i] == posted[at[i]].id
    decreases |posted|
  {
    hide QueryPositions;
    if posted == [] {
      if at != [] { NoPositions(posted, at); }
    } else {
      var k, before := |posted| - 1, posted[..|posted| - 1];
      PositionsBefore(posted, at);
      var rest := if posted[k].event.QueryRemove? then at[..|at| - 1] else at;
      QueriesExact(before, rest);
      forall i | 0 <= i < |rest| ensures at[i] < |posted| && Queries(posted)[i] == posted[at[i]].id {
        assert rest[i] == at[i] && before[rest[i]] == posted[at[i]];
      }
    }
  }

  /** Some event of `g`, other than a removal that did not come, is among those posted. */
  predicate Leaves(posted: seq<Posted>, g: string) {
    exists k :: 0 <= k < |posted| && posted[k].guid == g && !posted[k].event.QueryRemoveFailed?
  }

  /** Removal `k` is the last event of its volume. */
  predicate LastOf(posted: seq<Posted>, k: nat) {
    k < |posted| && forall i :: k < i < |posted| ==> posted[i].guid != posted[k].guid
  }

  /** No event is one of `g`. */
  predicate NoneOf(posted: seq<Posted>, g: string) {
    forall i :: 0 <= i < |posted| ==> posted[i].guid != g
  }

  lemma LastBefore(posted: seq<Posted>, k: nat)
    requires LastOf(posted, k) && k < |posted| - 1
    ensures LastOf(posted[..|posted| - 1], k)
  {
  }

  lemma NoneBefore(posted: seq<Posted>, g: string)
    requires posted != [] && NoneOf(posted, g)
    ensures NoneOf(posted[..|posted| - 1], g)
  {
  }

  lemma NotLast(posted: seq<Posted>, k: nat, g: string)
    requires LastOf(posted, k) && posted[k].guid == g && posted[|posted| - 1].guid != g
    ensures k < |posted| - 1
  {
  }

  /** The fleet knows what the event says of its volume. */
  ghost predicate SaidBy(p: Posted, at: nat, s: State) {
    && (p.guid in s.removing <==> p.event.QueryRemove?)
    && (p.event.Removed? ==> forall e: Leaving :: e in s.removed && e.guid == p.guid <==> e == Leaving(p.guid, at))
  }

  /** The same is known of `g`. */
  ghost predicate SameOf(s: State, s': State, g: string) {
    && (g in s'.removing <==> g in s.removing)
    && (g in s.removing ==> g in s'.removing && s'.removing[g] == s.removing[g])
    && (forall e: Leaving :: e.guid == g ==> (e in s'.removed <==> e in s.removed))
  }

  lemma SaidKept(p: Posted, at: nat, s: State, s': State)
    requires SaidBy(p, at, s) && SameOf(s, s', p.guid)
    ensures SaidBy(p, at, s')
  {
  }

  lemma SameChain(s: State, was: State, s': State, g: string)
    requires SameOf(s, was, g) && SameOf(was, s', g)
    ensures SameOf(s, s', g)
  {
  }

  /** What acting on the removals leaves known of `g`: what its last event says, or what was known. */
  ghost predicate Recorded(s: State, posted: seq<Posted>, clock: nat -> nat, g: string, s': State) {
    && (forall k: nat :: LastOf(posted, k) && k < |posted| && posted[k].guid == g ==> SaidBy(posted[k], clock(k), s'))
    && (NoneOf(posted, g) ==> SameOf(s, s', g))
  }

  /** An event of `g` itself is its last one. */
  lemma RecordsOwn(s: State, posted: seq<Posted>, clock: nat -> nat, g: string, was: State)
    requires posted != [] && posted[|posted| - 1].guid == g
    ensures var k := |posted| - 1; Recorded(s, posted, clock, g, OnRemoval(was, g, posted[k].event, clock(k)))
  {
    hide OnRemoval;
    var k: nat := |posted| - 1;
    OnRemovalEnters(was, g, posted[k].event, clock(k));
    assert forall j: nat :: LastOf(posted, j) && posted[j].guid == g ==> j == k;
  }

  /** An event of another volume changes nothing of what is known of `g`. */
  lemma RecordsOther(s: State, posted: seq<Posted>, clock: nat -> nat, g: string, was: State, s': State)
    requires posted != [] && posted[|posted| - 1].guid != g
    requires Recorded(s, posted[..|posted| - 1], clock, g, was) && SameOf(was, s', g)
    ensures Recorded(s, posted, clock, g, s')
  {
    hide SaidBy, SameOf, LastOf, NoneOf;
    var before := posted[..|posted| - 1];
    forall j: nat | LastOf(posted, j) && j < |posted| && posted[j].guid == g ensures SaidBy(posted[j], clock(j), s') {
      NotLast(posted, j, g);
      LastBefore(posted, j);
      assert before[j] == posted[j];
      SaidKept(posted[j], clock(j), was, s');
    }
    if NoneOf(posted, g) {
      NoneBefore(posted, g);
      SameChain(s, was, s', g);
    }
  }

  lemma {:induction false} ActAllRecords(s: State, posted: seq<Posted>, clock: nat -> nat, g: string)
    ensures Recorded(s, posted, clock, g, ActAll(s, posted, clock))
    decreases |posted|
  {
    hide OnRemoval, Recorded;
    if posted == [] {
      RecordsNone(s, clock, g);
    } else {
      var k := |posted| - 1;
      var was, p := ActAll(s, posted[..k], clock), posted[k];
      if p.guid == g {
        RecordsOwn(s, posted, clock, g, was);
      } else {
        ActAllRecords(s, posted[..k], clock, g);
        OnRemovalEnters(was, p.guid, p.event, clock(k));
        RecordsOther(s, posted, clock, g, was, ActAll(s, posted, clock));
      }
    }
  }

  lemma RecordsNone(s: State, clock: nat -> nat, g: string)
    ensures Recorded(s, [], clock, g, s)
  {
  }

  /**
    * Removals acted on one after another let go of exactly the volumes queried or removed; a volume is
    * then under removal exactly if its last event was a query, or it had none and was before.
    */
  lemma {:induction false} ActAllExact(s: State, posted: seq<Posted>, clock: nat -> nat, g: string)
    requires s.Valid()
    ensures var s' := ActAll(s, posted, clock);
            && s'.Valid() && Recorded(s, posted, clock, g, s')
            && (s'.Has(g) <==> s.Has(g) && !Leaves(posted, g))
    decreases |posted|
  {
    hide State.Valid, State.Has, OnRemoval, Recorded, Leaves;
    ActAllRecords(s, posted, clock, g);
    if posted == [] {
      NoneLeave(g);
    } else {
      var k, before := |posted| - 1, posted[..|posted| - 1];
      var was, p := ActAll(s, before, clock), posted[k];
      ActAllExact(s, before, clock, g);
      OnRemovalExact(was, p.guid, p.event, clock(k));
      LeavesLast(posted, g);
      KeepsIndexed(was, p.guid, p.event, clock(k), g);
    }
  }

  lemma NoneLeave(g: string)
    ensures !Leaves([], g)
  {
  }

  lemma LeavesLast(posted: seq<Posted>, g: string)
    requires posted != []
    ensures var p := posted[|posted| - 1];
            Leaves(posted, g) <==> Leaves(posted[..|posted| - 1], g) || (p.guid == g && !p.event.QueryRemoveFailed?)
  {
    var before := posted[..|posted| - 1];
    if Leaves(before, g) {
      var k :| 0 <= k < |before| && before[k].guid == g && !before[k].event.QueryRemoveFailed?;
      assert posted[k].guid == g;
    }
    var p := posted[|posted| - 1];
    if Leaves(posted, g) && !(p.guid == g && !p.event.QueryRemoveFailed?) {
      var k :| 0 <= k < |posted| && posted[k].guid == g && !posted[k].event.QueryRemoveFailed?;
      assert before[k].guid == g;
    }
  }

  lemma KeepsIndexed(s: State, guid: string, event: Event, now: nat, g: string)
    requires s.Valid()
    ensures OnRemoval(s, guid, event, now).Has(g) <==> s.Has(g) && (g != guid || event.QueryRemoveFailed?)
  {
    hide Without, Dismiss;
    OnRemovalExact(s, guid, event, now);
  }

  class Owner {
    var s: State

    constructor ()
      ensures s == Empty() && s.Valid()
    {
      s := Empty();
    }

    /** Stops indexing `guid`: out of the registry, and out of supervision if it is there. */
    method Release(guid: string)
      modifies this
      ensures s == Fleet.Release(old(s), guid)
    {
      s := s.(volumes := Without(s.volumes, guid));
      var i := 0;
      while i < |s.supervised| && s.supervised[i] != guid
        invariant 0 <= i <= |s.supervised| && s == old(s).(volumes := Without(old(s).volumes, guid))
        invariant Position(s.supervised, guid) == i + Position(s.supervised[i..], guid)
      {
        assert s.supervised[i..][1..] == s.supervised[i + 1..];
        i := i + 1;
      }
      if i < |s.supervised| {
        s := s.(supervised := SwapRemove(s.supervised, i));
      }
    }

    /** Lets go of the volumes gone, until shutdown is seen; `stop(k)` answers the `k`-th look for it. */
    method DropGone(gone: seq<string>, stop: nat -> bool) returns (stopped: bool)
      modifies this
      ensures s == DropFrom(old(s), gone, stop, 0) && stopped == Interrupted(stop, |gone|)
    {
      hide Fleet.Release;
      var k := 0;
      while k < |gone|
        invariant 0 <= k <= |gone| && (forall i :: 0 <= i < k ==> !stop(i))
        invariant DropFrom(old(s), gone, stop, 0) == DropFrom(s, gone, stop, k)
      {
        if stop(k) {
          return true;
        }
        Release(gone[k]);
        k := k + 1;
      }
      stopped := stop(|gone|);
    }

    /** Indexes and supervises the volumes found, but for those discovery leaves out. */
    method FindNew(found: seq<string>)
      modifies this
      ensures s == FindAll(old(s), found)
    {
      hide LeftOut;
      var i := 0;
      while i < |found|
        invariant 0 <= i <= |found|
        invariant FindAll(old(s), found) == FindAll(s, found[i..])
      {
        assert found[i..][1..] == found[i + 1..];
        if !LeftOut(s, found[i]) {
          s := s.(volumes := s.volumes + [Volume(s.added, found[i])], added := s.added + 1,
                  supervised := s.supervised + [found[i]]);
        }
        i := i + 1;
      }
    }

    /** Brings the volumes in step with a listing begun at `taken`. */
    method Reconcile(listed: seq<Listed>, taken: nat, stop: nat -> bool)
      requires s.Valid()
      modifies this
      ensures s == Fleet.Reconcile(old(s), listed, taken, stop)
      ensures NamesOnce(old(s), listed, taken) ==> s.Valid()
    {
      hide State.Valid, DropFrom, FindAll, NamesOnce, Interrupted;
      ReconcileExact(s, listed, taken, stop, "");
      s := s.(removed := Since(s.removed, taken));
      var gone, found := GoneFrom(s.volumes, listed), FoundIn(s.volumes, listed);
      var stopped := DropGone(gone, stop);
      if !stopped {
        FindNew(found);
      }
    }

    /** Acts on one removal event; returns whether the volumes should be listed now. */
    method OnRemoval(guid: string, event: Event, now: nat) returns (relist: bool)
      requires s.Valid()
      modifies this
      ensures s.Valid() && s == Fleet.OnRemoval(old(s), guid, event, now)
      ensures relist <==> event.QueryRemoveFailed? && guid in old(s).removing
    {
      OnRemovalExact(s, guid, event, now);
      var indexed := s.Has(guid);
      relist := false;
      match event
      case QueryRemove =>
        if indexed {
          Release(guid);
        }
        if guid !in s.removing {
          s := s.(removing := s.removing[guid := now]);
        }
      case QueryRemoveFailed =>
        relist := guid in s.removing;
        s := s.(removing := s.removing - {guid});
      case Removed =>
        if indexed {
          Release(guid);
        }
        s := s.(removing := s.removing - {guid}, removed := Others(s.removed, guid) + [Leaving(guid, now)]);
    }

    /** Forgets the removals nobody said the end of in time, so that a disk that stayed is found again. */
    method ExpireRemoving(now: nat)
      modifies this
      ensures s == Expired(old(s), now)
      ensures forall g :: g in s.removing <==> g in old(s).removing && now < old(s).removing[g] + REMOVAL_OUTCOME_WAIT
      ensures forall g :: g in s.removing ==> s.removing[g] == old(s).removing[g]
    {
      var expired := set g | g in s.removing && now >= s.removing[g] + REMOVAL_OUTCOME_WAIT;
      ghost var all := expired;
      while expired != {}
        invariant expired <= all && s == old(s).(removing := old(s).removing - (all - expired))
      {
        var g :| g in expired;
        expired := expired - {g};
        s := s.(removing := s.removing - {g});
      }
      assert old(s).removing - all == Expired(old(s), now).removing;
    }

    /**
      * Acts on the removals in order, answering each query once its volume is let go of, until
      * shutdown is seen: what is left then is handed back.
      */
    method ActOn(posted: seq<Posted>, stop: nat -> bool, clock: nat -> nat)
      returns (answered: seq<nat>, left: seq<Posted>)
      requires s.Valid()
      modifies this
      ensures s.Valid() && |left| <= |posted| && left == posted[|posted| - |left|..]
      ensures s == ActAll(old(s), posted[..|posted| - |left|], clock)
      ensures answered == Queries(posted[..|posted| - |left|])
      ensures left != [] ==> stop(|posted| - |left|)
      ensures forall k :: 0 <= k < |posted| - |left| ==> !stop(k)
    {
      hide State.Valid, Fleet.OnRemoval;
      answered := [];
      var k := 0;
      while k < |posted|
        invariant 0 <= k <= |posted| && s.Valid() && (forall i :: 0 <= i < k ==> !stop(i))
        invariant s == ActAll(old(s), posted[..k], clock) && answered == Queries(posted[..k])
      {
        if stop(k) {
          return answered, posted[k..];
        }
        assert posted[..k + 1][..k] == posted[..k];
        var _ := OnRemoval(posted[k].guid, posted[k].event, clock(k));
        if posted[k].event.QueryRemove? {
          answered := answered + [posted[k].id];
        }
        k := k + 1;
      }
      assert posted[..|posted|] == posted;
      left := [];
    }
  }
}
