/**
  * The volumes a supervisor indexes, watches and lets go of: how a listing of the machine's
  * volumes, a removal event or the end of a watch changes them. Times are clock readings.
  */
module Fleet {
  import opened Registry

  /** One line of a listing: a volume and whether it is a fixed NTFS one. */
  datatype Listed = Listed(guid: string, indexable: bool)

  /** A volume removed from the machine, and when. */
  datatype Leaving = Leaving(guid: string, at: nat)

  datatype Event = QueryRemove | QueryRemoveFailed | Removed

  /** How long a removal may go without word of its end: 60 seconds. */
  const REMOVAL_OUTCOME_WAIT: nat := 60

  /** Names, each listed once. */
  ghost predicate Distinct(names: seq<string>) {
    forall i, j :: 0 <= i < j < |names| ==> names[i] != names[j]
  }

  ghost predicate DistinctGuids(volumes: VolumeSet) {
    forall i, j :: 0 <= i < j < |volumes| ==> volumes[i].guid != volumes[j].guid
  }

  datatype State = State(
    volumes: VolumeSet,
    added: nat,
    supervised: seq<string>,
    /** Volumes let go of for a removal that has not ended, and since when. */
    removing: map<string, nat>,
    removed: seq<Leaving>) {

    predicate Has(guid: string) {
      Indexes(volumes, guid)
    }

    ghost predicate Valid() {
      && Ascending(volumes) && Stamped(volumes, added) && DistinctGuids(volumes)
      && Distinct(supervised)
      && (forall g :: g in supervised ==> Has(g))
      && (forall g :: g in removing ==> !Has(g))
    }
  }

  function Empty(): State {
    State([], 0, [], map[], [])
  }

  // -- letting go of one volume -----------------------------------------------------------------

  /** Where `name` is first listed, or the length. */
  function Position(names: seq<string>, name: string): (i: nat)
    ensures i <= |names| && (i < |names| ==> names[i] == name)
    ensures i < |names| <==> name in names
  {
    if names == [] then 0 else
    assert names == [names[0]] + names[1..];
    if names[0] == name then 0 else 1 + Position(names[1..], name)
  }

  /** Element `i` out, the last one in its place. */
  function SwapRemove(names: seq<string>, i: nat): seq<string>
    requires i < |names|
  {
    names[i := names[|names| - 1]][..|names| - 1]
  }

  function Dismiss(names: seq<string>, name: string): seq<string> {
    var i := Position(names, name);
    if i < |names| then SwapRemove(names, i) else names
  }

  /** Of distinct names exactly `name` leaves. */
  lemma DismissExact(names: seq<string>, name: string)
    requires Distinct(names)
    ensures Distinct(Dismiss(names, name))
    ensures forall g :: g in Dismiss(names, name) <==> g in names && g != name
  {
    var i, rest, last := Position(names, name), Dismiss(names, name), |names| - 1;
    if i <= last {
      forall g ensures g in rest <==> g in names && g != name {
        if g in names && g != name {
          var k :| 0 <= k < |names| && names[k] == g;
          assert rest[if k == last then i else k] == g;
        }
        if g in rest {
          var k :| 0 <= k < |rest| && rest[k] == g;
          assert g == names[if k == i then last else k];
        }
      }
    }
  }

  /** One of the names, however often it is listed, leaves. */
  lemma DismissOne(names: seq<string>, name: string)
    ensures multiset(Dismiss(names, name)) == multiset(names) - multiset{name}
  {
    hide Dismiss, SwapRemove;
    var i, last, rest := Position(names, name), |names| - 1, Dismiss(names, name);
    if i <= last {
      var swapped := names[i := names[last]];
      assert rest == swapped[..last] by { DismissIs(names, name); }
      assert swapped == rest + [names[last]];
      assert multiset(swapped) == multiset(names) - multiset{name} + multiset{names[last]};
      assert multiset(rest) == multiset(swapped) - multiset{names[last]};
    } else {
      DismissIs(names, name);
      assert name !in multiset(names);
    }
  }

  lemma DismissIs(names: seq<string>, name: string)
    ensures var i, last := Position(names, name), |names| - 1;
            Dismiss(names, name) == if i <= last then names[i := names[last]][..last] else names
  {
  }

  /** Of a name listed once at most none is left. */
  lemma DismissSingle(names: seq<string>, name: string, g: string)
    requires multiset(names)[g] <= 1
    ensures multiset(Dismiss(names, name))[g] <= 1
    ensures g in Dismiss(names, name) <==> g in names && g != name
  {
    hide Dismiss;
    DismissOne(names, name);
    assert g in names <==> g in multiset(names);
    assert g in Dismiss(names, name) <==> g in multiset(Dismiss(names, name));
  }

  /** The volume leaves the registry and supervision. */
  function Release(s: State, guid: string): State {
    s.(volumes := Without(s.volumes, guid), supervised := Dismiss(s.supervised, guid))
  }

  lemma WithoutExact(volumes: VolumeSet, guid: string, g: string)
    ensures Indexes(Without(volumes, guid), g) <==> Indexes(volumes, g) && g != guid
  {
    var rest := Without(volumes, guid);
    if Indexes(volumes, g) && g != guid {
      var i :| 0 <= i < |volumes| && volumes[i].guid == g;
      assert volumes[i] in rest;
    }
    if Indexes(rest, g) {
      var i :| 0 <= i < |rest| && rest[i].guid == g;
      assert rest[i] in volumes;
    }
  }

  lemma {:induction false} WithoutDistinct(volumes: VolumeSet, guid: string)
    requires DistinctGuids(volumes)
    ensures DistinctGuids(Without(volumes, guid))
  {
    if volumes != [] {
      var rest := Without(volumes[1..], guid);
      WithoutDistinct(volumes[1..], guid);
      forall j | 0 <= j < |rest| ensures rest[j].guid != volumes[0].guid {
        assert rest[j] in volumes[1..];
        var k :| 0 <= k < |volumes[1..]| && volumes[1..][k] == rest[j];
        assert volumes[k + 1] == rest[j];
      }
    }
  }

  /** Exactly the released volume is gone from registry and supervision; all else stays. */
  lemma ReleaseExact(s: State, guid: string)
    requires s.Valid()
    ensures Release(s, guid).Valid()
    ensures forall g :: Release(s, guid).Has(g) <==> s.Has(g) && g != guid
    ensures forall g :: g in Release(s, guid).supervised <==> g in s.supervised && g != guid
  {
    hide Indexes, Without, Dismiss;
    WithoutKeeps(s.volumes, s.added, guid);
    WithoutDistinct(s.volumes, guid);
    DismissExact(s.supervised, guid);
    forall g ensures Release(s, guid).Has(g) <==> s.Has(g) && g != guid {
      WithoutExact(s.volumes, guid, g);
    }
  }

  // -- a removal event ------------------------------------------------------------------------------

  function Others(removed: seq<Leaving>, guid: string): (rest: seq<Leaving>)
    ensures forall e :: e in rest <==> e in removed && e.guid != guid
  {
    if removed == [] then [] else
    assert removed == [removed[0]] + removed[1..];
    var rest := Others(removed[1..], guid);
    if removed[0].guid != guid then [removed[0]] + rest else rest
  }

  /** What an event of `guid`, acted on at `now`, leaves. */
  function OnRemoval(s: State, guid: string, event: Event, now: nat): State {
    var let := if s.Has(guid) then Release(s, guid) else s;
    match event
    case QueryRemove => let.(removing := if guid in let.removing then let.removing else let.removing[guid := now])
    case QueryRemoveFailed => s.(removing := s.removing - {guid})
    case Removed => let.(removing := let.removing - {guid}, removed := Others(let.removed, guid) + [Leaving(guid, now)])
  }

  /**
    * After a query or a removal the volume is let go of: neither indexed nor supervised. It is under
    * removal from its first query to the word of how that ended, and a removal is remembered with its
    * time. Every other volume is as it was.
    */
  lemma OnRemovalExact(s: State, guid: string, event: Event, now: nat)
    requires s.Valid()
    ensures var s' := OnRemoval(s, guid, event, now);
            && (event.QueryRemove? <==> guid in s'.removing)
            && (event.QueryRemove? ==> s'.removing[guid] == if guid in s.removing then s.removing[guid] else now)
            && (forall g :: g != guid ==> (g in s'.removing <==> g in s.removing))
            && (forall g :: g != guid && g in s.removing ==> s'.removing[g] == s.removing[g])
            && (forall e :: e in s'.removed <==>
                  if event.Removed? && e.guid == guid then e.at == now else e in s.removed)
    ensures OnRemoval(s, guid, event, now).Valid()
    ensures !event.QueryRemoveFailed? ==>
              !OnRemoval(s, guid, event, now).Has(guid) && guid !in OnRemoval(s, guid, event, now).supervised
    ensures forall g :: g != guid ==> (OnRemoval(s, guid, event, now).Has(g) <==> s.Has(g))
    ensures forall g :: g != guid ==> (g in OnRemoval(s, guid, event, now).supervised <==> g in s.supervised)
  {
    hide Indexes, Without, Dismiss, Ascending, Stamped, DistinctGuids, Distinct;
    ReleaseExact(s, guid);
    OnRemovalEnters(s, guid, event, now);
  }

  lemma OnRemovalEnters(s: State, guid: string, event: Event, now: nat)
    ensures var s' := OnRemoval(s, guid, event, now);
            && (event.QueryRemove? <==> guid in s'.removing)
            && (event.QueryRemove? ==> s'.removing[guid] == if guid in s.removing then s.removing[guid] else now)
            && (forall g :: g != guid ==> (g in s'.removing <==> g in s.removing))
            && (forall g :: g != guid && g in s.removing ==> s'.removing[g] == s.removing[g])
            && (forall e :: e in s'.removed <==>
                  if event.Removed? && e.guid == guid then e.at == now else e in s.removed)
  {
    hide Without, Dismiss, State.Has;
    var s' := OnRemoval(s, guid, event, now);
    if event.Removed? {
      forall e ensures e in s'.removed <==> if e.guid == guid then e.at == now else e in s.removed {
        assert e in s'.removed <==> e in Others(s.removed, guid) || e == Leaving(guid, now);
      }
    }
  }

  /** The removals nobody said the end of in time are forgotten. */
  function Expired(s: State, now: nat): State {
    s.(removing := map g | g in s.removing && now < s.removing[g] + REMOVAL_OUTCOME_WAIT :: s.removing[g])
  }

  // -- a listing --------------------------------------------------------------------------------------

  predicate IsListed(listed: seq<Listed>, guid: string) {
    exists i :: 0 <= i < |listed| && listed[i].guid == guid
  }

  /** Indexed and no longer listed. */
  function GoneFrom(volumes: VolumeSet, listed: seq<Listed>): (gone: seq<string>)
    ensures forall g :: g in gone <==> Indexes(volumes, g) && !IsListed(listed, g)
  {
    if volumes == [] then [] else
    var gone := GoneFrom(volumes[1..], listed);
    var v := volumes[0];
    assert forall g :: Indexes(volumes, g) <==> g == v.guid || Indexes(volumes[1..], g) by {
      forall g ensures Indexes(volumes, g) <==> g == v.guid || Indexes(volumes[1..], g) {
        IndexesCons(volumes, g);
      }
    }
    if IsListed(listed, v.guid) then gone else [v.guid] + gone
  }

  lemma IndexesCons(volumes: VolumeSet, g: string)
    requires volumes != []
    ensures Indexes(volumes, g) <==> g == volumes[0].guid || Indexes(volumes[1..], g)
  {
    if Indexes(volumes[1..], g) {
      var i :| 0 <= i < |volumes[1..]| && volumes[1..][i].guid == g;
      assert volumes[i + 1].guid == g;
    }
    if Indexes(volumes, g) && g != volumes[0].guid {
      var i :| 0 <= i < |volumes| && volumes[i].guid == g;
      assert volumes[1..][i - 1].guid == g;
    }
  }

  /** Some line lists `guid` as one to index. */
  predicate Wanted(listed: seq<Listed>, guid: string) {
    Listed(guid, true) in listed
  }

  /** Listed, fixed NTFS, and not indexed, in listed order. */
  function FoundIn(volumes: VolumeSet, listed: seq<Listed>): (found: seq<string>)
    ensures forall g :: g in found <==> !Indexes(volumes, g) && Wanted(listed, g)
  {
    if listed == [] then [] else
    assert listed == [listed[0]] + listed[1..];
    var found := FoundIn(volumes, listed[1..]);
    if !Indexes(volumes, listed[0].guid) && listed[0].indexable then [listed[0].guid] + found else found
  }

  /** The removals a listing begun at `taken` may not have seen. */
  function Since(removed: seq<Leaving>, taken: nat): (rest: seq<Leaving>)
    ensures forall e :: e in rest <==> e in removed && e.at > taken
  {
    if removed == [] then [] else
    assert removed == [removed[0]] + removed[1..];
    var rest := Since(removed[1..], taken);
    if removed[0].at > taken then [removed[0]] + rest else rest
  }

  predicate IsLeaving(removed: seq<Leaving>, guid: string) {
    exists i :: 0 <= i < |removed| && removed[i].guid == guid
  }

  /** Discovery leaves the volume out: it is being removed, or was after the listing began. */
  predicate LeftOut(s: State, guid: string) {
    guid in s.removing || IsLeaving(s.removed, guid)
  }

  function Find(s: State, guid: string): State {
    if LeftOut(s, guid) then s
    else s.(volumes := s.volumes + [Volume(s.added, guid)], added := s.added + 1, supervised := s.supervised + [guid])
  }

  function FindAll(s: State, found: seq<string>): State
    decreases |found|
  {
    if found == [] then s else FindAll(Find(s, found[0]), found[1..])
  }

  /** Lets go of `gone` from index `k` on, until shutdown is seen: `stop(k)` is the answer before index `k`. */
  function DropFrom(s: State, gone: seq<string>, stop: nat -> bool, k: nat): State
    requires k <= |gone|
    decreases |gone| - k
  {
    if k == |gone| || stop(k) then s else DropFrom(Release(s, gone[k]), gone, stop, k + 1)
  }

  /** Shutdown is seen before or right after the last of the `n` volumes gone. */
  predicate Interrupted(stop: nat -> bool, n: nat) {
    exists k :: 0 <= k <= n && stop(k)
  }

  /** The volumes brought in step with a listing begun at `taken`. */
  function Reconcile(s: State, listed: seq<Listed>, taken: nat, stop: nat -> bool): State {
    var gone := GoneFrom(s.volumes, listed);
    var found := FoundIn(s.volumes, listed);
    var dropped := DropFrom(s.(removed := Since(s.removed, taken)), gone, stop, 0);
    if Interrupted(stop, |gone|) then dropped else FindAll(dropped, found)
  }

  // -- what a listing changes ---------------------------------------------------------------------------

  /** Letting go of volumes keeps the rest, and of all of them if shutdown is not seen. */
  lemma {:induction false} DropExact(s: State, gone: seq<string>, stop: nat -> bool, k: nat)
    requires s.Valid() && k <= |gone|
    ensures DropFrom(s, gone, stop, k).Valid()
    ensures DropFrom(s, gone, stop, k).removing == s.removing && DropFrom(s, gone, stop, k).removed == s.removed
    ensures forall g :: DropFrom(s, gone, stop, k).Has(g) ==> s.Has(g)
    ensures forall g :: s.Has(g) && g !in gone[k..] ==> DropFrom(s, gone, stop, k).Has(g)
    ensures (forall i :: k <= i < |gone| ==> !stop(i)) ==>
              forall g :: g in gone[k..] ==> !DropFrom(s, gone, stop, k).Has(g)
    decreases |gone| - k
  {
    hide State.Valid, State.Has, Without, Dismiss;
    if k < |gone| && !stop(k) {
      ReleaseExact(s, gone[k]);
      DropExact(Release(s, gone[k]), gone, stop, k + 1);
      assert gone[k..] == [gone[k]] + gone[k + 1..];
    }
  }

  lemma HasAppend(s: State, v: Volume, g: string)
    ensures Indexes(s.volumes + [v], g) <==> s.Has(g) || g == v.guid
  {
    var longer := s.volumes + [v];
    assert longer[|s.volumes|] == v;
    if s.Has(g) {
      var i :| 0 <= i < |s.volumes| && s.volumes[i].guid == g;
      assert longer[i].guid == g;
    }
  }

  lemma FindExact(s: State, guid: string)
    requires s.Valid() && !s.Has(guid)
    ensures Find(s, guid).Valid()
    ensures Find(s, guid).removing == s.removing && Find(s, guid).removed == s.removed
    ensures forall g :: Find(s, guid).Has(g) <==> s.Has(g) || (g == guid && !LeftOut(s, guid))
  {
    hide LeftOut;
    forall g ensures Find(s, guid).Has(g) <==> s.Has(g) || (g == guid && !LeftOut(s, guid)) {
      HasAppend(s, Volume(s.added, guid), g);
    }
    if !LeftOut(s, guid) { FindKeepsValid(s, guid); }
  }

  lemma FindKeepsValid(s: State, guid: string)
    requires s.Valid() && !s.Has(guid) && !LeftOut(s, guid)
    ensures Find(s, guid).Valid()
  {
    var s' := Find(s, guid);
    forall i | 0 <= i < |s.volumes| ensures s.volumes[i].guid != guid && s.volumes[i].stamp < s.added {
    }
    forall g ensures s'.Has(g) <==> s.Has(g) || g == guid {
      HasAppend(s, Volume(s.added, guid), g);
    }
    assert guid !in s.supervised;
  }

  /** No volume discovery will take is listed twice. */
  ghost predicate OnceEach(s: State, found: seq<string>) {
    forall i, j :: 0 <= i < j < |found| && found[i] == found[j] ==> LeftOut(s, found[i])
  }

  lemma {:induction false} FindAllExact(s: State, found: seq<string>)
    requires s.Valid() && OnceEach(s, found) && forall g :: g in found ==> !s.Has(g)
    ensures FindAll(s, found).Valid()
    ensures FindAll(s, found).removing == s.removing && FindAll(s, found).removed == s.removed
    ensures forall g :: FindAll(s, found).Has(g) <==> s.Has(g) || (g in found && !LeftOut(s, g))
    decreases |found|
  {
    hide State.Valid, State.Has, Find;
    if found != [] {
      var s', rest := Find(s, found[0]), found[1..];
      FindExact(s, found[0]);
      assert found == [found[0]] + rest;
      forall g | g in rest ensures !s'.Has(g) {
        var j :| 0 <= j < |rest| && rest[j] == g;
        assert found[j + 1] == g;
      }
      forall i, j | 0 <= i < j < |rest| && rest[i] == rest[j] ensures LeftOut(s', rest[i]) {
        assert found[i + 1] == found[j + 1];
      }
      FindAllExact(s', rest);
    }
  }

  /** Finding volumes, however often each is named, adds exactly those that are not left out. */
  lemma {:induction false} FindAllMembers(s: State, found: seq<string>)
    ensures FindAll(s, found).removing == s.removing && FindAll(s, found).removed == s.removed
    ensures forall g :: FindAll(s, found).Has(g) <==> s.Has(g) || (g in found && !LeftOut(s, g))
    decreases |found|
  {
    hide State.Has, LeftOut;
    if found != [] {
      var s' := Find(s, found[0]);
      FindAllMembers(s', found[1..]);
      assert found == [found[0]] + found[1..];
      forall g ensures s'.Has(g) <==> s.Has(g) || (g == found[0] && !LeftOut(s, g)) {
        HasAppend(s, Volume(s.added, found[0]), g);
        FindHas(s, found[0], g);
      }
      forall g ensures LeftOut(s', g) == LeftOut(s, g) {
        FindLeavesOut(s, found[0], g);
      }
    }
  }

  lemma FindHas(s: State, guid: string, g: string)
    ensures Find(s, guid).Has(g)
            == if LeftOut(s, guid) then s.Has(g) else Indexes(s.volumes + [Volume(s.added, guid)], g)
  {
  }

  lemma FindLeavesOut(s: State, guid: string, g: string)
    ensures LeftOut(Find(s, guid), g) == LeftOut(s, g)
  {
  }

  /** Finding a volume that is indexed lists its GUID twice, and it stays so. */
  lemma {:induction false} FindAgain(s: State, found: seq<string>, i: nat)
    requires i < |found| && s.Has(found[i]) && !LeftOut(s, found[i])
    ensures s.volumes <= FindAll(s, found).volumes && !DistinctGuids(FindAll(s, found).volumes)
    decreases |found|
  {
    var s' := Find(s, found[0]);
    if i > 0 {
      HasAppend(s, Volume(s.added, found[0]), found[i]);
      FindAgain(s', found[1..], i - 1);
    } else {
      var k :| 0 <= k < |s.volumes| && s.volumes[k].guid == found[0];
      assert s'.volumes[k].guid == s'.volumes[|s.volumes|].guid;
      FindExtends(s', found[1..]);
    }
  }

  lemma {:induction false} FindExtends(s: State, found: seq<string>)
    ensures s.volumes <= FindAll(s, found).volumes
    decreases |found|
  {
    if found != [] { FindExtends(Find(s, found[0]), found[1..]); }
  }

  lemma {:induction false} FindTwice(s: State, found: seq<string>, i: nat, j: nat)
    requires i < j < |found| && found[i] == found[j] && !LeftOut(s, found[i])
    ensures !DistinctGuids(FindAll(s, found).volumes)
    decreases |found|
  {
    var s' := Find(s, found[0]);
    if i > 0 {
      FindTwice(s', found[1..], i - 1, j - 1);
    } else {
      HasAppend(s, Volume(s.added, found[0]), found[0]);
      FindAgain(s', found[1..], j - 1);
    }
  }

  /** The registry keeps one instance per GUID exactly when the listing names no volume it will take twice. */
  lemma DistinctIff(s: State, found: seq<string>)
    requires s.Valid() && forall g :: g in found ==> !s.Has(g)
    ensures DistinctGuids(FindAll(s, found).volumes) <==> OnceEach(s, found)
  {
    hide FindAll, LeftOut, Ascending, Stamped, Distinct;
    if OnceEach(s, found) {
      FindAllExact(s, found);
    } else {
      var i: nat, j: nat :| 0 <= i < j < |found| && found[i] == found[j] && !LeftOut(s, found[i]);
      FindTwice(s, found, i, j);
    }
  }

  /** A machine lists each volume once. */
  ghost predicate DistinctListing(listed: seq<Listed>) {
    forall i, j :: 0 <= i < j < |listed| ==> listed[i].guid != listed[j].guid
  }

  lemma {:induction false} FoundOnce(volumes: VolumeSet, listed: seq<Listed>)
    requires DistinctListing(listed)
    ensures Distinct(FoundIn(volumes, listed))
  {
    if listed != [] {
      var rest := FoundIn(volumes, listed[1..]);
      FoundOnce(volumes, listed[1..]);
      forall j | 0 <= j < |rest| ensures rest[j] != listed[0].guid {
        assert rest[j] in rest && Wanted(listed[1..], rest[j]);
        var k :| 0 <= k < |listed[1..]| && listed[1..][k] == Listed(rest[j], true);
        assert listed[k + 1].guid == rest[j];
      }
    }
  }

  lemma WantedIsListed(listed: seq<Listed>, g: string)
    requires Wanted(listed, g)
    ensures IsListed(listed, g)
  {
    var i :| 0 <= i < |listed| && listed[i] == Listed(g, true);
    assert listed[i].guid == g;
  }

  /** The listing cannot have seen the volume's removal. */
  predicate RemovedAfter(removed: seq<Leaving>, guid: string, taken: nat) {
    exists i :: 0 <= i < |removed| && removed[i].guid == guid && removed[i].at > taken
  }

  lemma SinceExact(removed: seq<Leaving>, guid: string, taken: nat)
    ensures IsLeaving(Since(removed, taken), guid) <==> RemovedAfter(removed, guid, taken)
  {
    var rest := Since(removed, taken);
    if IsLeaving(rest, guid) {
      var i :| 0 <= i < |rest| && rest[i].guid == guid;
      assert rest[i] in removed;
    }
    if RemovedAfter(removed, guid, taken) {
      var i :| 0 <= i < |removed| && removed[i].guid == guid && removed[i].at > taken;
      assert removed[i] in rest;
    }
  }

  /** No volume the listing makes the fleet find is named twice. */
  ghost predicate NamesOnce(s: State, listed: seq<Listed>, taken: nat) {
    OnceEach(s.(removed := Since(s.removed, taken)), FoundIn(s.volumes, listed))
  }

  lemma DistinctNamesOnce(s: State, listed: seq<Listed>, taken: nat)
    requires DistinctListing(listed)
    ensures NamesOnce(s, listed, taken)
  {
    FoundOnce(s.volumes, listed);
  }

  /**
    * A listing drops the indexed volumes it does not name and adds the fixed NTFS ones it names
    * that are neither indexed, nor being removed, nor removed after it began; a listed volume
    * stays indexed however it classifies. Shutdown seen on the way only leaves changes out. The
    * fleet stays valid exactly when none of the volumes added is named twice.
    */
  lemma ReconcileExact(s: State, listed: seq<Listed>, taken: nat, stop: nat -> bool, g: string)
    requires s.Valid()
    ensures var s' := Reconcile(s, listed, taken, stop);
            var interrupted := exists k :: 0 <= k <= |GoneFrom(s.volumes, listed)| && stop(k);
            && s'.removing == s.removing && s'.removed == Since(s.removed, taken)
            && (s'.Valid() <==> interrupted || NamesOnce(s, listed, taken))
            && (s.Has(g) && IsListed(listed, g) ==> s'.Has(g))
            && (s'.Has(g) && !s.Has(g) ==> Wanted(listed, g) && g !in s.removing && !RemovedAfter(s.removed, g, taken))
            && (!interrupted ==>
                  (s'.Has(g) <==>
                     if s.Has(g) then IsListed(listed, g)
                     else Wanted(listed, g) && g !in s.removing && !RemovedAfter(s.removed, g, taken)))
  {
    hide State.Valid, State.Has, IsListed, Wanted, Since, RemovedAfter, DropFrom, FindAll, Interrupted, OnceEach;
    var gone, found := GoneFrom(s.volumes, listed), FoundIn(s.volumes, listed);
    var seen := s.(removed := Since(s.removed, taken));
    var dropped := DropFrom(seen, gone, stop, 0);
    SeenValid(s, taken);
    DropExact(seen, gone, stop, 0);
    assert gone[0..] == gone;
    SameHas(s, taken, listed);
    FindAllMembers(dropped, found);
    FindValidIff(seen, dropped, found);
    SinceExact(s.removed, g, taken);
    NotStopped(stop, |gone|);
    if Wanted(listed, g) { WantedIsListed(listed, g); }
  }

  lemma NotStopped(stop: nat -> bool, n: nat)
    ensures Interrupted(stop, n) <==> exists k :: 0 <= k <= n && stop(k)
    ensures !Interrupted(stop, n) ==> forall i :: 0 <= i < n ==> !stop(i)
  {
  }

  lemma {:induction false} DropUntil(s: State, gone: seq<string>, stop: nat -> bool, k: nat, m: nat, g: string)
    requires k <= m <= |gone| && stop(m) && forall i :: k <= i < m ==> !stop(i)
    ensures DropFrom(s, gone, stop, k).Has(g) <==> s.Has(g) && g !in gone[k..m]
    decreases m - k
  {
    hide Without, Dismiss, Indexes;
    if k < m {
      WithoutExact(s.volumes, gone[k], g);
      DropUntil(Release(s, gone[k]), gone, stop, k + 1, m, g);
      assert gone[k..m] == [gone[k]] + gone[k + 1..m];
    }
  }

  /** Shutdown first seen before volume `m` of those gone leaves the earlier ones dropped and all else as it was. */
  lemma InterruptedExact(s: State, listed: seq<Listed>, taken: nat, stop: nat -> bool, m: nat, g: string)
    requires m <= |GoneFrom(s.volumes, listed)| && stop(m) && forall i :: 0 <= i < m ==> !stop(i)
    ensures Reconcile(s, listed, taken, stop).Has(g) <==> s.Has(g) && g !in GoneFrom(s.volumes, listed)[..m]
  {
    hide DropFrom, FindAll, GoneFrom, Since, Interrupted;
    var gone, seen := GoneFrom(s.volumes, listed), s.(removed := Since(s.removed, taken));
    NotStopped(stop, |gone|);
    DropUntil(seen, gone, stop, 0, m, g);
    assert gone[0..m] == gone[..m] && seen.Has(g) == s.Has(g);
  }

  lemma FindValidIff(seen: State, dropped: State, found: seq<string>)
    requires dropped.Valid() && dropped.removing == seen.removing && dropped.removed == seen.removed
    requires forall g :: g in found ==> !dropped.Has(g)
    ensures FindAll(dropped, found).Valid() <==> OnceEach(seen, found)
  {
    hide State.Has, FindAll, Ascending, Stamped, Distinct;
    DistinctIff(dropped, found);
    if OnceEach(seen, found) {
      forall i, j | 0 <= i < j < |found| && found[i] == found[j] ensures LeftOut(dropped, found[i]) {
        assert LeftOut(seen, found[i]);
      }
      FindAllExact(dropped, found);
    } else {
      var i: nat, j: nat :| 0 <= i < j < |found| && found[i] == found[j] && !LeftOut(seen, found[i]);
      assert !LeftOut(dropped, found[i]);
    }
  }

  lemma SeenValid(s: State, taken: nat)
    requires s.Valid()
    ensures s.(removed := Since(s.removed, taken)).Valid()
  {
  }

  lemma SameHas(s: State, taken: nat, listed: seq<Listed>)
    ensures forall g :: s.(removed := Since(s.removed, taken)).Has(g) == s.Has(g)
    ensures forall g :: g in GoneFrom(s.volumes, listed) <==> s.Has(g) && !IsListed(listed, g)
    ensures forall g :: g in FoundIn(s.volumes, listed) <==> !s.Has(g) && Wanted(listed, g)
  {
  }
}
