/**
  * The fleet of volumes together with the tails of every volume instance there ever was: how a
  * volume is found, watched, let go of step by step, and how listings and removals go on around
  * that. An instance is known by its stamp, so an old instance of a GUID keeps its own tails.
  */
module FleetTails {
  import opened Options
  import opened Registry
  import opened Fleet
  import TailOwner

  datatype Instance = Instance(guid: string, tails: TailOwner.State) {

    predicate Watched() {
      tails.keeper.Supervising?
    }

    /** The supervisor is letting go of it. */
    predicate InRelease() {
      tails.keeper.Releasing? || tails.keeper.Stopping? || tails.keeper.Waiting?
    }

    predicate LetGo() {
      tails.keeper.LetGo?
    }
  }

  /** A listing being acted on: what is still to drop, what to find, and whether dropping is over. */
  datatype Plan = Plan(gone: seq<string>, found: seq<string>, finding: bool)

  datatype Crew = Crew(
    fleet: State,
    instances: seq<Instance>,
    clock: nat,
    /** The instance being let go of. */
    releasing: Option<nat>,
    plan: Option<Plan>,
    /** When the listing under way began. */
    listing: Option<nat>,
    /** When the last listing acted on began. */
    lastTaken: nat,
    /** When each volume was last said to be removed. */
    left: map<string, nat>,
    /** The instances shutdown stops, once it does. */
    closing: Option<set<nat>>) {

    /** The listing under way began no earlier than any before it, and no clock runs ahead. */
    ghost predicate Timely() {
      && lastTaken <= clock
      && (listing.Some? ==> lastTaken <= listing.value <= clock)
      && forall g :: g in left ==> left[g] <= clock
    }

    /** A removal the last listing may not have seen is remembered. */
    ghost predicate Remembered() {
      forall g :: g in left && left[g] > lastTaken ==> Leaving(g, left[g]) in fleet.removed
    }

    /** Nothing else is remembered, and while a listing is acted on only what it may not have seen. */
    ghost predicate OnlyRemembered() {
      && (forall e :: e in fleet.removed ==> e.guid in left && left[e.guid] == e.at)
      && (plan.Some? ==> forall e :: e in fleet.removed ==> e.at > lastTaken)
    }

    /** What is still to be found is not indexed, and named once unless it is left out. */
    ghost predicate Planned() {
      plan.Some? ==> OnceEach(fleet, plan.value.found) && forall g :: g in plan.value.found ==> !fleet.Has(g)
    }

    /** Every volume ever added has its instance, each with valid tails. */
    ghost predicate Manned() {
      && |instances| == fleet.added && Ascending(fleet.volumes)
      && (forall i :: 0 <= i < |instances| ==> instances[i].tails.Valid())
      && (forall v :: v in fleet.volumes ==> v.stamp < |instances| && instances[v.stamp].guid == v.guid)
    }

    /** Shutdown stops instance `i`. */
    predicate Closes(i: nat) {
      closing.Some? && i in closing.value
    }

    /** An instance in release is the one being let go of; shutdown stops all that are watched. */
    ghost predicate HandledAt(i: nat)
      requires i < |instances|
    {
      && (instances[i].InRelease() ==> releasing == Some(i) || Closes(i))
      && (instances[i].Watched() && closing.Some? ==> Closes(i))
    }

    ghost predicate AllHandled() {
      && (forall i {:trigger HandledAt(i)} :: 0 <= i < |instances| ==> HandledAt(i))
      && (releasing.Some? ==> releasing.value < |instances| && closing.None?)
      && (closing.Some? ==> forall i :: i in closing.value ==> i < |instances|)
    }

    /** No volume under removal is indexed. */
    ghost predicate RemovalsOut() {
      forall g :: g in fleet.removing ==> !fleet.Has(g)
    }

    /** What holds whatever is listed. */
    ghost predicate Valid() {
      Manned() && AllHandled() && RemovalsOut()
    }

    /** Until shutdown, of the instances of `guid` exactly the one indexed and supervised is watched. */
    ghost predicate WatchesOf(guid: string) {
      closing.None? ==>
        forall i :: 0 <= i < |instances| && instances[i].guid == guid ==>
          (instances[i].Watched() <==> guid in fleet.supervised && Volume(i, guid) in fleet.volumes)
    }

    /** What holds of a volume that was never indexed twice: one instance and one watch of it at most. */
    ghost predicate Single(guid: string) {
      && OneInstance(fleet.volumes, guid) && multiset(fleet.supervised)[guid] <= 1
      && (guid in fleet.supervised ==> fleet.Has(guid))
      && WatchesOf(guid)
    }

    /** Every instance of `guid` is let go of. */
    ghost predicate Released(guid: string) {
      forall i :: 0 <= i < |instances| && instances[i].guid == guid ==> instances[i].LetGo()
    }
  }

  /** One instance of `guid` at most is indexed. */
  ghost predicate OneInstance(volumes: VolumeSet, guid: string) {
    forall v, w :: v in volumes && w in volumes && v.guid == w.guid == guid ==> v == w
  }

  lemma HasIndexed(volumes: VolumeSet, guid: string)
    ensures Indexes(volumes, guid) <==> exists v :: v in volumes && v.guid == guid
  {
    if v :| v in volumes && v.guid == guid {
      var k :| 0 <= k < |volumes| && volumes[k] == v;
      assert volumes[k].guid == guid;
    }
    if Indexes(volumes, guid) {
      var k :| 0 <= k < |volumes| && volumes[k].guid == guid;
      assert volumes[k] in volumes;
    }
  }

  /** Volumes of one instance each have distinct GUIDs. */
  lemma SinglesAreDistinct(volumes: VolumeSet)
    requires Ascending(volumes) && forall g :: OneInstance(volumes, g)
    ensures DistinctGuids(volumes)
  {
    forall i, j | 0 <= i < j < |volumes| ensures volumes[i].guid != volumes[j].guid {
      assert OneInstance(volumes, volumes[i].guid);
      assert volumes[i] in volumes && volumes[j] in volumes;
    }
  }

  function Begin(): Crew {
    Crew(Empty(), [], 0, None, None, None, 0, map[], None)
  }

  lemma BeginValid(g: string)
    ensures Begin().Valid() && Begin().Single(g)
  {
  }

  // -- one instance moves on -----------------------------------------------------------------------

  function Replace(c: Crew, i: nat, tails: TailOwner.State): Crew
    requires i < |c.instances|
  {
    c.(instances := c.instances[i := c.instances[i].(tails := tails)])
  }

  /** A volume's own threads, which move whatever the supervisor does. */
  predicate Unasked(step: TailOwner.Step) {
    step.Build? || step.Fail? || step.Die? || step.GiveBack? || step.Joined? || step.Moves?
  }

  /** The steps by which a volume is let go of once that has begun. */
  predicate LetsGo(step: TailOwner.Step) {
    step.Drain? || step.StopTails? || step.Waited?
  }

  predicate CanStep(c: Crew, i: nat, step: TailOwner.Step) {
    i < |c.instances| && TailOwner.Enabled(c.instances[i].tails, step)
  }

  function Stepped(c: Crew, i: nat, step: TailOwner.Step): Crew
    requires CanStep(c, i, step)
  {
    Replace(c, i, TailOwner.Next(c.instances[i].tails, step))
  }

  lemma UnaskedKeeps(s: TailOwner.State, step: TailOwner.Step)
    requires TailOwner.Enabled(s, step) && Unasked(step)
    ensures TailOwner.Next(s, step).keeper == s.keeper
  {
  }

  /** A replaced instance that is watched, in release or let go of as before keeps the crew valid. */
  lemma ReplaceValid(c: Crew, i: nat, tails: TailOwner.State, g: string)
    requires c.Valid() && i < |c.instances| && tails.Valid()
    requires var n := c.instances[i].(tails := tails);
             n.Watched() == c.instances[i].Watched() && (n.InRelease() ==> c.instances[i].InRelease())
    ensures Replace(c, i, tails).Valid()
    ensures c.Single(g) ==> Replace(c, i, tails).Single(g)
  {
    hide State.Has, TailOwner.State.Valid, OneInstance, Ascending;
    var c' := Replace(c, i, tails);
    forall j | 0 <= j < |c'.instances| ensures c'.HandledAt(j) {
      assert c.HandledAt(j);
    }
  }

  /** A volume's own threads may move, and the supervisor start and poll a tail, at any time. */
  lemma SteppedValid(c: Crew, i: nat, step: TailOwner.Step, g: string)
    requires c.Valid() && CanStep(c, i, step) && (Unasked(step) || step.Launch? || step.Poll?)
    ensures Stepped(c, i, step).Valid()
    ensures c.Single(g) ==> Stepped(c, i, step).Single(g)
  {
    hide Crew.Valid, Crew.Single, TailOwner.State.Valid;
    TailsValid(c, i);
    TailOwner.StepValid(c.instances[i].tails, step);
    if Unasked(step) { UnaskedKeeps(c.instances[i].tails, step); }
    ReplaceValid(c, i, TailOwner.Next(c.instances[i].tails, step), g);
  }

  lemma TailsValid(c: Crew, i: nat)
    requires c.Valid() && i < |c.instances|
    ensures c.instances[i].tails.Valid()
  {
  }

  // -- letting go of a volume ---------------------------------------------------------------------------

  /** The first instance of `guid` from the `k`-th on that is watched. */
  function FirstWatched(instances: seq<Instance>, guid: string, k: nat): (i: Option<nat>)
    requires k <= |instances|
    ensures i.Some? ==>
              i.value < |instances| && instances[i.value].guid == guid && instances[i.value].Watched()
    ensures i.None? ==> forall j :: k <= j < |instances| && instances[j].guid == guid ==> !instances[j].Watched()
    decreases |instances| - k
  {
    if k == |instances| then None
    else if instances[k].guid == guid && instances[k].Watched() then Some(k)
    else FirstWatched(instances, guid, k + 1)
  }

  /** `guid` leaves the registry and supervision, and its tails, if it is watched, begin to be let go of. */
  function BeginLetGo(c: Crew, guid: string): Crew {
    var at, out := FirstWatched(c.instances, guid, 0), c.(fleet := Release(c.fleet, guid));
    if at.Some? then Stepped(out, at.value, TailOwner.BeginRelease).(releasing := at) else out
  }

  lemma BeginsRelease(s: TailOwner.State)
    requires s.keeper.Supervising?
    ensures TailOwner.Enabled(s, TailOwner.BeginRelease)
    ensures TailOwner.Next(s, TailOwner.BeginRelease).keeper.Releasing?
  {
  }

  lemma LetGoManned(c: Crew, guid: string)
    requires c.Valid()
    ensures BeginLetGo(c, guid).Manned()
  {
    hide State.Has, Dismiss, Crew.AllHandled, Crew.RemovalsOut, TailOwner.State.Valid, TailOwner.Next,
      TailOwner.Enabled;
    var at := FirstWatched(c.instances, guid, 0);
    WithoutKeeps(c.fleet.volumes, c.fleet.added, guid);
    if at.Some? {
      BeginsRelease(c.instances[at.value].tails);
      TailOwner.StepValid(c.instances[at.value].tails, TailOwner.BeginRelease);
    }
  }

  /** Of the volume let go of nothing is watched any more; any other is as it was. */
  lemma LetGoSingle(c: Crew, guid: string, g: string)
    requires c.Valid() && c.Single(g) && c.closing.None?
    ensures BeginLetGo(c, guid).Single(g)
  {
    hide Dismiss, Crew.Valid, TailOwner.Next, TailOwner.Enabled, Indexes, Picked;
    var c', at := BeginLetGo(c, guid), FirstWatched(c.instances, guid, 0);
    DismissSingle(c.fleet.supervised, guid, g);
    WithoutExact(c.fleet.volumes, guid, g);
    if at.Some? { BeginsRelease(c.instances[at.value].tails); }
    forall i | 0 <= i < |c'.instances| && c'.instances[i].guid == g
      ensures c'.instances[i].Watched() <==> g in c'.fleet.supervised && Volume(i, g) in c'.fleet.volumes
    {
      if g == guid && c.instances[i].Watched() {
        assert Volume(i, g) in c.fleet.volumes && Volume(at.value, g) in c.fleet.volumes;
      }
    }
  }

  /** Beginning to let go of a volume keeps everything, and leaves it not indexed. */
  lemma BeginLetGoValid(c: Crew, guid: string, g: string)
    requires c.Valid() && c.releasing.None? && c.closing.None?
    ensures BeginLetGo(c, guid).Valid() && !BeginLetGo(c, guid).fleet.Has(guid)
    ensures c.Single(g) ==> BeginLetGo(c, guid).Single(g)
  {
    hide Crew.Manned, Crew.Single, Without, Dismiss, TailOwner.Next, Indexes;
    LetGoManned(c, guid);
    if c.Single(g) { LetGoSingle(c, guid, g); }
    var c', at := BeginLetGo(c, guid), FirstWatched(c.instances, guid, 0);
    forall h ensures c'.fleet.Has(h) <==> c.fleet.Has(h) && h != guid {
      WithoutExact(c.fleet.volumes, guid, h);
    }
    if at.Some? { BeginsRelease(c.instances[at.value].tails); }
    forall j | 0 <= j < |c'.instances| ensures c'.HandledAt(j) {
      assert c.HandledAt(j);
    }
  }

  /** Instance `i` is being let go of, by a release or by shutdown. */
  predicate CanLetGo(c: Crew, i: nat, step: TailOwner.Step) {
    && CanStep(c, i, step)
    && ((LetsGo(step) && (c.releasing == Some(i) || c.Closes(i))) || (step.BeginRelease? && c.Closes(i)))
  }

  /** One step of letting go; a release ends with its wait. */
  function LetGoStep(c: Crew, i: nat, step: TailOwner.Step): Crew
    requires CanLetGo(c, i, step)
  {
    var c' := Stepped(c, i, step);
    if step.Waited? && c.releasing == Some(i) then c'.(releasing := None) else c'
  }

  /** Letting go goes on, and ends with the wait. */
  lemma StepsDown(s: TailOwner.State, step: TailOwner.Step)
    requires TailOwner.Enabled(s, step) && (LetsGo(step) || step.BeginRelease?)
    ensures !s.keeper.LetGo? && !TailOwner.Next(s, step).keeper.Supervising?
    ensures TailOwner.Next(s, step).keeper.LetGo? <==> step.Waited?
    ensures LetsGo(step) ==> !s.keeper.Supervising?
  {
  }

  lemma LetGoStepValid(c: Crew, i: nat, step: TailOwner.Step, g: string)
    requires c.Valid() && CanLetGo(c, i, step)
    ensures LetGoStep(c, i, step).Valid()
    ensures c.Single(g) ==> LetGoStep(c, i, step).Single(g)
  {
    hide State.Has, OneInstance, Ascending, TailOwner.State.Valid, TailOwner.Next, TailOwner.Enabled;
    var c' := LetGoStep(c, i, step);
    TailsValid(c, i);
    TailOwner.StepValid(c.instances[i].tails, step);
    StepsDown(c.instances[i].tails, step);
    forall j | 0 <= j < |c'.instances| ensures c'.HandledAt(j) {
      assert c.HandledAt(j);
    }
  }

  /** With none being let go of, a volume that is not indexed has every instance let go of. */
  lemma NotIndexedIsReleased(c: Crew, guid: string)
    requires c.Valid() && c.Single(guid) && c.releasing.None? && c.closing.None? && !c.fleet.Has(guid)
    ensures c.Released(guid)
  {
    forall i | 0 <= i < |c.instances| && c.instances[i].guid == guid ensures c.instances[i].LetGo() {
      assert c.HandledAt(i);
    }
  }

  // -- removals ---------------------------------------------------------------------------------------------

  /** A removal event, its volume let go of if it asks for that, is entered. */
  function Entered(c: Crew, guid: string, event: Event): Crew {
    c.(fleet := OnRemoval(c.fleet, guid, event, c.clock),
       left := if event.Removed? then c.left[guid := c.clock] else c.left)
  }

  lemma EnteredValid(c: Crew, guid: string, event: Event, g: string)
    requires c.Valid() && (event.QueryRemoveFailed? || !c.fleet.Has(guid))
    ensures Entered(c, guid, event).Valid()
    ensures Entered(c, guid, event).fleet.volumes == c.fleet.volumes
    ensures c.Single(g) ==> Entered(c, guid, event).Single(g)
  {
    hide Release, OneInstance, Ascending, TailOwner.State.Valid;
    var c' := Entered(c, guid, event);
    forall j | 0 <= j < |c'.instances| ensures c'.HandledAt(j) {
      assert c.HandledAt(j);
    }
  }

  // -- listings ---------------------------------------------------------------------------------------------

  /** A listing is acted on: removals it cannot have missed are forgotten, and what it changes is planned. */
  function Applied(c: Crew, listed: seq<Listed>): Crew
    requires c.listing.Some?
  {
    c.(fleet := c.fleet.(removed := Since(c.fleet.removed, c.listing.value)),
       plan := Some(Plan(GoneFrom(c.fleet.volumes, listed), FoundIn(c.fleet.volumes, listed), false)),
       listing := None, lastTaken := c.listing.value)
  }

  lemma AppliedValid(c: Crew, listed: seq<Listed>, g: string)
    requires c.Valid() && c.listing.Some?
    ensures Applied(c, listed).Valid()
    ensures c.Single(g) ==> Applied(c, listed).Single(g)
  {
    hide OneInstance, Ascending, TailOwner.State.Valid, GoneFrom, FoundIn, Since;
    var c' := Applied(c, listed);
    forall j | 0 <= j < |c'.instances| ensures c'.HandledAt(j) {
      assert c.HandledAt(j);
    }
  }

  function DropNext(c: Crew): Crew
    requires c.plan.Some? && c.plan.value.gone != []
  {
    BeginLetGo(c.(plan := Some(c.plan.value.(gone := c.plan.value.gone[1..]))), c.plan.value.gone[0])
  }

  lemma PlanValid(c: Crew, plan: Option<Plan>, g: string)
    requires c.Valid()
    ensures c.(plan := plan).Valid()
    ensures c.Single(g) ==> c.(plan := plan).Single(g)
  {
    hide State.Has, OneInstance, Ascending, TailOwner.State.Valid;
    forall j | 0 <= j < |c.instances| ensures c.(plan := plan).HandledAt(j) {
      assert c.HandledAt(j);
    }
  }

  lemma DropNextValid(c: Crew, g: string)
    requires c.Valid() && c.plan.Some? && c.plan.value.gone != [] && c.releasing.None? && c.closing.None?
    ensures DropNext(c).Valid()
    ensures c.Single(g) ==> DropNext(c).Single(g)
  {
    hide Crew.Valid, Crew.Single;
    var plan := Some(c.plan.value.(gone := c.plan.value.gone[1..]));
    PlanValid(c, plan, g);
    BeginLetGoValid(c.(plan := plan), c.plan.value.gone[0], g);
  }

  /** The next volume found is indexed and its first start launched, if a worker can be had, unless it is left out. */
  function FindNext(c: Crew, starts: bool): Crew
    requires c.plan.Some? && c.plan.value.found != []
  {
    var guid, next := c.plan.value.found[0], c.(plan := Some(c.plan.value.(found := c.plan.value.found[1..])));
    if LeftOut(c.fleet, guid) then next else
    var tails := if starts then TailOwner.Next(TailOwner.Found(), TailOwner.Launch) else TailOwner.Found();
    next.(fleet := Find(c.fleet, guid), instances := c.instances + [Instance(guid, tails)])
  }

  lemma FirstTailsValid()
    ensures TailOwner.Found().Valid() && TailOwner.Next(TailOwner.Found(), TailOwner.Launch).Valid()
    ensures TailOwner.Found().keeper.Supervising?
    ensures TailOwner.Next(TailOwner.Found(), TailOwner.Launch).keeper.Supervising?
  {
    TailOwner.FoundValid();
    TailOwner.StepValid(TailOwner.Found(), TailOwner.Launch);
  }

  /** The next volume found is `guid`, and indexed already: the listing named it twice. */
  predicate FindsTwice(c: Crew, guid: string) {
    && c.plan.Some? && c.plan.value.found != [] && c.plan.value.found[0] == guid
    && c.fleet.Has(guid) && !LeftOut(c.fleet, guid)
  }

  /** Then two instances of it are. */
  lemma FoundTwice(c: Crew, starts: bool, guid: string)
    requires c.Valid() && FindsTwice(c, guid)
    ensures !OneInstance(FindNext(c, starts).fleet.volumes, guid)
  {
    var i :| 0 <= i < |c.fleet.volumes| && c.fleet.volumes[i].guid == guid;
    var volumes := FindNext(c, starts).fleet.volumes;
    assert volumes[i] == c.fleet.volumes[i] && c.fleet.volumes[i] in c.fleet.volumes;
    assert volumes[i] in volumes && volumes[|volumes| - 1] in volumes;
  }

  /** Only the volume found, if it is not left out, can be new. */
  lemma FindNextHas(c: Crew, starts: bool, g: string)
    requires c.plan.Some? && c.plan.value.found != []
    ensures var guid := c.plan.value.found[0];
            FindNext(c, starts).fleet.Has(g) <==> c.fleet.Has(g) || (g == guid && !LeftOut(c.fleet, guid))
  {
    hide LeftOut;
    HasAppend(c.fleet, Volume(c.fleet.added, c.plan.value.found[0]), g);
  }

  lemma FindNextPlanned(c: Crew, starts: bool)
    requires c.Planned() && c.plan.Some? && c.plan.value.found != []
    ensures FindNext(c, starts).Planned()
  {
    hide State.Has, LeftOut, TailOwner.State.Valid;
    var found, c' := c.plan.value.found, FindNext(c, starts);
    forall g | g in found[1..] ensures !c'.fleet.Has(g) {
      var k :| 0 <= k < |found[1..]| && found[1..][k] == g;
      assert found[k + 1] == g;
      FindNextHas(c, starts, g);
    }
    forall i, j | 0 <= i < j < |found[1..]| && found[1..][i] == found[1..][j] ensures LeftOut(c'.fleet, found[1..][i]) {
      assert found[i + 1] == found[j + 1];
      FindLeavesOut(c.fleet, found[0], found[i + 1]);
    }
  }

  lemma FindNextValid(c: Crew, starts: bool)
    requires c.Valid() && c.plan.Some? && c.plan.value.found != [] && c.closing.None?
    ensures FindNext(c, starts).Valid()
  {
    hide State.Has, TailOwner.State.Valid, TailOwner.Found, TailOwner.Next, TailOwner.Enabled;
    FirstTailsValid();
    var c', guid := FindNext(c, starts), c.plan.value.found[0];
    forall g | g in c'.fleet.removing ensures !c'.fleet.Has(g) {
      FindNextHas(c, starts, g);
    }
    forall j | 0 <= j < |c'.instances| ensures c'.HandledAt(j) {
      if j < |c.instances| { assert c.HandledAt(j); }
    }
    forall i, j | 0 <= i < j < |c'.fleet.volumes| ensures c'.fleet.volumes[i].stamp < c'.fleet.volumes[j].stamp {
      assert c'.fleet.volumes[i] in c.fleet.volumes;
    }
  }

  /** A volume found that is not indexed yet has one instance and one watch. */
  lemma FindNextSingle(c: Crew, starts: bool, g: string)
    requires c.Valid() && c.Single(g) && c.plan.Some? && c.plan.value.found != [] && !FindsTwice(c, g)
    ensures FindNext(c, starts).Single(g)
  {
    hide Indexes, LeftOut, Ascending, TailOwner.State.Valid, TailOwner.Found, TailOwner.Next, TailOwner.Enabled;
    FirstTailsValid();
    FindNextHas(c, starts, g);
    HasIndexed(c.fleet.volumes, g);
    assert g in c.fleet.supervised <==> g in multiset(c.fleet.supervised);
  }

  // -- the end of a watch, and of all ---------------------------------------------------------------------------

  /** The watch over instance `i` ends: its tail is given up on, or left a snapshot. */
  function Unwatched(c: Crew, i: nat): Crew
    requires CanStep(c, i, TailOwner.EndSupervision)
  {
    var c' := Stepped(c, i, TailOwner.EndSupervision);
    c'.(fleet := c.fleet.(supervised := Dismiss(c.fleet.supervised, c.instances[i].guid)))
  }

  lemma EndsWatch(s: TailOwner.State)
    requires TailOwner.Enabled(s, TailOwner.EndSupervision)
    ensures s.keeper.Supervising? && TailOwner.Next(s, TailOwner.EndSupervision).keeper.LetGo?
  {
  }

  /** The end of a watch leaves the volume without one. */
  lemma UnwatchedValid(c: Crew, i: nat, g: string)
    requires c.Valid() && CanStep(c, i, TailOwner.EndSupervision) && c.closing.None?
    ensures Unwatched(c, i).Valid()
    ensures c.Single(g) ==> Unwatched(c, i).Single(g)
  {
    hide State.Has, Ascending, TailOwner.State.Valid, TailOwner.Next, TailOwner.Enabled, Dismiss;
    var c' := Unwatched(c, i);
    if c.Single(g) { DismissSingle(c.fleet.supervised, c.instances[i].guid, g); }
    TailsValid(c, i);
    TailOwner.StepValid(c.instances[i].tails, TailOwner.EndSupervision);
    EndsWatch(c.instances[i].tails);
    SameHasWatched(c, c');
    forall j | 0 <= j < |c'.instances| ensures c'.HandledAt(j) {
      assert c.HandledAt(j);
    }
    if c.Single(g) {
      forall j | 0 <= j < |c'.instances| && c'.instances[j].guid == g
        ensures c'.instances[j].Watched() <==> g in c'.fleet.supervised && Volume(j, g) in c'.fleet.volumes
      {
        if g == c.instances[i].guid && c.instances[j].Watched() {
          assert Volume(i, g) in c.fleet.volumes && Volume(j, g) in c.fleet.volumes;
        }
      }
    }
  }

  lemma SameHasWatched(c: Crew, c': Crew)
    requires c'.fleet.volumes == c.fleet.volumes
    ensures forall g :: c'.fleet.Has(g) == c.fleet.Has(g)
  {
  }

  /** Removals nobody said the end of in time are forgotten. */
  lemma ExpiredValid(c: Crew, g: string)
    requires c.Valid()
    ensures c.(fleet := Expired(c.fleet, c.clock)).Valid()
    ensures c.Single(g) ==> c.(fleet := Expired(c.fleet, c.clock)).Single(g)
  {
    hide OneInstance, Ascending, TailOwner.State.Valid;
    var c' := c.(fleet := Expired(c.fleet, c.clock));
    forall j | 0 <= j < |c'.instances| ensures c'.HandledAt(j) {
      assert c.HandledAt(j);
    }
  }

  /** Shutdown takes every watched instance to stop it. */
  function Closing(c: Crew): Crew {
    c.(closing := Some(set i: nat | i < |c.instances| && c.instances[i].Watched()))
  }

  lemma ClosingValid(c: Crew, g: string)
    requires c.Valid() && c.releasing.None? && c.closing.None?
    ensures Closing(c).Valid()
    ensures c.Single(g) ==> Closing(c).Single(g)
  {
    hide State.Has, OneInstance, Ascending, TailOwner.State.Valid;
    var c' := Closing(c);
    forall j | 0 <= j < |c'.instances| ensures c'.HandledAt(j) {
      assert c.HandledAt(j);
    }
  }

  /** Every instance shutdown stops is let go of. */
  ghost predicate AllClosed(c: Crew) {
    c.closing.Some? && forall i :: i in c.closing.value && i < |c.instances| ==> c.instances[i].LetGo()
  }

  /** Then every instance is, those no longer supervised included. */
  lemma AllClosedIsAll(c: Crew)
    requires c.Valid() && AllClosed(c)
    ensures forall i :: 0 <= i < |c.instances| ==> c.instances[i].LetGo()
  {
    forall i | 0 <= i < |c.instances| ensures c.instances[i].LetGo() {
      assert c.HandledAt(i);
    }
  }

  /** The fleet is given up. */
  lemma DisbandedValid(c: Crew, g: string)
    requires c.Valid() && c.closing.Some?
    ensures c.(fleet := c.fleet.(supervised := [])).Valid()
    ensures c.Single(g) ==> c.(fleet := c.fleet.(supervised := [])).Single(g)
  {
    hide OneInstance, Ascending, TailOwner.State.Valid;
    var c' := c.(fleet := c.fleet.(supervised := []));
    forall j | 0 <= j < |c'.instances| ensures c'.HandledAt(j) {
      assert c.HandledAt(j);
    }
  }

  /** Time passes, and a listing begins or is lost. */
  lemma TimesValid(c: Crew, clock: nat, listing: Option<nat>, g: string)
    requires c.Valid()
    ensures c.(clock := clock, listing := listing).Valid()
    ensures c.Single(g) ==> c.(clock := clock, listing := listing).Single(g)
  {
    hide State.Has, OneInstance, Ascending, TailOwner.State.Valid;
    var c' := c.(clock := clock, listing := listing);
    forall j | 0 <= j < |c'.instances| ensures c'.HandledAt(j) {
      assert c.HandledAt(j);
    }
  }
}
