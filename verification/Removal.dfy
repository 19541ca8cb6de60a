/**
  * The disk-removal protocol over whole runs: removals posted while the supervisor scans, lists
  * volumes, lets go of them, panics or shuts down, and tails and starts go on meanwhile, in any
  * order, with a record of what became of every removal query.
  */
module Removal {
  import opened Options
  import opened Registry
  import opened Fleet
  import opened FleetOwner
  import opened FleetTails
  import TailOwner

  /** A removal query: which one, and for which volume. */
  datatype Query = Query(id: nat, guid: string)

  /** A query answered, and the instances of all volumes then. */
  datatype Answer = Answer(id: nat, guid: string, instances: seq<Instance>)

  datatype System = System(
    crew: Crew,
    /** Shutdown has begun. */
    stopped: bool,
    /** Shutdown has said that every tail has stopped. */
    tailsStopped: bool,
    /** The scan loop panicked; the supervisor only waits for shutdown. */
    panicked: bool,
    posted: seq<Posted>,
    /** Taken by the supervisor and not acted on yet. */
    batch: seq<Posted>,
    /** Being acted on. */
    acting: Option<Posted>,
    asked: multiset<Query>,
    /** Asked during shutdown, and waiting for its end. */
    lingering: multiset<Query>,
    answers: seq<Answer>,
    dropped: multiset<Query>,
    /** Told by shutdown's end that every tail has stopped. */
    freed: multiset<Query>,
    /** The instances of all volumes when shutdown said so. */
    ended: seq<Instance>) {

    /** The scan loop goes on. */
    predicate Scans() {
      !panicked && crew.closing.None?
    }

    /** It is between two things. */
    predicate Idles() {
      Scans() && acting.None? && crew.releasing.None? && crew.plan.None?
    }

    /** What is acted on is let go of as far as it asks for that, and nothing else is done meanwhile. */
    ghost predicate ActsAlone() {
      && (acting.Some? ==>
            && Scans() && crew.plan.None?
            && (acting.value.event.QueryRemoveFailed? || !crew.fleet.Has(acting.value.guid)))
      && (crew.releasing.Some? || crew.plan.Some? ==> Scans())
      && (panicked || crew.closing.Some? ==> batch == [])
    }

    /** A query for `guid` is answered with every instance of it let go of. */
    ghost predicate AnsweredLate(guid: string) {
      forall k :: 0 <= k < |answers| && answers[k].guid == guid ==> Gone(answers[k].instances, guid)
    }

    /** Shutdown says that every tail has stopped once every instance is let go of. */
    ghost predicate EndedLate() {
      tailsStopped ==> forall g :: Gone(ended, g)
    }

    /** What the protocol keeps whatever is listed. */
    ghost predicate Safe() {
      crew.Valid() && ActsAlone() && EndedLate()
    }

    /** What it keeps of a volume that is never indexed twice. */
    ghost predicate SafeFor(guid: string) {
      crew.Single(guid) && AnsweredLate(guid)
    }

    /** Shutdown takes its steps in order, and drops and frees queries only at its end. */
    ghost predicate ClosesInOrder() {
      && (crew.closing.Some? || tailsStopped ==> stopped)
      && (tailsStopped ==> crew.closing.Some?)
      && (dropped != multiset{} ==> tailsStopped || panicked)
      && (freed != multiset{} ==> tailsStopped)
      && (lingering != multiset{} ==> stopped && !tailsStopped)
    }

    /** Every query asked is waiting, answered, dropped or freed, once. */
    ghost predicate Conserved() {
      asked == Waiting(posted) + Waiting(batch) + Acting(acting) + lingering + Answered(answers) + dropped + freed
    }
  }

  /** Every instance of `guid` is let go of. */
  ghost predicate Gone(instances: seq<Instance>, guid: string) {
    forall i :: 0 <= i < |instances| && instances[i].guid == guid ==> instances[i].LetGo() && instances[i].tails.Valid()
  }

  /** Nothing of ours uses `guid`, or is about to. */
  ghost predicate Free(instances: seq<Instance>, guid: string) {
    forall i :: 0 <= i < |instances| && instances[i].guid == guid ==> instances[i].tails.Quiet()
  }

  /** None of its tails told to stop outlived the wait, and no start of it that was abandoned is under way. */
  predicate InTime(instances: seq<Instance>, guid: string) {
    forall i :: 0 <= i < |instances| && instances[i].guid == guid ==> instances[i].tails.EndedInTime()
  }

  /** The queries among the removals. */
  function Waiting(posted: seq<Posted>): multiset<Query> {
    if posted == [] then multiset{} else Waiting(posted[..|posted| - 1]) + Asks(posted[|posted| - 1])
  }

  /** The query a removal asks, if it is one. */
  function Asks(p: Posted): multiset<Query> {
    if p.event.QueryRemove? then multiset{Query(p.id, p.guid)} else multiset{}
  }

  function Acting(p: Option<Posted>): multiset<Query> {
    if p.Some? then Asks(p.value) else multiset{}
  }

  function Answered(answers: seq<Answer>): multiset<Query> {
    if answers == [] then multiset{} else
    var last := answers[|answers| - 1];
    Answered(answers[..|answers| - 1]) + multiset{Query(last.id, last.guid)}
  }

  function Start(): System {
    System(Begin(), false, false, false, [], [], None, multiset{}, multiset{}, [], multiset{}, multiset{}, [])
  }

  datatype Step =
    | Tick
    | Post(removal: Posted)
    | Shutdown
    | Take
    | Act
    | Conclude
    | BeginListing
    | LoseListing
    | Apply(listed: seq<Listed>)
    | Drop
    | Look
    | Find(starts: bool)
    | Settle
    | Watch(i: nat, start: TailOwner.Step)
    | Unwatch(i: nat)
    | Expire
    | Panic
    | Discard
    | StopAll
    | TailsStopped
    | LetGo(i: nat, part: TailOwner.Step)
    | Unbidden(i: nat, move: TailOwner.Step)

  /** The supervisor does one thing at a time; its notifications, its tails and their starts do not wait for it. */
  ghost predicate Enabled(s: System, step: Step) {
    match step
    case Tick => true
    case Post(_) => true
    case Shutdown => true
    case Take => s.Idles() && !s.stopped && s.batch == []
    case Act => s.Idles() && s.batch != []
    case Conclude => s.Scans() && s.acting.Some? && s.crew.releasing.None?
    case BeginListing => s.Idles() && s.batch == [] && s.crew.listing.None?
    case LoseListing => s.Idles() && s.batch == [] && s.crew.listing.Some?
    case Apply(_) => s.Idles() && s.batch == [] && s.crew.listing.Some?
    case Drop => s.Scans() && s.crew.releasing.None? && s.crew.plan.Some? && s.crew.plan.value.gone != []
    case Look => s.Scans() && s.crew.releasing.None? && s.crew.plan.Some? && s.crew.plan.value.gone == []
    case Find(_) => s.Scans() && s.crew.plan.Some? && s.crew.plan.value.finding && s.crew.plan.value.found != []
    case Settle => s.Scans() && s.crew.plan.Some? && s.crew.plan.value.finding && s.crew.plan.value.found == []
    case Watch(i, start) => s.Idles() && s.batch == [] && (start.Launch? || start.Poll?) && CanStep(s.crew, i, start)
    case Unwatch(i) => s.Idles() && s.batch == [] && CanStep(s.crew, i, TailOwner.EndSupervision)
    case Expire => s.Idles() && s.batch == []
    case Panic => s.Scans() && s.crew.releasing.None?
    case Discard => s.panicked && !s.stopped
    case StopAll => s.stopped && s.crew.closing.None? && s.batch == [] && s.acting.None?
                    && s.crew.releasing.None? && s.crew.plan.None?
    case TailsStopped => !s.tailsStopped && AllClosed(s.crew)
    case LetGo(i, part) => CanLetGo(s.crew, i, part)
    case Unbidden(i, move) => Unasked(move) && CanStep(s.crew, i, move)
  }

  /** A removal is posted; once shutdown has begun a query waits for its end instead, or need not wait. */
  function PostedTo(s: System, p: Posted): System {
    var s' := s.(asked := s.asked + Asks(p));
    if !s.stopped then s'.(posted := s.posted + [p])
    else if s.tailsStopped then s'.(freed := s.freed + Asks(p))
    else s'.(lingering := s.lingering + Asks(p))
  }

  /** The next removal is taken up, or all are handed back if shutdown has begun. */
  function ActedOn(s: System): System
    requires s.batch != []
  {
    if s.stopped then s.(posted := s.posted + s.batch, batch := []) else
    var p := s.batch[0];
    s.(batch := s.batch[1..], acting := Some(p),
       crew := if p.event.QueryRemoveFailed? || !s.crew.fleet.Has(p.guid) then s.crew else BeginLetGo(s.crew, p.guid))
  }

  /** The removal, its volume let go of, is entered, and its query answered. */
  function Concluded(s: System): System
    requires s.acting.Some?
  {
    var p := s.acting.value;
    s.(crew := Entered(s.crew, p.guid, p.event), acting := None,
       answers := if p.event.QueryRemove? then s.answers + [Answer(p.id, p.guid, s.crew.instances)] else s.answers)
  }

  /** The next volume gone is let go of; shutdown seen before it, or before the volumes found, ends the plan. */
  function Planning(s: System, step: Step): System
    requires Enabled(s, step) && (step.Drop? || step.Look?)
  {
    if s.stopped then s.(crew := s.crew.(plan := None))
    else if step.Drop? then s.(crew := DropNext(s.crew))
    else s.(crew := s.crew.(plan := Some(s.crew.plan.value.(finding := true))))
  }

  ghost function Next(s: System, step: Step): System
    requires Enabled(s, step)
  {
    match step
    case Tick => s.(crew := s.crew.(clock := s.crew.clock + 1))
    case Post(p) => PostedTo(s, p)
    case Shutdown => s.(stopped := true)
    case Take => s.(batch := s.posted, posted := [])
    case Act => ActedOn(s)
    case Conclude => Concluded(s)
    case BeginListing => s.(crew := s.crew.(listing := Some(s.crew.clock)))
    case LoseListing => s.(crew := s.crew.(listing := None))
    case Apply(listed) => s.(crew := Applied(s.crew, listed))
    case Drop => Planning(s, step)
    case Look => Planning(s, step)
    case Find(starts) => s.(crew := FindNext(s.crew, starts))
    case Settle => s.(crew := s.crew.(plan := None))
    case Watch(i, start) => s.(crew := Stepped(s.crew, i, start))
    case Unwatch(i) => s.(crew := Unwatched(s.crew, i))
    case Expire => s.(crew := s.crew.(fleet := Expired(s.crew.fleet, s.crew.clock)))
    case Panic =>
      s.(panicked := true, crew := s.crew.(plan := None), batch := [], acting := None,
         dropped := s.dropped + Waiting(s.batch) + Acting(s.acting))
    case Discard => s.(posted := [], dropped := s.dropped + Waiting(s.posted))
    case StopAll => s.(crew := Closing(s.crew))
    case TailsStopped =>
      s.(crew := s.crew.(fleet := s.crew.fleet.(supervised := [])), tailsStopped := true, ended := s.crew.instances,
         posted := [], dropped := s.dropped + Waiting(s.posted),
         lingering := multiset{}, freed := s.freed + s.lingering)
    case LetGo(i, part) => s.(crew := LetGoStep(s.crew, i, part))
    case Unbidden(i, move) => s.(crew := Stepped(s.crew, i, move))
  }

  // -- every step keeps the crew valid ------------------------------------------------------------------

  /** The steps by which the supervisor acts on removals and listings, or ends to. */
  predicate MainStep(step: Step) {
    || step.Act? || step.Conclude? || step.Apply? || step.Drop?
    || step.Look? || step.Find? || step.Settle? || step.Panic?
  }

  /** The step indexes `guid`, which is indexed. */
  predicate Doubles(s: System, step: Step, guid: string) {
    step.Find? && FindsTwice(s.crew, guid)
  }

  lemma SupervisorCrewValid(s: System, step: Step, g: string)
    requires s.Safe() && Enabled(s, step)
    requires MainStep(step)
    ensures Next(s, step).crew.Valid()
    ensures s.crew.Single(g) && !Doubles(s, step, g) ==> Next(s, step).crew.Single(g)
  {
    hide Crew.Valid, Crew.Single, BeginLetGo, Entered, Applied, DropNext, FindNext, FindsTwice;
    match step
    case Act => if !s.stopped { BeginLetGoValid(s.crew, s.batch[0].guid, g); }
    case Conclude => EnteredValid(s.crew, s.acting.value.guid, s.acting.value.event, g);
    case Apply(listed) => AppliedValid(s.crew, listed, g);
    case Drop => if s.stopped { PlanValid(s.crew, None, g); } else { DropNextValid(s.crew, g); }
    case Look => PlanValid(s.crew, None, g); PlanValid(s.crew, Some(s.crew.plan.value.(finding := true)), g);
    case Find(starts) =>
      FindNextValid(s.crew, starts);
      if s.crew.Single(g) && !Doubles(s, step, g) { FindNextSingle(s.crew, starts, g); }
    case Settle => PlanValid(s.crew, None, g);
    case Panic => PlanValid(s.crew, None, g);
  }

  lemma OtherCrewValid(s: System, step: Step, g: string)
    requires s.Safe() && Enabled(s, step)
    requires !MainStep(step)
    ensures Next(s, step).crew.Valid()
    ensures s.crew.Single(g) ==> Next(s, step).crew.Single(g)
  {
    hide Crew.Valid, Crew.Single, Closing, LetGoStep, Stepped, Unwatched, Expired, CanStep, CanLetGo;
    match step
    case Tick => TimesValid(s.crew, s.crew.clock + 1, s.crew.listing, g);
    case BeginListing => TimesValid(s.crew, s.crew.clock, Some(s.crew.clock), g);
    case LoseListing => TimesValid(s.crew, s.crew.clock, None, g);
    case Watch(i, start) => SteppedValid(s.crew, i, start, g);
    case Unwatch(i) => UnwatchedValid(s.crew, i, g);
    case Expire => ExpiredValid(s.crew, g);
    case StopAll => ClosingValid(s.crew, g);
    case TailsStopped => DisbandedValid(s.crew, g);
    case LetGo(i, part) => LetGoStepValid(s.crew, i, part, g);
    case Unbidden(i, move) => SteppedValid(s.crew, i, move, g);
    case _ =>
  }

  lemma CrewStaysValid(s: System, step: Step, g: string)
    requires s.Safe() && Enabled(s, step)
    ensures Next(s, step).crew.Valid()
    ensures s.crew.Single(g) && !Doubles(s, step, g) ==> Next(s, step).crew.Single(g)
  {
    hide System.Safe, Crew.Single, Next, Enabled, Doubles;
    if MainStep(step) {
      SupervisorCrewValid(s, step, g);
    } else {
      OtherCrewValid(s, step, g);
    }
  }

  // -- one thing at a time, and nothing said too early -----------------------------------------------------

  lemma MainStepAlone(s: System, step: Step)
    requires s.Safe() && Enabled(s, step) && MainStep(step)
    ensures Next(s, step).ActsAlone()
  {
    hide Crew.Valid, State.Has, OnRemoval, TailOwner.Next, TailOwner.Enabled, Waiting, Acting, Asks, Gone,
      System.EndedLate;
    if step.Act? && !s.stopped && s.crew.fleet.Has(s.batch[0].guid) {
      BeginLetGoValid(s.crew, s.batch[0].guid, "");
    }
  }

  lemma OtherStepAlone(s: System, step: Step)
    requires s.Safe() && Enabled(s, step) && !MainStep(step)
    ensures Next(s, step).ActsAlone()
  {
    hide Crew.Valid, State.Has, CanStep, Unasked, TailOwner.Next, TailOwner.Enabled, Waiting, Acting, Asks, Gone,
      System.EndedLate;
    if s.acting.Some? { FleetStays(s, step); }
  }

  /** The supervisor goes on being alone with what it does. */
  lemma StepsAlone(s: System, step: Step)
    requires s.Safe() && Enabled(s, step)
    ensures Next(s, step).ActsAlone()
  {
    hide System.Safe, System.ActsAlone, Next, Enabled, MainStep;
    if MainStep(step) { MainStepAlone(s, step); } else { OtherStepAlone(s, step); }
  }

  /** While a removal is acted on no volume is added. */
  lemma FleetStays(s: System, step: Step)
    requires s.Safe() && Enabled(s, step) && s.acting.Some?
    ensures Next(s, step).acting.Some? ==>
      Next(s, step).crew.fleet.Has(s.acting.value.guid) == s.crew.fleet.Has(s.acting.value.guid)
  {
    hide Crew.Valid, BeginLetGo, Entered, FindNext, DropNext, CanStep, Unasked, TailOwner.Next, TailOwner.Enabled,
      Waiting, Acting, Asks, Gone, AllClosed, System.EndedLate;
  }

  /** A query is answered with every instance of its volume let go of. */
  lemma AnswersLate(s: System, step: Step, g: string)
    requires s.Safe() && s.SafeFor(g) && Enabled(s, step)
    ensures Next(s, step).AnsweredLate(g)
  {
    hide Crew.Valid, Crew.Single, BeginLetGo, Entered, FindNext, DropNext, Applied, Stepped, LetGoStep, Unwatched,
      CanStep, CanLetGo, Unasked, Waiting, Acting, Asks, Gone, AllClosed, System.EndedLate;
    if step.Conclude? && s.acting.value.event.QueryRemove? && s.acting.value.guid == g {
      NotIndexedIsReleased(s.crew, g);
      ReleasedIsGone(s.crew, g);
    }
  }

  lemma ReleasedIsGone(c: Crew, guid: string)
    requires c.Valid() && c.Released(guid)
    ensures Gone(c.instances, guid)
  {
    hide TailOwner.State.Valid;
  }

  /** Shutdown ends with every instance let go of. */
  lemma EndsLate(s: System, step: Step)
    requires s.Safe() && Enabled(s, step)
    ensures Next(s, step).EndedLate()
  {
    hide Crew.Valid, BeginLetGo, Entered, FindNext, DropNext, Applied, Stepped, LetGoStep, Unwatched, CanStep,
      CanLetGo, Unasked, Waiting, Acting, Asks, Gone;
    if step.TailsStopped? {
      AllClosedIsAll(s.crew);
      forall g ensures Gone(s.crew.instances, g) {
        ReleasedIsGone(s.crew, g);
      }
    }
  }

  lemma StepSafe(s: System, step: Step)
    requires s.Safe() && Enabled(s, step)
    ensures Next(s, step).Safe()
  {
    hide Next, Enabled, Crew.Valid, System.ActsAlone, System.EndedLate;
    CrewStaysValid(s, step, "");
    StepsAlone(s, step);
    EndsLate(s, step);
  }

  /** A step that does not double a volume keeps what the protocol promises of it, whatever it does to others. */
  lemma StepSafeFor(s: System, step: Step, g: string)
    requires s.Safe() && s.SafeFor(g) && Enabled(s, step) && !Doubles(s, step, g)
    ensures Next(s, step).SafeFor(g)
  {
    hide Next, Enabled, System.Safe, Crew.Single, System.AnsweredLate, Doubles;
    CrewStaysValid(s, step, g);
    AnswersLate(s, step, g);
  }

  // -- times, and the order of shutdown --------------------------------------------------------------------

  /** What is known of times, and shutdown, does not change by letting go of a volume. */
  lemma BeginLetGoKeeps(c: Crew, guid: string)
    ensures SameTimes(c, BeginLetGo(c, guid))
    ensures BeginLetGo(c, guid).closing == c.closing && BeginLetGo(c, guid).plan == c.plan
  {
    hide TailOwner.Next, Without, Dismiss, FirstWatched;
  }

  predicate SameTimes(c: Crew, c': Crew) {
    && c'.fleet.removed == c.fleet.removed && c'.clock == c.clock && c'.listing == c.listing
    && c'.lastTaken == c.lastTaken && c'.left == c.left
  }

  lemma MainStepInOrder(s: System, step: Step)
    requires s.ClosesInOrder() && Enabled(s, step) && MainStep(step)
    ensures Next(s, step).ClosesInOrder()
  {
    hide BeginLetGo, DropNext, OnRemoval, Since, GoneFrom, FoundIn, LeftOut, State.Has, TailOwner.Next,
      TailOwner.Enabled, Waiting, Acting, Asks;
    match step
    case Act => if !s.stopped { BeginLetGoKeeps(s.crew, s.batch[0].guid); }
    case Drop => if !s.stopped { DropKeeps(s.crew); }
    case _ =>
  }

  lemma OtherStepInOrder(s: System, step: Step)
    requires s.ClosesInOrder() && Enabled(s, step) && !MainStep(step)
    ensures Next(s, step).ClosesInOrder()
  {
    hide CanStep, CanLetGo, Unasked, State.Has, TailOwner.Next, TailOwner.Enabled, Waiting, Acting, Asks, Expired,
      Dismiss;
  }

  /** Shutdown goes on in order. */
  lemma StepInOrder(s: System, step: Step)
    requires s.ClosesInOrder() && Enabled(s, step)
    ensures Next(s, step).ClosesInOrder()
  {
    hide System.ClosesInOrder, Next, Enabled, MainStep;
    if MainStep(step) { MainStepInOrder(s, step); } else { OtherStepInOrder(s, step); }
  }

  lemma DropKeeps(c: Crew)
    requires c.plan.Some? && c.plan.value.gone != []
    ensures SameTimes(c, DropNext(c)) && DropNext(c).closing == c.closing && DropNext(c).plan.Some?
  {
    hide BeginLetGo;
    BeginLetGoKeeps(c.(plan := Some(c.plan.value.(gone := c.plan.value.gone[1..]))), c.plan.value.gone[0]);
  }

  /** Most steps know no more of times than before. */
  lemma StepTimeless(s: System, step: Step)
    requires Enabled(s, step)
    requires !step.Tick? && !step.Conclude? && !step.BeginListing? && !step.LoseListing? && !step.Apply?
    ensures SameTimes(s.crew, Next(s, step).crew)
  {
    hide BeginLetGo, DropNext, LeftOut, CanStep, CanLetGo, Unasked, TailOwner.Next, TailOwner.Enabled, Waiting, Acting,
      Asks, AllClosed, State.Has;
    match step
    case Act => if !s.stopped { BeginLetGoKeeps(s.crew, s.batch[0].guid); }
    case Drop => DropKeeps(s.crew);
    case _ =>
  }

  lemma EnteredTimely(c: Crew, guid: string, event: Event)
    requires c.Timely() && c.Remembered()
    ensures Entered(c, guid, event).Timely() && Entered(c, guid, event).Remembered()
  {
    hide Without, Dismiss, State.Has;
    var c' := Entered(c, guid, event);
    if event.Removed? {
      assert c'.fleet.removed[|c'.fleet.removed| - 1] == Leaving(guid, c.clock);
    }
  }

  /** The listing under way and the removals remembered stay in time with each other. */
  lemma StepTimely(s: System, step: Step)
    requires s.crew.Timely() && s.crew.Remembered() && Enabled(s, step)
    ensures Next(s, step).crew.Timely() && Next(s, step).crew.Remembered()
  {
    if step.Conclude? {
      EnteredTimely(s.crew, s.acting.value.guid, s.acting.value.event);
    } else if !step.Tick? && !step.BeginListing? && !step.LoseListing? && !step.Apply? {
      hide Next, Enabled;
      StepTimeless(s, step);
    }
  }

  /** Only a listing acted on makes a plan. */
  lemma PlansOnly(s: System, step: Step)
    requires Enabled(s, step) && !step.Apply?
    ensures Next(s, step).crew.plan.Some? ==> s.crew.plan.Some?
  {
    hide BeginLetGo, OnRemoval, LeftOut, CanStep, CanLetGo, Unasked, TailOwner.Next, TailOwner.Enabled, Waiting, Acting,
      Asks, AllClosed, State.Has;
    match step
    case Act => if !s.stopped { BeginLetGoKeeps(s.crew, s.batch[0].guid); }
    case _ =>
  }

  /** Only removals are remembered, each as long as a listing may not have seen it. */
  lemma StepOnlyRemembers(s: System, step: Step)
    requires s.crew.OnlyRemembered() && s.ActsAlone() && Enabled(s, step)
    ensures Next(s, step).crew.OnlyRemembered()
  {
    if step.Conclude? {
      hide OnRemoval;
      OnRemovalEnters(s.crew.fleet, s.acting.value.guid, s.acting.value.event, s.crew.clock);
    } else if !step.Tick? && !step.BeginListing? && !step.LoseListing? && !step.Apply? {
      hide Next, Enabled;
      StepTimeless(s, step);
      PlansOnly(s, step);
    }
  }

  /**
    * Once shutdown has begun, removals taken are handed back, and a listing being acted on lets go of
    * no further volume and goes on to find none.
    */
  lemma ShutdownStopsWork(s: System, step: Step)
    requires s.stopped && Enabled(s, step) && (step.Act? || step.Drop? || step.Look?)
    ensures var s' := Next(s, step);
            && s'.crew.fleet == s.crew.fleet && s'.crew.instances == s.crew.instances
            && (step.Act? ==> s'.batch == [] && s'.posted == s.posted + s.batch && s'.acting == s.acting)
            && (!step.Act? ==> s'.crew.plan.None?)
  {
  }

  /** Before that, a removal taken up is the next of those taken, and its volume, if indexed, is let go of. */
  lemma TakesUpNext(s: System)
    requires !s.stopped && Enabled(s, Act)
    ensures var s', p := Next(s, Act), s.batch[0];
            && s'.acting == Some(p) && s'.batch == s.batch[1..] && s'.posted == s.posted
            && (p.event.QueryRemoveFailed? ==> s'.crew == s.crew)
            && (!p.event.QueryRemoveFailed? ==> !s'.crew.fleet.Has(p.guid))
            && (forall g :: g != p.guid ==> (s'.crew.fleet.Has(g) <==> s.crew.fleet.Has(g)))
  {
    hide TailOwner.Next, FirstWatched, Dismiss, Without, Indexes;
    var p := s.batch[0];
    forall g ensures Release(s.crew.fleet, p.guid).Has(g) <==> s.crew.fleet.Has(g) && g != p.guid {
      WithoutExact(s.crew.fleet.volumes, p.guid, g);
    }
  }

  // -- no query is lost or doubled --------------------------------------------------------------------------

  lemma {:induction false} WaitingConcat(a: seq<Posted>, b: seq<Posted>)
    ensures Waiting(a + b) == Waiting(a) + Waiting(b)
    decreases |b|
  {
    hide Asks;
    if b == [] {
      assert a + b == a;
    } else {
      WaitingConcat(a, b[..|b| - 1]);
      assert (a + b)[..|a + b| - 1] == a + b[..|b| - 1];
    }
  }

  lemma WaitingOne(p: Posted)
    ensures Waiting([]) == multiset{} && Waiting([p]) == Asks(p)
  {
    assert [p][..0] == [];
  }

  lemma WaitingFirst(batch: seq<Posted>)
    requires batch != []
    ensures Waiting(batch) == Asks(batch[0]) + Waiting(batch[1..])
  {
    hide Waiting, Asks;
    assert batch == [batch[0]] + batch[1..];
    WaitingConcat([batch[0]], batch[1..]);
    WaitingOne(batch[0]);
  }

  lemma AnsweredMore(answers: seq<Answer>, a: Answer)
    ensures Answered(answers + [a]) == Answered(answers) + multiset{Query(a.id, a.guid)}
  {
    assert (answers + [a])[..|answers|] == answers;
  }

  lemma PostConserved(s: System, p: Posted)
    requires s.Conserved()
    ensures PostedTo(s, p).Conserved()
  {
    hide Waiting, Answered, Asks, Acting;
    WaitingConcat(s.posted, [p]);
    WaitingOne(p);
  }

  lemma ActConserved(s: System)
    requires s.Conserved() && Enabled(s, Act)
    ensures ActedOn(s).Conserved()
  {
    hide Waiting, Answered, Asks, BeginLetGo;
    WaitingOne(s.batch[0]);
    WaitingConcat(s.posted, s.batch);
    WaitingFirst(s.batch);
  }

  lemma ConcludeConserved(s: System)
    requires s.Conserved() && s.acting.Some?
    ensures Concluded(s).Conserved()
  {
    hide Waiting, Answered, Entered;
    var p := s.acting.value;
    AnsweredMore(s.answers, Answer(p.id, p.guid, s.crew.instances));
  }

  /** Removals that change hands, are dropped or freed are neither lost nor doubled. */
  lemma MoveConserved(s: System, step: Step)
    requires s.Conserved() && Enabled(s, step) && (step.Take? || step.Panic? || step.Discard? || step.TailsStopped?)
    ensures Next(s, step).Conserved()
  {
    hide Waiting, Answered, Asks, AllClosed;
    WaitingOne(Posted(0, "", QueryRemove));
  }

  lemma StepConserved(s: System, step: Step)
    requires s.Conserved() && Enabled(s, step)
    ensures Next(s, step).Conserved()
  {
    hide Waiting, Answered, Asks, Acting, Entered, BeginLetGo, DropNext, FindNext, Applied, Stepped, LetGoStep,
      Unwatched, Closing, Expired, CanStep, CanLetGo, Unasked, AllClosed, PostedTo, ActedOn, Concluded;
    if step.Post? {
      PostConserved(s, step.removal);
    } else if step.Act? {
      ActConserved(s);
    } else if step.Conclude? {
      ConcludeConserved(s);
    } else if step.Take? || step.Panic? || step.Discard? || step.TailsStopped? {
      MoveConserved(s, step);
    }
  }

  // -- whole runs -----------------------------------------------------------------------------------------------

  ghost predicate CanRun(s: System, steps: seq<Step>)
    decreases |steps|
  {
    steps == [] || (Enabled(s, steps[0]) && CanRun(Next(s, steps[0]), steps[1..]))
  }

  ghost function After(s: System, steps: seq<Step>): System
    requires CanRun(s, steps)
    decreases |steps|
  {
    if steps == [] then s else After(Next(s, steps[0]), steps[1..])
  }

  /** Some step of the run indexes `guid` while it is indexed. */
  ghost predicate DoublesIn(s: System, steps: seq<Step>, guid: string)
    requires CanRun(s, steps)
    decreases |steps|
  {
    steps != [] && (Doubles(s, steps[0], guid) || DoublesIn(Next(s, steps[0]), steps[1..], guid))
  }

  lemma {:induction false} RunSafeFor(s: System, steps: seq<Step>, g: string)
    requires s.Safe() && s.SafeFor(g) && CanRun(s, steps) && !DoublesIn(s, steps, g)
    ensures After(s, steps).SafeFor(g)
    decreases |steps|
  {
    hide System.Safe, System.SafeFor, Next, Enabled, Doubles;
    if steps != [] {
      StepSafe(s, steps[0]);
      StepSafeFor(s, steps[0], g);
      RunSafeFor(Next(s, steps[0]), steps[1..], g);
    }
  }

  /** What every run keeps. */
  lemma {:induction false} RunKeeps(s: System, steps: seq<Step>)
    requires s.Safe() && s.Conserved() && s.ClosesInOrder()
    requires s.crew.Timely() && s.crew.Remembered() && s.crew.OnlyRemembered() && CanRun(s, steps)
    ensures After(s, steps).Safe() && After(s, steps).Conserved() && After(s, steps).ClosesInOrder()
    ensures After(s, steps).crew.Timely() && After(s, steps).crew.Remembered() && After(s, steps).crew.OnlyRemembered()
    decreases |steps|
  {
    hide System.Conserved, System.ClosesInOrder, Crew.Timely, Crew.Remembered, Crew.OnlyRemembered, Crew.Valid,
      System.ActsAlone, System.EndedLate, Next, Enabled;
    if steps != [] {
      StepSafe(s, steps[0]);
      StepOnlyRemembers(s, steps[0]);
      StepConserved(s, steps[0]);
      StepInOrder(s, steps[0]);
      StepTimely(s, steps[0]);
      RunKeeps(Next(s, steps[0]), steps[1..]);
    }
  }

  /** The flags say which steps were taken. */
  ghost predicate FlagsTold(s: System, steps: seq<Step>, at: System) {
    && (at.stopped <==> s.stopped || Shutdown in steps)
    && (at.tailsStopped <==> s.tailsStopped || TailsStopped in steps)
    && (at.panicked <==> s.panicked || Panic in steps)
    && (at.crew.closing.Some? <==> s.crew.closing.Some? || StopAll in steps)
  }

  lemma MainStepFlags(s: System, step: Step)
    requires Enabled(s, step) && MainStep(step)
    ensures FlagsTold(s, [step], Next(s, step))
  {
    hide BeginLetGo, DropNext, OnRemoval, LeftOut, TailOwner.Next, TailOwner.Enabled, Waiting, Acting, Asks, State.Has,
      Since, GoneFrom, FoundIn;
    match step
    case Act => if !s.stopped { BeginLetGoKeeps(s.crew, s.batch[0].guid); }
    case Drop => if !s.stopped { DropKeeps(s.crew); }
    case _ =>
  }

  lemma OtherStepFlags(s: System, step: Step)
    requires Enabled(s, step) && !MainStep(step)
    ensures FlagsTold(s, [step], Next(s, step))
  {
    hide CanStep, CanLetGo, Unasked, TailOwner.Next, TailOwner.Enabled, Waiting, Acting, Asks, AllClosed, State.Has,
      Dismiss;
  }

  lemma StepFlags(s: System, step: Step)
    requires Enabled(s, step)
    ensures FlagsTold(s, [step], Next(s, step))
  {
    hide FlagsTold, Next, Enabled, MainStep;
    if MainStep(step) { MainStepFlags(s, step); } else { OtherStepFlags(s, step); }
  }

  /** In every run shutdown has begun, ended and taken the fleet, and the supervisor panicked, by their steps only. */
  lemma {:induction false} RunFlags(s: System, steps: seq<Step>)
    requires CanRun(s, steps)
    ensures FlagsTold(s, steps, After(s, steps))
    decreases |steps|
  {
    hide Next, Enabled;
    if steps != [] {
      StepFlags(s, steps[0]);
      RunFlags(Next(s, steps[0]), steps[1..]);
      assert steps == [steps[0]] + steps[1..];
    }
  }

  /** The queries the run asks. */
  function AskedIn(steps: seq<Step>): multiset<Query> {
    if steps == [] then multiset{}
    else (if steps[0].Post? then Asks(steps[0].removal) else multiset{}) + AskedIn(steps[1..])
  }

  lemma {:induction false} RunAsks(s: System, steps: seq<Step>)
    requires CanRun(s, steps)
    ensures After(s, steps).asked == s.asked + AskedIn(steps)
    decreases |steps|
  {
    hide Next, Enabled, Asks;
    if steps != [] {
      StepAsks(s, steps[0]);
      RunAsks(Next(s, steps[0]), steps[1..]);
    }
  }

  lemma StepAsks(s: System, step: Step)
    requires Enabled(s, step)
    ensures Next(s, step).asked == s.asked + if step.Post? then Asks(step.removal) else multiset{}
  {
    hide Waiting, Answered, Asks, Acting, Entered, BeginLetGo, DropNext, FindNext, Applied, Stepped, LetGoStep,
      Unwatched, Closing, Expired, CanStep, CanLetGo, Unasked, AllClosed;
  }

  lemma StartSafe(g: string)
    ensures Start().Safe() && Start().SafeFor(g) && Start().Conserved() && Start().ClosesInOrder()
    ensures Start().crew.Timely() && Start().crew.Remembered() && Start().crew.OnlyRemembered()
    ensures Start().crew.Planned()
  {
    BeginValid(g);
  }

  // -- what the protocol promises -----------------------------------------------------------------------

  /** In every state of the run `guid` is indexed once at most. */
  ghost predicate OneOf(s: System, steps: seq<Step>, guid: string)
    requires CanRun(s, steps)
    decreases |steps|
  {
    OneInstance(s.crew.fleet.volumes, guid) && (steps == [] || OneOf(Next(s, steps[0]), steps[1..], guid))
  }

  lemma {:induction false} OneOfIff(s: System, steps: seq<Step>, g: string)
    requires s.Safe() && s.SafeFor(g) && CanRun(s, steps)
    ensures OneOf(s, steps, g) <==> !DoublesIn(s, steps, g)
    decreases |steps|
  {
    hide System.Safe, Next, Enabled, Doubles, OneInstance, System.AnsweredLate;
    if steps != [] {
      if Doubles(s, steps[0], g) {
        DoublesOnce(s, steps[0], g);
      } else {
        StepSafe(s, steps[0]);
        StepSafeFor(s, steps[0], g);
        OneOfIff(Next(s, steps[0]), steps[1..], g);
      }
    }
  }

  lemma DoublesOnce(s: System, step: Step, g: string)
    requires s.Safe() && Enabled(s, step) && Doubles(s, step, g)
    ensures !OneInstance(Next(s, step).crew.fleet.volumes, g)
  {
    hide OneInstance, FindsTwice, FindNext, Crew.Valid;
    FoundTwice(s.crew, step.starts, g);
  }

  /**
    * In every run no volume under removal is indexed. A run keeps one instance of a volume
    * throughout exactly when it never finds it while it is indexed, whatever it does to other
    * volumes. The volume, if it is supervised, is then indexed, and its tail watched or being
    * stopped.
    */
  lemma RunKeepsFleet(steps: seq<Step>, g: string)
    requires CanRun(Start(), steps)
    ensures var c := After(Start(), steps).crew;
            && Ascending(c.fleet.volumes)
            && (g in c.fleet.removing ==> !c.fleet.Has(g))
    ensures OneOf(Start(), steps, g) <==> !DoublesIn(Start(), steps, g)
    ensures OneOf(Start(), steps, g) ==>
              var c := After(Start(), steps).crew;
              && OneInstance(c.fleet.volumes, g)
              && (g in c.fleet.supervised ==> c.fleet.Has(g))
              && (forall v :: v in c.fleet.volumes && v.guid == g && g in c.fleet.supervised ==>
                    v.stamp < |c.instances| && (c.closing.None? ==> c.instances[v.stamp].Watched()))
  {
    hide Start, TailOwner.State.Valid, CanRun, After, OneOf, DoublesIn, OneInstance, System.ActsAlone,
      System.AnsweredLate, System.EndedLate, System.Conserved;
    StartSafe(g);
    RunKeeps(Start(), steps);
    OneOfIff(Start(), steps, g);
    if !DoublesIn(Start(), steps, g) { RunSafeFor(Start(), steps, g); }
  }

  /** Every listing acted on names a volume it makes the fleet find once. */
  ghost predicate ListsOnce(s: System, steps: seq<Step>)
    requires CanRun(s, steps)
    decreases |steps|
  {
    steps != [] ==>
      && (steps[0].Apply? ==> NamesOnce(s.crew.fleet, steps[0].listed, s.crew.listing.value))
      && ListsOnce(Next(s, steps[0]), steps[1..])
  }

  /** What is planned stays new and named once. */
  lemma StepPlanned(s: System, step: Step, g: string)
    requires s.Safe() && s.crew.Planned() && Enabled(s, step)
    requires step.Apply? ==> NamesOnce(s.crew.fleet, step.listed, s.crew.listing.value)
    ensures Next(s, step).crew.Planned() && !Doubles(s, step, g)
  {
    hide State.Has, LeftOut, OnceEach, BeginLetGo, OnRemoval, FindNext, CanStep, CanLetGo, Unasked, Crew.Valid,
      TailOwner.State.Valid, TailOwner.Next, TailOwner.Enabled, Since, GoneFrom, FoundIn, Waiting, Acting, Asks, Gone;
    match step
    case Act => if !s.stopped { BeginLetGoKeeps(s.crew, s.batch[0].guid); }
    case Find(starts) =>
      FindNextPlanned(s.crew, starts);
      assert s.crew.plan.value.found[0] in s.crew.plan.value.found;
    case Drop => if !s.stopped { DropPlanned(s.crew); }
    case Apply(listed) => AppliedPlanned(s.crew, listed);
    case _ =>
  }

  lemma DropPlanned(c: Crew)
    requires c.Planned() && c.plan.Some? && c.plan.value.gone != []
    ensures DropNext(c).Planned()
  {
    hide Indexes, Without, Dismiss, TailOwner.Next;
    forall g ensures DropNext(c).fleet.Has(g) ==> c.fleet.Has(g) {
      WithoutExact(c.fleet.volumes, c.plan.value.gone[0], g);
    }
  }

  lemma AppliedPlanned(c: Crew, listed: seq<Listed>)
    requires c.listing.Some? && NamesOnce(c.fleet, listed, c.listing.value)
    ensures Applied(c, listed).Planned()
  {
    SameHas(c.fleet, c.listing.value, listed);
  }

  lemma {:induction false} NeverDoubles(s: System, steps: seq<Step>, g: string)
    requires s.Safe() && s.crew.Planned() && CanRun(s, steps) && ListsOnce(s, steps)
    ensures !DoublesIn(s, steps, g)
    decreases |steps|
  {
    hide System.Safe, Crew.Planned, Next, Enabled, Doubles, NamesOnce;
    if steps != [] {
      StepPlanned(s, steps[0], g);
      StepSafe(s, steps[0]);
      NeverDoubles(Next(s, steps[0]), steps[1..], g);
    }
  }

  lemma {:induction false} MachineListsOnce(s: System, steps: seq<Step>)
    requires CanRun(s, steps) && forall k :: 0 <= k < |steps| && steps[k].Apply? ==> DistinctListing(steps[k].listed)
    ensures ListsOnce(s, steps)
    decreases |steps|
  {
    hide Next, NamesOnce, DistinctListing;
    if steps != [] {
      if steps[0].Apply? { DistinctNamesOnce(s.crew.fleet, steps[0].listed, s.crew.listing.value); }
      MachineListsOnce(Next(s, steps[0]), steps[1..]);
    }
  }

  /** On a machine that lists each of its volumes once every run keeps one instance per GUID. */
  lemma ListedOnceKept(steps: seq<Step>)
    requires CanRun(Start(), steps)
    requires forall k :: 0 <= k < |steps| && steps[k].Apply? ==> DistinctListing(steps[k].listed)
    ensures forall g :: OneOf(Start(), steps, g)
    ensures DistinctGuids(After(Start(), steps).crew.fleet.volumes)
  {
    hide CanRun, After, OneOf, DoublesIn, ListsOnce, DistinctListing, OneInstance, System.Safe, System.SafeFor,
      Crew.Planned, Ascending, DistinctGuids;
    MachineListsOnce(Start(), steps);
    forall g ensures OneOf(Start(), steps, g) && OneInstance(After(Start(), steps).crew.fleet.volumes, g) {
      StartSafe(g);
      NeverDoubles(Start(), steps, g);
      RunKeepsFleet(steps, g);
    }
    RunKeepsFleet(steps, "");
    SinglesAreDistinct(After(Start(), steps).crew.fleet.volumes);
  }

  // -- a listing acted on step by step ---------------------------------------------------------------------

  /** What is left to do of a listing would make this of the fleet. */
  function Remaining(c: Crew): State {
    if c.plan.None? then c.fleet
    else FindAll(DropFrom(c.fleet, c.plan.value.gone, (_ => false), 0), c.plan.value.found)
  }

  /** Volumes are found once all that are gone are let go of. */
  predicate InTurn(c: Crew) {
    c.plan.Some? && c.plan.value.finding ==> c.plan.value.gone == []
  }

  lemma {:induction false} DropShift(s: State, gone: seq<string>, k: nat)
    requires k + 1 <= |gone|
    ensures DropFrom(s, gone, (_ => false), k + 1) == DropFrom(s, gone[1..], (_ => false), k)
    decreases |gone| - k
  {
    hide Release;
    if k + 1 < |gone| {
      assert gone[1..][k] == gone[k + 1];
      DropShift(Release(s, gone[k + 1]), gone, k + 1);
    }
  }

  /** The steps by which a listing is acted on. */
  predicate ListingStep(step: Step) {
    step.Drop? || step.Look? || step.Find? || step.Settle? || step.Panic?
  }

  lemma OtherStepRemaining(s: System, step: Step)
    requires s.ActsAlone() && s.crew.plan.Some? && Enabled(s, step) && !ListingStep(step)
    ensures Next(s, step).crew.plan == s.crew.plan
    ensures !step.StopAll? && !step.TailsStopped? ==> Next(s, step).crew.fleet == s.crew.fleet
  {
    hide CanStep, CanLetGo, Unasked, TailOwner.Next, TailOwner.Enabled, Waiting, Acting, Asks, State.Has, BeginLetGo;
  }

  lemma LetGoFleet(c: Crew, guid: string)
    ensures BeginLetGo(c, guid).fleet == Release(c.fleet, guid)
  {
    hide TailOwner.Next, Without, Dismiss, FirstWatched;
  }

  /** Every step on the way leaves the same to come of it, unless shutdown has begun. */
  lemma StepRemaining(s: System, step: Step)
    requires s.ActsAlone() && InTurn(s.crew) && !s.stopped && s.crew.plan.Some? && Enabled(s, step)
    requires Next(s, step).crew.plan.Some? && !step.StopAll? && !step.TailsStopped?
    ensures Remaining(Next(s, step).crew) == Remaining(s.crew) && InTurn(Next(s, step).crew)
  {
    hide BeginLetGo, Release, Fleet.Find, LeftOut, CanStep, CanLetGo, Unasked, TailOwner.Next, TailOwner.Enabled,
      State.Has;
    var plan := s.crew.plan.value;
    if step.Drop? {
      LetGoFleet(s.crew.(plan := Some(plan.(gone := plan.gone[1..]))), plan.gone[0]);
      BeginLetGoKeeps(s.crew.(plan := Some(plan.(gone := plan.gone[1..]))), plan.gone[0]);
      DropShift(Release(s.crew.fleet, plan.gone[0]), plan.gone, 0);
    } else if step.Find? {
      FindsFleet(s.crew, step.starts);
    } else if !ListingStep(step) {
      OtherStepRemaining(s, step);
    }
  }

  lemma FindsFleet(c: Crew, starts: bool)
    requires c.plan.Some? && c.plan.value.found != []
    ensures FindNext(c, starts).fleet == Fleet.Find(c.fleet, c.plan.value.found[0])
    ensures FindNext(c, starts).plan == Some(c.plan.value.(found := c.plan.value.found[1..]))
  {
    hide LeftOut, TailOwner.Next;
  }

  /** The listing is being acted on, and shutdown has not begun, in every state of the run. */
  ghost predicate StaysPlanned(s: System, steps: seq<Step>)
    requires CanRun(s, steps)
    decreases |steps|
  {
    s.crew.plan.Some? && !s.stopped && (steps == [] || StaysPlanned(Next(s, steps[0]), steps[1..]))
  }

  lemma {:induction false} RunRemaining(s: System, steps: seq<Step>)
    requires s.Safe() && InTurn(s.crew) && CanRun(s, steps) && StaysPlanned(s, steps)
    ensures Remaining(After(s, steps).crew) == Remaining(s.crew) && InTurn(After(s, steps).crew)
    decreases |steps|
  {
    hide Next, Enabled, Remaining, InTurn, Crew.Valid, System.EndedLate, System.ActsAlone;
    if steps != [] {
      StepSafe(s, steps[0]);
      NoShutdown(s, steps[0]);
      assert Next(s, steps[0]).crew.plan.Some?;
      StepRemaining(s, steps[0]);
      RunRemaining(Next(s, steps[0]), steps[1..]);
    }
  }

  lemma NoShutdown(s: System, step: Step)
    requires s.ActsAlone() && s.crew.plan.Some? && Enabled(s, step)
    ensures !step.StopAll? && !step.TailsStopped?
  {
  }

  /**
    * A listing acted on step by step, whatever else goes on meanwhile, makes of the fleet what acting
    * on it at once does, unless shutdown begins on the way.
    */
  lemma ListingRefines(s: System, listed: seq<Listed>, steps: seq<Step>)
    requires s.Safe() && Enabled(s, Apply(listed))
    requires CanRun(Next(s, Apply(listed)), steps) && StaysPlanned(Next(s, Apply(listed)), steps)
    requires Enabled(After(Next(s, Apply(listed)), steps), Settle)
    ensures After(Next(s, Apply(listed)), steps).crew.fleet
            == Reconcile(s.crew.fleet, listed, s.crew.listing.value, _ => false)
  {
    hide CanRun, After, StaysPlanned, Crew.Valid, System.EndedLate, System.ActsAlone, GoneFrom, FoundIn, Since,
      DropFrom;
    var s' := Next(s, Apply(listed));
    StepSafe(s, Apply(listed));
    RunRemaining(s', steps);
    var at := After(s', steps).crew;
    AllDropped(at.fleet);
  }

  lemma AllDropped(s: State)
    ensures DropFrom(s, [], (_ => false), 0) == s
  {
  }

  // -- what is under removal is told by the steps ---------------------------------------------------------

  /** The step acts on an event of `guid` to its end. */
  predicate Ends(s: System, step: Step, guid: string, event: Event) {
    step.Conclude? && s.acting.Some? && s.acting.value.guid == guid && s.acting.value.event == event
  }

  /**
    * Since when `guid` is under removal after the step: since its first query acted on, until word of
    * how the removal ended, or the first look for overdue ones a minute on.
    */
  function RemovingNow(s: System, step: Step, guid: string, was: Option<nat>): Option<nat> {
    var now := s.crew.clock;
    if Ends(s, step, guid, QueryRemove) then (if was.Some? then was else Some(now))
    else if Ends(s, step, guid, QueryRemoveFailed) || Ends(s, step, guid, Removed) then None
    else if step.Expire? && was.Some? && now >= was.value + 60 then None
    else was
  }

  /** Since when it is after the run, if it is. */
  ghost function RemovingSince(s: System, steps: seq<Step>, guid: string, was: Option<nat>): Option<nat>
    requires CanRun(s, steps)
    decreases |steps|
  {
    if steps == [] then was
    else RemovingSince(Next(s, steps[0]), steps[1..], guid, RemovingNow(s, steps[0], guid, was))
  }

  /** When `guid` was last said to be removed in the run. */
  ghost function LeftAt(s: System, steps: seq<Step>, guid: string, was: Option<nat>): Option<nat>
    requires CanRun(s, steps)
    decreases |steps|
  {
    if steps == [] then was else
    LeftAt(Next(s, steps[0]), steps[1..], guid, if Ends(s, steps[0], guid, Removed) then Some(s.crew.clock) else was)
  }

  /** When the listing last acted on in the run began, given when the one under way and the last one did. */
  ghost function TakenAt(s: System, steps: seq<Step>, began: nat, was: nat): nat
    requires CanRun(s, steps)
    decreases |steps|
  {
    if steps == [] then was else
    TakenAt(Next(s, steps[0]), steps[1..], if steps[0].BeginListing? then s.crew.clock else began,
      if steps[0].Apply? then began else was)
  }

  /** What the crew remembers of `guid` and of listings. */
  ghost predicate Recalls(s: System, guid: string, removing: Option<nat>, left: Option<nat>, began: nat, taken: nat) {
    && removing == (if guid in s.crew.fleet.removing then Some(s.crew.fleet.removing[guid]) else None)
    && left == (if guid in s.crew.left then Some(s.crew.left[guid]) else None)
    && (s.crew.listing.Some? ==> s.crew.listing.value == began) && s.crew.lastTaken == taken
  }

  /** Most steps remember what was remembered. */
  lemma SameRemoving(s: System, step: Step)
    requires Enabled(s, step) && !step.Conclude? && !step.Expire?
    ensures Next(s, step).crew.fleet.removing == s.crew.fleet.removing && Next(s, step).crew.left == s.crew.left
  {
    hide BeginLetGo, LeftOut, CanStep, CanLetGo, Unasked, TailOwner.Next, TailOwner.Enabled, Waiting, Acting, Asks,
      AllClosed, State.Has, Since, GoneFrom, FoundIn;
    match step
    case Act => if !s.stopped { LetGoRemoving(s.crew, s.batch[0].guid); }
    case Drop =>
      var plan := s.crew.plan.value;
      LetGoRemoving(s.crew.(plan := Some(plan.(gone := plan.gone[1..]))), plan.gone[0]);
    case _ =>
  }

  lemma LetGoRemoving(c: Crew, guid: string)
    ensures BeginLetGo(c, guid).fleet.removing == c.fleet.removing && BeginLetGo(c, guid).left == c.left
  {
    hide TailOwner.Next, Without, Dismiss, FirstWatched;
  }

  lemma SameListing(s: System, step: Step)
    requires Enabled(s, step) && !step.BeginListing? && !step.LoseListing? && !step.Apply?
    ensures Next(s, step).crew.listing == s.crew.listing && Next(s, step).crew.lastTaken == s.crew.lastTaken
  {
    hide BeginLetGo, OnRemoval, LeftOut, CanStep, CanLetGo, Unasked, TailOwner.Next, TailOwner.Enabled, Waiting,
      Acting, Asks, AllClosed, State.Has;
    match step
    case Act => if !s.stopped { BeginLetGoKeeps(s.crew, s.batch[0].guid); }
    case Drop => DropKeeps(s.crew);
    case _ =>
  }

  lemma {:induction false} RunRecalls(
    s: System, steps: seq<Step>, g: string, removing: Option<nat>, left: Option<nat>, began: nat, taken: nat)
    returns (b: nat)
    requires CanRun(s, steps) && Recalls(s, g, removing, left, began, taken)
    ensures Recalls(After(s, steps), g, RemovingSince(s, steps, g, removing), LeftAt(s, steps, g, left), b,
                    TakenAt(s, steps, began, taken))
    decreases |steps|
  {
    hide Next, Enabled, Recalls, RemovingNow;
    if steps == [] {
      b := began;
    } else {
      var step, now := steps[0], s.crew.clock;
      StepRecalls(s, step, g, removing, left, began, taken);
      b := RunRecalls(Next(s, step), steps[1..], g, RemovingNow(s, step, g, removing),
        if Ends(s, step, g, Removed) then Some(now) else left,
        if step.BeginListing? then now else began, if step.Apply? then began else taken);
    }
  }

  lemma StepRecalls(
    s: System, step: Step, g: string, removing: Option<nat>, left: Option<nat>, began: nat, taken: nat)
    requires Enabled(s, step) && Recalls(s, g, removing, left, began, taken)
    ensures var now := s.crew.clock;
            Recalls(Next(s, step), g, RemovingNow(s, step, g, removing),
              if Ends(s, step, g, Removed) then Some(now) else left,
              if step.BeginListing? then now else began, if step.Apply? then began else taken)
  {
    hide Next, Enabled;
    if step.Conclude? {
      ConcludeRecalls(s, g, removing, left);
      SameListing(s, step);
    } else if step.Expire? {
      ExpireRecalls(s, g);
      SameListing(s, step);
    } else {
      SameRemoving(s, step);
      if !step.BeginListing? && !step.LoseListing? && !step.Apply? { SameListing(s, step); }
      ListingRecalls(s, step);
    }
  }

  lemma ExpireRecalls(s: System, g: string)
    requires Enabled(s, Expire)
    ensures var was, c := s.crew.fleet.removing, Next(s, Expire).crew;
            && c.left == s.crew.left
            && (g in c.fleet.removing <==> g in was && s.crew.clock < was[g] + 60)
            && (g in c.fleet.removing ==> c.fleet.removing[g] == was[g])
  {
  }

  lemma ListingRecalls(s: System, step: Step)
    requires Enabled(s, step)
    ensures step.BeginListing? ==>
              Next(s, step).crew.listing == Some(s.crew.clock) && Next(s, step).crew.lastTaken == s.crew.lastTaken
    ensures step.LoseListing? ==>
              Next(s, step).crew.listing == None && Next(s, step).crew.lastTaken == s.crew.lastTaken
    ensures step.Apply? ==>
              && s.crew.listing.Some? && Next(s, step).crew.listing == None
              && Next(s, step).crew.lastTaken == s.crew.listing.value
  {
    hide GoneFrom, FoundIn, Since;
  }

  lemma ConcludeRecalls(s: System, g: string, removing: Option<nat>, left: Option<nat>)
    requires Enabled(s, Conclude)
    requires removing == if g in s.crew.fleet.removing then Some(s.crew.fleet.removing[g]) else None
    requires left == if g in s.crew.left then Some(s.crew.left[g]) else None
    ensures s.acting.Some?
    ensures var p, c, now := s.acting.value, Next(s, Conclude).crew, s.crew.clock;
            && (if g in c.fleet.removing then Some(c.fleet.removing[g]) else None)
               == (if p.guid != g then removing else if !p.event.QueryRemove? then None
                   else if removing.Some? then removing else Some(now))
            && (if g in c.left then Some(c.left[g]) else None)
               == (if p.guid == g && p.event.Removed? then Some(now) else left)
  {
    hide OnRemoval;
    OnRemovalEnters(s.crew.fleet, s.acting.value.guid, s.acting.value.event, s.crew.clock);
  }

  /**
    * In every run, from the first query of a volume acted on until word of how its removal ended, or a
    * look for overdue ones a minute on, it is not indexed, and no volume found is it.
    */
  lemma NotFoundWhileRemoving(steps: seq<Step>, g: string)
    requires CanRun(Start(), steps) && RemovingSince(Start(), steps, g, None).Some?
    ensures var s := After(Start(), steps);
            && !s.crew.fleet.Has(g)
            && forall starts :: Enabled(s, Find(starts)) ==> !Next(s, Find(starts)).crew.fleet.Has(g)
  {
    hide Start, CanRun, After, RemovingSince, LeftAt, TakenAt, System.Conserved, System.ClosesInOrder, FindNext,
      State.Has, Crew.Timely, Crew.Remembered, System.ActsAlone, System.EndedLate, Crew.Manned, Crew.AllHandled;
    StartSafe(g);
    StartRecalls(g);
    RunKeeps(Start(), steps);
    var _ := RunRecalls(Start(), steps, g, None, None, 0, 0);
    var s := After(Start(), steps);
    assert g in s.crew.fleet.removing;
    forall starts | Enabled(s, Find(starts)) ensures !Next(s, Find(starts)).crew.fleet.Has(g) {
      FindNextHas(s.crew, starts, g);
    }
  }

  lemma StartRecalls(g: string)
    ensures Recalls(Start(), g, None, None, 0, 0)
  {
  }

  /** In every run: a volume said to be removed at some time is not found by a listing begun before it. */
  lemma NotFoundAgain(steps: seq<Step>, starts: bool, g: string)
    requires CanRun(Start(), steps) && Enabled(After(Start(), steps), Find(starts))
    requires var left := LeftAt(Start(), steps, g, None); left.Some? && TakenAt(Start(), steps, 0, 0) < left.value
    ensures var s := After(Start(), steps); Next(s, Find(starts)).crew.fleet.Has(g) ==> s.crew.fleet.Has(g)
  {
    hide Start, CanRun, After, RemovingSince, LeftAt, TakenAt, System.Safe, System.Conserved, System.ClosesInOrder,
      FindNext, State.Has;
    StartSafe(g);
    StartRecalls(g);
    RunKeeps(Start(), steps);
    var _ := RunRecalls(Start(), steps, g, None, None, 0, 0);
    var c := After(Start(), steps).crew;
    var i :| 0 <= i < |c.fleet.removed| && c.fleet.removed[i] == Leaving(g, c.left[g]);
    assert LeftOut(c.fleet, g);
    FindNextHas(c, starts, g);
  }

  /**
    * In every run a volume whose turn to be found has come is indexed exactly if it is not under
    * removal and was not said to be removed after the listing that found it began.
    */
  lemma FindsExactly(steps: seq<Step>, starts: bool)
    requires CanRun(Start(), steps) && Enabled(After(Start(), steps), Find(starts))
    ensures var s := After(Start(), steps);
            var g := s.crew.plan.value.found[0];
            var left := LeftAt(Start(), steps, g, None);
            Next(s, Find(starts)).crew.fleet.Has(g) <==>
              || s.crew.fleet.Has(g)
              || (RemovingSince(Start(), steps, g, None).None? &&
                  !(left.Some? && left.value > TakenAt(Start(), steps, 0, 0)))
  {
    hide Start, CanRun, After, RemovingSince, LeftAt, TakenAt, System.Safe, System.Conserved, System.ClosesInOrder,
      FindNext, State.Has, Crew.Timely;
    var c := After(Start(), steps).crew;
    var g := c.plan.value.found[0];
    StartSafe(g);
    StartRecalls(g);
    RunKeeps(Start(), steps);
    var _ := RunRecalls(Start(), steps, g, None, None, 0, 0);
    FindNextHas(c, starts, g);
    if IsLeaving(c.fleet.removed, g) {
      var i :| 0 <= i < |c.fleet.removed| && c.fleet.removed[i].guid == g;
      assert c.fleet.removed[i] in c.fleet.removed;
    }
    if g in c.left && c.left[g] > c.lastTaken {
      var i :| 0 <= i < |c.fleet.removed| && c.fleet.removed[i] == Leaving(g, c.left[g]);
      assert c.fleet.removed[i].guid == g;
    }
  }

  /** With every instance let go of, nothing of ours uses the volume exactly when all ended in time. */
  lemma FreeIff(instances: seq<Instance>, guid: string)
    requires Gone(instances, guid)
    ensures Free(instances, guid) <==> InTime(instances, guid)
  {
    forall i | 0 <= i < |instances| && instances[i].guid == guid
      ensures instances[i].tails.Quiet() <==> instances[i].tails.EndedInTime()
    {
      TailOwner.QuietIff(instances[i].tails);
    }
  }

  /** The supervisor panics over a query taken, or, panicked, throws a posted one away. */
  predicate EarlyDrop(s: System, step: Step) {
    || (step.Panic? && Waiting(s.batch) + Acting(s.acting) != multiset{})
    || (step.Discard? && Waiting(s.posted) != multiset{})
  }

  /** Some step of the run is such a one. */
  ghost predicate DropsEarly(s: System, steps: seq<Step>)
    requires CanRun(s, steps)
    decreases |steps|
  {
    steps != [] && (EarlyDrop(s, steps[0]) || DropsEarly(Next(s, steps[0]), steps[1..]))
  }

  /** At some point of the run a query is dropped and shutdown has not said that every tail has stopped. */
  ghost predicate EverLost(s: System, steps: seq<Step>)
    requires CanRun(s, steps)
    decreases |steps|
  {
    || (s.dropped != multiset{} && !s.tailsStopped)
    || (steps != [] && EverLost(Next(s, steps[0]), steps[1..]))
  }

  /** Only three steps drop queries. */
  lemma DropsNone(s: System, step: Step)
    requires Enabled(s, step) && !step.Panic? && !step.Discard? && !step.TailsStopped?
    ensures Next(s, step).dropped == s.dropped && Next(s, step).tailsStopped == s.tailsStopped
  {
    hide Waiting, Acting, Asks, BeginLetGo, Entered, DropNext, FindNext, Applied, Stepped, LetGoStep, Unwatched,
      Closing, Expired, CanStep, CanLetGo, Unasked;
  }

  /** One step loses a query before the tails have stopped exactly when it is an early drop. */
  lemma StepLosesIff(s: System, step: Step)
    requires s.ClosesInOrder() && Enabled(s, step)
    ensures EarlyDrop(s, step) <==> Next(s, step).dropped != s.dropped && !Next(s, step).tailsStopped
    ensures s.tailsStopped ==> Next(s, step).tailsStopped
    ensures s.dropped != multiset{} ==> Next(s, step).dropped != multiset{}
    ensures EarlyDrop(s, step) ==> Next(s, step).dropped != multiset{}
  {
    hide Waiting, Acting, AllClosed;
    if step.Panic? {
      var more := Waiting(s.batch) + Acting(s.acting);
      DroppedMore(s.dropped, more);
      assert s.dropped + Waiting(s.batch) + Acting(s.acting) == s.dropped + more;
    } else if step.Discard? || step.TailsStopped? {
      DroppedMore(s.dropped, Waiting(s.posted));
    } else {
      DropsNone(s, step);
    }
  }

  lemma DroppedMore(d: multiset<Query>, more: multiset<Query>)
    ensures d + more != d <==> more != multiset{}
    ensures d != multiset{} || more != multiset{} ==> d + more != multiset{}
  {
    if more != multiset{} {
      var x :| x in more;
      assert (d + more)[x] > d[x];
    } else {
      assert d + more == d;
    }
    if d != multiset{} {
      var x :| x in d;
      assert x in d + more;
    }
  }

  lemma {:induction false} EverLostIff(s: System, steps: seq<Step>)
    requires s.ClosesInOrder() && CanRun(s, steps)
    ensures EverLost(s, steps) <==> (s.dropped != multiset{} && !s.tailsStopped) || DropsEarly(s, steps)
    ensures !After(s, steps).tailsStopped ==>
              (After(s, steps).dropped != multiset{} <==> s.dropped != multiset{} || DropsEarly(s, steps))
    decreases |steps|
  {
    hide System.ClosesInOrder, Next, Enabled, EarlyDrop;
    if steps != [] {
      StepInOrder(s, steps[0]);
      StepLosesIff(s, steps[0]);
      EverLostIff(Next(s, steps[0]), steps[1..]);
      if Next(s, steps[0]).tailsStopped { StaysStopped(Next(s, steps[0]), steps[1..]); }
    }
  }

  lemma {:induction false} StaysStopped(s: System, steps: seq<Step>)
    requires s.ClosesInOrder() && CanRun(s, steps) && s.tailsStopped
    ensures After(s, steps).tailsStopped
    decreases |steps|
  {
    hide System.ClosesInOrder, Next, Enabled, EarlyDrop;
    if steps != [] {
      StepInOrder(s, steps[0]);
      StepLosesIff(s, steps[0]);
      StaysStopped(Next(s, steps[0]), steps[1..]);
    }
  }

  /**
    * In every run a query is dropped before shutdown has said that every tail has stopped exactly
    * when the supervisor panics over a query taken or, panicked, throws a posted one away.
    */
  lemma DroppedEarlyIff(steps: seq<Step>)
    requires CanRun(Start(), steps)
    ensures EverLost(Start(), steps) <==> DropsEarly(Start(), steps)
    ensures !After(Start(), steps).tailsStopped ==>
              (After(Start(), steps).dropped != multiset{} <==> DropsEarly(Start(), steps))
  {
    hide CanRun, After, System.Safe, System.SafeFor, System.ClosesInOrder, EverLost, DropsEarly;
    StartSafe("");
    EverLostIff(Start(), steps);
  }

  /**
    * In every run each removal query is, once, still waiting, answered, dropped or freed. One is
    * answered with every instance of its volume let go of, unless that very volume was indexed
    * twice; and all are freed and dropped at the end with every instance of every volume let go of.
    * Nothing of ours then uses the volume, or is about to, exactly when no tail told to stop
    * outlived the wait for it and no start that was abandoned is under way.
    */
  lemma QueryFate(steps: seq<Step>)
    requires CanRun(Start(), steps)
    ensures var s := After(Start(), steps);
            && AskedIn(steps) == Waiting(s.posted) + Waiting(s.batch) + Acting(s.acting) + s.lingering
                                 + Answered(s.answers) + s.dropped + s.freed
            && (s.freed != multiset{} || (s.dropped != multiset{} && !DropsEarly(Start(), steps)) ==> s.tailsStopped)
            && (s.lingering != multiset{} ==> s.stopped && !s.tailsStopped)
            && (s.tailsStopped ==> forall g :: Gone(s.ended, g) && (Free(s.ended, g) <==> InTime(s.ended, g)))
    ensures forall a :: a in After(Start(), steps).answers && !DoublesIn(Start(), steps, a.guid) ==>
              Gone(a.instances, a.guid) && (Free(a.instances, a.guid) <==> InTime(a.instances, a.guid))
  {
    hide CanRun, After, Start, Crew.Valid, Crew.Single, Crew.Timely, Crew.Remembered, System.ActsAlone, DropsEarly,
      DoublesIn, EverLost, Gone, Free, InTime, Waiting, Acting, Answered, AskedIn;
    StartSafe("");
    assert Start().asked == multiset{} by { StartAsksNone(); }
    RunAsks(Start(), steps);
    RunKeeps(Start(), steps);
    DroppedEarlyIff(steps);
    var s := After(Start(), steps);
    forall a | a in s.answers && !DoublesIn(Start(), steps, a.guid)
      ensures Gone(a.instances, a.guid) && (Free(a.instances, a.guid) <==> InTime(a.instances, a.guid))
    {
      var k :| 0 <= k < |s.answers| && s.answers[k] == a;
      StartSafe(a.guid);
      RunSafeFor(Start(), steps, a.guid);
      FreeIff(a.instances, a.guid);
    }
    if s.tailsStopped {
      forall g ensures Gone(s.ended, g) && (Free(s.ended, g) <==> InTime(s.ended, g)) {
        FreeIff(s.ended, g);
      }
    }
  }

  lemma StartAsksNone()
    ensures Start().asked == multiset{}
  {
  }

  // -- the ways it fails ------------------------------------------------------------------------------------

  lemma Prepend(s: System, step: Step, rest: seq<Step>)
    requires Enabled(s, step) && CanRun(Next(s, step), rest)
    ensures CanRun(s, [step] + rest) && After(s, [step] + rest) == After(Next(s, step), rest)
    ensures EarlyDrop(s, step) || DropsEarly(Next(s, step), rest) ==> DropsEarly(s, [step] + rest)
    ensures forall g :: Doubles(s, step, g) || DoublesIn(Next(s, step), rest, g) ==> DoublesIn(s, [step] + rest, g)
  {
    hide Next, Enabled, EarlyDrop, Doubles;
    assert ([step] + rest)[1..] == rest;
  }

  lemma NoSteps(s: System)
    ensures CanRun(s, []) && After(s, []) == s
  {
  }

  /** A volume whose first start opens it still, kept so. */
  function Opened(keeper: TailOwner.Keeper): TailOwner.State {
    TailOwner.State(keeper, [TailOwner.Opening], [])
  }

  /** One volume found, the start of its tail under way. */
  function FoundState(g: string): System {
    var tails := Opened(TailOwner.Supervising(None, Some(0)));
    Start().(crew := Begin().(fleet := State([Volume(0, g)], 1, [g], map[], []), instances := [Instance(g, tails)]))
  }

  lemma FindsOne(g: string)
    ensures FoundIn([], [Listed(g, true)]) == [g] && GoneFrom([], [Listed(g, true)]) == []
    ensures Since([], 0) == []
    ensures var c := Begin().(plan := Some(Plan([], [g], true)));
            FindNext(c, true) == FoundState(g).crew.(plan := Some(Plan([], [], true)))
  {
    assert [Listed(g, true)][1..] == [] && [g][1..] == [];
    assert [] + [TailOwner.Opening] == [TailOwner.Opening] && [] + [Volume(0, g)] == [Volume(0, g)];
    assert TailOwner.Next(TailOwner.Found(), TailOwner.Launch) == Opened(TailOwner.Supervising(None, Some(0)));
  }

  /** The volume listed and to be found. */
  function ListedState(g: string, finding: bool): System {
    Start().(crew := Begin().(plan := Some(Plan([], [g], finding))))
  }

  lemma ListedSteps(g: string)
    ensures Enabled(ListedState(g, false), Look) && Next(ListedState(g, false), Look) == ListedState(g, true)
    ensures Enabled(ListedState(g, true), Find(true))
    ensures var s := Next(ListedState(g, true), Find(true)); Enabled(s, Settle) && Next(s, Settle) == FoundState(g)
  {
    hide FoundIn, GoneFrom, FindNext, Since;
    FindsOne(g);
  }

  lemma FindsListed(g: string, rest: seq<Step>) returns (steps: seq<Step>)
    requires CanRun(FoundState(g), rest)
    ensures CanRun(ListedState(g, false), steps) && After(ListedState(g, false), steps) == After(FoundState(g), rest)
    ensures DropsEarly(FoundState(g), rest) ==> DropsEarly(ListedState(g, false), steps)
  {
    hide CanRun, After, EarlyDrop, DropsEarly, Next, Enabled, ListedState, FoundState;
    ListedSteps(g);
    Prepend(Next(ListedState(g, true), Find(true)), Settle, rest);
    Prepend(ListedState(g, true), Find(true), [Settle] + rest);
    Prepend(ListedState(g, false), Look, [Find(true)] + ([Settle] + rest));
    steps := [Look] + ([Find(true)] + ([Settle] + rest));
  }

  /** A first listing that names one volume leads there. */
  lemma FindsFirst(g: string, rest: seq<Step>) returns (steps: seq<Step>)
    requires CanRun(FoundState(g), rest)
    ensures CanRun(Start(), steps) && After(Start(), steps) == After(FoundState(g), rest)
    ensures DropsEarly(FoundState(g), rest) ==> DropsEarly(Start(), steps)
  {
    hide CanRun, After, EarlyDrop, DropsEarly, FoundIn, GoneFrom, FindNext, Since, FoundState;
    FindsOne(g);
    var more := FindsListed(g, rest);
    var listed := [Listed(g, true)];
    var s1 := Next(Start(), BeginListing);
    assert Next(s1, Apply(listed)) == ListedState(g, false);
    Prepend(s1, Apply(listed), more);
    Prepend(Start(), BeginListing, [Apply(listed)] + more);
    steps := [BeginListing] + ([Apply(listed)] + more);
  }

  /**
    * A panicked supervisor drops a query it can do nothing for: the volume stays indexed, supervised
    * and about to be used.
    */
  lemma PanicDropsQuery(g: string) returns (steps: seq<Step>)
    ensures CanRun(Start(), steps) && DropsEarly(Start(), steps)
    ensures var s := After(Start(), steps);
            && s.panicked && !s.tailsStopped && Query(0, g) in s.dropped
            && s.crew.fleet.Has(g) && g in s.crew.fleet.supervised && !Free(s.crew.instances, g)
  {
    hide CanRun, After, DropsEarly, Waiting;
    var p, s := Posted(0, g, QueryRemove), FoundState(g);
    WaitingOne(p);
    var s1 := Next(s, Panic);
    var s2 := Next(s1, Post(p));
    assert s2.posted == [p] && EarlyDrop(s2, Discard);
    var s3 := Next(s2, Discard);
    NoSteps(s3);
    Prepend(s2, Discard, []);
    Prepend(s1, Post(p), [Discard] + []);
    Prepend(s, Panic, [Post(p)] + ([Discard] + []));
    steps := FindsFirst(g, [Panic] + ([Post(p)] + ([Discard] + [])));
    assert s3.crew.fleet.volumes[0].guid == g;
    assert s3.crew.instances[0].tails.workers[0].Opening?;
  }

  // -- a query answered too early --------------------------------------------------------------------------

  /** The first instance, its tails kept so. */
  function Keeping(s: System, keeper: TailOwner.Keeper, releasing: Option<nat>): System
    requires s.crew.instances != []
  {
    var first := s.crew.instances[0];
    s.(crew := s.crew.(instances := s.crew.instances[0 := first.(tails := first.tails.(keeper := keeper))],
                       releasing := releasing))
  }

  /** A release with no tail to wait for, of a start that is abandoned if there is one. */
  lemma ReleaseParts(s: TailOwner.State, p: Option<nat>)
    requires s.tails == [] && (p.Some? ==> p.value < |s.workers|)
    ensures var at, step := s.(keeper := TailOwner.Releasing(None, p)), TailOwner.Drain(false);
            TailOwner.Enabled(at, step) && TailOwner.Next(at, step) == s.(keeper := TailOwner.Stopping([], p))
    ensures var at, step := s.(keeper := TailOwner.Stopping([], p)), TailOwner.StopTails;
            TailOwner.Enabled(at, step) && TailOwner.Next(at, step) == s.(keeper := TailOwner.Waiting([], p))
    ensures var at, step := s.(keeper := TailOwner.Waiting([], p)), TailOwner.Waited(false);
            TailOwner.Enabled(at, step) && TailOwner.Next(at, step) == s.(keeper := TailOwner.LetGo([], p))
  {
    assert TailOwner.FlagAll([], []) == [];
  }

  lemma LetsGoOne(s: System, before: TailOwner.Keeper, part: TailOwner.Step, after: TailOwner.Keeper)
    requires s.crew.instances != [] && LetsGo(part)
    requires var tails := s.crew.instances[0].tails;
             && TailOwner.Enabled(tails.(keeper := before), part)
             && TailOwner.Next(tails.(keeper := before), part) == tails.(keeper := after)
    ensures var at := Keeping(s, before, Some(0));
            && Enabled(at, LetGo(0, part))
            && Next(at, LetGo(0, part)) == Keeping(s, after, if part.Waited? then None else Some(0))
  {
    hide TailOwner.Next, TailOwner.Enabled;
  }

  lemma Releases(s: System, p: Option<nat>, rest: seq<Step>) returns (steps: seq<Step>)
    requires s.crew.instances != []
    requires var tails := s.crew.instances[0].tails; tails.tails == [] && (p.Some? ==> p.value < |tails.workers|)
    requires CanRun(Keeping(s, TailOwner.LetGo([], p), None), rest)
    ensures var at := Keeping(s, TailOwner.Releasing(None, p), Some(0));
            CanRun(at, steps) && After(at, steps) == After(Keeping(s, TailOwner.LetGo([], p), None), rest)
  {
    hide CanRun, After, DropsEarly, EarlyDrop, DoublesIn, Doubles, TailOwner.Next, TailOwner.Enabled, Next, Enabled,
      Keeping;
    ReleaseParts(s.crew.instances[0].tails, p);
    var k3, k4, k5 := TailOwner.Releasing(None, p), TailOwner.Stopping([], p), TailOwner.Waiting([], p);
    var drain, stop, wait := TailOwner.Drain(false), TailOwner.StopTails, TailOwner.Waited(false);
    LetsGoOne(s, k5, wait, TailOwner.LetGo([], p));
    LetsGoOne(s, k4, stop, k5);
    LetsGoOne(s, k3, drain, k4);
    Prepend(Keeping(s, k5, Some(0)), LetGo(0, wait), rest);
    Prepend(Keeping(s, k4, Some(0)), LetGo(0, stop), [LetGo(0, wait)] + rest);
    Prepend(Keeping(s, k3, Some(0)), LetGo(0, drain), [LetGo(0, stop)] + ([LetGo(0, wait)] + rest));
    steps := [LetGo(0, drain)] + ([LetGo(0, stop)] + ([LetGo(0, wait)] + rest));
  }

  /** Query 0 for `g` is being acted on. */
  function ActsOn(s: System, g: string): System {
    s.(crew := BeginLetGo(s.crew, g), acting := Some(Posted(0, g, QueryRemove)),
       asked := s.asked + multiset{Query(0, g)})
  }

  /** It was posted, taken and taken up. */
  lemma TakesUp(s: System, g: string, rest: seq<Step>) returns (steps: seq<Step>)
    requires s.Idles() && !s.stopped && s.posted == [] && s.batch == [] && s.crew.fleet.Has(g)
    requires CanRun(ActsOn(s, g), rest)
    ensures CanRun(s, steps) && After(s, steps) == After(ActsOn(s, g), rest)
  {
    hide CanRun, After, DropsEarly, DoublesIn, Waiting, EarlyDrop, Doubles, BeginLetGo, State.Has;
    var p := Posted(0, g, QueryRemove);
    var s1 := Next(s, Post(p));
    var s2 := Next(s1, Take);
    assert s2.batch == [p] && [p][1..] == [];
    assert Next(s2, Act) == ActsOn(s, g);
    Prepend(s2, Act, rest);
    Prepend(s1, Take, [Act] + rest);
    Prepend(s, Post(p), [Take] + ([Act] + rest));
    steps := [Post(p)] + ([Take] + ([Act] + rest));
  }

  /** Its release takes the first instance, and it is answered. */
  lemma Answers(s: System, g: string, p: Option<nat>) returns (steps: seq<Step>)
    requires s.Idles() && !s.stopped && s.posted == [] && s.batch == [] && s.crew.fleet.Has(g)
    requires s.crew.instances != [] && s.crew.instances[0].guid == g
    requires var tails := s.crew.instances[0].tails;
             && tails.keeper == TailOwner.Supervising(None, p) && tails.tails == []
             && (p.Some? ==> p.value < |tails.workers|)
    ensures CanRun(s, steps)
    ensures After(s, steps).answers
            == s.answers + [Answer(0, g, Keeping(s, TailOwner.LetGo([], p), None).crew.instances)]
  {
    hide CanRun, After, DropsEarly, DoublesIn, EarlyDrop, Doubles, Entered, Release, State.Has;
    var out := ActsOn(s, g);
    assert out == Keeping(out, TailOwner.Releasing(None, p), Some(0));
    var last := Keeping(out, TailOwner.LetGo([], p), None);
    assert last.crew.instances == Keeping(s, TailOwner.LetGo([], p), None).crew.instances;
    NoSteps(Next(last, Conclude));
    Prepend(last, Conclude, []);
    steps := Releases(out, p, [Conclude] + []);
    steps := TakesUp(s, g, steps);
  }

  /** A query is answered while the start its release abandoned still opens the volume. */
  lemma AnsweredTooEarly(g: string) returns (steps: seq<Step>)
    ensures CanRun(Start(), steps)
    ensures var s := After(Start(), steps);
            && |s.answers| == 1 && s.answers[0].guid == g
            && !Free(s.answers[0].instances, g) && !InTime(s.answers[0].instances, g)
  {
    hide CanRun, After, DropsEarly;
    var s := FoundState(g);
    assert s.crew.fleet.volumes[0].guid == g;
    steps := Answers(s, g, Some(0));
    steps := FindsFirst(g, steps);
    var instances := Keeping(s, TailOwner.LetGo([], Some(0)), None).crew.instances;
    assert instances[0].tails.workers[0].Opening?;
    assert !instances[0].tails.Quiet() && !instances[0].tails.EndedInTime();
  }

  /** A volume listed twice and to be found. */
  function TwiceListed(g: string, finding: bool): System {
    Start().(crew := Begin().(plan := Some(Plan([], [g, g], finding))))
  }

  lemma ListsTwice(g: string)
    ensures Enabled(Start(), BeginListing)
    ensures var s, step := Next(Start(), BeginListing), Apply([Listed(g, true), Listed(g, true)]);
            Enabled(s, step) && Next(s, step) == TwiceListed(g, false)
  {
    var listed := [Listed(g, true), Listed(g, true)];
    assert listed[1..] == [Listed(g, true)] && [Listed(g, true)][1..] == [];
    assert FoundIn([], [Listed(g, true)]) == [g] && FoundIn([], listed) == [g] + [g] == [g, g];
    assert GoneFrom([], listed) == [] && Since([], 0) == [];
  }

  lemma FindsBoth(g: string)
    ensures var s, find := TwiceListed(g, true), Find(false);
            && Enabled(s, find) && Enabled(Next(s, find), find) && Doubles(Next(s, find), find, g)
            && Next(Next(s, find), find) == Twins(g).(crew := Twins(g).crew.(plan := Some(Plan([], [], true))))
  {
    hide TailOwner.Next, TailOwner.Enabled;
    var s := Next(TwiceListed(g, true), Find(false));
    assert [g, g][1..] == [g] && s.crew.fleet.volumes[0].guid == g;
    assert [g][1..] == [] && [g] + [g] == [g, g];
  }

  lemma LooksAndSettles(g: string)
    ensures Enabled(TwiceListed(g, false), Look) && Next(TwiceListed(g, false), Look) == TwiceListed(g, true)
    ensures var s := Twins(g).(crew := Twins(g).crew.(plan := Some(Plan([], [], true))));
            Enabled(s, Settle) && Next(s, Settle) == Twins(g)
  {
  }

  /** A volume indexed twice. */
  function Twins(g: string): System {
    var twin := Instance(g, TailOwner.Found());
    Start().(crew := Begin().(fleet := State([Volume(0, g), Volume(1, g)], 2, [g, g], map[], []),
                              instances := [twin, twin]))
  }

  /** A listing that names a volume twice makes the fleet index it twice. */
  lemma FindsTwins(g: string, rest: seq<Step>) returns (steps: seq<Step>)
    requires CanRun(Twins(g), rest)
    ensures CanRun(Start(), steps) && After(Start(), steps) == After(Twins(g), rest) && DoublesIn(Start(), steps, g)
  {
    hide CanRun, After, EarlyDrop, DropsEarly, Doubles, DoublesIn, Next, Enabled, Start, TwiceListed, Twins;
    var apply, find := Apply([Listed(g, true), Listed(g, true)]), Find(false);
    ListsTwice(g);
    FindsBoth(g);
    LooksAndSettles(g);
    var s := Next(TwiceListed(g, true), find);
    Prepend(Next(s, find), Settle, rest);
    Prepend(s, find, [Settle] + rest);
    Prepend(TwiceListed(g, true), find, [find] + ([Settle] + rest));
    Prepend(TwiceListed(g, false), Look, [find] + ([find] + ([Settle] + rest)));
    Prepend(Next(Start(), BeginListing), apply, [Look] + ([find] + ([find] + ([Settle] + rest))));
    Prepend(Start(), BeginListing, [apply] + ([Look] + ([find] + ([find] + ([Settle] + rest)))));
    steps := [BeginListing] + ([apply] + ([Look] + ([find] + ([find] + ([Settle] + rest)))));
  }

  /**
    * On a machine that lists a volume twice it is indexed twice, and a query for it is answered
    * with the second instance still watched.
    */
  lemma ListedTwice(g: string) returns (steps: seq<Step>)
    ensures CanRun(Start(), steps) && !OneOf(Start(), steps, g)
    ensures var s := After(Start(), steps);
            && |s.answers| == 1 && s.answers[0].guid == g
            && |s.answers[0].instances| == 2 && s.answers[0].instances[1].guid == g
            && s.answers[0].instances[1].Watched() && !Gone(s.answers[0].instances, g)
  {
    hide CanRun, After, DropsEarly, DoublesIn, OneOf;
    var s := Twins(g);
    assert s.crew.fleet.volumes[0].guid == g;
    steps := Answers(s, g, None);
    steps := FindsTwins(g, steps);
    RunKeepsFleet(steps, g);
  }

  /** Were listings acted on out of order, one begun before a removal could find the volume again. */
  lemma OutOfOrderFinds(g: string, early: nat, at: nat, late: nat, stop: nat -> bool)
    requires early < at <= late && !stop(0)
    ensures var s := OnRemoval(Empty(), g, Removed, at);
            && !Reconcile(s, [Listed(g, true)], early, stop).Has(g)
            && Reconcile(Reconcile(s, [], late, stop), [Listed(g, true)], early, stop).Has(g)
  {
    var s, listed := OnRemoval(Empty(), g, Removed, at), [Listed(g, true)];
    OnRemovalExact(Empty(), g, Removed, at);
    ReconcileExact(s, listed, early, stop, g);
    ReconcileExact(s, [], late, stop, g);
    var t := Reconcile(s, [], late, stop);
    ReconcileExact(t, listed, early, stop, g);
    assert s.removed == [Leaving(g, at)];
    assert t.removed == [];
    assert GoneFrom(s.volumes, listed) == [] && GoneFrom(t.volumes, listed) == [];
    assert s.removed[0].at > early;
  }
}
