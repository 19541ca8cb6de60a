/**
  * Who owns the tail threads of one volume: the supervisor, the workers that start tails for
  * it, and the tails, as steps taken in any order. A worker hands a tail over by rendezvous:
  * it offers the tail until the supervisor takes it or has stopped listening. The supervisor
  * knows a tail by the word of its pulse, and through a release by its thread's end.
  */
module TailOwner {
  import opened Options
  import opened Pulse

  // -- one tail thread -----------------------------------------------------------------------------

  /** Where a tail's thread is: in its loop, in a rebuild, leaving, past the close of its handle, or gone. */
  datatype Stage = Turning | Rebuilding | Unwinding | Closed | Left

  datatype Tail = Tail(stop: bool, stage: Stage, word: Word) {

    /** The thread may still use the volume: its handle is open. */
    predicate Touches() {
      stage.Turning? || stage.Rebuilding? || stage.Unwinding?
    }

    predicate ReadsRetired() {
      Decode(word).Retired?
    }

    /** The word says Retired exactly when the thread is gone, and Busy exactly in a rebuild. */
    ghost predicate Honest() {
      (ReadsRetired() <==> stage.Left?) && (Decode(word).Busy? <==> stage.Rebuilding?)
    }
  }

  /** What a tail's thread does next; the loop may be left, by return or unwind, at any point. */
  datatype Move = Beats(now: Word) | Enters(now: Word) | Leaves(now: Word) | Unwinds(now: Word) | Closes | Retires

  predicate CanMove(t: Tail, m: Move) {
    match m
    case Beats(_) => t.stage.Turning?
    case Enters(_) => t.stage.Turning?
    case Leaves(_) => t.stage.Rebuilding?
    case Unwinds(_) => t.stage.Turning? || t.stage.Rebuilding?
    case Closes => t.stage.Unwinding?
    case Retires => t.stage.Closed?
  }

  /** The guards drop innermost first: a rebuild's restores a beat, then the handle closes, then Retired is stored. */
  function Moved(t: Tail, m: Move): Tail {
    match m
    case Beats(now) => t.(word := Encode(Beat(now)))
    case Enters(now) => t.(stage := Rebuilding, word := Encode(Busy(now)))
    case Leaves(now) => t.(stage := Turning, word := Encode(Beat(now)))
    case Unwinds(now) => t.(stage := Unwinding, word := if t.stage.Rebuilding? then Encode(Beat(now)) else t.word)
    case Closes => t.(stage := Closed)
    case Retires => t.(stage := Left, word := Encode(Retired))
  }

  function Spawned(now: Word): Tail {
    Tail(false, Turning, Encode(Beat(now)))
  }

  lemma MovedHonest(t: Tail, m: Move)
    requires t.Honest() && CanMove(t, m)
    ensures Moved(t, m).Honest()
    ensures !Moved(t, m).stage.Left? ==> !t.stage.Left?
  {
    match m
    case Beats(now) => ReportReadsBack(Beat(now));
    case Enters(now) => ReportReadsBack(Busy(now));
    case Leaves(now) => ReportReadsBack(Beat(now));
    case Unwinds(now) => ReportReadsBack(Beat(now));
    case Closes =>
    case Retires => ReportReadsBack(Retired);
  }

  // -- one volume ------------------------------------------------------------------------------------

  /**
    * A start under way: blocked opening the volume, offering a built tail, stopping one nobody
    * took, reporting failure, dead unreported, or over.
    */
  datatype Worker = Opening | Offers(tail: nat) | Joins(tail: nat) | Failed | Gone | Done

  /** What the supervisor holds of the volume, through its release: the tails told to stop, and the start abandoned. */
  datatype Keeper =
    | Supervising(tail: Option<nat>, pending: Option<nat>)
    | Releasing(tail: Option<nat>, pending: Option<nat>)
    | Stopping(tails: seq<nat>, abandoned: Option<nat>)
    | Waiting(tails: seq<nat>, abandoned: Option<nat>)
    | LetGo(tails: seq<nat>, abandoned: Option<nat>)

  datatype State = State(keeper: Keeper, workers: seq<Worker>, tails: seq<Tail>) {

    /** The supervisor listens to workers. */
    predicate Listening() {
      keeper.Supervising? || keeper.Releasing?
    }

    /** The supervisor listens to worker `w`. */
    predicate Listens(w: nat) {
      Listening() && keeper.pending == Some(w)
    }

    /** Worker `w` was left to itself by a release. */
    predicate Abandoned(w: nat) {
      !Listening() && keeper.abandoned == Some(w)
    }

    /** The supervisor holds tail `t`, or told it to stop. */
    predicate Holds(t: nat) {
      if Listening() then keeper.tail == Some(t) else t in keeper.tails
    }

    /** Worker `w` has tail `t` in its hands. */
    predicate HasInHand(w: nat, t: nat) {
      w < |workers| && (workers[w] == Offers(t) || workers[w] == Joins(t))
    }

    /** The tail's thread is not gone yet. */
    predicate Runs(t: nat) {
      t < |tails| && !tails[t].stage.Left?
    }

    /** The tail may still use the volume. */
    predicate Uses(t: nat) {
      t < |tails| && tails[t].Touches()
    }

    /** The worker may yet build a tail, or has one in its hands. */
    predicate Active(w: nat) {
      w < |workers| && (workers[w].Opening? || workers[w].Offers? || workers[w].Joins?)
    }

    /** The supervisor listens to the worker, or left it to itself; it gives a tail back only when not listened to. */
    predicate Minded(w: nat) {
      (Listens(w) && w < |workers| && !workers[w].Joins?) || Abandoned(w)
    }

    ghost predicate InRange() {
      && (forall t: nat :: Holds(t) ==> t < |tails|)
      && (forall w: nat :: Listens(w) ==> w < |workers|)
      && (forall w: nat, t: nat :: HasInHand(w, t) ==> t < |tails|)
    }

    /** One start at a time, which no tail but its own runs beside, and which is listened to or abandoned. */
    ghost predicate OneStart() {
      && (forall w: nat, x: nat :: Active(w) && Active(x) ==> w == x)
      && (forall w: nat, u: nat :: Active(w) && Runs(u) ==> HasInHand(w, u))
      && (forall w: nat :: Active(w) ==> Minded(w))
    }

    /** At most one tail runs. */
    ghost predicate SingleTail() {
      forall t: nat, u: nat :: Runs(t) && Runs(u) ==> t == u
    }

    /** A running tail is held by the supervisor, or in the hands of the start under way. */
    ghost predicate Owned() {
      forall t: nat :: Runs(t) && !Holds(t) ==> exists w: nat :: Active(w) && HasInHand(w, t)
    }

    /** Whoever waits for a tail to end has asked it to. */
    ghost predicate Asked() {
      && (keeper.Waiting? || keeper.LetGo? ==> forall t: nat :: Holds(t) && Runs(t) ==> tails[t].stop)
      && (forall w: nat, t: nat :: HasInHand(w, t) && workers[w].Joins? && t < |tails| ==> tails[t].stop)
    }

    ghost predicate Honest() {
      forall t :: 0 <= t < |tails| ==> tails[t].Honest()
    }

    ghost predicate Valid() {
      InRange() && OneStart() && SingleTail() && Owned() && Asked() && Honest()
    }

    /** Nothing uses the volume, and no start is about to. */
    ghost predicate Quiet() {
      (forall t: nat :: !Uses(t)) && (forall w: nat :: w < |workers| ==> !workers[w].Opening?)
    }

    /** Worker `w` opens the volume, or has a tail in its hands that may still use it. */
    predicate Starting(w: nat) {
      w < |workers| && (workers[w].Opening? || ((workers[w].Offers? || workers[w].Joins?) && Uses(workers[w].tail)))
    }

    /** No tail told to stop outlived the wait for it, and the start abandoned, if one was, is over. */
    predicate EndedInTime() {
      && !Listening()
      && (forall k :: 0 <= k < |keeper.tails| ==> !Uses(keeper.tails[k]))
      && (keeper.abandoned.Some? ==> !Starting(keeper.abandoned.value))
    }
  }

  function Found(): State {
    State(Supervising(None, None), [], [])
  }

  datatype Step =
    | Launch
    | Build(w: nat, now: Word)
    | Fail(w: nat)
    | Die(w: nat)
    | GiveBack(w: nat)
    | Joined(w: nat)
    | Moves(t: nat, move: Move)
    | Poll
    | EndSupervision
    | BeginRelease
    | Drain(inTime: bool)
    | StopTails
    | Waited(late: bool)

  /** No tail is held, or the word of the one held reads Retired. */
  predicate Idle(s: State, tail: Option<nat>) {
    tail.Some? && tail.value < |s.tails| ==> s.tails[tail.value].ReadsRetired()
  }

  /** The tail's thread is gone. */
  predicate HasLeft(s: State, t: nat) {
    t < |s.tails| ==> s.tails[t].stage.Left?
  }

  predicate Enabled(s: State, step: Step) {
    match step
    case Launch => s.keeper.Supervising? && s.keeper.pending.None? && Idle(s, s.keeper.tail)
    case Build(w, _) => w < |s.workers| && s.workers[w].Opening?
    case Fail(w) => w < |s.workers| && s.workers[w].Opening?
    case Die(w) => w < |s.workers| && s.workers[w].Opening?
    case GiveBack(w) => w < |s.workers| && (s.workers[w].Offers? || s.workers[w].Failed?) && !s.Listens(w)
    case Joined(w) => w < |s.workers| && s.workers[w].Joins? && HasLeft(s, s.workers[w].tail)
    case Moves(t, move) => t < |s.tails| && CanMove(s.tails[t], move)
    case Poll => s.keeper.Supervising? && s.keeper.pending.Some? && s.keeper.pending.value < |s.workers|
    case EndSupervision => s.keeper.Supervising? && s.keeper.pending.None? && Idle(s, s.keeper.tail)
    case BeginRelease => s.keeper.Supervising?
    case Drain(_) => s.keeper.Releasing? && (s.keeper.pending.Some? ==> s.keeper.pending.value < |s.workers|)
    case StopTails => s.keeper.Stopping?
    case Waited(late) => s.keeper.Waiting? && (late || forall k :: 0 <= k < |s.keeper.tails| ==>
      HasLeft(s, s.keeper.tails[k]))
  }

  /** Every listed tail is asked to stop. */
  function FlagAll(tails: seq<Tail>, ts: seq<nat>): seq<Tail> {
    seq(|tails|, t requires 0 <= t < |tails| => if t in ts then tails[t].(stop := true) else tails[t])
  }

  function Listed(tail: Option<nat>): seq<nat> {
    if tail.Some? then [tail.value] else []
  }

  /** The start under way is drained: what it offers in time is taken, and if it does not report it is abandoned. */
  function Drained(s: State, inTime: bool): State
    requires Enabled(s, Drain(inTime))
  {
    var held, pending := Listed(s.keeper.tail), s.keeper.pending;
    if pending.None? then s.(keeper := Stopping(held, None)) else
    var w := pending.value;
    if !inTime || s.workers[w].Opening? then s.(keeper := Stopping(held, pending))
    else if s.workers[w].Offers? then
      s.(keeper := Stopping([s.workers[w].tail] + held, None), workers := s.workers[w := Done])
    else s.(keeper := Stopping(held, None), workers := s.workers[w := Done])
  }

  /** The start under way is polled: the tail it offers replaces the retired one. */
  function Polled(s: State): State
    requires Enabled(s, Poll)
  {
    var w := s.keeper.pending.value;
    if s.workers[w].Opening? then s
    else if s.workers[w].Offers? then
      State(Supervising(Some(s.workers[w].tail), None), s.workers[w := Done], FlagAll(s.tails, Listed(s.keeper.tail)))
    else s.(keeper := Supervising(s.keeper.tail, None), workers := s.workers[w := Done])
  }

  function Next(s: State, step: Step): State
    requires Enabled(s, step)
  {
    match step
    case Launch => s.(keeper := Supervising(s.keeper.tail, Some(|s.workers|)), workers := s.workers + [Opening])
    case Build(w, now) => s.(workers := s.workers[w := Offers(|s.tails|)], tails := s.tails + [Spawned(now)])
    case Fail(w) => s.(workers := s.workers[w := Failed])
    case Die(w) => s.(workers := s.workers[w := Gone])
    case GiveBack(w) =>
      if s.workers[w].Failed? then s.(workers := s.workers[w := Done])
      else s.(workers := s.workers[w := Joins(s.workers[w].tail)], tails := FlagAll(s.tails, [s.workers[w].tail]))
    case Joined(w) => s.(workers := s.workers[w := Done])
    case Moves(t, move) => s.(tails := s.tails[t := Moved(s.tails[t], move)])
    case Poll => Polled(s)
    case EndSupervision =>
      s.(keeper := LetGo(Listed(s.keeper.tail), None), tails := FlagAll(s.tails, Listed(s.keeper.tail)))
    case BeginRelease => s.(keeper := Releasing(s.keeper.tail, s.keeper.pending))
    case Drain(inTime) => Drained(s, inTime)
    case StopTails =>
      s.(keeper := Waiting(s.keeper.tails, s.keeper.abandoned), tails := FlagAll(s.tails, s.keeper.tails))
    case Waited(_) => s.(keeper := LetGo(s.keeper.tails, s.keeper.abandoned))
  }

  // -- every step keeps the volume valid ----------------------------------------------------------

  /** Every tail of `s'` that runs, and every start under way with what it has in hand, did so in `s`. */
  ghost predicate NothingNew(s: State, s': State) {
    && (forall t: nat {:trigger s'.Runs(t)} :: s'.Runs(t) ==> s.Runs(t))
    && (forall w: nat {:trigger s'.Active(w)} :: s'.Active(w) ==> s.Active(w))
    && (forall w: nat, t: nat {:trigger s'.HasInHand(w, t)} :: s'.Active(w) ==> s'.HasInHand(w, t) == s.HasInHand(w, t))
  }

  /** The tails that run stay held, and those in the hands of a start under way stay there or become held. */
  ghost predicate StillOwned(s: State, s': State) {
    && (forall t: nat {:trigger s'.Holds(t)} :: s'.Runs(t) && s.Holds(t) ==> s'.Holds(t))
    && (forall w: nat, t: nat {:trigger s.HasInHand(w, t)} ::
          s'.Runs(t) && s.Active(w) && s.HasInHand(w, t) ==> s'.Active(w) || s'.Holds(t))
  }

  /** Starts under way are listened to or abandoned. */
  ghost predicate StillMinded(s': State) {
    forall w: nat {:trigger s'.Active(w)} :: s'.Active(w) ==> s'.Minded(w)
  }

  /** A step that starts nothing keeps the volume valid if it disowns nothing. */
  lemma Keeps(s: State, s': State)
    requires s.Valid() && NothingNew(s, s') && StillOwned(s, s') && StillMinded(s')
    requires s'.InRange() && s'.Asked() && s'.Honest()
    ensures s'.Valid()
  {
    hide State.InRange, State.Asked, State.Honest, State.Holds, State.Minded, State.HasInHand, State.Runs, State.Active;
    forall w: nat, u: nat | s'.Active(w) && s'.Runs(u) ensures s'.HasInHand(w, u) {
      assert s.Active(w) && s.Runs(u) && s.HasInHand(w, u);
    }
    forall t: nat | s'.Runs(t) && !s'.Holds(t) ensures exists w: nat :: s'.Active(w) && s'.HasInHand(w, t) {
      assert s.Runs(t) && !s.Holds(t);
      var w: nat :| s.Active(w) && s.HasInHand(w, t);
      assert s'.Active(w) && s'.HasInHand(w, t);
    }
  }

  /** With nothing pending and the word of the tail held Retired, no tail runs and no start is under way. */
  lemma NothingRuns(s: State, t: nat)
    requires s.Valid() && Enabled(s, Launch)
    ensures !s.Runs(t) && !s.Active(t)
  {
    assert forall w: nat :: s.Active(w) ==> s.Minded(w);
    assert s.Holds(t) ==> t < |s.tails| && s.tails[t].Honest();
  }

  lemma LaunchValid(s: State)
    requires s.Valid() && Enabled(s, Launch)
    ensures Next(s, Launch).Valid()
  {
    var s' := Next(s, Launch);
    forall t: nat
      ensures !s'.Runs(t) && (s'.Active(t) ==> t == |s.workers|) && (s'.Holds(t) ==> t < |s'.tails|)
    {
      NothingRuns(s, t);
      assert s.Holds(t) ==> t < |s.tails|;
    }
    forall w: nat, t: nat ensures s'.HasInHand(w, t) ==> s.HasInHand(w, t) {
    }
  }

  lemma BuildValid(s: State, b: nat, now: Word)
    requires s.Valid() && Enabled(s, Build(b, now))
    ensures Next(s, Build(b, now)).Valid()
  {
    var s', fresh_ := Next(s, Build(b, now)), |s.tails|;
    assert s.Active(b);
    ReportReadsBack(Beat(now));
    forall t: nat ensures s'.Runs(t) ==> t == fresh_ {
      assert s.Runs(t) ==> s.HasInHand(b, t);
    }
    forall w: nat ensures s'.Active(w) ==> w == b {
      assert s'.Active(w) ==> s.Active(w);
    }
    assert forall w: nat :: s'.Listens(w) == s.Listens(w) && s'.Abandoned(w) == s.Abandoned(w);
    forall w: nat, t: nat ensures s'.HasInHand(w, t) == (s.HasInHand(w, t) || (w == b && t == fresh_)) {
      assert s.HasInHand(w, t) ==> w != b;
    }
    assert forall t: nat :: s'.Holds(t) == s.Holds(t);
    assert s'.HasInHand(b, fresh_);
  }

  /** A worker that fails, dies, gives its tail back or is done with it. */
  lemma WorkerValid(s: State, step: Step)
    requires s.Valid() && Enabled(s, step) && (step.Fail? || step.Die? || step.GiveBack? || step.Joined?)
    ensures Next(s, step).Valid()
  {
    var s', b := Next(s, step), step.w;
    assert forall w: nat :: s'.Listens(w) == s.Listens(w) && s'.Abandoned(w) == s.Abandoned(w);
    assert forall t: nat :: s'.Holds(t) == s.Holds(t) && s'.Runs(t) == s.Runs(t);
    forall w: nat, t: nat ensures s'.HasInHand(w, t) ==> s.HasInHand(w, t) {
    }
    forall w: nat, t: nat ensures w != b ==> (s'.HasInHand(w, t) == s.HasInHand(w, t)) {
    }
    forall w: nat ensures s'.Active(w) ==> s.Active(w) {
    }
    forall t: nat, w: nat | s'.Runs(t) && s.Active(w) && s.HasInHand(w, t) ensures s'.Active(w) {
    }
    Keeps(s, s');
  }

  lemma MovesValid(s: State, t: nat, move: Move)
    requires s.Valid() && Enabled(s, Moves(t, move))
    ensures Next(s, Moves(t, move)).Valid()
  {
    var s' := Next(s, Moves(t, move));
    MovedHonest(s.tails[t], move);
    assert s'.tails[t].stop == s.tails[t].stop;
    assert forall w: nat :: s'.Listens(w) == s.Listens(w) && s'.Abandoned(w) == s.Abandoned(w);
    assert forall w: nat :: s'.Active(w) == s.Active(w);
    assert forall w: nat, u: nat :: s'.HasInHand(w, u) == s.HasInHand(w, u);
    assert forall u: nat :: s'.Holds(u) == s.Holds(u) && (s'.Runs(u) ==> s.Runs(u));
    Keeps(s, s');
  }

  lemma PollValid(s: State)
    requires s.Valid() && Enabled(s, Poll)
    ensures Next(s, Poll).Valid()
  {
    var s', b := Next(s, Poll), s.keeper.pending.value;
    if !s.workers[b].Opening? {
      assert forall t: nat :: s'.Runs(t) == s.Runs(t);
      forall w: nat, t: nat ensures s'.HasInHand(w, t) == (s.HasInHand(w, t) && w != b) {
      }
      forall w: nat ensures !s'.Active(w) {
        assert s.Active(w) ==> s.Minded(w);
      }
      if s.workers[b].Offers? {
        OfferTaken(s, b);
      }
      forall t: nat ensures s'.Runs(t) && s.Holds(t) ==> s'.Holds(t) {
      }
      forall t: nat ensures s'.Holds(t) ==> t < |s'.tails| {
        assert s.Holds(t) ==> t < |s.tails|;
      }
      Keeps(s, s');
    }
  }

  /** While a worker offers a tail no other runs. */
  lemma OfferTaken(s: State, b: nat)
    requires s.Valid() && b < |s.workers| && s.workers[b].Offers?
    ensures s.workers[b].tail < |s.tails| && forall u: nat :: s.Runs(u) ==> u == s.workers[b].tail
  {
    assert s.Active(b) && s.HasInHand(b, s.workers[b].tail);
    forall u: nat ensures s.Runs(u) ==> u == s.workers[b].tail {
      assert s.Active(b) && s.Runs(u) ==> s.HasInHand(b, u);
    }
  }

  lemma DrainValid(s: State, inTime: bool)
    requires s.Valid() && Enabled(s, Drain(inTime))
    ensures Next(s, Drain(inTime)).Valid()
  {
    var s' := Next(s, Drain(inTime));
    assert forall t: nat :: s'.Runs(t) == s.Runs(t);
    forall w: nat, t: nat ensures s'.HasInHand(w, t) ==> s.HasInHand(w, t) {
    }
    forall w: nat ensures s'.Active(w) ==> s.Active(w) && s'.Abandoned(w) {
      assert s.Active(w) ==> s.Minded(w);
    }
    forall t: nat ensures (s.Holds(t) ==> s'.Holds(t)) && (s'.Holds(t) ==> t < |s'.tails|) {
      assert s.Holds(t) ==> t < |s.tails|;
      if s.keeper.pending.Some? { assert s.HasInHand(s.keeper.pending.value, t) ==> t < |s.tails|; }
    }
    Keeps(s, s');
  }

  lemma LetGoValid(s: State, step: Step)
    requires s.Valid() && Enabled(s, step)
    requires step.EndSupervision? || step.BeginRelease? || step.StopTails? || step.Waited?
    ensures Next(s, step).Valid()
  {
    var s' := Next(s, step);
    assert forall t: nat :: s'.Runs(t) == s.Runs(t) && s'.Holds(t) == s.Holds(t);
    assert forall w: nat :: s'.Active(w) == s.Active(w);
    assert forall w: nat, t: nat :: s'.HasInHand(w, t) == s.HasInHand(w, t);
    forall w: nat ensures s'.Active(w) ==> s'.Minded(w) {
      assert s.Active(w) ==> s.Minded(w);
    }
    assert forall w: nat :: s'.Listens(w) ==> s.Listens(w);
    Keeps(s, s');
  }

  lemma StepValid(s: State, step: Step)
    requires s.Valid() && Enabled(s, step)
    ensures Next(s, step).Valid()
  {
    hide State.Valid, Next, Enabled;
    match step
    case Launch => LaunchValid(s);
    case Build(w, now) => BuildValid(s, w, now);
    case Moves(t, move) => MovesValid(s, t, move);
    case Poll => PollValid(s);
    case Drain(inTime) => DrainValid(s, inTime);
    case Fail(_) => WorkerValid(s, step);
    case Die(_) => WorkerValid(s, step);
    case GiveBack(_) => WorkerValid(s, step);
    case Joined(_) => WorkerValid(s, step);
    case _ => LetGoValid(s, step);
  }

  // -- whole runs --------------------------------------------------------------------------------------

  ghost predicate CanRun(s: State, steps: seq<Step>)
    decreases |steps|
  {
    steps == [] || (Enabled(s, steps[0]) && CanRun(Next(s, steps[0]), steps[1..]))
  }

  ghost function After(s: State, steps: seq<Step>): State
    requires CanRun(s, steps)
    decreases |steps|
  {
    if steps == [] then s else After(Next(s, steps[0]), steps[1..])
  }

  lemma {:induction false} RunValid(s: State, steps: seq<Step>)
    requires s.Valid() && CanRun(s, steps)
    ensures After(s, steps).Valid()
    decreases |steps|
  {
    hide State.Valid, Next, Enabled;
    if steps != [] {
      StepValid(s, steps[0]);
      RunValid(Next(s, steps[0]), steps[1..]);
    }
  }

  lemma FoundValid()
    ensures Found().Valid()
  {
  }

  /**
    * Through first start, revivals, blocked and abandoned workers and release: at most one tail
    * is unretired, so at most one may still use the volume, and one that has not been asked to stop
    * is held by the supervisor, which has not finished letting it go, or is offered by the worker
    * that built it.
    */
  lemma OneOwnedTail(steps: seq<Step>, t: nat, u: nat)
    requires CanRun(Found(), steps)
    requires var s := After(Found(), steps); t < |s.tails| && !s.tails[t].ReadsRetired()
    ensures var s := After(Found(), steps);
            && (s.Uses(u) || (u < |s.tails| && !s.tails[u].ReadsRetired()) ==> t == u)
            && (s.tails[t].stop
                || (s.Holds(t) && !s.keeper.Waiting? && !s.keeper.LetGo?)
                || exists w: nat :: w < |s.workers| && s.workers[w] == Offers(t))
  {
    FoundValid();
    RunValid(Found(), steps);
    var s := After(Found(), steps);
    assert s.Runs(t);
    assert s.Uses(u) || (u < |s.tails| && !s.tails[u].ReadsRetired()) ==> s.Runs(u);
    if !s.Holds(t) {
      var w: nat :| s.Active(w) && s.HasInHand(w, t);
      assert s.workers[w] == Offers(t) || s.tails[t].stop;
    }
  }

  /** A word reads Retired exactly when the tail's thread, done with the volume, is gone; Busy exactly in a rebuild. */
  lemma WordIsHonest(steps: seq<Step>, t: nat)
    requires CanRun(Found(), steps) && t < |After(Found(), steps).tails|
    ensures var tail := After(Found(), steps).tails[t];
            && (tail.ReadsRetired() <==> tail.stage.Left?) && (tail.ReadsRetired() ==> !tail.Touches())
            && (Decode(tail.word).Busy? <==> tail.stage.Rebuilding?)
  {
    FoundValid();
    RunValid(Found(), steps);
  }

  /** Retired is the last word: what reads Retired once reads so ever after. */
  lemma {:induction false} RetiredIsLastWord(s: State, steps: seq<Step>, t: nat)
    requires s.Valid() && CanRun(s, steps) && t < |s.tails| && s.tails[t].ReadsRetired()
    ensures t < |After(s, steps).tails| && After(s, steps).tails[t].ReadsRetired()
    decreases |steps|
  {
    if steps != [] {
      StepValid(s, steps[0]);
      RetiredStays(s, steps[0], t);
      RetiredIsLastWord(Next(s, steps[0]), steps[1..], t);
    }
  }

  lemma RetiredStays(s: State, step: Step, t: nat)
    requires s.Valid() && Enabled(s, step) && t < |s.tails| && s.tails[t].ReadsRetired()
    ensures t < |Next(s, step).tails| && Next(s, step).tails[t].ReadsRetired()
  {
    assert s.tails[t].Honest();
  }

  /**
    * A poll leaves a start that still opens the volume alone; once it has ended, for good or bad,
    * nothing is under way any more, and the tail it offers is the one held, else the one held before.
    */
  lemma PollExact(s: State)
    requires Enabled(s, Poll)
    ensures var w, s' := s.workers[s.keeper.pending.value], Next(s, Poll);
            && (w.Opening? ==> s' == s)
            && (!w.Opening? ==> s'.keeper == Supervising(if w.Offers? then Some(w.tail) else s.keeper.tail, None))
  {
  }

  /** A start that fails or dies is found to have ended by the next poll, and the next start may be launched. */
  lemma FailureIsSeen(s: State, step: Step)
    requires s.keeper.Supervising? && (step.Fail? || step.Die?) && Enabled(s, step) && s.Listens(step.w)
    ensures Enabled(Next(s, step), Poll)
    ensures Next(Next(s, step), Poll).keeper == Supervising(s.keeper.tail, None)
    ensures Next(Next(s, step), Poll).tails == s.tails
  {
  }

  /** A worker that waits for the tail it gave back is done once that tail's thread is gone. */
  lemma GiveBackEnds(s: State, w: nat)
    requires Enabled(s, Joined(w))
    ensures !Next(s, Joined(w)).Active(w) && Next(s, Joined(w)).tails == s.tails
  {
  }

  // -- nobody else is asked to stop ---------------------------------------------------------------------

  /** A release waits for the tail, or the worker that built it does. */
  ghost predicate WaitedFor(s: State, t: nat) {
    || ((s.keeper.Waiting? || s.keeper.LetGo?) && s.Holds(t))
    || exists w: nat :: w < |s.workers| && s.workers[w] == Joins(t)
  }

  /** A running tail is asked to stop only by those who then wait for its end. */
  ghost predicate AskedOnly(s: State) {
    forall t: nat :: s.Runs(t) && s.tails[t].stop ==> WaitedFor(s, t)
  }

  /** What a worker has in its hands the supervisor does not hold. */
  ghost predicate Separate(s: State) {
    forall w: nat, t: nat :: s.HasInHand(w, t) ==> !s.Holds(t)
  }

  /** A worker that gives its tail back is not listened to. */
  lemma ListenedOffers(s: State, w: nat)
    requires s.Valid() && s.Listens(w)
    ensures w < |s.workers| && !s.workers[w].Joins?
  {
    assert w < |s.workers| && s.workers[w].Joins? ==> s.Active(w) && s.Minded(w);
  }

  lemma OneHand(s: State, v: nat, w: nat, t: nat)
    requires s.Valid() && s.HasInHand(w, t) && s.Active(v)
    ensures v == w
  {
    assert s.Active(w);
  }

  lemma StepSeparate(s: State, step: Step)
    requires s.Valid() && Separate(s) && Enabled(s, step)
    ensures Separate(Next(s, step))
  {
    var s' := Next(s, step);
    forall w: nat, t: nat | s'.HasInHand(w, t) ensures !s'.Holds(t) {
      if (step.Poll? || step.Drain?) && s.keeper.pending.Some? {
        var b := s.keeper.pending.value;
        if s.workers[b].Offers? && w != b { OneHand(s, b, w, t); }
      }
      if step.Build? && w == step.w { assert s.Holds(t) ==> t < |s.tails|; } else { assert s.HasInHand(w, t); }
    }
  }

  /** While a start offers its tail the one held before is gone, and so is the one whose watch ends. */
  lemma HeldIsGone(s: State, step: Step)
    requires s.Valid() && Separate(s) && Enabled(s, step) && (step.Poll? || step.EndSupervision?) && s.keeper.tail.Some?
    requires step.Poll? ==> s.workers[s.keeper.pending.value].Offers?
    ensures !s.Runs(s.keeper.tail.value)
  {
    var t := s.keeper.tail.value;
    assert s.Holds(t);
    if step.Poll? {
      var b := s.keeper.pending.value;
      assert s.Active(b) && !s.HasInHand(b, t);
    } else {
      assert t < |s.tails| && s.tails[t].Honest();
    }
  }

  lemma StaysWaited(s: State, s': State, t: nat)
    requires WaitedFor(s, t)
    requires (s.keeper.Waiting? || s.keeper.LetGo?) && s.Holds(t) ==> WaitedFor(s', t)
    requires forall w: nat :: w < |s.workers| && s.workers[w] == Joins(t) ==>
               w < |s'.workers| && s'.workers[w] == Joins(t)
    ensures WaitedFor(s', t)
  {
    if w: nat :| w < |s.workers| && s.workers[w] == Joins(t) { assert s'.workers[w] == Joins(t); }
  }

  lemma StepWaits(s: State, step: Step, t: nat)
    requires s.Valid() && Separate(s) && AskedOnly(s) && Enabled(s, step)
    requires Next(s, step).Runs(t) && Next(s, step).tails[t].stop
    ensures WaitedFor(Next(s, step), t)
  {
    hide State.Valid, Separate;
    var s' := Next(s, step);
    if (step.Poll? && s.workers[s.keeper.pending.value].Offers?) || step.EndSupervision? {
      if s.keeper.tail.Some? { HeldIsGone(s, step); }
    }
    if (step.Poll? || step.Drain?) && s.keeper.pending.Some? { ListenedOffers(s, s.keeper.pending.value); }
    if step.GiveBack? && s.workers[step.w] == Offers(t) {
      assert s'.workers[step.w] == Joins(t);
    } else if !(step.StopTails? && t in s.keeper.tails) {
      StaysWaited(s, s', t);
    }
  }

  lemma StepAskedOnly(s: State, step: Step)
    requires s.Valid() && Separate(s) && AskedOnly(s) && Enabled(s, step)
    ensures AskedOnly(Next(s, step))
  {
    hide WaitedFor, Next, Enabled, State.Valid, Separate;
    var s' := Next(s, step);
    forall t: nat | s'.Runs(t) && s'.tails[t].stop ensures WaitedFor(s', t) {
      StepWaits(s, step, t);
    }
  }

  lemma {:induction false} RunAskedOnly(s: State, steps: seq<Step>)
    requires s.Valid() && Separate(s) && AskedOnly(s) && CanRun(s, steps)
    ensures AskedOnly(After(s, steps))
    decreases |steps|
  {
    hide State.Valid, Separate, AskedOnly, Next, Enabled;
    if steps != [] {
      StepValid(s, steps[0]);
      StepSeparate(s, steps[0]);
      StepAskedOnly(s, steps[0]);
      RunAskedOnly(Next(s, steps[0]), steps[1..]);
    }
  }

  /**
    * In every run a tail that still runs is asked to stop exactly when a release of its volume waits,
    * or has waited, for its end, or the worker that built it does.
    */
  lemma StopExact(steps: seq<Step>, t: nat)
    requires CanRun(Found(), steps) && After(Found(), steps).Runs(t)
    ensures var s := After(Found(), steps); s.tails[t].stop <==> WaitedFor(s, t)
  {
    FoundValid();
    RunValid(Found(), steps);
    RunAskedOnly(Found(), steps);
    var s := After(Found(), steps);
    if w: nat :| w < |s.workers| && s.workers[w] == Joins(t) { assert s.HasInHand(w, t); }
  }

  // -- letting go ------------------------------------------------------------------------------------------

  /**
    * Once a volume is let go of nothing uses it and nothing is about to exactly when no tail told to
    * stop outlived the wait for it and the start abandoned, if one was, is over.
    */
  lemma QuietIff(s: State)
    requires s.Valid() && s.keeper.LetGo?
    ensures s.Quiet() <==> s.EndedInTime()
  {
    if t: nat :| s.Uses(t) {
      assert s.Runs(t);
      if !s.Holds(t) {
        var w: nat :| s.Active(w) && s.HasInHand(w, t);
        assert s.Minded(w) && s.Starting(w);
      }
    } else if w: nat :| w < |s.workers| && s.workers[w].Opening? {
      assert s.Active(w) && s.Minded(w) && s.Starting(w);
    }
  }

  /** A worker nobody listens to goes on being able to give its tail back until it does. */
  lemma GiveBackStays(s: State, step: Step, w: nat)
    requires s.keeper.LetGo? && Enabled(s, GiveBack(w)) && Enabled(s, step) && step != GiveBack(w)
    ensures Next(s, step).keeper.LetGo? && Enabled(Next(s, step), GiveBack(w))
    ensures Next(s, step).workers[w] == s.workers[w]
  {
  }

  /** In every run from there on it has done so, or still can. */
  lemma {:induction false} GiveBackUntilTaken(s: State, steps: seq<Step>, w: nat)
    requires s.keeper.LetGo? && Enabled(s, GiveBack(w)) && CanRun(s, steps)
    ensures GiveBack(w) in steps || Enabled(After(s, steps), GiveBack(w))
    decreases |steps|
  {
    hide Enabled, Next;
    if steps != [] && steps[0] != GiveBack(w) {
      GiveBackStays(s, steps[0], w);
      GiveBackUntilTaken(Next(s, steps[0]), steps[1..], w);
    }
  }

  /**
    * In every run, a tail nobody asked to stop once its volume is let go of has a worker that can ask
    * it, until it does.
    */
  lemma AbandonedTailStops(steps: seq<Step>, t: nat, more: seq<Step>) returns (w: nat)
    requires CanRun(Found(), steps) && After(Found(), steps).Runs(t)
    requires var s := After(Found(), steps); s.keeper.LetGo? && !s.tails[t].stop && CanRun(s, more)
    ensures var s := After(Found(), steps);
            && Enabled(s, GiveBack(w)) && Next(s, GiveBack(w)).tails[t].stop
            && (GiveBack(w) in more || Enabled(After(s, more), GiveBack(w)))
  {
    FoundValid();
    RunValid(Found(), steps);
    var s := After(Found(), steps);
    w :| s.Active(w) && s.HasInHand(w, t);
    assert s.workers[w] == Offers(t);
    GiveBackUntilTaken(s, more, w);
  }
}
