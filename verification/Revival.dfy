/**
  * The supervisor's watch over one volume's tail: what each scan decides, the revivals it may
  * spend, and how they are refunded. Times are seconds the machine has been awake.
  */
module Revival {
  import opened Phases
  import opened Pulse
  import opened Options

  const MAX_REVIVES: nat := 3
  const HEALTHY_AFTER: nat := 600
  const BEAT_FRESH: nat := 60
  const BEAT_STALL: nat := 300
  const BUSY_STALL: nat := 1800

  datatype Action = Nothing | ResetBudget | CancelIo(stalled: nat) | Revive | GiveUp | Release

  /** The time since `at`, never negative. */
  function Elapsed(now: nat, at: nat): nat {
    if now > at then now - at else 0
  }

  /** What to do about one tail. */
  function Assess(pulse: Report, now: nat, attempts: nat, proven: bool, snapshot: bool): Action {
    match pulse
    case Retired => if snapshot then Release else if attempts >= MAX_REVIVES then GiveUp else Revive
    case Busy(since) => if Elapsed(now, since) >= BUSY_STALL then CancelIo(Elapsed(now, since)) else Nothing
    case Beat(at) =>
      if Elapsed(now, at) >= BEAT_STALL then CancelIo(Elapsed(now, at))
      else if attempts > 0 && proven then ResetBudget
      else Nothing
  }

  /** The tail was seen to track: a fresh beat on a Live volume. */
  predicate Healthy(pulse: Report, live: bool, now: nat) {
    pulse.Beat? && live && Elapsed(now, pulse.at) < BEAT_FRESH
  }

  /** When the unbroken run of healthy sightings began, one more taken into account. */
  function AccrueHealth(since: Option<nat>, pulse: Report, live: bool, now: nat): Option<nat> {
    if !Healthy(pulse, live, now) then None else if since.Some? then since else Some(now)
  }

  /** The phase a volume is left with when its watch ends, if it must change. */
  function GivenUp(phase: VolumePhase): Option<VolumePhase> {
    match phase
    case Bootstrapping => Some(Failed("never indexed: its tail kept stopping"))
    case Live => Some(Failed("tail thread kept dying; live updates stopped"))
    case Rescanning => Some(Failed("tail thread kept dying; live updates stopped"))
    case _ => None
  }

  // -- one scan ------------------------------------------------------------------------------------

  /** How a start under way is found: still blocked, a tail handed over, failed for a reason, or dead unreported. */
  datatype Poll = Blocked | Started | NotStarted(reason: string) | Died

  /**
    * What one scan meets: the pulse of the tail held, the phase, whether the volume was ever indexed,
    * how a start under way stands, and whether a worker can be had.
    */
  datatype Sight = Sight(now: nat, pulse: Report, phase: VolumePhase, indexed: bool, poll: Poll, workerStarts: bool)

  datatype Watch = Watch(hasTail: bool, pending: bool, attempts: nat, beatingSince: Option<nat>) {

    /** No tail held reads as a retired one. */
    function PulseIn(o: Sight): Report {
      if hasTail then o.pulse else Retired
    }

    /** The anchor of the unbroken run of health; one that never was revived needs none. */
    function AnchorIn(o: Sight): Option<nat> {
      if attempts > 0 then AccrueHealth(beatingSince, PulseIn(o), o.phase.Live?, o.now) else beatingSince
    }

    predicate ProvenIn(o: Sight) {
      AnchorIn(o).Some? && Elapsed(o.now, AnchorIn(o).value) >= HEALTHY_AFTER
    }

    /** What the scan decides, if no start is under way. */
    function ActionIn(o: Sight): Action {
      Assess(PulseIn(o), o.now, attempts, ProvenIn(o), PulseIn(o).Retired? && o.phase.Snapshot?)
    }
  }

  /** What a scan did. */
  datatype Event = Polled | Acted(action: Action)

  /** After one scan: what was done, the watch, and the volume's phase; the watch ends on `GiveUp` and `Release`. */
  datatype Scanned = Scanned(event: Event, watch: Watch, phase: VolumePhase)

  predicate Over(e: Event) {
    e.Acted? && (e.action.GiveUp? || e.action.Release?)
  }

  /** A phase that claims to track is corrected before a revival that may block. */
  function Corrected(phase: VolumePhase): VolumePhase {
    if phase.Live? || phase.Rescanning? then Offline else phase
  }

  function Scan(w: Watch, o: Sight): Scanned {
    if w.pending then
      var w' := match o.poll
        case Blocked => w
        case Started => w.(pending := false, hasTail := true)
        case NotStarted(_) => w.(pending := false)
        case Died => w.(pending := false);
      Scanned(Polled, w', if o.poll.NotStarted? && !o.indexed then Failed(o.poll.reason) else o.phase)
    else
      var action, anchored := w.ActionIn(o), w.(beatingSince := w.AnchorIn(o));
      match action
      case ResetBudget => Scanned(Acted(action), anchored.(attempts := 0, beatingSince := None), o.phase)
      case Revive =>
        Scanned(Acted(action), w.(attempts := w.attempts + 1, beatingSince := None, pending := o.workerStarts),
          Corrected(o.phase))
      case GiveUp =>
        Scanned(Acted(action), anchored, if GivenUp(o.phase).Some? then GivenUp(o.phase).value else o.phase)
      case _ => Scanned(Acted(action), anchored, o.phase)
  }

  /** A revival is launched only with nothing under way and the tail retired or never there. */
  lemma ReviveNeedsRetired(w: Watch, o: Sight)
    ensures Scan(w, o).event == Acted(Revive) ==>
              !w.pending && w.PulseIn(o).Retired? && w.attempts < MAX_REVIVES && !o.phase.Snapshot?
    ensures !w.pending && w.PulseIn(o).Retired? ==> Scan(w, o).event == Acted(Revive) || Over(Scan(w, o).event)
  {
  }

  // -- the watch as an object -----------------------------------------------------------------------------

  class Supervised {
    var w: Watch
    var phase: VolumePhase

    /** A volume just found, its first start under way if a worker could be had: it costs no revival. */
    constructor (workerStarts: bool)
      ensures w == Watch(false, workerStarts, 0, None) && phase == Bootstrapping
    {
      w, phase := Watch(false, workerStarts, 0, None), Bootstrapping;
    }

    /** One scan; false when the watch should end. */
    method ScanOnce(o: Sight) returns (goesOn: bool)
      requires o.phase == phase
      modifies this
      ensures w == Scan(old(w), o).watch && phase == Scan(old(w), o).phase
      ensures goesOn == !Over(Scan(old(w), o).event)
    {
      if w.pending {
        if !o.poll.Blocked? {
          w := w.(pending := false, hasTail := w.hasTail || o.poll.Started?);
        }
        if o.poll.NotStarted? && !o.indexed {
          phase := Failed(o.poll.reason);
        }
        return true;
      }
      var pulse := if w.hasTail then o.pulse else Retired;
      var snapshot := pulse.Retired? && phase.Snapshot?;
      var beatingSince := w.beatingSince;
      if w.attempts > 0 {
        beatingSince := AccrueHealth(beatingSince, pulse, phase.Live?, o.now);
      }
      var proven := beatingSince.Some? && Elapsed(o.now, beatingSince.value) >= HEALTHY_AFTER;
      var action := Assess(pulse, o.now, w.attempts, proven, snapshot);
      if action.ResetBudget? {
        w := w.(attempts := 0, beatingSince := None);
      } else if action.Revive? {
        w := w.(attempts := w.attempts + 1, beatingSince := None, pending := o.workerStarts);
        phase := Corrected(phase);
      } else {
        w := w.(beatingSince := beatingSince);
        if action.GiveUp? && GivenUp(phase).Some? {
          phase := GivenUp(phase).value;
        }
      }
      goesOn := !action.GiveUp? && !action.Release?;
    }
  }

  // -- whole watches ------------------------------------------------------------------------------------------

  /** The watch after the scans. */
  function After(w: Watch, trace: seq<Sight>): Watch {
    if trace == [] then w else Scan(After(w, trace[..|trace| - 1]), trace[|trace| - 1]).watch
  }

  /** What scan `k` of the trace did. */
  function EventAt(w: Watch, trace: seq<Sight>, k: nat): Event
    requires k < |trace|
  {
    Scan(After(w, trace[..k]), trace[k]).event
  }

  /** The scans `lo` to `hi` brought no refund. */
  ghost predicate NoRefund(w: Watch, trace: seq<Sight>, lo: nat, hi: nat) {
    hi <= |trace| && forall k :: lo <= k < hi ==> EventAt(w, trace, k) != Acted(ResetBudget)
  }

  /** How many of the scans `lo` to `hi` launched a revival. */
  function Revivals(w: Watch, trace: seq<Sight>, lo: nat, hi: nat): nat
    requires lo <= hi <= |trace|
    decreases hi
  {
    if lo == hi then 0
    else Revivals(w, trace, lo, hi - 1) + (if EventAt(w, trace, hi - 1) == Acted(Revive) then 1 else 0)
  }

  lemma AfterStep(w: Watch, trace: seq<Sight>, k: nat)
    requires k < |trace|
    ensures After(w, trace[..k + 1]) == Scan(After(w, trace[..k]), trace[k]).watch
  {
    assert trace[..k + 1][..k] == trace[..k];
  }

  /** Revivals are charged, refunds clear the charge, and nothing else touches it. */
  lemma ScanCharges(w: Watch, o: Sight)
    ensures Scan(w, o).watch.attempts ==
              if Scan(w, o).event == Acted(Revive) then w.attempts + 1
              else if Scan(w, o).event == Acted(ResetBudget) then 0 else w.attempts
    ensures Scan(w, o).event == Acted(Revive) ==> w.attempts < MAX_REVIVES
  {
  }

  lemma {:induction false} AttemptsBounded(w: Watch, trace: seq<Sight>, k: nat)
    requires w.attempts <= MAX_REVIVES && k <= |trace|
    ensures After(w, trace[..k]).attempts <= MAX_REVIVES
  {
    hide Scan;
    if k > 0 {
      AttemptsBounded(w, trace, k - 1);
      AfterStep(w, trace, k - 1);
      ScanCharges(After(w, trace[..k - 1]), trace[k - 1]);
    }
  }

  lemma {:induction false} AttemptsCount(w: Watch, trace: seq<Sight>, lo: nat, hi: nat)
    requires lo <= hi && NoRefund(w, trace, lo, hi)
    ensures After(w, trace[..hi]).attempts == After(w, trace[..lo]).attempts + Revivals(w, trace, lo, hi)
    decreases hi
  {
    hide Scan;
    if lo < hi {
      AttemptsCount(w, trace, lo, hi - 1);
      AfterStep(w, trace, hi - 1);
      ScanCharges(After(w, trace[..hi - 1]), trace[hi - 1]);
      assert EventAt(w, trace, hi - 1) != Acted(ResetBudget);
    }
  }

  /** Between two refunds at most `MAX_REVIVES` revivals are launched. */
  lemma BudgetKept(w: Watch, trace: seq<Sight>, lo: nat, hi: nat)
    requires w.attempts <= MAX_REVIVES && lo <= hi && NoRefund(w, trace, lo, hi)
    ensures Revivals(w, trace, lo, hi) <= MAX_REVIVES
  {
    AttemptsCount(w, trace, lo, hi);
    AttemptsBounded(w, trace, hi);
  }

  /** Scan `k` found no start under way, saw a fresh beat on a Live volume, and launched nothing. */
  ghost predicate HealthyAt(w: Watch, trace: seq<Sight>, k: nat) {
    && k < |trace|
    && var before := After(w, trace[..k]);
       && !before.pending && before.hasTail
       && Healthy(trace[k].pulse, trace[k].phase.Live?, trace[k].now)
       && EventAt(w, trace, k) != Acted(Revive)
  }

  /** Every scan from `j` to `k` was healthy. */
  ghost predicate HealthyRun(w: Watch, trace: seq<Sight>, j: nat, k: nat) {
    j <= k < |trace| && forall i: nat :: j <= i <= k ==> HealthyAt(w, trace, i)
  }

  /** A start under way, and a tail never revived, have no anchor. */
  lemma {:induction false} AnchorNeedsHistory(w: Watch, trace: seq<Sight>, k: nat)
    requires w.beatingSince.None? && k <= |trace|
    ensures var at := After(w, trace[..k]); at.pending || at.attempts == 0 ==> at.beatingSince.None?
  {
    if k > 0 {
      AnchorNeedsHistory(w, trace, k - 1);
      AfterStep(w, trace, k - 1);
    }
  }

  /** An anchor is the moment a run of healthy scans, unbroken since, began. */
  lemma {:induction false} AnchorIsHealthy(w: Watch, trace: seq<Sight>, k: nat) returns (j: nat)
    requires w.beatingSince.None? && k < |trace| && After(w, trace[..k + 1]).beatingSince.Some?
    ensures HealthyRun(w, trace, j, k) && After(w, trace[..k + 1]).beatingSince == Some(trace[j].now)
    decreases k, 1
  {
    hide Scan, Healthy;
    AfterStep(w, trace, k);
    AnchorNeedsHistory(w, trace, k);
    AnchorStep(After(w, trace[..k]), trace[k]);
    j := RunBehind(w, trace, k);
  }

  /** The run of healthy scans that a healthy scan `k` goes on with. */
  lemma {:induction false} RunBehind(w: Watch, trace: seq<Sight>, k: nat) returns (j: nat)
    requires w.beatingSince.None? && k < |trace| && HealthyAt(w, trace, k)
    ensures HealthyRun(w, trace, j, k)
    ensures var since := After(w, trace[..k]).beatingSince;
            trace[j].now == if since.Some? then since.value else trace[k].now
    decreases k, 0
  {
    hide Scan, Healthy, HealthyAt;
    assert trace[..0] == [];
    if After(w, trace[..k]).beatingSince.Some? {
      assert trace[..k - 1 + 1] == trace[..k];
      j := AnchorIsHealthy(w, trace, k - 1);
    } else {
      j := k;
    }
  }

  lemma AnchorStep(w: Watch, o: Sight)
    requires w.pending || w.attempts == 0 ==> w.beatingSince.None?
    requires Scan(w, o).watch.beatingSince.Some?
    ensures !w.pending && w.hasTail && Healthy(o.pulse, o.phase.Live?, o.now) && Scan(w, o).event != Acted(Revive)
    ensures Scan(w, o).watch.beatingSince == if w.beatingSince.Some? then w.beatingSince else Some(o.now)
  {
  }

  /**
    * A refund comes only after an unbroken run of scans, each seeing a fresh beat on a Live
    * volume, that spans `HEALTHY_AFTER` with no revival inside.
    */
  lemma RefundIsEarned(w: Watch, trace: seq<Sight>, k: nat) returns (j: nat)
    requires w.beatingSince.None? && k < |trace| && EventAt(w, trace, k) == Acted(ResetBudget)
    ensures HealthyRun(w, trace, j, k) && Elapsed(trace[k].now, trace[j].now) >= HEALTHY_AFTER
  {
    hide Scan, Healthy;
    AnchorNeedsHistory(w, trace, k);
    RefundStep(After(w, trace[..k]), trace[k]);
    j := RunBehind(w, trace, k);
  }

  lemma RefundStep(w: Watch, o: Sight)
    requires w.pending || w.attempts == 0 ==> w.beatingSince.None?
    requires Scan(w, o).event == Acted(ResetBudget)
    ensures !w.pending && w.hasTail && Healthy(o.pulse, o.phase.Live?, o.now)
    ensures Elapsed(o.now, if w.beatingSince.Some? then w.beatingSince.value else o.now) >= HEALTHY_AFTER
  {
  }

  /** How many of the scans `lo` to `hi` found nothing under way and no tail running. */
  ghost function DeadScans(w: Watch, trace: seq<Sight>, lo: nat, hi: nat): nat
    requires lo <= hi <= |trace|
    decreases hi
  {
    if lo == hi then 0 else
    var before := After(w, trace[..hi - 1]);
    DeadScans(w, trace, lo, hi - 1) + (if !before.pending && before.PulseIn(trace[hi - 1]).Retired? then 1 else 0)
  }

  lemma {:induction false} DeadScansRevive(w: Watch, trace: seq<Sight>, lo: nat, hi: nat)
    requires lo <= hi <= |trace| && forall k :: lo <= k < hi ==> !Over(EventAt(w, trace, k))
    ensures DeadScans(w, trace, lo, hi) == Revivals(w, trace, lo, hi)
    decreases hi
  {
    hide Scan;
    if lo < hi {
      DeadScansRevive(w, trace, lo, hi - 1);
      ReviveNeedsRetired(After(w, trace[..hi - 1]), trace[hi - 1]);
      assert !Over(EventAt(w, trace, hi - 1));
    }
  }

  /** No run of healthy scans between `lo` and `hi` spans `HEALTHY_AFTER`. */
  ghost predicate NeverProven(w: Watch, trace: seq<Sight>, lo: nat, hi: nat) {
    forall j: nat, k: nat :: lo <= k < hi && HealthyRun(w, trace, j, k) ==>
      Elapsed(trace[k].now, trace[j].now) < HEALTHY_AFTER
  }

  /**
    * A tail that keeps dying without proving itself leaves supervision: its watch is over within
    * `MAX_REVIVES + 1` deaths.
    */
  lemma DyingTailIsGivenUp(w: Watch, trace: seq<Sight>, lo: nat, hi: nat)
    requires w.attempts <= MAX_REVIVES && w.beatingSince.None? && lo <= hi <= |trace|
    requires NeverProven(w, trace, lo, hi) && DeadScans(w, trace, lo, hi) > MAX_REVIVES
    ensures exists k :: lo <= k < hi && Over(EventAt(w, trace, k))
  {
    if forall k :: lo <= k < hi ==> !Over(EventAt(w, trace, k)) {
      forall k | lo <= k < hi ensures EventAt(w, trace, k) != Acted(ResetBudget) {
        if EventAt(w, trace, k) == Acted(ResetBudget) {
          var j := RefundIsEarned(w, trace, k);
        }
      }
      DeadScansRevive(w, trace, lo, hi);
      BudgetKept(w, trace, lo, hi);
    }
  }

  // -- every earned refund comes, and nothing else decides -------------------------------------------------------

  /** The clock does not run back. */
  ghost predicate Forward(trace: seq<Sight>) {
    forall i, j :: 0 <= i <= j < |trace| ==> trace[i].now <= trace[j].now
  }

  lemma HealthyScan(w: Watch, o: Sight)
    requires !w.pending && w.hasTail && w.attempts > 0 && Healthy(o.pulse, o.phase.Live?, o.now)
    ensures var since := if w.beatingSince.Some? then w.beatingSince.value else o.now;
            if Elapsed(o.now, since) >= HEALTHY_AFTER then Scan(w, o).event == Acted(ResetBudget)
            else Scan(w, o).event == Acted(Nothing) && Scan(w, o).watch == w.(beatingSince := Some(since))
  {
  }

  /** Through healthy scans without a refund the charge stays, and the anchor is no later than their first. */
  lemma {:induction false} AnchorHolds(w: Watch, trace: seq<Sight>, j: nat, k: nat)
    requires Forward(trace) && HealthyRun(w, trace, j, k) && After(w, trace[..j]).attempts > 0
    requires w.beatingSince.None? && NoRefund(w, trace, j, k)
    ensures var at := After(w, trace[..k]);
            at.attempts > 0 && (k > j ==> at.beatingSince.Some? && at.beatingSince.value <= trace[j].now)
            && (at.beatingSince.Some? ==> at.beatingSince.value <= trace[j].now)
    decreases k
  {
    hide Scan, Healthy;
    if j == k {
      if After(w, trace[..k]).beatingSince.Some? { var i := RunBehind(w, trace, k); }
    } else {
      assert HealthyAt(w, trace, k - 1) && EventAt(w, trace, k - 1) != Acted(ResetBudget);
      AnchorHolds(w, trace, j, k - 1);
      AfterStep(w, trace, k - 1);
      HealthyScan(After(w, trace[..k - 1]), trace[k - 1]);
    }
  }

  /**
    * A refund that is earned comes: a tail on its budget that is seen to track in every scan from `j`
    * to `k`, for `HEALTHY_AFTER`, is refunded at scan `k` if not before.
    */
  lemma RefundComes(w: Watch, trace: seq<Sight>, j: nat, k: nat)
    requires Forward(trace) && HealthyRun(w, trace, j, k) && After(w, trace[..j]).attempts > 0
    requires w.beatingSince.None? && NoRefund(w, trace, j, k)
    requires Elapsed(trace[k].now, trace[j].now) >= HEALTHY_AFTER
    ensures EventAt(w, trace, k) == Acted(ResetBudget)
  {
    hide Scan, Healthy;
    AnchorHolds(w, trace, j, k);
    assert HealthyAt(w, trace, k);
    HealthyScan(After(w, trace[..k]), trace[k]);
  }

  /** Scan `k` finds nothing under way and no tail running. */
  ghost predicate FoundDead(w: Watch, trace: seq<Sight>, k: nat)
    requires k < |trace|
  {
    var before := After(w, trace[..k]);
    !before.pending && (before.hasTail ==> trace[k].pulse.Retired?)
  }

  lemma DeadScan(w: Watch, o: Sight)
    requires !w.pending && w.attempts <= MAX_REVIVES
    ensures var dead, e := w.hasTail ==> o.pulse.Retired?, Scan(w, o).event;
            && (e == Acted(Release) <==> dead && o.phase.Snapshot?)
            && (e == Acted(GiveUp) <==> dead && !o.phase.Snapshot? && w.attempts == MAX_REVIVES)
            && (e == Acted(Revive) <==> dead && !o.phase.Snapshot? && w.attempts < MAX_REVIVES)
  {
  }

  /**
    * A scan that finds its tail dead releases a Snapshot; it gives any other volume up exactly when
    * `MAX_REVIVES` revivals were launched since the last refund, and else revives it.
    */
  lemma DeadScanExact(w: Watch, trace: seq<Sight>, lo: nat, k: nat)
    requires w.attempts == 0 && lo <= k < |trace| && NoRefund(w, trace, lo, k)
    requires lo == 0 || EventAt(w, trace, lo - 1) == Acted(ResetBudget)
    ensures var dead, spent, e := FoundDead(w, trace, k), Revivals(w, trace, lo, k), EventAt(w, trace, k);
            && (e == Acted(Release) <==> dead && trace[k].phase.Snapshot?)
            && (e == Acted(GiveUp) <==> dead && !trace[k].phase.Snapshot? && spent == MAX_REVIVES)
            && (e == Acted(Revive) <==> dead && !trace[k].phase.Snapshot? && spent < MAX_REVIVES)
  {
    hide Scan;
    AttemptsCount(w, trace, lo, k);
    AttemptsBounded(w, trace, k);
    if lo > 0 {
      AfterStep(w, trace, lo - 1);
      ScanCharges(After(w, trace[..lo - 1]), trace[lo - 1]);
    } else {
      assert trace[..0] == [];
    }
    if After(w, trace[..k]).pending {
      PolledOnly(After(w, trace[..k]), trace[k]);
    } else {
      DeadScan(After(w, trace[..k]), trace[k]);
    }
  }

  lemma PolledOnly(w: Watch, o: Sight)
    ensures Scan(w, o).event == Polled <==> w.pending
  {
  }

  /** A tail's I/O is cancelled exactly when its last beat, or its last word of being busy, is old enough. */
  lemma CancelExact(w: Watch, trace: seq<Sight>, k: nat, stalled: nat)
    requires k < |trace|
    ensures var before, o := After(w, trace[..k]), trace[k];
            EventAt(w, trace, k) == Acted(CancelIo(stalled)) <==>
              && !before.pending && before.hasTail
              && (|| (o.pulse.Beat? && stalled == Elapsed(o.now, o.pulse.at) && stalled >= 300)
                  || (o.pulse.Busy? && stalled == Elapsed(o.now, o.pulse.since) && stalled >= 1800))
  {
  }

  // -- what the watch holds is told by the scans -------------------------------------------------------------------

  /** Scan `j` launched a start, and no scan since, up to `k`, found its end. */
  ghost predicate UnderWay(w: Watch, trace: seq<Sight>, j: nat, k: nat) {
    && j < k <= |trace| && EventAt(w, trace, j) == Acted(Revive) && trace[j].workerStarts
    && forall i :: j < i < k ==> trace[i].poll.Blocked?
  }

  lemma ScanHolds(w: Watch, o: Sight)
    ensures Scan(w, o).watch.hasTail <==> w.hasTail || (w.pending && o.poll.Started?)
    ensures Scan(w, o).watch.pending <==>
              (w.pending && o.poll.Blocked?) || (Scan(w, o).event == Acted(Revive) && o.workerStarts)
  {
  }

  /** A start is under way exactly if one was launched, or was to begin with, whose end no scan found yet. */
  lemma {:induction false} PendingIff(w: Watch, trace: seq<Sight>, k: nat)
    requires k <= |trace|
    ensures After(w, trace[..k]).pending <==>
              || (w.pending && forall i :: 0 <= i < k ==> trace[i].poll.Blocked?)
              || exists j: nat :: UnderWay(w, trace, j, k)
    decreases k
  {
    hide Scan;
    assert trace[..0] == [];
    if k > 0 {
      PendingIff(w, trace, k - 1);
      AfterStep(w, trace, k - 1);
      ScanHolds(After(w, trace[..k - 1]), trace[k - 1]);
      var last: nat := k - 1;
      if trace[last].poll.Blocked? {
        if j: nat :| UnderWay(w, trace, j, last) { assert UnderWay(w, trace, j, k); }
      }
      if EventAt(w, trace, last) == Acted(Revive) && trace[last].workerStarts {
        assert UnderWay(w, trace, last, k);
      }
      if j: nat :| UnderWay(w, trace, j, k) && j < last {
        assert UnderWay(w, trace, j, last);
      }
    }
  }

  /** Scan `i` is handed the tail of the start under way. */
  ghost predicate HandedAt(w: Watch, trace: seq<Sight>, i: nat) {
    i < |trace| && After(w, trace[..i]).pending && trace[i].poll.Started?
  }

  lemma AfterNone(w: Watch, trace: seq<Sight>)
    ensures After(w, trace[..0]) == w
  {
    assert trace[..0] == [];
  }

  /** The watch holds a tail exactly if it did to begin with or some scan was handed one. */
  lemma {:induction false} HeldIff(w: Watch, trace: seq<Sight>, k: nat)
    requires k <= |trace|
    ensures After(w, trace[..k]).hasTail <==> w.hasTail || exists i: nat :: i < k && HandedAt(w, trace, i)
    decreases k
  {
    hide Scan, After;
    AfterNone(w, trace);
    if k > 0 {
      var last: nat := k - 1;
      HeldIff(w, trace, last);
      AfterStep(w, trace, last);
      ScanHolds(After(w, trace[..last]), trace[last]);
      assert HandedAt(w, trace, last) <==> After(w, trace[..last]).pending && trace[last].poll.Started?;
    }
  }

  /**
    * The phase a tail or a failed start left is kept, unless it claims what is not so: a revival
    * takes back a claim to track, giving up leaves a claim Failed, and a start that failed on a
    * volume without an index says why.
    */
  lemma PhaseExact(w: Watch, o: Sight)
    ensures var out := Scan(w, o);
            if w.pending && o.poll.NotStarted? && !o.indexed then out.phase == Failed(o.poll.reason)
            else if out.event == Acted(GiveUp) && ClaimsTracking(o.phase) then out.phase.Failed?
            else if out.event == Acted(Revive) && (o.phase.Live? || o.phase.Rescanning?) then out.phase == Offline
            else out.phase == o.phase
  {
  }

  // -- what a volume claims while no tail is at work -----------------------------------------------------------

  /** What scan `k` of the trace leaves. */
  function ScannedAt(w: Watch, trace: seq<Sight>, k: nat): Scanned
    requires k < |trace|
  {
    Scan(After(w, trace[..k]), trace[k])
  }

  /** A start launched by scan `j` is under way until a scan finds its end. */
  lemma {:induction false} StillPending(w: Watch, trace: seq<Sight>, j: nat, k: nat)
    requires j < k <= |trace| && EventAt(w, trace, j) == Acted(Revive) && trace[j].workerStarts
    requires forall i :: j < i < k ==> trace[i].poll.Blocked?
    ensures After(w, trace[..k]).pending
    decreases k
  {
    AfterStep(w, trace, k - 1);
    if j + 1 < k { StillPending(w, trace, j, k - 1); }
  }

  /** The first scan after `j`, if any before `k`, whose poll is not blocked. */
  lemma {:induction false} FirstUnblocked(trace: seq<Sight>, j: nat, k: nat) returns (i: nat)
    requires j < k <= |trace|
    ensures j < i <= k && (i < k ==> !trace[i].poll.Blocked?)
    ensures forall n :: j < n < i ==> trace[n].poll.Blocked?
    decreases k
  {
    if j + 1 == k {
      i := k;
    } else {
      i := FirstUnblocked(trace, j, k - 1);
      if i == k - 1 && trace[i].poll.Blocked? { i := k; }
    }
  }

  /**
    * Of two revivals the second comes only after some scan, with the start that the first launched
    * still under way, found its end.
    */
  lemma RevivalsApart(w: Watch, trace: seq<Sight>, j: nat, k: nat)
    requires j < k < |trace| && EventAt(w, trace, j) == EventAt(w, trace, k) == Acted(Revive) && trace[j].workerStarts
    ensures exists i :: j < i < k && After(w, trace[..i]).pending && !trace[i].poll.Blocked?
  {
    hide Scan;
    ReviveNeedsRetired(After(w, trace[..k]), trace[k]);
    var i := FirstUnblocked(trace, j, k);
    StillPending(w, trace, j, i);
  }

  /**
    * After scan `lo` launched a revival no tail was built up to scan `hi`. The retired tail stays
    * so, and the volume's phase is written by scans and by failing starts only.
    */
  ghost predicate NoTailAtWork(w: Watch, trace: seq<Sight>, lo: nat, hi: nat) {
    && lo <= hi < |trace| && EventAt(w, trace, lo) == Acted(Revive)
    && forall k {:trigger trace[k]} :: lo < k <= hi ==>
         && !trace[k].poll.Started? && trace[k].pulse.Retired?
         && (trace[k].phase == ScannedAt(w, trace, k - 1).phase || trace[k].phase.Failed?)
  }

  /** A phase that claims no tracking, or a first index that is still to come. */
  predicate Modest(phase: VolumePhase) {
    !ClaimsTracking(phase) || phase.Bootstrapping?
  }

  lemma ScanModest(w: Watch, o: Sight)
    requires Scan(w, o).event == Acted(Revive) || (o.pulse.Retired? && !o.poll.Started? && Modest(o.phase))
    ensures Modest(Scan(w, o).phase)
    ensures Scan(w, o).event == Acted(GiveUp) ==> !ClaimsTracking(Scan(w, o).phase)
    ensures w.pending && o.poll.NotStarted? && !o.indexed ==> Scan(w, o).phase == Failed(o.poll.reason)
    ensures w.pending || Scan(w, o).event == Acted(Revive) || Over(Scan(w, o).event)
  {
  }

  /**
    * From a revival on, for as long as no tail is handed over, every scan is a poll, a revival or
    * the end of the watch, and leaves the volume claiming no tracking, but for one still to get its
    * first index; once the watch gives up not even that one does, nor when its start failed.
    */
  lemma {:induction false} NoFalseClaim(w: Watch, trace: seq<Sight>, lo: nat, hi: nat)
    requires NoTailAtWork(w, trace, lo, hi)
    ensures var before, left := After(w, trace[..hi]), ScannedAt(w, trace, hi);
            && Modest(left.phase)
            && (before.pending || left.event == Acted(Revive) || Over(left.event))
            && (left.event == Acted(GiveUp) ==> !ClaimsTracking(left.phase))
            && (before.pending && trace[hi].poll.NotStarted? && !trace[hi].indexed ==>
                  left.phase == Failed(trace[hi].poll.reason))
    decreases hi
  {
    hide Scan, After, Over;
    if lo < hi { NoFalseClaim(w, trace, lo, hi - 1); }
    ScanModest(After(w, trace[..hi]), trace[hi]);
  }
}
