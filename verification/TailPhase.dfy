/**
  * The life of a tail: its first build, then one journal read a turn, with retries, rebuilds and
  * the phase it reports. What the volume answers is given: a trace of turns, each with what its
  * read and, if it rebuilds, the journal and the build answer. Times are milliseconds.
  */
module TailPhase {
  import opened Phases
  import opened Options

  const DEGRADE_AFTER: nat := 5_000
  const ESCALATE_AFTER: nat := 30_000
  const RETRY_BACKOFF_MIN: nat := 500
  const RETRY_BACKOFF_MAX: nat := 30_000
  const JOURNAL_WAIT_MAX: nat := 300_000
  const MAX_RESCANS: nat := 3

  datatype Cursor = Cursor(nextUsn: nat, journalId: nat)

  /** What asking for the journal got. */
  datatype JournalSetup = Active(cursor: Cursor) | Refused | Unavailable

  function BuiltPhase(journal: JournalSetup): VolumePhase {
    match journal
    case Active(_) => Live
    case Refused => Snapshot
    case Unavailable => Offline
  }

  /** A build is installed, aborted by the stop flag, or fails. */
  datatype Build = Built | Aborted | Broken

  /** What a rebuild meets: the answers to asking for the journal, at most up to the stop flag, and the build. */
  datatype Rebuild = Rebuild(answers: seq<JournalSetup>, build: Build)

  /** How a rebuild ends: with a cursor to tail from, or with the tail's end, asked for or not. */
  datatype Rebuilt = Resumes(cursor: Cursor) | Quits(phase: VolumePhase, stopped: bool)

  // -- waiting for the journal ----------------------------------------------------------------------

  /** The first answer that is not `Unavailable`, or the number of answers. */
  function FirstUsable(answers: seq<JournalSetup>): (k: nat)
    ensures k <= |answers|
    ensures k < |answers| ==> !answers[k].Unavailable?
    ensures forall i :: 0 <= i < k ==> answers[i].Unavailable?
  {
    if answers == [] || !answers[0].Unavailable? then 0 else 1 + FirstUsable(answers[1..])
  }

  lemma FirstUsableIs(answers: seq<JournalSetup>, k: nat)
    requires k <= |answers| && (k < |answers| ==> !answers[k].Unavailable?)
    requires forall i :: 0 <= i < k ==> answers[i].Unavailable?
    ensures FirstUsable(answers) == k
  {
  }

  lemma WaitDoubles(k: nat)
    ensures WaitAfter(0) == RETRY_BACKOFF_MIN
    ensures WaitAfter(k + 1) == if 2 * WaitAfter(k) <= JOURNAL_WAIT_MAX then 2 * WaitAfter(k) else JOURNAL_WAIT_MAX
  {
  }

  /** The wait after the `k`-th ask. */
  function WaitAfter(k: nat): (wait: nat)
    ensures RETRY_BACKOFF_MIN <= wait <= JOURNAL_WAIT_MAX
  {
    if k == 0 then RETRY_BACKOFF_MIN
    else if 2 * WaitAfter(k - 1) <= JOURNAL_WAIT_MAX then 2 * WaitAfter(k - 1) else JOURNAL_WAIT_MAX
  }

  /** The sleeps a wait is cut into, each begun with a beat: none is longer than the supervisor's patience. */
  method CutWait(wait: nat) returns (sleeps: seq<nat>)
    ensures Total(sleeps) == wait
    ensures forall i :: 0 <= i < |sleeps| ==> 0 < sleeps[i] <= RETRY_BACKOFF_MAX
  {
    sleeps := [];
    var left := wait;
    while left > 0
      invariant 0 <= left && Total(sleeps) + left == wait
      invariant forall i :: 0 <= i < |sleeps| ==> 0 < sleeps[i] <= RETRY_BACKOFF_MAX
    {
      var step := if left < RETRY_BACKOFF_MAX then left else RETRY_BACKOFF_MAX;
      ghost var before := sleeps;
      sleeps := sleeps + [step];
      assert sleeps[..|before|] == before;
      left := left - step;
    }
  }

  function Total(sleeps: seq<nat>): nat {
    if sleeps == [] then 0 else Total(sleeps[..|sleeps| - 1]) + sleeps[|sleeps| - 1]
  }

  lemma {:induction false} TotalConcat(a: seq<nat>, b: seq<nat>)
    ensures Total(a + b) == Total(a) + Total(b)
    decreases |b|
  {
    if b == [] {
      assert a + b == a;
    } else {
      TotalConcat(a, b[..|b| - 1]);
      assert (a + b)[..|a + b| - 1] == a + b[..|b| - 1];
    }
  }

  lemma TotalOne(n: nat)
    ensures Total([n]) == n
  {
    assert [n][..0] == [];
  }

  /** Asks until the journal is usable or refused; `None` when the stop flag comes first. */
  method WaitForJournal(answers: seq<JournalSetup>, before: VolumePhase)
    returns (journal: Option<JournalSetup>, phase: VolumePhase, waits: seq<nat>, sleeps: seq<nat>)
    ensures var k := FirstUsable(answers);
            journal == if k < |answers| then Some(answers[k]) else None
    ensures phase == if FirstUsable(answers) > 0 then Offline else before
    ensures |waits| == FirstUsable(answers) && forall i :: 0 <= i < |waits| ==> waits[i] == WaitAfter(i)
    ensures Total(sleeps) == Total(waits) && forall i :: 0 <= i < |sleeps| ==> 0 < sleeps[i] <= RETRY_BACKOFF_MAX
  {
    hide WaitAfter, FirstUsable, Total;
    WaitDoubles(0);
    phase, waits, sleeps := before, [], [];
    var wait, asked := RETRY_BACKOFF_MIN, 0;
    while asked < |answers|
      invariant 0 <= asked <= |answers| && |waits| == asked && wait == WaitAfter(asked)
      invariant forall i :: 0 <= i < asked ==> answers[i].Unavailable?
      invariant forall i :: 0 <= i < asked ==> waits[i] == WaitAfter(i)
      invariant phase == if asked > 0 then Offline else before
      invariant Total(sleeps) == Total(waits) && forall i :: 0 <= i < |sleeps| ==> 0 < sleeps[i] <= RETRY_BACKOFF_MAX
    {
      var answer := answers[asked];
      if !answer.Unavailable? {
        FirstUsableIs(answers, asked);
        return Some(answer), phase, waits, sleeps;
      }
      phase := Offline;
      var cut := CutWait(wait);
      TotalConcat(sleeps, cut);
      TotalConcat(waits, [wait]);
      TotalOne(wait);
      waits, sleeps := waits + [wait], sleeps + cut;
      wait := if 2 * wait <= JOURNAL_WAIT_MAX then 2 * wait else JOURNAL_WAIT_MAX;
      WaitDoubles(asked);
      asked := asked + 1;
    }
    FirstUsableIs(answers, asked);
    journal := None;
  }

  // -- rebuilds -------------------------------------------------------------------------------------------

  /** A rebuild waits for the journal, builds, and publishes the index with the phase its journal gives it. */
  function Rescan(before: VolumePhase, r: Rebuild, why: string): Rebuilt {
    var k := FirstUsable(r.answers);
    if k == |r.answers| then Quits(if k > 0 then Offline else before, true)
    else if r.build.Aborted? then Quits(Rescanning, true)
    else if r.build.Broken? then Quits(Failed(why), false)
    else if r.answers[k].Active? then Resumes(r.answers[k].cursor)
    else Quits(BuiltPhase(r.answers[k]), false)
  }

  /** The first build of a volume takes the journal as it is, and rebuilds only if it could not be read. */
  function FirstBuild(journal: JournalSetup, build: Build, again: Rebuild): Rebuilt {
    if build.Aborted? then Quits(Bootstrapping, true)
    else if build.Broken? then Quits(Failed("first build failed"), false)
    else match journal
      case Active(cursor) => Resumes(cursor)
      case Refused => Quits(Snapshot, false)
      case Unavailable => Rescan(Offline, again, "NoCursor")
  }

  // -- turns ------------------------------------------------------------------------------------------------

  datatype Read =
    | Records(nextUsn: nat)
    | Nothing(nextUsn: nat)
    | Corrupt
    | EntryDeleted
    | JournalNotActive
    | JournalDeleteInProgress
    | OtherError

  /**
    * What one turn meets: its read, when a failed one is noted, when its streak is measured for a
    * rebuild and then for the phase, and what a rebuild meets.
    */
  datatype Turn = Turn(read: Read, noted: nat, measured: nat, again: nat, rebuild: Rebuild)

  /** What the loop carries from turn to turn, with the volume's phase. */
  datatype Loop = Loop(
    phase: VolumePhase, cursor: Cursor, rescans: nat, failingSince: Option<nat>, backoff: nat, degraded: bool) {

    /** The phase says whether the index follows the volume. */
    ghost predicate Honest() {
      && phase == (if degraded then Offline else Live)
      && rescans <= MAX_RESCANS
      && (degraded ==> failingSince.Some?)
      && RETRY_BACKOFF_MIN <= backoff <= RETRY_BACKOFF_MAX
    }
  }

  datatype Outcome = GoesOn(loop: Loop) | Ends(phase: VolumePhase, stopped: bool)

  function Tailing(cursor: Cursor, rescans: nat): Loop {
    Loop(Live, cursor, rescans, None, RETRY_BACKOFF_MIN, false)
  }

  /** The loop once a read has succeeded: only a phase the loop itself degraded goes back to Live. */
  function Recovered(l: Loop): Loop {
    Loop(if l.degraded then Live else l.phase, l.cursor, l.rescans, None, RETRY_BACKOFF_MIN, false)
  }

  /** A charged rebuild: refused once the budget is spent. */
  function BoundedRescan(l: Loop, r: Rebuild, why: string): Outcome {
    if l.rescans + 1 > MAX_RESCANS then Ends(Failed(why + ": too many rescans, giving up"), false) else
    match Rescan(l.phase, r, why)
    case Resumes(cursor) => GoesOn(Tailing(cursor, l.rescans + 1))
    case Quits(phase, stopped) => Ends(phase, stopped)
  }

  function Why(read: Read): string {
    match read
    case Corrupt => "ParserAnomaly"
    case EntryDeleted => "EntryDeletedError"
    case JournalNotActive => "JournalNotActive"
    case JournalDeleteInProgress => "JournalDeleteInProgress"
    case _ => "ReadsKeptFailing"
  }

  /** The reason reported tells what the rebuild is for. */
  lemma WhyTells(a: Read, b: Read)
    requires Why(a) == Why(b) && !a.Records? && !a.Nothing? && !b.Records? && !b.Nothing?
    ensures a == b
  {
    assert Why(Corrupt)[0] == 'P' && Why(EntryDeleted)[0] == 'E' && Why(OtherError)[0] == 'R';
    assert Why(JournalNotActive)[7] == 'N' && Why(JournalDeleteInProgress)[7] == 'D';
    assert Why(JournalNotActive)[0] == 'J' && Why(JournalDeleteInProgress)[0] == 'J';
  }

  function Doubled(backoff: nat): nat {
    if 2 * backoff <= RETRY_BACKOFF_MAX then 2 * backoff else RETRY_BACKOFF_MAX
  }

  /** The time since the streak of failed reads began, at clock `now`. */
  function Streak(l: Loop, t: Turn, now: nat): nat {
    var since := if l.failingSince.Some? then l.failingSince.value else t.noted;
    if now > since then now - since else 0
  }

  /** The turn ends in a retry of the same read. */
  predicate Retries(l: Loop, t: Turn) {
    t.read.OtherError? && Streak(l, t, t.measured) < ESCALATE_AFTER
  }

  /** The turn asks for a rebuild that counts. */
  predicate Charges(l: Loop, t: Turn) {
    match t.read
    case Records(_) => false
    case Nothing(_) => false
    case OtherError => !Retries(l, t)
    case _ => true
  }

  /** One turn of the loop. */
  function Step(l: Loop, t: Turn): Outcome {
    match t.read
    case Records(next) => GoesOn(Recovered(l).(cursor := l.cursor.(nextUsn := next), rescans := 0))
    case Nothing(next) => GoesOn(Recovered(l).(cursor := l.cursor.(nextUsn := next)))
    case Corrupt => BoundedRescan(Recovered(l), t.rebuild, Why(t.read))
    case OtherError =>
      if !Retries(l, t) then BoundedRescan(l, t.rebuild, Why(t.read)) else
      var since := if l.failingSince.Some? then l.failingSince.value else t.noted;
      var degraded := l.degraded || Streak(l, t, t.again) >= DEGRADE_AFTER;
      GoesOn(Loop(if degraded && !l.degraded then Offline else l.phase, l.cursor, l.rescans, Some(since),
        Doubled(l.backoff), degraded))
    case _ => BoundedRescan(l, t.rebuild, Why(t.read))
  }

  /** A turn that goes on leaves an honest loop honest, a degraded one Offline and any other Live. */
  lemma StepHonest(l: Loop, t: Turn)
    requires l.Honest() && Step(l, t).GoesOn?
    ensures Step(l, t).loop.Honest()
  {
  }

  /** A tail that ends unasked leaves its volume Failed or a Snapshot, never claiming to track. */
  lemma EndsHonest(l: Loop, t: Turn)
    requires l.Honest() && Step(l, t).Ends? && !Step(l, t).stopped
    ensures Step(l, t).phase.Failed? || Step(l, t).phase.Snapshot?
    ensures !ClaimsTracking(Step(l, t).phase)
  {
  }

  // -- whole lives --------------------------------------------------------------------------------------------

  /** The loop after the turns, or how the tail ended on the way. */
  function Run(l: Loop, turns: seq<Turn>): Outcome {
    if turns == [] then GoesOn(l) else
    match Run(l, turns[..|turns| - 1])
    case GoesOn(before) => Step(before, turns[|turns| - 1])
    case Ends(phase, stopped) => Ends(phase, stopped)
  }

  /** At every loop head the phase is Live exactly when the volume is not degraded, and Offline when it is. */
  lemma {:induction false} RunHonest(l: Loop, turns: seq<Turn>)
    requires l.Honest()
    ensures Run(l, turns).GoesOn? ==> Run(l, turns).loop.Honest()
    ensures Run(l, turns).Ends? && !Run(l, turns).stopped ==>
      Run(l, turns).phase.Failed? || Run(l, turns).phase.Snapshot?
  {
    if turns != [] {
      var before := turns[..|turns| - 1];
      RunHonest(l, before);
      if Run(l, before).GoesOn? {
        var head, t := Run(l, before).loop, turns[|turns| - 1];
        if Step(head, t).GoesOn? {
          StepHonest(head, t);
        } else if !Step(head, t).stopped {
          EndsHonest(head, t);
        }
      }
    }
  }

  /** Turn `i` is reached and retries the read that failed. */
  ghost predicate Retried(l: Loop, turns: seq<Turn>, i: nat) {
    i < |turns| && Run(l, turns[..i]).GoesOn? && Retries(Run(l, turns[..i]).loop, turns[i])
  }

  /** A streak began at a failed read. */
  lemma {:induction false} StreakBegan(l: Loop, turns: seq<Turn>, now: nat)
    requires l.failingSince.Some? ==> l.failingSince.value <= now
    requires forall i :: 0 <= i < |turns| ==> turns[i].noted <= now
    ensures Run(l, turns).GoesOn? && Run(l, turns).loop.failingSince.Some? ==>
      Run(l, turns).loop.failingSince.value <= now
  {
    if turns != [] { StreakBegan(l, turns[..|turns| - 1], now); }
  }

  /** While reads are retried the streak goes on from where it began. */
  lemma {:induction false} StreakGoesOn(l: Loop, turns: seq<Turn>, k: nat, n: nat)
    requires k < n <= |turns| && forall i :: k <= i < n ==> Retried(l, turns, i)
    requires l.failingSince.Some? ==> l.failingSince.value <= turns[k].noted
    requires forall i :: 0 <= i < k ==> turns[i].noted <= turns[k].noted
    ensures Run(l, turns[..n]).GoesOn? && Run(l, turns[..n]).loop.failingSince.Some?
    ensures Run(l, turns[..n]).loop.failingSince.value <= turns[k].noted
    decreases n
  {
    assert Retried(l, turns, n - 1);
    RunSplit(l, turns, n - 1);
    if n - 1 > k {
      StreakGoesOn(l, turns, k, n - 1);
    } else {
      StreakBegan(l, turns[..k], turns[k].noted);
    }
  }

  /** Reads retried for `DEGRADE_AFTER` or longer, with nothing but failures between, leave the volume Offline. */
  lemma DriftIsAdmitted(l: Loop, turns: seq<Turn>, k: nat)
    requires l.Honest() && k < |turns| && forall i :: k <= i < |turns| ==> Retried(l, turns, i)
    requires l.failingSince.Some? ==> l.failingSince.value <= turns[k].noted
    requires forall i :: 0 <= i < k ==> turns[i].noted <= turns[k].noted
    requires turns[|turns| - 1].again >= turns[k].noted + DEGRADE_AFTER
    ensures Run(l, turns).GoesOn? && Run(l, turns).loop.phase == Offline
  {
    hide Loop.Honest, Retried, Retries;
    var n := |turns| - 1;
    assert turns[..n + 1] == turns;
    RunHonest(l, turns[..n]);
    assert Retried(l, turns, n);
    RetriedLast(l, turns);
    StreakGoesOn(l, turns, k, n + 1);
    RunHonest(l, turns);
    RunSplit(l, turns, n);
    DegradesLate(Run(l, turns[..n]).loop, turns[n], turns[k].noted);
  }

  lemma RetriedLast(l: Loop, turns: seq<Turn>)
    requires turns != [] && Retried(l, turns, |turns| - 1)
    ensures Run(l, turns[..|turns| - 1]).GoesOn? && Retries(Run(l, turns[..|turns| - 1]).loop, turns[|turns| - 1])
  {
  }

  lemma DegradesLate(l: Loop, t: Turn, began: nat)
    requires l.Honest() && Retries(l, t) && Step(l, t).GoesOn? && Step(l, t).loop.failingSince.Some?
    requires Step(l, t).loop.failingSince.value <= began && t.again >= began + DEGRADE_AFTER
    ensures Step(l, t).loop.phase == Offline
  {
  }

  /** How many of the turns asked for a rebuild that counts. */
  function Charged(l: Loop, turns: seq<Turn>): nat {
    if turns == [] then 0 else
    var before := turns[..|turns| - 1];
    Charged(l, before) + (if Run(l, before).GoesOn? && Charges(Run(l, before).loop, turns[|turns| - 1]) then 1 else 0)
  }

  ghost predicate NoRecords(turns: seq<Turn>) {
    forall k :: 0 <= k < |turns| ==> !turns[k].read.Records?
  }

  /**
    * Between two non-empty batches the tail goes on through at most `MAX_RESCANS` charged rebuilds: one
    * more and the volume is Failed.
    */
  lemma {:induction false} RebuildsBounded(l: Loop, turns: seq<Turn>)
    requires l.Honest() && NoRecords(turns)
    ensures Run(l, turns).GoesOn? ==> Run(l, turns).loop.rescans == l.rescans + Charged(l, turns) <= MAX_RESCANS
    ensures l.rescans + Charged(l, turns) <= MAX_RESCANS + 1
    ensures l.rescans + Charged(l, turns) == MAX_RESCANS + 1 ==>
              Run(l, turns).Ends? && !Run(l, turns).stopped && Run(l, turns).phase.Failed?
  {
    if turns != [] {
      var before := turns[..|turns| - 1];
      RebuildsBounded(l, before);
      RunHonest(l, before);
      assert !turns[|turns| - 1].read.Records?;
    }
  }

  lemma RunSplit(l: Loop, turns: seq<Turn>, k: nat)
    requires k < |turns|
    ensures Run(l, turns[..k + 1]) == match Run(l, turns[..k])
                                      case GoesOn(head) => Step(head, turns[k])
                                      case Ends(phase, stopped) => Ends(phase, stopped)
  {
    assert turns[..k + 1][..k] == turns[..k];
  }

  lemma {:induction false} EndedStaysEnded(l: Loop, turns: seq<Turn>, k: nat)
    requires k <= |turns| && Run(l, turns[..k]).Ends?
    ensures Run(l, turns) == Run(l, turns[..k])
  {
    if k < |turns| {
      assert turns[..|turns| - 1][..k] == turns[..k];
      EndedStaysEnded(l, turns[..|turns| - 1], k);
    } else {
      assert turns[..k] == turns;
    }
  }

  // -- what the loop carries is told by its turns ----------------------------------------------------------

  /** The waits before the retries of one streak of failed reads, the last one for all further ones. */
  const BACKOFFS: seq<nat> := [500, 1_000, 2_000, 4_000, 8_000, 16_000, 30_000]

  /** The read succeeded. */
  predicate Succeeds(t: Turn) {
    t.read.Records? || t.read.Nothing?
  }

  /**
    * Where the streak of failed reads at the end of the first `n` turns began, or `n`: other errors go
    * on with it for as long as they are met within `ESCALATE_AFTER` of its first one.
    */
  function StreakFrom(turns: seq<Turn>, n: nat): (k: nat)
    requires n <= |turns|
    ensures k <= n
  {
    if n == 0 then 0 else
    var k := StreakFrom(turns, n - 1);
    if turns[n - 1].read.OtherError? && turns[n - 1].measured < turns[k].noted + ESCALATE_AFTER then k else n
  }

  /** Turn `i` neither succeeds nor retries: it rebuilds. */
  predicate Rebuilds(turns: seq<Turn>, i: nat) {
    i < |turns| && !Succeeds(turns[i]) && StreakFrom(turns, i + 1) == i + 1
  }

  /** One past the last of the first `n` turns that rebuilt, or 0. */
  function LastRebuild(turns: seq<Turn>, n: nat): (j: nat)
    requires n <= |turns|
    ensures j <= n && (j > 0 ==> Rebuilds(turns, j - 1))
    ensures forall i :: j <= i < n ==> !Rebuilds(turns, i)
  {
    if n == 0 || Rebuilds(turns, n - 1) then n else LastRebuild(turns, n - 1)
  }

  /** One past the last of the first `n` turns whose read succeeded, or 0. */
  function LastRead(turns: seq<Turn>, n: nat): (m: nat)
    requires n <= |turns|
    ensures m <= n && (m > 0 ==> Succeeds(turns[m - 1]))
    ensures forall i :: m <= i < n ==> !Succeeds(turns[i])
  {
    if n == 0 || Succeeds(turns[n - 1]) then n else LastRead(turns, n - 1)
  }

  /** One past the last of the first `n` turns that read a batch, or 0. */
  function LastBatch(turns: seq<Turn>, n: nat): (r: nat)
    requires n <= |turns|
    ensures r <= n && (r > 0 ==> turns[r - 1].read.Records?)
    ensures forall i :: r <= i < n ==> !turns[i].read.Records?
  {
    if n == 0 || turns[n - 1].read.Records? then n else LastBatch(turns, n - 1)
  }

  /** How many of the turns `lo` to `hi` rebuild. */
  function RebuildsIn(turns: seq<Turn>, lo: nat, hi: nat): nat
    requires lo <= hi <= |turns|
    decreases hi
  {
    if lo == hi then 0 else RebuildsIn(turns, lo, hi - 1) + if Rebuilds(turns, hi - 1) then 1 else 0
  }

  /** The rebuild resumes with the first answer that is not `Unavailable`. */
  ghost predicate ResumesWith(r: Rebuild, cursor: Cursor) {
    && r.build.Built?
    && exists k :: 0 <= k < |r.answers| && r.answers[k] == Active(cursor)
                   && forall i :: 0 <= i < k ==> r.answers[i].Unavailable?
  }

  /** The streak, the wait and the phase are those of the failed reads just met. */
  ghost predicate StreakTold(turns: seq<Turn>, n: nat, l: Loop)
    requires n <= |turns|
  {
    var k := StreakFrom(turns, n);
    && l.failingSince == (if k < n then Some(turns[k].noted) else None)
    && l.backoff == BACKOFFS[if n - k < 6 then n - k else 6]
    && (l.degraded <==> exists i :: k <= i < n && turns[i].again >= turns[k].noted + DEGRADE_AFTER)
    && l.phase == (if l.degraded then Offline else Live)
  }

  /** The cursor is that of the last rebuild, or of the first build, moved on by the last read since. */
  ghost predicate CursorTold(first: Cursor, turns: seq<Turn>, n: nat, at: Cursor)
    requires n <= |turns|
  {
    var j, m := LastRebuild(turns, n), LastRead(turns, n);
    exists base: Cursor ::
      && (if j == 0 then base == first else ResumesWith(turns[j - 1].rebuild, base))
      && at == Cursor(if m > j then turns[m - 1].read.nextUsn else base.nextUsn, base.journalId)
  }

  /** At a loop head everything carried is told by the turns: nothing else is remembered. */
  ghost predicate Told(first: Cursor, spent: nat, turns: seq<Turn>, n: nat, l: Loop)
    requires n <= |turns|
  {
    && StreakTold(turns, n, l) && CursorTold(first, turns, n, l.cursor)
    && l.rescans == Counted(spent, turns, n)
  }

  /** The rebuilds since the last batch, with those spent before the first turn if there was none. */
  function Counted(spent: nat, turns: seq<Turn>, n: nat): nat
    requires n <= |turns|
  {
    var r := LastBatch(turns, n);
    RebuildsIn(turns, r, n) + if r == 0 then spent else 0
  }

  lemma StreakStep(turns: seq<Turn>, n: nat, l: Loop)
    requires n < |turns| && StreakTold(turns, n, l) && Step(l, turns[n]).GoesOn?
    ensures StreakTold(turns, n + 1, Step(l, turns[n]).loop)
    ensures Rebuilds(turns, n) <==> Charges(l, turns[n])
  {
    hide Rescan;
    var k, t, l' := StreakFrom(turns, n), turns[n], Step(l, turns[n]).loop;
    if StreakFrom(turns, n + 1) <= n {
      assert StreakFrom(turns, n + 1) == k;
      if l'.degraded && !l.degraded { assert turns[n].again >= turns[k].noted + DEGRADE_AFTER; }
    }
  }

  /** A rebuild that goes on takes up the journal's first usable answer. */
  lemma RescanResumes(before: VolumePhase, r: Rebuild, why: string)
    requires Rescan(before, r, why).Resumes?
    ensures ResumesWith(r, Rescan(before, r, why).cursor)
  {
  }

  lemma CursorStep(first: Cursor, turns: seq<Turn>, n: nat, l: Loop)
    requires n < |turns| && CursorTold(first, turns, n, l.cursor) && Step(l, turns[n]).GoesOn?
    requires Rebuilds(turns, n) <==> Charges(l, turns[n])
    ensures CursorTold(first, turns, n + 1, Step(l, turns[n]).loop.cursor)
  {
    hide Rescan, ResumesWith, Rebuilds;
    var t, l' := turns[n], Step(l, turns[n]).loop;
    if Rebuilds(turns, n) {
      var before := if t.read.Corrupt? then Recovered(l).phase else l.phase;
      RescanResumes(before, t.rebuild, Why(t.read));
      assert LastRebuild(turns, n + 1) == n + 1 && turns[n + 1 - 1] == t;
      assert ResumesWith(t.rebuild, l'.cursor) && l'.cursor == Cursor(l'.cursor.nextUsn, l'.cursor.journalId);
    } else {
      var j, m := LastRebuild(turns, n), LastRead(turns, n);
      var base: Cursor :|
        && (if j == 0 then base == first else ResumesWith(turns[j - 1].rebuild, base))
        && l.cursor == Cursor(if m > j then turns[m - 1].read.nextUsn else base.nextUsn, base.journalId);
      assert LastRebuild(turns, n + 1) == j;
    }
  }

  /**
    * At every loop head of every run: the cursor is where the last successful read since the last
    * rebuild got to, in that rebuild's journal; the rebuilds counted are those since the last batch;
    * and the streak, the wait and the phase are those of the failed reads just met.
    */
  lemma {:induction false} LoopTold(first: Cursor, spent: nat, turns: seq<Turn>, n: nat)
    requires n <= |turns| && Run(Tailing(first, spent), turns[..n]).GoesOn?
    ensures Told(first, spent, turns, n, Run(Tailing(first, spent), turns[..n]).loop)
  {
    hide Step, StreakTold, CursorTold, Rebuilds, Counted;
    var start := Tailing(first, spent);
    if n == 0 {
      assert turns[..0] == [];
      FirstTold(first, spent, turns);
    } else {
      RunSplit(start, turns, n - 1);
      LoopTold(first, spent, turns, n - 1);
      var l := Run(start, turns[..n - 1]).loop;
      StreakStep(turns, n - 1, l);
      CursorStep(first, turns, n - 1, l);
      RescansStep(spent, turns, n - 1, l);
    }
  }

  lemma FirstTold(first: Cursor, spent: nat, turns: seq<Turn>)
    ensures Told(first, spent, turns, 0, Tailing(first, spent))
  {
  }

  lemma RescansStep(spent: nat, turns: seq<Turn>, n: nat, l: Loop)
    requires n < |turns| && Step(l, turns[n]).GoesOn? && l.rescans == Counted(spent, turns, n)
    requires Rebuilds(turns, n) <==> Charges(l, turns[n])
    ensures Step(l, turns[n]).loop.rescans == Counted(spent, turns, n + 1)
  {
    hide Rescan, Rebuilds;
  }

  /** A rebuild that goes on starts over: nothing of the turns before it but its count is left. */
  lemma RebuildRestarts(first: Cursor, spent: nat, turns: seq<Turn>, n: nat) returns (base: Cursor, counted: nat)
    requires n < |turns| && Rebuilds(turns, n) && Run(Tailing(first, spent), turns[..n + 1]).GoesOn?
    ensures ResumesWith(turns[n].rebuild, base)
    ensures Run(Tailing(first, spent), turns[..n + 1]) == GoesOn(Tailing(base, counted))
    ensures Run(Tailing(first, spent), turns) == Run(Tailing(base, counted), turns[n + 1..])
  {
    hide Step, Rebuilds, ResumesWith;
    var start := Tailing(first, spent);
    RunSplit(start, turns, n);
    LoopTold(first, spent, turns, n);
    var l, t := Run(start, turns[..n]).loop, turns[n];
    StreakStep(turns, n, l);
    base, counted := Restarts(l, t);
    RunConcat(start, turns, n + 1);
  }

  lemma Restarts(l: Loop, t: Turn) returns (base: Cursor, counted: nat)
    requires Charges(l, t) && Step(l, t).GoesOn?
    ensures ResumesWith(t.rebuild, base) && Step(l, t) == GoesOn(Tailing(base, counted))
  {
    hide Rescan, ResumesWith;
    RescanResumes(if t.read.Corrupt? then Recovered(l).phase else l.phase, t.rebuild, Why(t.read));
    base, counted := Step(l, t).loop.cursor, l.rescans + 1;
  }

  lemma {:induction false} RunConcat(l: Loop, turns: seq<Turn>, n: nat)
    requires n <= |turns| && Run(l, turns[..n]).GoesOn?
    ensures Run(l, turns) == Run(Run(l, turns[..n]).loop, turns[n..])
    decreases |turns|
  {
    hide Step;
    if n == |turns| {
      assert turns[..n] == turns && turns[n..] == [];
    } else {
      var before := turns[..|turns| - 1];
      assert before[..n] == turns[..n] && before[n..] == turns[n..][..|turns[n..]| - 1];
      RunConcat(l, before, n);
    }
  }

  // -- how a tail ends ----------------------------------------------------------------------------------------

  /** The first answer that is not `Unavailable` is `answer`. */
  ghost predicate Answered(r: Rebuild, answer: JournalSetup) {
    exists k :: 0 <= k < |r.answers| && r.answers[k] == answer && !answer.Unavailable?
                && forall i :: 0 <= i < k ==> r.answers[i].Unavailable?
  }

  /** The build had a journal to begin with. */
  ghost predicate HasAnswer(r: Rebuild) {
    exists a :: Answered(r, a)
  }

  /**
    * A rebuild resumes exactly with the cursor of the journal that answered, once built; it leaves a
    * Snapshot exactly if the journal was refused, Failed exactly if the build broke, and is stopped
    * exactly if the stop flag came before an answer, leaving the volume Offline if it had to wait, or
    * in the build.
    */
  lemma RescanExact(before: VolumePhase, r: Rebuild, why: string)
    ensures var out := Rescan(before, r, why);
            && (forall c :: out == Resumes(c) <==> r.build.Built? && Answered(r, Active(c)))
            && (out == Quits(Snapshot, false) <==> r.build.Built? && Answered(r, Refused))
            && (out == Quits(Failed(why), false) <==> r.build.Broken? && HasAnswer(r))
            && (out.Quits? && !out.stopped ==> out.phase == Snapshot || out.phase == Failed(why))
            && (out.Quits? && out.stopped <==> !HasAnswer(r) || r.build.Aborted?)
            && (out.Quits? && out.stopped ==>
                  out.phase == if HasAnswer(r) then Rescanning else if r.answers != [] then Offline else before)
  {
    var k := FirstUsable(r.answers);
    if k < |r.answers| {
      assert Answered(r, r.answers[k]);
    }
    forall a | Answered(r, a) ensures k < |r.answers| && a == r.answers[k] {
      var i :| 0 <= i < |r.answers| && r.answers[i] == a && forall j :: 0 <= j < i ==> r.answers[j].Unavailable?;
    }
  }

  /**
    * A tail begins to follow the journal exactly with the cursor captured before the build that was
    * published: at the first try on a volume without an index, or by a rebuild, which a volume that
    * was indexed before, or whose journal could not be read, goes through. It leaves a Snapshot
    * exactly if the journal was refused.
    */
  lemma FirstExact(indexed: bool, before: VolumePhase, journal: JournalSetup, build: Build, again: Rebuild)
    ensures var out := First(indexed, before, journal, build, again);
            var rebuilds := indexed || (build.Built? && journal.Unavailable?);
            && (forall c :: out == Resumes(c) <==>
                  if rebuilds then again.build.Built? && Answered(again, Active(c))
                  else build.Built? && journal == Active(c))
            && (out == Quits(Snapshot, false) <==>
                  if rebuilds then again.build.Built? && Answered(again, Refused) else build.Built? && journal.Refused?)
            && (out.Quits? && out.phase.Failed? && !out.stopped <==>
                  if rebuilds then again.build.Broken? && HasAnswer(again) else build.Broken?)
            && (!rebuilds && build.Aborted? <==> !indexed && out == Quits(Bootstrapping, true))
  {
    hide Rescan, Answered, HasAnswer;
    RescanExact(before, again, "NoCursor");
    RescanExact(Offline, again, "NoCursor");
  }

  /**
    * A tail's end says why: the turn that ended it asked for one rebuild more than `MAX_RESCANS` since
    * the last batch and left the volume Failed, or its rebuild did not resume.
    */
  lemma EndTold(first: Cursor, spent: nat, turns: seq<Turn>, n: nat)
    requires n < |turns| && Run(Tailing(first, spent), turns[..n]).GoesOn?
    requires Run(Tailing(first, spent), turns[..n + 1]).Ends?
    ensures var l, end := Run(Tailing(first, spent), turns[..n]).loop, Run(Tailing(first, spent), turns[..n + 1]);
            && Rebuilds(turns, n)
            && (Counted(spent, turns, n) >= MAX_RESCANS ==> end.phase.Failed? && !end.stopped)
            && (Counted(spent, turns, n) < MAX_RESCANS ==>
                  var before := if turns[n].read.Corrupt? then Live else l.phase;
                  Rescan(before, turns[n].rebuild, Why(turns[n].read)) == Quits(end.phase, end.stopped))
  {
    hide Rescan, Counted;
    var start := Tailing(first, spent);
    LoopTold(first, spent, turns, n);
    RunSplit(start, turns, n);
    EndCharges(turns, n, Run(start, turns[..n]).loop);
  }

  lemma EndCharges(turns: seq<Turn>, n: nat, l: Loop)
    requires n < |turns| && StreakTold(turns, n, l) && Step(l, turns[n]).Ends?
    ensures Rebuilds(turns, n)
    ensures l.rescans >= MAX_RESCANS ==> Step(l, turns[n]).phase.Failed? && !Step(l, turns[n]).stopped
    ensures l.rescans < MAX_RESCANS ==>
              var before, end := if turns[n].read.Corrupt? then Live else l.phase, Step(l, turns[n]);
              Rescan(before, turns[n].rebuild, Why(turns[n].read)) == Quits(end.phase, end.stopped)
  {
    hide Rescan;
  }

  /** Waits for the journal, builds, and publishes the index with the phase its journal gives it. */
  method RunRescan(before: VolumePhase, r: Rebuild, why: string) returns (out: Rebuilt)
    ensures out == Rescan(before, r, why)
  {
    var journal, phase, _, _ := WaitForJournal(r.answers, before);
    if journal.None? {
      return Quits(phase, true);
    }
    if r.build.Aborted? {
      return Quits(Rescanning, true);
    }
    if r.build.Broken? {
      return Quits(Failed(why), false);
    }
    out := if journal.value.Active? then Resumes(journal.value.cursor) else Quits(BuiltPhase(journal.value), false);
  }

  /** A charged rebuild, capped. */
  method RunBoundedRescan(l: Loop, r: Rebuild, why: string) returns (out: Outcome)
    ensures out == BoundedRescan(l, r, why)
  {
    var rescans := l.rescans + 1;
    if rescans > MAX_RESCANS {
      return Ends(Failed(why + ": too many rescans, giving up"), false);
    }
    var rebuilt := RunRescan(l.phase, r, why);
    if rebuilt.Quits? {
      return Ends(rebuilt.phase, rebuilt.stopped);
    }
    out := GoesOn(Tailing(rebuilt.cursor, rescans));
  }

  /** One turn of the loop on its own variables. */
  method TakeTurn(
    phase: VolumePhase, cursor: Cursor, rescans: nat, failingSince: Option<nat>, backoff: nat, degraded: bool, t: Turn)
    returns (out: Outcome)
    ensures out == Step(Loop(phase, cursor, rescans, failingSince, backoff, degraded), t)
  {
    hide BoundedRescan;
    var phase', cursor', rescans', failing', backoff', degraded' := phase, cursor, rescans, failingSince, backoff,
      degraded;
    if t.read.Records? || t.read.Nothing? || t.read.Corrupt? {
      if degraded' {
        phase', degraded' := Live, false;
      }
      failing', backoff' := None, RETRY_BACKOFF_MIN;
      if t.read.Corrupt? {
        out := RunBoundedRescan(Loop(phase', cursor', rescans', failing', backoff', degraded'), t.rebuild, Why(t.read));
        return;
      }
      cursor' := cursor'.(nextUsn := t.read.nextUsn);
      if t.read.Records? {
        rescans' := 0;
      }
    } else if t.read.OtherError? {
      if failing'.None? {
        failing' := Some(t.noted);
      }
      var since := failing'.value;
      if t.measured >= since + ESCALATE_AFTER {
        out := RunBoundedRescan(Loop(phase, cursor, rescans, failingSince, backoff, degraded), t.rebuild, Why(t.read));
        return;
      }
      if !degraded' && t.again >= since + DEGRADE_AFTER {
        phase', degraded' := Offline, true;
      }
      backoff' := if 2 * backoff' < RETRY_BACKOFF_MAX then 2 * backoff' else RETRY_BACKOFF_MAX;
    } else {
      out := RunBoundedRescan(Loop(phase, cursor, rescans, failingSince, backoff, degraded), t.rebuild, Why(t.read));
      return;
    }
    out := GoesOn(Loop(phase', cursor', rescans', failing', backoff', degraded'));
  }

  /** The first build: published at once, and rebuilt with a cursor if the journal could not be read. */
  method RunFirstBuild(journal: JournalSetup, build: Build, again: Rebuild) returns (out: Rebuilt)
    ensures out == FirstBuild(journal, build, again)
  {
    hide Rescan;
    if build.Aborted? {
      return Quits(Bootstrapping, true);
    }
    if build.Broken? {
      return Quits(Failed("first build failed"), false);
    }
    if journal.Unavailable? {
      out := RunRescan(Offline, again, "NoCursor");
    } else {
      out := if journal.Active? then Resumes(journal.cursor) else Quits(BuiltPhase(journal), false);
    }
  }

  /** How the tail's first build ends: a rebuild if the volume was indexed before. */
  function First(indexed: bool, before: VolumePhase, journal: JournalSetup, build: Build, again: Rebuild): Rebuilt {
    if indexed then Rescan(before, again, "NoCursor") else FirstBuild(journal, build, again)
  }

  /** A tail's whole life, from its first build through its turns. */
  function Life(first: Rebuilt, turns: seq<Turn>): Outcome {
    match first
    case Quits(phase, stopped) => Ends(phase, stopped)
    case Resumes(cursor) => Run(Tailing(cursor, 0), turns)
  }

  /** A life begins with no rebuild spent and the cursor of its first build; all else is told by its turns. */
  lemma LifeTold(first: Cursor, turns: seq<Turn>)
    requires Life(Resumes(first), turns).GoesOn?
    ensures Told(first, 0, turns, |turns|, Life(Resumes(first), turns).loop)
  {
    hide Run, Told;
    assert turns[..|turns|] == turns;
    LoopTold(first, 0, turns, |turns|);
  }

  /** The tail's thread: the first build, then turns until the stop flag is seen or the tail quits. */
  method TailLoop(
    indexed: bool, before: VolumePhase, journal: JournalSetup, build: Build, rebuild: Rebuild, turns: seq<Turn>)
    returns (out: Outcome)
    ensures out == Life(First(indexed, before, journal, build, rebuild), turns)
    ensures out.GoesOn? ==> out.loop.Honest()
    ensures out.Ends? && !out.stopped ==> out.phase.Failed? || out.phase.Snapshot?
  {
    var first;
    if indexed {
      first := RunRescan(before, rebuild, "NoCursor");
    } else {
      first := RunFirstBuild(journal, build, rebuild);
    }
    if first.Quits? {
      return Ends(first.phase, first.stopped);
    }
    ghost var start := Tailing(first.cursor, 0);
    RunHonest(start, turns);
    out := Turns(first.cursor, turns);
  }

  method Turns(cursor: Cursor, turns: seq<Turn>) returns (out: Outcome)
    ensures out == Run(Tailing(cursor, 0), turns)
  {
    hide Step;
    ghost var start := Tailing(cursor, 0);
    var l := Loop(Live, cursor, 0, None, RETRY_BACKOFF_MIN, false);
    var k := 0;
    while k < |turns|
      invariant 0 <= k <= |turns| && Run(start, turns[..k]) == GoesOn(l)
    {
      RunSplit(start, turns, k);
      out := TakeTurn(l.phase, l.cursor, l.rescans, l.failingSince, l.backoff, l.degraded, turns[k]);
      k := k + 1;
      if out.Ends? {
        EndedStaysEnded(start, turns, k);
        return out;
      }
      l := out.loop;
    }
    assert turns[..k] == turns;
    out := GoesOn(l);
  }
}
