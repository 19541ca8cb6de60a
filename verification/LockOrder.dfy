/**
  * Queries, status requests, tail writers and the supervisor as threads that take locks, and
  * why no run of them deadlocks. A thread does one job after another; a job is a script of
  * lock requests and releases. A thread that asks for a lock queues for it with a ticket. How
  * the lock chooses among the queued is left open between two bounds: a grant needs no more
  * than compatible holders, and progress is shown for the policy that keeps the most waiting,
  * under which a queued writer holds back every new reader.
  */
module LockOrder {
  import opened Registry

  /** What a volume guards with a lock of its own. */
  datatype Part = Index | Metadata | JournalMax | ScopeCache | Phase

  datatype Lock = RegistryLock | VolumeLock(stamp: nat, part: Part)

  /** Where a lock stands in the lock order: volumes by addition, the index before what hangs off it. */
  function Level(l: Lock): nat {
    match l
    case RegistryLock => 0
    case VolumeLock(stamp, Index) => 5 * stamp + 1
    case VolumeLock(stamp, Metadata) => 5 * stamp + 2
    case VolumeLock(stamp, JournalMax) => 5 * stamp + 3
    case VolumeLock(stamp, ScopeCache) => 5 * stamp + 4
    case VolumeLock(stamp, Phase) => 5 * stamp + 5
  }

  /** A mutex is only ever taken to write. */
  datatype Mode = Read | Upgradable | Write

  /** Two threads may hold a lock in these modes at once. */
  predicate Compatible(a: Mode, b: Mode) {
    (a.Read? && !b.Write?) || (a.Upgradable? && b.Read?)
  }

  datatype Op =
    | Acquire(lock: Lock, mode: Mode)
    | Upgrade(lock: Lock)
    | Release(lock: Lock)
    | Copy
    | Insert(guid: string)
    | Delete(guid: string)
    | Emit

  // -- jobs ----------------------------------------------------------------------------------

  datatype Job =
    | TakeSnapshot
    | AddVolume(guid: string)
    | RemoveVolume(guid: string)
    | ReadPart(stamp: nat, part: Part)
    | WritePhase(stamp: nat)
    | Search(stamp: nat, cached: bool, resolved: bool)
    | ReadStatus(stamp: nat)
    | BuildPage(vols: VolumeSet)
    | ApplyChanges(stamp: nat)
    | Compact(stamp: nat, planned: bool)
    | Install(stamp: nat)

  /** Takes one lock and gives it back. */
  function Once(l: Lock, mode: Mode): seq<Op> {
    [Acquire(l, mode), Release(l)]
  }

  function AcquireAll(vols: VolumeSet): seq<Op> {
    if vols == [] then [] else [Acquire(VolumeLock(vols[0].stamp, Index), Read)] + AcquireAll(vols[1..])
  }

  function ReleaseAll(vols: VolumeSet): seq<Op> {
    if vols == [] then [] else [Release(VolumeLock(vols[0].stamp, Index))] + ReleaseAll(vols[1..])
  }

  /** The locks a job takes and gives back, in order. A page is handed off after its guards are dropped. */
  function Script(job: Job): seq<Op> {
    match job
    case TakeSnapshot => [Acquire(RegistryLock, Read), Copy, Release(RegistryLock)]
    case AddVolume(guid) => [Acquire(RegistryLock, Write), Insert(guid), Release(RegistryLock)]
    case RemoveVolume(guid) => [Acquire(RegistryLock, Write), Delete(guid), Release(RegistryLock)]
    case ReadPart(v, part) => Once(VolumeLock(v, part), Read)
    case WritePhase(v) => Once(VolumeLock(v, Phase), Write)
    case Search(v, cached, resolved) =>
      [Acquire(VolumeLock(v, Index), Read)]
      + ((if cached then Once(VolumeLock(v, ScopeCache), Write) else [])
         + if resolved then Once(VolumeLock(v, ScopeCache), Write) else [])
      + [Release(VolumeLock(v, Index))]
    case ReadStatus(v) =>
      [Acquire(VolumeLock(v, Index), Read), Acquire(VolumeLock(v, Metadata), Read)]
      + Once(VolumeLock(v, JournalMax), Read)
      + [Release(VolumeLock(v, Metadata)), Release(VolumeLock(v, Index))]
    case BuildPage(vols) => AcquireAll(vols) + ReleaseAll(vols) + [Emit]
    case ApplyChanges(v) => Once(VolumeLock(v, Index), Write)
    case Compact(v, planned) =>
      [Acquire(VolumeLock(v, Index), Upgradable)]
      + (if planned then [Upgrade(VolumeLock(v, Index))] else [])
      + [Release(VolumeLock(v, Index))]
    case Install(v) =>
      [Acquire(VolumeLock(v, Index), Write)]
      + Once(VolumeLock(v, Metadata), Write) + Once(VolumeLock(v, JournalMax), Write)
      + Once(VolumeLock(v, ScopeCache), Write)
      + [Release(VolumeLock(v, Index))]
  }

  // -- the discipline ---------------------------------------------------------------------------

  type Holds = map<Lock, Mode>

  /** Every lock held, other than `l`, stands below `l`. */
  ghost predicate TopsAll(held: Holds, l: Lock) {
    forall h :: h in held && h != l ==> Level(h) < Level(l)
  }

  /** From `held` on, the script only asks for locks above those held, and holds none when it emits or ends. */
  ghost predicate Disciplined(held: Holds, script: seq<Op>)
    decreases |script|
  {
    if script == [] then held == map[] else
    var rest := script[1..];
    match script[0]
    case Acquire(l, mode) => l !in held && TopsAll(held, l) && Disciplined(held[l := mode], rest)
    case Upgrade(l) => l in held && held[l].Upgradable? && TopsAll(held, l) && Disciplined(held[l := Write], rest)
    case Release(l) => l in held && Disciplined(held - {l}, rest)
    case Emit => held == map[] && Disciplined(held, rest)
    case Copy => RegistryLock in held && Disciplined(held, rest)
    case _ => RegistryLock in held && held[RegistryLock].Write? && Disciplined(held, rest)
  }

  /** A lock taken above the rest and given back at once changes nothing. */
  lemma OnceDisciplined(held: Holds, l: Lock, mode: Mode, rest: seq<Op>)
    requires l !in held && TopsAll(held, l) && Disciplined(held, rest)
    ensures Disciplined(held, Once(l, mode) + rest)
  {
    var script := Once(l, mode) + rest;
    assert script[1..][1..] == rest;
    assert held[l := mode] - {l} == held;
  }

  /** The read guards of a page. */
  function Guards(vols: VolumeSet): Holds {
    if vols == [] then map[] else Guards(vols[1..])[VolumeLock(vols[0].stamp, Index) := Read]
  }

  lemma {:induction false} GuardsHold(vols: VolumeSet, l: Lock)
    ensures l in Guards(vols) <==>
            l.VolumeLock? && l.part.Index? && exists i :: 0 <= i < |vols| && vols[i].stamp == l.stamp
  {
    if vols != [] {
      GuardsHold(vols[1..], l);
      assert vols == [vols[0]] + vols[1..];
      if l in Guards(vols[1..]) {
        var i :| 0 <= i < |vols[1..]| && vols[1..][i].stamp == l.stamp;
        assert vols[i + 1].stamp == l.stamp;
      }
    }
  }

  lemma GuardsTail(vols: VolumeSet)
    requires Ascending(vols) && vols != []
    ensures var l := VolumeLock(vols[0].stamp, Index); l in Guards(vols) && Guards(vols) - {l} == Guards(vols[1..])
  {
    GuardsHold(vols[1..], VolumeLock(vols[0].stamp, Index));
  }

  lemma {:induction false} ReleasesDisciplined(vols: VolumeSet)
    requires Ascending(vols)
    ensures Disciplined(Guards(vols), ReleaseAll(vols) + [Emit])
  {
    hide TopsAll;
    if vols == [] {
      assert ([]+ [Emit])[1..] == [];
    } else {
      hide Guards;
      ReleasesDisciplined(vols[1..]);
      GuardsTail(vols);
      assert (ReleaseAll(vols) + [Emit])[1..] == ReleaseAll(vols[1..]) + [Emit];
    }
  }

  lemma {:induction false} GuardsAppend(vols: VolumeSet, v: Volume)
    ensures Guards(vols + [v]) == Guards(vols)[VolumeLock(v.stamp, Index) := Read]
  {
    if vols != [] {
      GuardsAppend(vols[1..], v);
      assert (vols + [v])[1..] == vols[1..] + [v];
    }
  }

  /** The next volume's lock stands above the guards taken. */
  lemma AboveGuards(done: VolumeSet, todo: VolumeSet)
    requires Ascending(done + todo) && todo != []
    ensures var l := VolumeLock(todo[0].stamp, Index); l !in Guards(done) && TopsAll(Guards(done), l)
  {
    hide Guards;
    var l := VolumeLock(todo[0].stamp, Index);
    forall h | h in Guards(done) ensures h != l && Level(h) < Level(l) {
      GuardsHold(done, h);
      var i :| 0 <= i < |done| && done[i].stamp == h.stamp;
      assert (done + todo)[i].stamp < (done + todo)[|done|].stamp;
    }
  }

  lemma {:induction false} AcquiresDisciplined(done: VolumeSet, todo: VolumeSet, rest: seq<Op>)
    requires Ascending(done + todo) && Disciplined(Guards(done + todo), rest)
    ensures Disciplined(Guards(done), AcquireAll(todo) + rest)
    decreases |todo|
  {
    hide Guards, TopsAll, Ascending;
    if todo == [] {
      assert done + todo == done && AcquireAll(todo) + rest == rest;
    } else {
      assert done + todo == (done + [todo[0]]) + todo[1..];
      AcquiresDisciplined(done + [todo[0]], todo[1..], rest);
      GuardsAppend(done, todo[0]);
      AboveGuards(done, todo);
      assert (AcquireAll(todo) + rest)[1..] == AcquireAll(todo[1..]) + rest;
    }
  }

  lemma PageDisciplined(vols: VolumeSet)
    requires Ascending(vols)
    ensures Disciplined(map[], Script(BuildPage(vols)))
  {
    hide Disciplined;
    ReleasesDisciplined(vols);
    assert [] + vols == vols;
    AcquiresDisciplined([], vols, ReleaseAll(vols) + [Emit]);
    assert Script(BuildPage(vols)) == AcquireAll(vols) + (ReleaseAll(vols) + [Emit]);
  }

  /** What is done under an index lock is done in a disciplined way if it is so above that lock. */
  lemma UnderIndex(v: nat, mode: Mode, body: seq<Op>)
    requires Disciplined(map[VolumeLock(v, Index) := mode], body + [Release(VolumeLock(v, Index))])
    ensures Disciplined(map[], [Acquire(VolumeLock(v, Index), mode)] + body + [Release(VolumeLock(v, Index))])
  {
    var l := VolumeLock(v, Index);
    var script := [Acquire(l, mode)] + body + [Release(l)];
    assert script[1..] == body + [Release(l)];
  }

  /** One lock of the volume taken and given back under its index lock. */
  lemma PartUnderIndex(v: nat, mode: Mode, part: Part, partMode: Mode, rest: seq<Op>)
    requires !part.Index? && Disciplined(map[VolumeLock(v, Index) := mode], rest)
    ensures Disciplined(map[VolumeLock(v, Index) := mode], Once(VolumeLock(v, part), partMode) + rest)
  {
    hide Disciplined;
    OnceDisciplined(map[VolumeLock(v, Index) := mode], VolumeLock(v, part), partMode, rest);
  }

  lemma ReleaseDisciplined(l: Lock, mode: Mode)
    ensures Disciplined(map[l := mode], [Release(l)])
  {
    assert map[l := mode] - {l} == map[];
  }

  lemma AloneDisciplined(l: Lock, mode: Mode)
    ensures Disciplined(map[], Once(l, mode))
  {
    OnceDisciplined(map[], l, mode, []);
    assert Once(l, mode) + [] == Once(l, mode);
  }

  /** The scope cache, if it is taken at all, is taken under the index lock. */
  lemma CacheUnderIndex(v: nat, taken: bool, rest: seq<Op>)
    requires Disciplined(map[VolumeLock(v, Index) := Read], rest)
    ensures Disciplined(map[VolumeLock(v, Index) := Read],
              (if taken then Once(VolumeLock(v, ScopeCache), Write) else []) + rest)
  {
    hide Disciplined, Once;
    if taken { PartUnderIndex(v, Read, ScopeCache, Write, rest); }
    assert [] + rest == rest;
  }

  lemma SearchDisciplined(v: nat, cached: bool, resolved: bool)
    ensures Disciplined(map[], Script(Search(v, cached, resolved)))
  {
    hide Disciplined, Once;
    var l, c := VolumeLock(v, Index), Once(VolumeLock(v, ScopeCache), Write);
    var second, first := if resolved then c else [], if cached then c else [];
    ReleaseDisciplined(l, Read);
    CacheUnderIndex(v, resolved, [Release(l)]);
    CacheUnderIndex(v, cached, second + [Release(l)]);
    assert (first + second) + [Release(l)] == first + (second + [Release(l)]);
    UnderIndex(v, Read, first + second);
  }

  /** The two flags are read together: the first is still held when the second is asked for. */
  lemma StatusDisciplined(v: nat)
    ensures Disciplined(map[], Script(ReadStatus(v)))
  {
    var l, m, j := VolumeLock(v, Index), VolumeLock(v, Metadata), Once(VolumeLock(v, JournalMax), Read);
    var rest := [Release(m), Release(l)];
    var body := [Acquire(m, Read)] + j + [Release(m)];
    ReleaseDisciplined(l, Read);
    assert map[l := Read, m := Read] - {m} == map[l := Read] && rest[1..] == [Release(l)];
    OnceDisciplined(map[l := Read, m := Read], VolumeLock(v, JournalMax), Read, rest);
    assert (body + [Release(l)])[1..] == j + rest;
    assert map[l := Read][m := Read] == map[l := Read, m := Read];
    UnderIndex(v, Read, body);
    assert Script(ReadStatus(v)) == [Acquire(l, Read)] + body + [Release(l)];
  }

  lemma InstallDisciplined(v: nat)
    ensures Disciplined(map[], Script(Install(v)))
  {
    hide Disciplined, Once;
    var l := VolumeLock(v, Index);
    var m := Once(VolumeLock(v, Metadata), Write);
    var j := Once(VolumeLock(v, JournalMax), Write);
    var c := Once(VolumeLock(v, ScopeCache), Write);
    ReleaseDisciplined(l, Write);
    PartUnderIndex(v, Write, ScopeCache, Write, [Release(l)]);
    PartUnderIndex(v, Write, JournalMax, Write, c + [Release(l)]);
    PartUnderIndex(v, Write, Metadata, Write, j + (c + [Release(l)]));
    assert (m + j + c) + [Release(l)] == m + (j + (c + [Release(l)]));
    UnderIndex(v, Write, m + j + c);
    assert Script(Install(v)) == [Acquire(l, Write)] + (m + j + c) + [Release(l)];
  }

  lemma CompactDisciplined(v: nat, planned: bool)
    ensures Disciplined(map[], Script(Compact(v, planned)))
  {
    var l := VolumeLock(v, Index);
    ReleaseDisciplined(l, Write);
    ReleaseDisciplined(l, Upgradable);
    var body := if planned then [Upgrade(l)] else [];
    assert (body + [Release(l)])[|body|..] == [Release(l)];
    assert map[l := Upgradable][l := Write] == map[l := Write];
    UnderIndex(v, Upgradable, body);
  }

  lemma RegistryDisciplined(mode: Mode, op: Op)
    requires op.Copy? || (mode.Write? && (op.Insert? || op.Delete?))
    ensures Disciplined(map[], [Acquire(RegistryLock, mode), op, Release(RegistryLock)])
  {
    var script := [Acquire(RegistryLock, mode), op, Release(RegistryLock)];
    ReleaseDisciplined(RegistryLock, mode);
    assert script[1..][1..] == [Release(RegistryLock)];
    assert map[][RegistryLock := mode] == map[RegistryLock := mode];
  }

  /** Every job takes its locks in order; a page-building one if its volumes are in order. */
  lemma JobDisciplined(job: Job)
    requires job.BuildPage? ==> Ascending(job.vols)
    ensures Disciplined(map[], Script(job))
  {
    hide Disciplined;
    match job
    case TakeSnapshot => RegistryDisciplined(Read, Copy);
    case AddVolume(guid) => RegistryDisciplined(Write, Insert(guid));
    case RemoveVolume(guid) => RegistryDisciplined(Write, Delete(guid));
    case ReadPart(v, part) => AloneDisciplined(VolumeLock(v, part), Read);
    case WritePhase(v) => AloneDisciplined(VolumeLock(v, Phase), Write);
    case Search(v, cached, resolved) => SearchDisciplined(v, cached, resolved);
    case ReadStatus(v) => StatusDisciplined(v);
    case BuildPage(vols) => PageDisciplined(vols);
    case ApplyChanges(v) => AloneDisciplined(VolumeLock(v, Index), Write);
    case Compact(v, planned) => CompactDisciplined(v, planned);
    case Install(v) => InstallDisciplined(v);
  }

  // -- what a job holds -----------------------------------------------------------------------------

  /** The locks held once the operations are done. */
  function HeldFrom(held: Holds, ops: seq<Op>): Holds
    decreases |ops|
  {
    if ops == [] then held else
    var rest := ops[1..];
    match ops[0]
    case Acquire(l, mode) => HeldFrom(held[l := mode], rest)
    case Upgrade(l) => HeldFrom(held[l := Write], rest)
    case Release(l) => HeldFrom(held - {l}, rest)
    case _ => HeldFrom(held, rest)
  }

  /** At some point of the script all of `need` is held. */
  ghost predicate Reaches(script: seq<Op>, need: Holds) {
    exists k :: 0 <= k <= |script| && Covers(HeldFrom(map[], script[..k]), need)
  }

  predicate Covers(held: Holds, need: Holds) {
    forall l :: l in need ==> l in held && held[l] == need[l]
  }

  lemma HeldStep(held: Holds, op: Op, rest: seq<Op>)
    ensures HeldFrom(held, [op] + rest)
         == HeldFrom(if op.Acquire? then held[op.lock := op.mode] else if op.Upgrade? then held[op.lock := Write]
                     else if op.Release? then held - {op.lock} else held, rest)
  {
    assert ([op] + rest)[1..] == rest;
  }

  lemma HeldOne(held: Holds, l: Lock, mode: Mode)
    ensures HeldFrom(held, [Acquire(l, mode)]) == held[l := mode]
  {
    assert [Acquire(l, mode)][1..] == [];
  }

  /** A job that takes lock `l` first, and then others one by one while it is held. */
  lemma {:induction false} ReachesPair(l: Lock, mode: Mode, before: seq<Op>, m: Lock, mode': Mode, script: seq<Op>)
    requires l != m && [Acquire(l, mode)] + before + [Acquire(m, mode')] <= script
    requires forall k :: 0 <= k < |before| ==> before[k].Acquire? || before[k].Release?
    requires forall k :: 0 <= k < |before| ==> before[k].lock != l
    ensures Reaches(script, map[l := mode, m := mode'])
  {
    var ops := [Acquire(l, mode)] + before + [Acquire(m, mode')];
    assert ops == [Acquire(l, mode)] + (before + [Acquire(m, mode')]);
    HeldStep(map[], Acquire(l, mode), before + [Acquire(m, mode')]);
    StillHeld(map[l := mode], l, before, m, mode');
    assert script[..|ops|] == ops;
  }

  lemma {:induction false} StillHeld(held: Holds, l: Lock, before: seq<Op>, m: Lock, mode: Mode)
    requires l in held && l != m
    requires forall k :: 0 <= k < |before| ==> (before[k].Acquire? || before[k].Release?) && before[k].lock != l
    ensures var h := HeldFrom(held, before + [Acquire(m, mode)]);
            l in h && h[l] == held[l] && m in h && h[m] == mode
    decreases |before|
  {
    if before == [] {
      assert before + [Acquire(m, mode)] == [Acquire(m, mode)];
      HeldOne(held, m, mode);
    } else {
      var op, rest := before[0], before[1..];
      assert before + [Acquire(m, mode)] == [op] + (rest + [Acquire(m, mode)]);
      HeldStep(held, op, rest + [Acquire(m, mode)]);
      StillHeld(if op.Acquire? then held[op.lock := op.mode] else held - {op.lock}, l, rest, m, mode);
    }
  }

  lemma ReachesFirst(l: Lock, mode: Mode, script: seq<Op>)
    requires script != [] && script[0] == Acquire(l, mode)
    ensures Reaches(script, map[l := mode])
  {
    assert script[..1] == [Acquire(l, mode)];
    HeldOne(map[], l, mode);
  }

  /** Acquiring the guards of a page one by one leaves all of them held. */
  lemma {:induction false} PageHolds(held: Holds, vols: VolumeSet)
    requires forall k :: 0 <= k < |vols| && VolumeLock(vols[k].stamp, Index) in held ==>
               held[VolumeLock(vols[k].stamp, Index)] == Read
    ensures var h := HeldFrom(held, AcquireAll(vols));
            && (forall k :: 0 <= k < |vols| ==>
                  VolumeLock(vols[k].stamp, Index) in h && h[VolumeLock(vols[k].stamp, Index)] == Read)
            && forall l :: l in held ==> l in h && (h[l] == held[l] || h[l] == Read)
    decreases |vols|
  {
    if vols != [] {
      var l := VolumeLock(vols[0].stamp, Index);
      HeldStep(held, Acquire(l, Read), AcquireAll(vols[1..]));
      PageHolds(held[l := Read], vols[1..]);
      var h := HeldFrom(held, AcquireAll(vols));
      forall k | 0 <= k < |vols|
        ensures VolumeLock(vols[k].stamp, Index) in h && h[VolumeLock(vols[k].stamp, Index)] == Read
      {
        if k > 0 { assert vols[k] == vols[1..][k - 1]; }
      }
    }
  }

  /**
    * What a job changes it guards: a batch is applied, a plan installed and an index published under
    * the index's write lock, flags and cache changed while it is held, and a plan made under a lock
    * that keeps other writers out.
    */
  lemma WritersHold(job: Job)
    ensures job.ApplyChanges? ==> Reaches(Script(job), map[VolumeLock(job.stamp, Index) := Write])
    ensures job.Compact? ==> Reaches(Script(job), map[VolumeLock(job.stamp, Index) := Upgradable])
    ensures job.Compact? && job.planned ==> Reaches(Script(job), map[VolumeLock(job.stamp, Index) := Write])
    ensures job.Install? ==>
              forall part :: part in {Metadata, JournalMax, ScopeCache} ==>
                Reaches(Script(job), map[VolumeLock(job.stamp, Index) := Write, VolumeLock(job.stamp, part) := Write])
    ensures job.WritePhase? ==> Reaches(Script(job), map[VolumeLock(job.stamp, Phase) := Write])
    ensures job.AddVolume? ==> Insert(job.guid) in Script(job)
    ensures job.RemoveVolume? ==> Delete(job.guid) in Script(job)
  {
    hide Reaches, HeldFrom;
    match job
    case ApplyChanges(v) => ReachesFirst(VolumeLock(v, Index), Write, Script(job));
    case Compact(v, planned) =>
      ReachesFirst(VolumeLock(v, Index), Upgradable, Script(job));
      if planned { ReachesUpgrade(VolumeLock(v, Index), Script(job)); }
    case Install(v) => InstallHolds(v);
    case WritePhase(v) => ReachesFirst(VolumeLock(v, Phase), Write, Script(job));
    case AddVolume(guid) => assert Script(job)[1] == Insert(guid);
    case RemoveVolume(guid) => assert Script(job)[1] == Delete(guid);
    case _ =>
  }

  lemma InstallHolds(v: nat)
    ensures forall part :: part in {Metadata, JournalMax, ScopeCache} ==>
              Reaches(Script(Install(v)), map[VolumeLock(v, Index) := Write, VolumeLock(v, part) := Write])
  {
    hide Reaches;
    var script, i, m, j, c := Script(Install(v)), VolumeLock(v, Index), VolumeLock(v, Metadata),
      VolumeLock(v, JournalMax), VolumeLock(v, ScopeCache);
    ReachesPair(i, Write, [], m, Write, script);
    ReachesPair(i, Write, Once(m, Write), j, Write, script);
    ReachesPair(i, Write, Once(m, Write) + Once(j, Write), c, Write, script);
  }

  /** What a job reads it guards: the index, and under its lock the scope cache, the flags and the journal's size. */
  lemma ReadersHold(job: Job)
    ensures job.Search? ==> Reaches(Script(job), map[VolumeLock(job.stamp, Index) := Read])
    ensures job.Search? && (job.cached || job.resolved) ==>
              var index, cache := VolumeLock(job.stamp, Index), VolumeLock(job.stamp, ScopeCache);
              Reaches(Script(job), map[index := Read, cache := Write])
    ensures job.ReadStatus? ==>
              forall part :: part in {Metadata, JournalMax} ==>
                Reaches(Script(job), map[VolumeLock(job.stamp, Index) := Read, VolumeLock(job.stamp, part) := Read])
    ensures job.ReadPart? ==> Reaches(Script(job), map[VolumeLock(job.stamp, job.part) := Read])
    ensures job.TakeSnapshot? ==> Copy in Script(job)
  {
    hide Reaches, HeldFrom;
    match job
    case Search(v, cached, resolved) =>
      ReachesFirst(VolumeLock(v, Index), Read, Script(job));
      if cached || resolved {
        ReachesPair(VolumeLock(v, Index), Read, [], VolumeLock(v, ScopeCache), Write, Script(job));
      }
    case ReadStatus(v) =>
      var i, m, j := VolumeLock(v, Index), VolumeLock(v, Metadata), VolumeLock(v, JournalMax);
      ReachesPair(i, Read, [], m, Read, Script(job));
      ReachesPair(i, Read, [Acquire(m, Read)], j, Read, Script(job));
    case ReadPart(v, part) => ReachesFirst(VolumeLock(v, part), Read, Script(job));
    case TakeSnapshot => assert Script(job)[1] == Copy;
    case _ =>
  }

  /** A page holds the read guards of all its volumes at once. */
  lemma PageHoldsAll(vols: VolumeSet) returns (k: nat)
    ensures k <= |Script(BuildPage(vols))|
    ensures var h := HeldFrom(map[], Script(BuildPage(vols))[..k]);
            forall i :: 0 <= i < |vols| ==>
              VolumeLock(vols[i].stamp, Index) in h && h[VolumeLock(vols[i].stamp, Index)] == Read
  {
    PageHolds(map[], vols);
    k := |AcquireAll(vols)|;
    assert Script(BuildPage(vols))[..k] == AcquireAll(vols);
  }

  lemma ReachesUpgrade(l: Lock, script: seq<Op>)
    requires |script| >= 2 && script[0] == Acquire(l, Upgradable) && script[1] == Upgrade(l)
    ensures Reaches(script, map[l := Write])
  {
    assert script[..2] == [Acquire(l, Upgradable)] + ([Upgrade(l)] + []);
    HeldStep(map[], Acquire(l, Upgradable), [Upgrade(l)] + []);
    HeldStep(map[l := Upgradable], Upgrade(l), []);
  }

  // -- threads ---------------------------------------------------------------------------------------

  datatype Thread = Thread(snapshot: VolumeSet, held: Holds, script: seq<Op>, queued: bool, ticket: nat) {

    /** The next thing to do is to ask for a lock. */
    predicate Asks() {
      script != [] && (script[0].Acquire? || script[0].Upgrade?)
    }

    /** The thread waits for a lock. */
    predicate Waits() {
      queued && Asks()
    }

    function Wanted(): Lock
      requires Asks()
    {
      script[0].lock
    }

    function WantedMode(): Mode
      requires Asks()
    {
      if script[0].Upgrade? then Write else script[0].mode
    }

    /** Readers stand back behind writers, writers behind one that upgrades. */
    function Urgency(): nat
      requires Asks()
    {
      if script[0].Upgrade? then 3 else if script[0].mode.Write? then 2 else if script[0].mode.Upgradable? then 1 else 0
    }

    /** The thread is in the middle of a job and not handing a page off. */
    predicate Busy() {
      script != [] && !script[0].Emit?
    }
  }

  /** `u` holds what `t` asks for in a mode that excludes it. */
  predicate HoldsBack(u: Thread, t: Thread) {
    t.Asks() && t.Wanted() in u.held && !Compatible(t.WantedMode(), u.held[t.Wanted()])
  }

  /** `u` waits for what `t` asks for and goes first: a writer before a reader, writers in turn. */
  predicate GoesFirst(u: Thread, t: Thread) {
    && t.Asks() && u.Waits() && t.Wanted() == u.Wanted()
    && ((t.Urgency() < 2 <= u.Urgency()) || (t.Urgency() == 2 == u.Urgency() && u.ticket < t.ticket))
  }

  predicate Blocks(u: Thread, t: Thread) {
    HoldsBack(u, t) || GoesFirst(u, t)
  }

  // -- the system --------------------------------------------------------------------------------------

  datatype System = System(registry: VolumeSet, added: nat, tickets: nat, threads: seq<Thread>) {

    ghost predicate ThreadOk(t: Thread) {
      Ascending(t.snapshot) && Disciplined(t.held, t.script) && (t.queued ==> t.Asks() && t.ticket < tickets)
    }

    /** Every volume is listed by addition, every thread keeps the discipline, and no two threads clash. */
    ghost predicate Ordered() {
      && Ascending(registry) && Stamped(registry, added)
      && (forall i {:trigger threads[i]} :: 0 <= i < |threads| ==> ThreadOk(threads[i]))
      && forall i, j :: 0 <= i < |threads| && 0 <= j < |threads| && i != j ==> Apart(threads[i], threads[j])
    }

    /** Some other thread holds thread `i` back, or goes first. */
    predicate Blocked(i: nat)
      requires i < |threads|
    {
      exists j :: 0 <= j < |threads| && j != i && Blocks(threads[j], threads[i])
    }

    /** Some other thread holds what thread `i` asks for. */
    predicate HeldBack(i: nat)
      requires i < |threads|
    {
      exists j :: 0 <= j < |threads| && j != i && HoldsBack(threads[j], threads[i])
    }
  }

  /** No lock is held by both in modes that exclude each other, and they queue with different tickets. */
  ghost predicate Apart(a: Thread, b: Thread) {
    && (a.queued && b.queued ==> a.ticket != b.ticket)
    && forall l :: l in a.held && l in b.held ==> Compatible(a.held[l], b.held[l])
  }

  function Idle(): Thread {
    Thread([], map[], [], false, 0)
  }

  function Begin(threads: nat): System {
    System([], 0, 0, seq(threads, _ => Idle()))
  }

  datatype Step = Start(t: nat, job: Job) | Ask(t: nat) | Grant(t: nat) | Perform(t: nat)

  /** A page is built over volumes of the snapshot its query works on; every other job may start at any time. */
  ghost predicate Enabled(s: System, step: Step) {
    && step.t < |s.threads|
    && var t := s.threads[step.t];
       match step
       case Start(_, job) => t.script == [] && (job.BuildPage? ==> Picked(job.vols, t.snapshot))
       case Ask(_) => t.Asks() && !t.queued
       case Grant(_) => t.Waits() && !s.HeldBack(step.t)
       case Perform(_) => t.script != [] && !t.Asks()
  }

  function Granted(t: Thread): Thread
    requires t.Asks()
  {
    t.(held := t.held[t.Wanted() := t.WantedMode()], script := t.script[1..], queued := false)
  }

  function Performed(t: Thread, registry: VolumeSet): Thread
    requires t.script != []
  {
    match t.script[0]
    case Release(l) => t.(held := t.held - {l}, script := t.script[1..])
    case Copy => t.(snapshot := registry, script := t.script[1..])
    case _ => t.(script := t.script[1..])
  }

  ghost function Next(s: System, step: Step): System
    requires Enabled(s, step)
  {
    var t := s.threads[step.t];
    match step
    case Start(i, job) => s.(threads := s.threads[i := t.(script := Script(job))])
    case Ask(i) => s.(tickets := s.tickets + 1, threads := s.threads[i := t.(queued := true, ticket := s.tickets)])
    case Grant(i) => s.(threads := s.threads[i := Granted(t)])
    case Perform(i) =>
      var s' := s.(threads := s.threads[i := Performed(t, s.registry)]);
      match t.script[0]
      case Insert(guid) => s'.(registry := s.registry + [Volume(s.added, guid)], added := s.added + 1)
      case Delete(guid) => s'.(registry := Without(s.registry, guid))
      case _ => s'
  }

  // -- every step keeps the order ------------------------------------------------------------------------

  /** A system in which only thread `i` moved is ordered if that thread is fine and apart from the others. */
  lemma Replaced(s: System, s': System, i: nat)
    requires s.Ordered() && i < |s.threads| == |s'.threads| && s.tickets <= s'.tickets
    requires Ascending(s'.registry) && Stamped(s'.registry, s'.added)
    requires forall j :: 0 <= j < |s.threads| && j != i ==> s'.threads[j] == s.threads[j]
    requires s'.ThreadOk(s'.threads[i])
    requires forall j {:trigger s.threads[j]} :: 0 <= j < |s.threads| && j != i ==> Apart(s'.threads[i], s.threads[j])
    ensures s'.Ordered()
  {
    hide Disciplined, Ascending, Stamped;
    forall a, b | 0 <= a < |s'.threads| && 0 <= b < |s'.threads| && a != b ensures Apart(s'.threads[a], s'.threads[b]) {
      if a != i && b != i {
        assert Apart(s.threads[a], s.threads[b]);
      } else if a == i {
        assert s'.threads[b] == s.threads[b];
      } else {
        assert s'.threads[a] == s.threads[a];
        ApartSymmetric(s'.threads[b], s'.threads[a]);
      }
    }
  }

  lemma ApartSymmetric(a: Thread, b: Thread)
    requires Apart(a, b)
    ensures Apart(b, a)
  {
  }

  lemma StartOrdered(s: System, i: nat, job: Job)
    requires s.Ordered() && Enabled(s, Start(i, job))
    ensures Next(s, Start(i, job)).Ordered()
  {
    hide Picked, Script, TopsAll;
    var t := s.threads[i];
    assert s.ThreadOk(t);
    if job.BuildPage? { PickedAscends(job.vols, t.snapshot); }
    JobDisciplined(job);
    Replaced(s, Next(s, Start(i, job)), i);
  }

  lemma AskOrdered(s: System, i: nat)
    requires s.Ordered() && Enabled(s, Ask(i))
    ensures Next(s, Ask(i)).Ordered()
  {
    hide Disciplined, Ascending, Stamped;
    assert s.ThreadOk(s.threads[i]);
    forall j | 0 <= j < |s.threads| && j != i ensures Apart(Next(s, Ask(i)).threads[i], s.threads[j]) {
      assert Apart(s.threads[i], s.threads[j]) && s.ThreadOk(s.threads[j]);
    }
    Replaced(s, Next(s, Ask(i)), i);
  }

  lemma GrantOrdered(s: System, i: nat)
    requires s.Ordered() && Enabled(s, Grant(i))
    ensures Next(s, Grant(i)).Ordered()
  {
    hide Ascending, Stamped;
    var t := s.threads[i];
    assert s.ThreadOk(t);
    forall j | 0 <= j < |s.threads| && j != i ensures Apart(Granted(t), s.threads[j]) {
      assert Apart(t, s.threads[j]);
      assert !HoldsBack(s.threads[j], t);
    }
    Replaced(s, Next(s, Grant(i)), i);
  }

  lemma PerformOrdered(s: System, i: nat)
    requires s.Ordered() && Enabled(s, Perform(i))
    ensures Next(s, Perform(i)).Ordered()
  {
    var t, s' := s.threads[i], Next(s, Perform(i));
    assert s.ThreadOk(t);
    if t.script[0].Delete? { WithoutKeeps(s.registry, s.added, t.script[0].guid); }
    forall j | 0 <= j < |s.threads| && j != i ensures Apart(s'.threads[i], s.threads[j]) {
      assert Apart(t, s.threads[j]);
    }
    Replaced(s, s', i);
  }

  lemma StepOrdered(s: System, step: Step)
    requires s.Ordered() && Enabled(s, step)
    ensures Next(s, step).Ordered()
  {
    hide System.Ordered, Next, Enabled;
    match step
    case Start(i, job) => StartOrdered(s, i, job);
    case Ask(i) => AskOrdered(s, i);
    case Grant(i) => GrantOrdered(s, i);
    case Perform(i) => PerformOrdered(s, i);
  }

  /** The steps can be taken one after another. */
  ghost predicate Runs(s: System, steps: seq<Step>)
    decreases |steps|
  {
    steps == [] || (Enabled(s, steps[0]) && Runs(Next(s, steps[0]), steps[1..]))
  }

  ghost function After(s: System, steps: seq<Step>): System
    requires Runs(s, steps)
    decreases |steps|
  {
    if steps == [] then s else After(Next(s, steps[0]), steps[1..])
  }

  ghost predicate Reachable(s: System) {
    exists n: nat, steps :: Runs(Begin(n), steps) && After(Begin(n), steps) == s
  }

  lemma {:induction false} RunOrdered(s: System, steps: seq<Step>)
    requires s.Ordered() && Runs(s, steps)
    ensures After(s, steps).Ordered()
    decreases |steps|
  {
    hide System.Ordered, Next, Enabled;
    if steps != [] {
      StepOrdered(s, steps[0]);
      RunOrdered(Next(s, steps[0]), steps[1..]);
    }
  }

  lemma ReachableOrdered(s: System)
    requires Reachable(s)
    ensures s.Ordered()
  {
    var n: nat, steps :| Runs(Begin(n), steps) && After(Begin(n), steps) == s;
    assert Begin(n).Ordered();
    RunOrdered(Begin(n), steps);
  }

  // -- what locks do ------------------------------------------------------------------------------------

  /** In every reachable state a lock held to write is held by one thread alone, and one at most may upgrade it. */
  lemma LocksExclude(s: System, i: nat, j: nat, l: Lock)
    requires Reachable(s) && i < |s.threads| && j < |s.threads| && i != j
    requires l in s.threads[i].held && l in s.threads[j].held
    ensures !s.threads[i].held[l].Write? && !s.threads[j].held[l].Write?
    ensures s.threads[i].held[l].Read? || s.threads[j].held[l].Read?
  {
    ReachableOrdered(s);
    assert Apart(s.threads[i], s.threads[j]);
  }

  /**
    * A waiting thread may be granted its lock exactly when no other holds it in its way: beside a
    * reader, no writer; beside one that may upgrade, readers only; beside a writer, none.
    */
  lemma GrantExact(s: System, i: nat)
    requires i < |s.threads| && s.threads[i].Waits()
    ensures var l, mode := s.threads[i].Wanted(), s.threads[i].WantedMode();
            Enabled(s, Grant(i)) <==>
              forall j :: 0 <= j < |s.threads| && j != i && l in s.threads[j].held ==>
                if mode.Read? then !s.threads[j].held[l].Write?
                else if mode.Upgradable? then s.threads[j].held[l].Read?
                else false
  {
    var t := s.threads[i];
    if !Enabled(s, Grant(i)) {
      var j :| 0 <= j < |s.threads| && j != i && HoldsBack(s.threads[j], t);
      assert t.Wanted() in s.threads[j].held;
    } else {
      forall j | 0 <= j < |s.threads| && j != i && t.Wanted() in s.threads[j].held
        ensures Compatible(t.WantedMode(), s.threads[j].held[t.Wanted()])
      {
        assert !HoldsBack(s.threads[j], t);
      }
    }
  }

  /** In every reachable state a thread copies the registry under its lock, and changes it holding that to write. */
  lemma RegistryGuarded(s: System, i: nat)
    requires Reachable(s) && i < |s.threads| && s.threads[i].script != []
    ensures s.threads[i].script[0].Copy? ==> RegistryLock in s.threads[i].held
    ensures s.threads[i].script[0].Insert? || s.threads[i].script[0].Delete? ==>
              RegistryLock in s.threads[i].held && s.threads[i].held[RegistryLock].Write?
  {
    ReachableOrdered(s);
    assert s.ThreadOk(s.threads[i]);
  }

  /** A snapshot is the registry at the moment it is copied, and stays as it was taken whatever is added or removed. */
  lemma SnapshotExact(s: System, step: Step, i: nat)
    requires Enabled(s, step) && i < |s.threads|
    ensures i < |Next(s, step).threads|
    ensures Next(s, step).threads[i].snapshot ==
              if step == Perform(i) && s.threads[i].script[0].Copy? then s.registry else s.threads[i].snapshot
  {
  }

  /** The registry changes by the two jobs made for that only: one new volume at the end, or all of one GUID out. */
  lemma RegistryExact(s: System, step: Step)
    requires Enabled(s, step)
    ensures var op, after := if step.Perform? then s.threads[step.t].script[0] else Emit, Next(s, step).registry;
            && (op.Insert? ==> after == s.registry + [Volume(s.added, op.guid)] && Next(s, step).added == s.added + 1)
            && (op.Delete? ==>
                  Picked(after, s.registry) && forall v :: v in after <==> v in s.registry && v.guid != op.guid)
            && (!op.Insert? && !op.Delete? ==> after == s.registry)
  {
  }

  // -- wait chains ascend -----------------------------------------------------------------------------------

  /** `a` waits lower than `b`: for a lower lock, or less urgently, or behind it in the same queue. */
  predicate Below(a: Thread, b: Thread)
    requires a.Asks() && b.Asks()
  {
    var x, y := Level(a.Wanted()), Level(b.Wanted());
    x < y || (x == y && (a.Urgency() < b.Urgency() || (a.Urgency() == b.Urgency() && b.ticket < a.ticket)))
  }

  /** Whoever keeps a waiting thread waiting, and waits itself, waits higher. */
  lemma WaitAscends(s: System, i: nat, j: nat)
    requires s.Ordered() && i < |s.threads| && j < |s.threads| && i != j
    requires s.threads[i].Waits() && s.threads[j].Waits() && Blocks(s.threads[j], s.threads[i])
    ensures Below(s.threads[i], s.threads[j])
  {
    var t, u := s.threads[i], s.threads[j];
    assert s.ThreadOk(t) && s.ThreadOk(u) && Apart(t, u);
    if HoldsBack(u, t) {
      var l := t.Wanted();
      if u.Wanted() != l {
        assert Level(l) < Level(u.Wanted());
      } else {
        assert u.script[0].Upgrade?;
      }
    }
  }

  lemma BelowTransitive(a: Thread, b: Thread, c: Thread)
    requires a.Asks() && b.Asks() && c.Asks() && Below(a, b) && Below(b, c)
    ensures Below(a, c)
  {
  }

  /** The threads wait, each for the next. */
  ghost predicate WaitChain(s: System, chain: seq<nat>) {
    && (forall k :: 0 <= k < |chain| ==> chain[k] < |s.threads| && s.threads[chain[k]].Waits())
    && forall k {:trigger chain[k]} :: 0 < k < |chain| ==>
         chain[k - 1] != chain[k] && Blocks(s.threads[chain[k]], s.threads[chain[k - 1]])
  }

  lemma {:induction false} ChainAscends(s: System, chain: seq<nat>)
    requires s.Ordered() && WaitChain(s, chain) && |chain| >= 2
    ensures Below(s.threads[chain[0]], s.threads[chain[|chain| - 1]])
    decreases |chain|
  {
    hide System.Ordered, Below, Blocks;
    var last := |chain| - 1;
    WaitAscends(s, chain[last - 1], chain[last]);
    if last > 1 {
      ChainAscends(s, chain[..last]);
      BelowTransitive(s.threads[chain[0]], s.threads[chain[last - 1]], s.threads[chain[last]]);
    }
  }

  /** No thread ever waits, through any chain of others, for itself. */
  lemma NoWaitCycle(s: System, chain: seq<nat>)
    requires Reachable(s) && WaitChain(s, chain) && |chain| >= 2
    ensures chain[0] != chain[|chain| - 1]
  {
    hide Reachable;
    ReachableOrdered(s);
    ChainAscends(s, chain);
  }

  // -- some thread can always move ----------------------------------------------------------------------------

  /** Of the first `n` threads, one that waits and below none that waits. */
  lemma {:induction false} Highest(s: System, n: nat) returns (i: nat)
    requires n <= |s.threads| && exists k :: 0 <= k < n && s.threads[k].Waits()
    ensures i < n && s.threads[i].Waits()
    ensures forall k :: 0 <= k < n && s.threads[k].Waits() ==> !Below(s.threads[i], s.threads[k])
  {
    if exists k :: 0 <= k < n - 1 && s.threads[k].Waits() {
      i := Highest(s, n - 1);
      if s.threads[n - 1].Waits() && Below(s.threads[i], s.threads[n - 1]) {
        forall k | 0 <= k < n && s.threads[k].Waits() ensures !Below(s.threads[n - 1], s.threads[k]) {
          if k < n - 1 && Below(s.threads[n - 1], s.threads[k]) {
            BelowTransitive(s.threads[i], s.threads[n - 1], s.threads[k]);
          }
        }
        i := n - 1;
      }
    } else {
      i := n - 1;
    }
  }

  /** A thread that keeps another waiting is in the middle of a job: it is not handing a page off. */
  lemma BlockerIsBusy(s: System, u: Thread, t: Thread)
    requires s.ThreadOk(u) && Blocks(u, t)
    ensures u.Busy()
  {
  }

  lemma HighestMoves(s: System, i: nat)
    requires s.Ordered() && i < |s.threads| && s.threads[i].Waits()
    requires forall k :: 0 <= k < |s.threads| && s.threads[k].Busy() ==> s.threads[k].Waits()
    requires forall k :: 0 <= k < |s.threads| && s.threads[k].Waits() ==> !Below(s.threads[i], s.threads[k])
    ensures !s.Blocked(i) && !s.HeldBack(i)
  {
    hide Below, System.ThreadOk, Apart;
    forall j | 0 <= j < |s.threads| && j != i ensures !Blocks(s.threads[j], s.threads[i]) {
      if Blocks(s.threads[j], s.threads[i]) {
        assert s.ThreadOk(s.threads[j]);
        BlockerIsBusy(s, s.threads[j], s.threads[i]);
        WaitAscends(s, i, j);
      }
    }
  }

  /**
    * In every ordered state, so in every reachable one, with a thread in the middle of a job, one of them
    * can move, even if a queued writer holds back all new readers and no client takes its page.
    */
  lemma NoDeadlock(s: System) returns (step: Step)
    requires s.Ordered() && exists i :: 0 <= i < |s.threads| && s.threads[i].Busy()
    ensures Enabled(s, step) && !step.Start? && s.threads[step.t].Busy()
    ensures step.Grant? ==> !s.Blocked(step.t)
  {
    hide System.Ordered, Below, System.Blocked, System.HeldBack;
    if i :| 0 <= i < |s.threads| && s.threads[i].Busy() && !s.threads[i].Waits() {
      step := if s.threads[i].Asks() then Ask(i) else Perform(i);
    } else {
      var i := Highest(s, |s.threads|);
      HighestMoves(s, i);
      step := Grant(i);
    }
  }

  // -- and all jobs finish ----------------------------------------------------------------------------------------

  function ThreadWork(t: Thread): nat {
    if t.Waits() then 2 * |t.script| - 1 else 2 * |t.script|
  }

  /** What the threads have left to do. */
  function Work(threads: seq<Thread>): nat {
    if threads == [] then 0 else Work(threads[..|threads| - 1]) + ThreadWork(threads[|threads| - 1])
  }

  lemma {:induction false} WorkUpdate(threads: seq<Thread>, i: nat, t: Thread)
    requires i < |threads|
    ensures Work(threads[i := t]) == Work(threads) - ThreadWork(threads[i]) + ThreadWork(t)
    decreases |threads|
  {
    var last := |threads| - 1;
    if i == last {
      assert threads[i := t][..last] == threads[..last];
    } else {
      WorkUpdate(threads[..last], i, t);
      assert threads[i := t][..last] == threads[..last][i := t];
    }
  }

  /** Every step of a job leaves less to do. */
  lemma StepWorks(s: System, step: Step)
    requires Enabled(s, step) && !step.Start?
    ensures Work(Next(s, step).threads) < Work(s.threads)
  {
    hide System.HeldBack, Work;
    WorkUpdate(s.threads, step.t, Next(s, step).threads[step.t]);
  }

  ghost predicate NoStart(steps: seq<Step>) {
    forall k :: 0 <= k < |steps| ==> !steps[k].Start?
  }

  /** Jobs under way cannot go on for ever: without new ones no run is longer than the work left. */
  lemma {:induction false} RunsEnd(s: System, steps: seq<Step>)
    requires Runs(s, steps) && NoStart(steps)
    ensures |steps| + Work(After(s, steps).threads) <= Work(s.threads)
    decreases |steps|
  {
    hide Next, Enabled, Work;
    if steps != [] {
      StepWorks(s, steps[0]);
      RunsEnd(Next(s, steps[0]), steps[1..]);
    }
  }

  /**
    * From every ordered state, so from every reachable one, the jobs under way can all be finished, up
    * to pages no client takes.
    */
  lemma {:induction false} JobsFinish(s: System) returns (steps: seq<Step>)
    requires s.Ordered()
    ensures Runs(s, steps) && NoStart(steps)
    ensures forall t :: t in After(s, steps).threads ==> !t.Busy()
    decreases Work(s.threads)
  {
    hide System.Ordered, Next, Enabled, Work;
    if exists i :: 0 <= i < |s.threads| && s.threads[i].Busy() {
      var step := NoDeadlock(s);
      StepWorks(s, step);
      StepOrdered(s, step);
      var rest := JobsFinish(Next(s, step));
      steps := [step] + rest;
      assert steps[1..] == rest;
    } else {
      steps := [];
    }
  }

  // -- why the order of snapshots matters -----------------------------------------------------------------------------

  /**
    * Two page builders that take two volumes in opposite orders, each past its first, and both tails
    * wanting to write.
    */
  function Crossed(): System {
    var v, w := Volume(0, "v"), Volume(1, "w");
    System([v, w], 2, 4, [
      Thread([v, w], map[VolumeLock(0, Index) := Read], Script(BuildPage([v, w]))[1..], true, 2),
      Thread([w, v], map[VolumeLock(1, Index) := Read], Script(BuildPage([w, v]))[1..], true, 3),
      Thread([], map[], Script(ApplyChanges(0)), true, 0),
      Thread([], map[], Script(ApplyChanges(1)), true, 1)])
  }

  /** Each then waits for another. */
  lemma CrossedBlocked()
    ensures var s := Crossed();
            forall i :: 0 <= i < |s.threads| ==> s.threads[i].Waits() && s.Blocked(i)
  {
    var s, v, w := Crossed(), Volume(0, "v"), Volume(1, "w");
    assert [v, w][1..] == [w] && [w, v][1..] == [v];
    assert AcquireAll([w]) == [Acquire(VolumeLock(1, Index), Read)];
    assert AcquireAll([v]) == [Acquire(VolumeLock(0, Index), Read)];
    assert s.threads[0].script[0] == Acquire(VolumeLock(1, Index), Read);
    assert s.threads[1].script[0] == Acquire(VolumeLock(0, Index), Read);
    assert Blocks(s.threads[3], s.threads[0]) && Blocks(s.threads[2], s.threads[1]);
    assert Blocks(s.threads[0], s.threads[2]) && Blocks(s.threads[1], s.threads[3]);
  }

  /** The only steps left are grants to a thread that is blocked: under writer preference nothing moves any more. */
  lemma OppositeOrdersDeadlock(step: Step)
    requires Enabled(Crossed(), step)
    ensures step.Grant? && Crossed().Blocked(step.t)
  {
    hide Crossed, System.Blocked, System.HeldBack;
    CrossedBlocked();
  }
}
