/**
  * Why an index built by reading a changing volume file by file, and then brought up to date
  * from the change journal, ends up exact: the journal is replayed from a cursor captured before
  * the first file is read.
  */
module Replay {

  type File = nat

  /** A change to one file: its new entry, or its deletion. */
  datatype Change<V> = Put(file: File, entry: V) | Delete(file: File)

  /** The files there are, with their entries. */
  type Files<V> = map<File, V>

  function Apply<V>(files: Files<V>, c: Change<V>): Files<V> {
    match c
    case Put(file, entry) => files[file := entry]
    case Delete(file) => files - {file}
  }

  /** The changes applied in order. */
  function ApplyAll<V>(files: Files<V>, changes: seq<Change<V>>): Files<V> {
    if changes == [] then files
    else Apply(ApplyAll(files, changes[..|changes| - 1]), changes[|changes| - 1])
  }

  /** Applying a journal batch by batch is applying it at once. */
  lemma {:induction false} ApplyInBatches<V>(files: Files<V>, a: seq<Change<V>>, b: seq<Change<V>>)
    ensures ApplyAll(files, a + b) == ApplyAll(ApplyAll(files, a), b)
    decreases |b|
  {
    if b == [] {
      assert a + b == a;
    } else {
      ApplyInBatches(files, a, b[..|b| - 1]);
      assert (a + b)[..|a + b| - 1] == a + b[..|b| - 1];
    }
  }

  predicate Touches<V>(changes: seq<Change<V>>, f: File) {
    exists k :: 0 <= k < |changes| && changes[k].file == f
  }

  /** The two agree on the file: both have no entry for it, or the same. */
  ghost predicate SameAt<V>(a: Files<V>, b: Files<V>, f: File) {
    (f in a <==> f in b) && (f in a ==> a[f] == b[f])
  }

  /** What the changes leave of a file they touch does not depend on what was there; one they do not touch stays. */
  lemma {:induction false} ApplyAllAt<V>(a: Files<V>, b: Files<V>, changes: seq<Change<V>>, f: File)
    ensures Touches(changes, f) || SameAt(a, b, f) ==> SameAt(ApplyAll(a, changes), ApplyAll(b, changes), f)
    ensures !Touches(changes, f) ==> SameAt(ApplyAll(a, changes), a, f)
  {
    if changes != [] {
      var last := |changes| - 1;
      ApplyAllAt(a, b, changes[..last], f);
      if Touches(changes, f) && changes[last].file != f {
        var k :| 0 <= k < |changes| && changes[k].file == f;
        assert changes[..last][k].file == f;
      }
      if Touches(changes[..last], f) {
        var k :| 0 <= k < last && changes[..last][k].file == f;
        assert changes[k].file == f;
      }
    }
  }

  // -- building while the volume changes ---------------------------------------------------------

  /** A file is changed, or the build reads one. */
  datatype Step<V> = Changes(change: Change<V>) | Reads(file: File)

  /** The volume, its journal since the cursor, and the index built so far. */
  datatype State<V> = State(disk: Files<V>, journal: seq<Change<V>>, index: Files<V>)

  /** The index with what the build finds of one file: its entry now, or nothing. */
  function ReadFile<V>(s: State<V>, f: File): Files<V> {
    if f in s.disk then s.index[f := s.disk[f]] else s.index - {f}
  }

  function Next<V>(s: State<V>, step: Step<V>): State<V> {
    match step
    case Changes(c) => s.(disk := Apply(s.disk, c), journal := s.journal + [c])
    case Reads(f) => s.(index := ReadFile(s, f))
  }

  function Run<V>(s: State<V>, steps: seq<Step<V>>): State<V> {
    if steps == [] then s else Next(Run(s, steps[..|steps| - 1]), steps[|steps| - 1])
  }

  predicate ReadIn<V>(steps: seq<Step<V>>, f: File) {
    exists k :: 0 <= k < |steps| && steps[k] == Reads(f)
  }

  /** The cursor is captured: nothing is read yet, and the journal goes on from here. */
  function Captured<V>(disk: Files<V>): State<V> {
    State(disk, [], map[])
  }

  /** The journal since the cursor leads from the volume as it was to the volume as it is. */
  lemma {:induction false} JournalTellsAll<V>(disk: Files<V>, steps: seq<Step<V>>)
    ensures var s := Run(Captured(disk), steps); s.disk == ApplyAll(disk, s.journal)
  {
    if steps != [] {
      JournalTellsAll(disk, steps[..|steps| - 1]);
      var s, step := Run(Captured(disk), steps[..|steps| - 1]), steps[|steps| - 1];
      if step.Changes? {
        assert (s.journal + [step.change])[..|s.journal|] == s.journal;
      }
    }
  }

  /** A file untouched since the cursor is indexed as it is, if it was read, or not at all. */
  lemma {:induction false} UntouchedIsExact<V>(disk: Files<V>, steps: seq<Step<V>>, f: File)
    requires !Touches(Run(Captured(disk), steps).journal, f)
    ensures var s := Run(Captured(disk), steps);
            SameAt(s.disk, disk, f) && if ReadIn(steps, f) then SameAt(s.index, disk, f) else f !in s.index
  {
    if steps != [] {
      var before, step := steps[..|steps| - 1], steps[|steps| - 1];
      var s := Run(Captured(disk), before);
      TouchedStays(s, step, f);
      UntouchedIsExact(disk, before, f);
      ReadInLast(steps, f);
    }
  }

  lemma TouchedStays<V>(s: State<V>, step: Step<V>, f: File)
    ensures Touches(s.journal, f) ==> Touches(Next(s, step).journal, f)
    ensures step.Changes? && step.change.file == f ==> Touches(Next(s, step).journal, f)
  {
    var longer := Next(s, step).journal;
    if Touches(s.journal, f) {
      var k :| 0 <= k < |s.journal| && s.journal[k].file == f;
      assert longer[k].file == f;
    }
    assert step.Changes? ==> longer[|s.journal|] == step.change;
  }

  lemma SameEverywhere<V>(a: Files<V>, b: Files<V>)
    requires forall f: File :: SameAt(a, b, f)
    ensures a == b
  {
    forall f: File ensures (f in a <==> f in b) && (f in a ==> a[f] == b[f]) {
      assert SameAt(a, b, f);
    }
  }

  lemma ReadInLast<V>(steps: seq<Step<V>>, f: File)
    requires steps != []
    ensures ReadIn(steps, f) <==> ReadIn(steps[..|steps| - 1], f) || steps[|steps| - 1] == Reads(f)
  {
    var before := steps[..|steps| - 1];
    if ReadIn(before, f) {
      var k :| 0 <= k < |before| && before[k] == Reads(f);
      assert steps[k] == Reads(f);
    }
    if ReadIn(steps, f) && steps[|steps| - 1] != Reads(f) {
      var k :| 0 <= k < |steps| && steps[k] == Reads(f);
      assert before[k] == Reads(f);
    }
  }

  /**
    * However changes and reads interleave after the capture, and however often a file is read:
    * applying the journal from the cursor to the index gives the volume as it is, exactly when
    * every file there was at the capture has been read, or changed since.
    */
  lemma ReplayConverges<V>(disk: Files<V>, steps: seq<Step<V>>)
    ensures var s := Run(Captured(disk), steps);
            ApplyAll(s.index, s.journal) == s.disk
            <==> forall f :: f in disk ==> ReadIn(steps, f) || Touches(s.journal, f)
  {
    var s := Run(Captured(disk), steps);
    if forall f :: f in disk ==> ReadIn(steps, f) || Touches(s.journal, f) {
      JournalTellsAll(disk, steps);
      forall f ensures SameAt(ApplyAll(s.index, s.journal), s.disk, f) {
        ApplyAllAt(s.index, disk, s.journal, f);
        if !Touches(s.journal, f) { UntouchedIsExact(disk, steps, f); }
      }
      SameEverywhere(ApplyAll(s.index, s.journal), s.disk);
    } else {
      var f :| f in disk && !ReadIn(steps, f) && !Touches(s.journal, f);
      UntouchedIsExact(disk, steps, f);
      ApplyAllAt(s.index, s.index, s.journal, f);
    }
  }

  // -- a cursor captured too late ------------------------------------------------------------------

  /** What replaying from a cursor captured after `steps[..late]` gives. */
  function ReplayedLate<V>(disk: Files<V>, steps: seq<Step<V>>, late: nat): Files<V>
    requires late <= |steps|
  {
    var s, missed := Run(Captured(disk), steps), Run(Captured(disk), steps[..late]).journal;
    ApplyAll(s.index, if |missed| <= |s.journal| then s.journal[|missed|..] else [])
  }

  /** The journal only grows. */
  lemma {:induction false} JournalGrows<V>(disk: Files<V>, steps: seq<Step<V>>, late: nat)
    requires late <= |steps|
    ensures Run(Captured(disk), steps[..late]).journal <= Run(Captured(disk), steps).journal
    decreases |steps|
  {
    if late < |steps| {
      var before := steps[..|steps| - 1];
      JournalGrows(disk, before, late);
      assert before[..late] == steps[..late];
    } else {
      assert steps[..late] == steps;
    }
  }

  /** The changes after the late capture lead from the volume as it was then to the volume as it is. */
  lemma LateJournal<V>(disk: Files<V>, steps: seq<Step<V>>, late: nat)
    requires late <= |steps|
    ensures var s, then_ := Run(Captured(disk), steps), Run(Captured(disk), steps[..late]);
            && |then_.journal| <= |s.journal| && s.disk == ApplyAll(then_.disk, s.journal[|then_.journal|..])
            && ReplayedLate(disk, steps, late) == ApplyAll(s.index, s.journal[|then_.journal|..])
  {
    var s, then_ := Run(Captured(disk), steps), Run(Captured(disk), steps[..late]);
    JournalGrows(disk, steps, late);
    JournalTellsAll(disk, steps);
    JournalTellsAll(disk, steps[..late]);
    ApplyInBatches(disk, then_.journal, s.journal[|then_.journal|..]);
    assert s.journal == then_.journal + s.journal[|then_.journal|..];
  }

  /**
    * A cursor captured after any number of steps gives the volume as it is exactly when every file
    * was changed after the capture, or is indexed as it is: what it missed is never made up for.
    */
  lemma LateCursorIff<V>(disk: Files<V>, steps: seq<Step<V>>, late: nat)
    requires late <= |steps|
    ensures var s, missed := Run(Captured(disk), steps), |Run(Captured(disk), steps[..late]).journal|;
            && missed <= |s.journal|
            && (ReplayedLate(disk, steps, late) == s.disk
                <==> forall f :: Touches(s.journal[missed..], f) || SameAt(s.index, s.disk, f))
  {
    var s, then_ := Run(Captured(disk), steps), Run(Captured(disk), steps[..late]);
    LateJournal(disk, steps, late);
    var rest, replayed := s.journal[|then_.journal|..], ReplayedLate(disk, steps, late);
    forall f
      ensures Touches(rest, f) ==> SameAt(replayed, s.disk, f)
      ensures !Touches(rest, f) ==> (SameAt(replayed, s.disk, f) <==> SameAt(s.index, s.disk, f))
    {
      ApplyAllAt(s.index, then_.disk, rest, f);
    }
    if forall f :: Touches(rest, f) || SameAt(s.index, s.disk, f) {
      SameEverywhere(replayed, s.disk);
    }
  }

  /** A change between a file's read and a cursor captured after the scan is in neither, and is never noticed. */
  lemma LateCursorDrifts<V>(f: File, was: V, now: V)
    requires was != now
    ensures var disk, steps := map[f := was], [Reads(f), Changes(Put(f, now))];
            && Run(Captured(disk), steps).disk == map[f := now]
            && ReplayedLate(disk, steps, 2) == map[f := was]
  {
    var disk: Files<V>, steps: seq<Step<V>> := map[f := was], [Reads(f), Changes(Put(f, now))];
    assert steps[..1] == [Reads(f)] && steps[..1][..0] == [] && steps[..2] == steps;
    assert Run(Captured(disk), steps[..1]) == State(disk, [], map[f := was]);
    assert Run(Captured(disk), steps) == State(map[f := now], [Put(f, now)], map[f := was]);
    assert [Put(f, now)][1..] == [];
  }
}
