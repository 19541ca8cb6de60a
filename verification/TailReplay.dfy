/**
  * What the tail's turns make of its index: the batches it applies follow one another from the
  * cursor its build captured, so the index catches up with the volume.
  */
module TailReplay {
  import opened TailPhase
  import R = Replay

  /**
    * The journal as a tail sees it: the changes recorded, and how many of them lie before each
    * position a read can start from.
    */
  datatype Journal<!V> = Journal(changes: seq<R.Change<V>>, before: nat -> nat) {

    /** The changes a read from `lo` to `hi` is given. */
    function Batch(lo: nat, hi: nat): seq<R.Change<V>> {
      if before(lo) <= before(hi) <= |changes| then changes[before(lo)..before(hi)] else []
    }
  }

  /** A read that succeeds moves on, and is empty exactly if no change lies between. */
  ghost predicate Reads<V>(j: Journal<V>, at: nat, t: Turn) {
    Succeeds(t) ==>
      && j.before(at) <= j.before(t.read.nextUsn) <= |j.changes|
      && (t.read.Nothing? <==> j.before(at) == j.before(t.read.nextUsn))
  }

  /** Every turn reached reads the journal from the tail's cursor. */
  ghost predicate Follows<V>(j: Journal<V>, first: Cursor, spent: nat, turns: seq<Turn>) {
    forall i :: 0 <= i < |turns| && Run(Tailing(first, spent), turns[..i]).GoesOn? ==>
      Reads(j, Run(Tailing(first, spent), turns[..i]).loop.cursor.nextUsn, turns[i])
  }

  /** The index after the first `n` turns: each batch read is applied. */
  ghost function IndexAfter<V>(
    index: R.Files<V>, j: Journal<V>, first: Cursor, spent: nat, turns: seq<Turn>, n: nat): R.Files<V>
    requires n <= |turns|
  {
    if n == 0 then index else
    var was, t := IndexAfter(index, j, first, spent, turns, n - 1), turns[n - 1];
    var head := Run(Tailing(first, spent), turns[..n - 1]);
    if head.GoesOn? && t.read.Records? then R.ApplyAll(was, j.Batch(head.loop.cursor.nextUsn, t.read.nextUsn)) else was
  }

  /** No turn rebuilds. */
  ghost predicate NoRebuild(turns: seq<Turn>) {
    forall i :: 0 <= i < |turns| ==> !Rebuilds(turns, i)
  }

  /** The cursor of a head before any rebuild is where the last read got to. */
  lemma CursorBefore(first: Cursor, spent: nat, turns: seq<Turn>, n: nat)
    requires n <= |turns| && NoRebuild(turns) && Run(Tailing(first, spent), turns[..n]).GoesOn?
    ensures var m := LastRead(turns, n);
            Run(Tailing(first, spent), turns[..n]).loop.cursor
            == Cursor(if m > 0 then turns[m - 1].read.nextUsn else first.nextUsn, first.journalId)
  {
    hide Rebuilds, StreakTold;
    LoopTold(first, spent, turns, n);
    assert LastRebuild(turns, n) == 0;
  }

  lemma BatchJoins<V>(j: Journal<V>, index: R.Files<V>, a: nat, b: nat, c: nat)
    requires j.before(a) <= j.before(b) <= j.before(c) <= |j.changes|
    ensures R.ApplyAll(R.ApplyAll(index, j.Batch(a, b)), j.Batch(b, c)) == R.ApplyAll(index, j.Batch(a, c))
  {
    hide R.ApplyAll;
    R.ApplyInBatches(index, j.Batch(a, b), j.Batch(b, c));
    assert j.Batch(a, b) + j.Batch(b, c) == j.Batch(a, c);
  }

  /**
    * Until the next rebuild the batches applied are the changes from the first cursor to the one
    * reached, each once and in order.
    */
  lemma {:induction false} BatchesFollow<V>(
    index: R.Files<V>, j: Journal<V>, first: Cursor, spent: nat, turns: seq<Turn>, n: nat)
    requires n <= |turns| && NoRebuild(turns) && Run(Tailing(first, spent), turns[..n]).GoesOn?
    requires Follows(j, first, spent, turns) && j.before(first.nextUsn) <= |j.changes|
    ensures var at := Run(Tailing(first, spent), turns[..n]).loop.cursor;
            && j.before(first.nextUsn) <= j.before(at.nextUsn) <= |j.changes|
            && IndexAfter(index, j, first, spent, turns, n) == R.ApplyAll(index, j.Batch(first.nextUsn, at.nextUsn))
  {
    hide Step, Rebuilds, R.ApplyAll;
    var start := Tailing(first, spent);
    CursorBefore(first, spent, turns, n);
    if n == 0 {
      assert j.Batch(first.nextUsn, first.nextUsn) == [];
      assert R.ApplyAll(index, []) == index by { NothingApplied(index); }
    } else {
      RunSplit(start, turns, n - 1);
      CursorBefore(first, spent, turns, n - 1);
      BatchesFollow(index, j, first, spent, turns, n - 1);
      var at, t := Run(start, turns[..n - 1]).loop.cursor.nextUsn, turns[n - 1];
      assert Reads(j, at, t);
      if Succeeds(t) {
        assert LastRead(turns, n) == n;
        BatchJoins(j, index, first.nextUsn, at, t.read.nextUsn);
        if t.read.Nothing? {
          assert j.Batch(first.nextUsn, at) == j.Batch(first.nextUsn, t.read.nextUsn);
        }
      } else {
        assert LastRead(turns, n) == LastRead(turns, n - 1);
      }
    }
  }

  lemma NothingApplied<V>(index: R.Files<V>)
    ensures R.ApplyAll(index, []) == index
  {
  }

  /**
    * A tail whose build captured its cursor first, and whose reads have got to the journal's end, has
    * an index that is the volume, however changes, the build's reads and the tail's turns went on,
    * exactly when every file there was at the capture was read, or changed since.
    */
  lemma TailConverges<V>(
    disk: R.Files<V>, steps: seq<R.Step<V>>, before: nat -> nat, first: Cursor, spent: nat, turns: seq<Turn>)
    requires var j := Journal(R.Run(R.Captured(disk), steps).journal, before);
             Follows(j, first, spent, turns) && before(first.nextUsn) == 0
    requires NoRebuild(turns) && Run(Tailing(first, spent), turns).GoesOn?
    requires before(Run(Tailing(first, spent), turns).loop.cursor.nextUsn) == |R.Run(R.Captured(disk), steps).journal|
    ensures var s := R.Run(R.Captured(disk), steps);
            IndexAfter(s.index, Journal(s.journal, before), first, spent, turns, |turns|) == s.disk
            <==> forall f :: f in disk ==> R.ReadIn(steps, f) || R.Touches(s.journal, f)
  {
    hide Step, Rebuilds, R.ApplyAll, IndexAfter, Follows;
    var s := R.Run(R.Captured(disk), steps);
    var j := Journal(s.journal, before);
    assert turns[..|turns|] == turns;
    BatchesFollow(s.index, j, first, spent, turns, |turns|);
    assert j.Batch(first.nextUsn, Run(Tailing(first, spent), turns).loop.cursor.nextUsn) == s.journal;
    R.ReplayConverges(disk, steps);
  }
}
