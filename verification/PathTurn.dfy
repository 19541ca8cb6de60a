/**
  * The order a path sort takes whole volumes in when no mount prefix starts another, and
  * why it gives the pages that comparing every pair of heads by their full keys gives.
  */
module PathTurn {
  import opened Bytes
  import opened Folding
  import opened NameArena
  import opened NameOrder
  import opened Merge
  import opened Pages
  import opened Options

  datatype Direction = Asc | Desc

  predicate Earlier(dir: Direction, a: ByteString, b: ByteString) {
    if dir.Asc? then Less(a, b) else Less(b, a)
  }

  lemma EarlierIsStrictTotal(dir: Direction, a: ByteString, b: ByteString)
    ensures Earlier(dir, a, b) || a == b || Earlier(dir, b, a)
    ensures !(Earlier(dir, a, b) && Earlier(dir, b, a))
  {
    LessTrichotomy(a, b);
  }

  lemma EarlierTransitive(dir: Direction, a: ByteString, b: ByteString, c: ByteString)
    requires Earlier(dir, a, b) && Earlier(dir, b, c)
    ensures Earlier(dir, a, c)
  {
    if dir.Asc? { LessTransitive(a, b, c); } else { LessTransitive(c, b, a); }
  }

  // -- the turn ---------------------------------------------------------------------------

  function FoldPrefixes(fold: Fold, prefixes: seq<ByteString>): seq<ByteString> {
    seq(|prefixes|, i requires 0 <= i < |prefixes| => fold(prefixes[i]))
  }

  /** Some prefix does not close a folder, or starts another one. */
  predicate Nested(folded: seq<ByteString>) {
    exists i :: 0 <= i < |folded|
      && (!ClosesFolder(folded[i]) || exists j :: 0 <= j < |folded| && i != j && folded[i] <= folded[j])
  }

  /** Each of the `n` volumes once, earlier prefixes first. */
  ghost predicate InTurn(dir: Direction, folded: seq<ByteString>, turn: seq<nat>) {
    && InRange(|folded|, turn)
    && ListsRuns(Some(turn), |folded|)
    && forall p, q :: 0 <= p < q < |turn| ==> Earlier(dir, folded[turn[p]], folded[turn[q]])
  }

  function Reverse(s: seq<nat>): (r: seq<nat>)
    ensures |r| == |s| && forall k :: 0 <= k < |s| ==> r[k] == s[|s| - 1 - k]
  {
    seq(|s|, k requires 0 <= k < |s| => s[|s| - 1 - k])
  }

  lemma ReverseLists(s: seq<nat>)
    ensures forall id :: id in Reverse(s) <==> id in s
  {
    forall id | id in s ensures id in Reverse(s) {
      var k :| 0 <= k < |s| && s[k] == id;
      assert Reverse(s)[|s| - 1 - k] == id;
    }
  }

  /** The order to take the volumes in, or `None` when their rows may interleave. */
  function VolumesInTurn(fold: Fold, prefixes: seq<ByteString>, dir: Direction): (turn: Option<seq<nat>>)
    ensures turn.Some? ==> InTurn(dir, FoldPrefixes(fold, prefixes), turn.value)
    ensures turn.None? <==> Nested(FoldPrefixes(fold, prefixes))
  {
    var folded := FoldPrefixes(fold, prefixes);
    if Nested(folded) then None else
    var all := seq(|folded|, i => i);
    assert forall r {:trigger r in all} :: 0 <= r < |folded| ==> r in all by {
      forall r | 0 <= r < |folded| ensures r in all {
        assert all[r] == r;
      }
    }
    var order := SortIds(folded, all);
    SortedIsInTurn(folded, order);
    Some(if dir.Desc? then Reverse(order) else order)
  }

  /** Prefixes that do not start one another differ, so the sort leaves no ties. */
  lemma SortedIsInTurn(folded: seq<ByteString>, order: seq<nat>)
    requires !Nested(folded) && Sorted(folded, order) && ListsRuns(Some(order), |folded|)
    ensures InTurn(Asc, folded, order) && InTurn(Desc, folded, Reverse(order))
  {
    forall p, q | 0 <= p < q < |order| ensures Less(folded[order[p]], folded[order[q]]) {
      assert Before(folded, order[p], order[q]);
      BeforeIsStrictTotal(folded, order[p], order[q]);
      assert !(folded[order[p]] <= folded[order[q]]);
    }
    ReverseLists(order);
  }

  // -- keys ---------------------------------------------------------------------------------

  /** What a page's guards say of a row: the path of its parent below the mount prefix, and its name. */
  datatype Places = Places(parent: Row -> ByteString, name: Row -> ByteString)

  /** The cross-volume sort key of a row: folded prefix and parent path, NUL, folded name. */
  function HeadKey(fold: Fold, prefixes: seq<ByteString>, at: Places, row: Row): ByteString
    requires row.run < |prefixes|
  {
    fold(prefixes[row.run] + at.parent(row)) + [0] + fold(at.name(row))
  }

  /** Rows compare by their full keys, reversed when descending. */
  ghost predicate ByPath(w: World, fold: Fold, prefixes: seq<ByteString>, dir: Direction, at: Places) {
    forall a: Row, b: Row {:trigger w.less(a, b)} :: a.run < |prefixes| && b.run < |prefixes| ==>
      w.less(a, b) == Earlier(dir, HeadKey(fold, prefixes, at, a), HeadKey(fold, prefixes, at, b))
  }

  /** Rows of two volumes compare as the volumes' prefixes do, whatever the rows. */
  lemma KeysFollowPrefixes(fold: Fold, prefixes: seq<ByteString>, dir: Direction, at: Places, a: Row, b: Row)
    requires SplitsAtBackslash(fold) && !Nested(FoldPrefixes(fold, prefixes))
    requires a.run < |prefixes| && b.run < |prefixes| && a.run != b.run
    ensures Earlier(dir, HeadKey(fold, prefixes, at, a), HeadKey(fold, prefixes, at, b))
       <==> Earlier(dir, fold(prefixes[a.run]), fold(prefixes[b.run]))
  {
    var folded := FoldPrefixes(fold, prefixes);
    var p, q := folded[a.run], folded[b.run];
    assert ClosesFolder(p) && ClosesFolder(q) && !(p <= q) && !(q <= p);
    var x, y := fold(at.parent(a)) + [0] + fold(at.name(a)), fold(at.parent(b)) + [0] + fold(at.name(b));
    assert HeadKey(fold, prefixes, at, a) == p + x;
    assert HeadKey(fold, prefixes, at, b) == q + y;
    LessIgnoresSuffix(p, q, x, y);
    LessIgnoresSuffix(q, p, y, x);
  }

  /** A NUL between them makes two parts compare one after the other, if the first parts are NUL-free. */
  lemma {:induction false} LessByParts(p: ByteString, q: ByteString, x: ByteString, y: ByteString)
    requires NulFree(p) && NulFree(q)
    ensures Less(p + [0] + x, q + [0] + y) <==> Less(p, q) || (p == q && Less(x, y))
  {
    var a, b := p + [0] + x, q + [0] + y;
    if p == [] || q == [] {
      assert p == [] ==> a[0] == 0 && a[1..] == x;
      assert q == [] ==> b[0] == 0 && b[1..] == y;
      assert p != [] ==> a[0] == p[0] != 0;
      assert q != [] ==> b[0] == q[0] != 0;
    } else {
      assert a[0] == p[0] && b[0] == q[0] && a[1..] == p[1..] + [0] + x && b[1..] == q[1..] + [0] + y;
      LessByParts(p[1..], q[1..], x, y);
      assert p == [p[0]] + p[1..] && q == [q[0]] + q[1..];
    }
  }

  /** Rows compare by folded path and then folded name, reversed when descending. */
  lemma KeysCompareByParts(fold: Fold, prefixes: seq<ByteString>, dir: Direction, at: Places, a: Row, b: Row)
    requires a.run < |prefixes| && b.run < |prefixes|
    requires NulFree(fold(prefixes[a.run] + at.parent(a))) && NulFree(fold(prefixes[b.run] + at.parent(b)))
    ensures var p, q := fold(prefixes[a.run] + at.parent(a)), fold(prefixes[b.run] + at.parent(b));
            Earlier(dir, HeadKey(fold, prefixes, at, a), HeadKey(fold, prefixes, at, b)) <==>
              Earlier(dir, p, q) || (p == q && Earlier(dir, fold(at.name(a)), fold(at.name(b))))
  {
    hide Less;
    var p, q := fold(prefixes[a.run] + at.parent(a)), fold(prefixes[b.run] + at.parent(b));
    LessByParts(p, q, fold(at.name(a)), fold(at.name(b)));
    LessByParts(q, p, fold(at.name(b)), fold(at.name(a)));
  }

  lemma HeadsFollowPrefixes(
    w: World, fold: Fold, prefixes: seq<ByteString>, dir: Direction, at: Places, a: Row, b: Row)
    requires SplitsAtBackslash(fold) && !Nested(FoldPrefixes(fold, prefixes)) && ByPath(w, fold, prefixes, dir, at)
    requires a.run < |prefixes| && b.run < |prefixes| && a.run != b.run
    ensures var folded := FoldPrefixes(fold, prefixes);
            && folded[a.run] != folded[b.run]
            && (w.less(a, b) <==> Earlier(dir, folded[a.run], folded[b.run]))
  {
    hide Earlier, HeadKey;
    KeysFollowPrefixes(fold, prefixes, dir, at, a, b);
  }

  // -- the same head -----------------------------------------------------------------------------

  /** Run `b` has a head, and its prefix comes before that of every other of the first `n` runs with one. */
  ghost predicate Foremost(dir: Direction, folded: seq<ByteString>, lens: seq<nat>, pos: seq<nat>, n: nat, b: nat) {
    && b < n <= |folded| && HasHead(lens, pos, b)
    && forall r {:trigger HasHead(lens, pos, r)} ::
         0 <= r < n && HasHead(lens, pos, r) && r != b ==> Earlier(dir, folded[b], folded[r])
  }

  lemma {:induction false} BestIsForemost(
    w: World, fold: Fold, prefixes: seq<ByteString>, dir: Direction, at: Places, lens: seq<nat>, pos: seq<nat>, n: nat)
    requires SplitsAtBackslash(fold) && !Nested(FoldPrefixes(fold, prefixes)) && ByPath(w, fold, prefixes, dir, at)
    requires |lens| == |prefixes| && Within(lens, pos) && n <= |lens|
    ensures var best := Best(w, lens, pos, n);
            best.Some? ==> Foremost(dir, FoldPrefixes(fold, prefixes), lens, pos, n, best.value)
  {
    hide ByPath, SplitsAtBackslash, Nested, Earlier;
    if n > 0 {
      BestIsForemost(w, fold, prefixes, dir, at, lens, pos, n - 1);
      var folded := FoldPrefixes(fold, prefixes);
      var before := Best(w, lens, pos, n - 1);
      if before.Some? && HasHead(lens, pos, n - 1) {
        var b := before.value;
        HeadsFollowPrefixes(w, fold, prefixes, dir, at, Row(n - 1, pos[n - 1]), Row(b, pos[b]));
        ForemostExtends(dir, folded, lens, pos, n, b);
      }
    }
  }

  lemma ForemostExtends(dir: Direction, folded: seq<ByteString>, lens: seq<nat>, pos: seq<nat>, n: nat, b: nat)
    requires 0 < n <= |folded| && Foremost(dir, folded, lens, pos, n - 1, b) && HasHead(lens, pos, n - 1)
    requires folded[b] != folded[n - 1]
    ensures Foremost(dir, folded, lens, pos, n, if Earlier(dir, folded[n - 1], folded[b]) then n - 1 else b)
  {
    EarlierIsStrictTotal(dir, folded[n - 1], folded[b]);
    if Earlier(dir, folded[n - 1], folded[b]) {
      forall r | 0 <= r < n && HasHead(lens, pos, r) && r != n - 1 ensures Earlier(dir, folded[n - 1], folded[r]) {
        if r != b { EarlierTransitive(dir, folded[n - 1], folded[b], folded[r]); }
      }
    }
  }

  lemma {:induction false} FirstIsForemost(
    dir: Direction, folded: seq<ByteString>, turn: seq<nat>, lens: seq<nat>, pos: seq<nat>, k: nat)
    requires InTurn(dir, folded, turn) && |lens| == |folded| && k <= |turn|
    requires forall i :: 0 <= i < k ==> !HasHead(lens, pos, turn[i])
    ensures var first := FirstInTurn(turn, lens, pos, k);
            first.Some? ==> Foremost(dir, folded, lens, pos, |folded|, first.value)
    decreases |turn| - k
  {
    if k < |turn| {
      if HasHead(lens, pos, turn[k]) {
        forall r | 0 <= r < |folded| && HasHead(lens, pos, r) && r != turn[k]
          ensures Earlier(dir, folded[turn[k]], folded[r])
        {
          assert r in turn;
          var i :| 0 <= i < |turn| && turn[i] == r;
          assert k < i;
        }
      } else {
        FirstIsForemost(dir, folded, turn, lens, pos, k + 1);
      }
    }
  }

  /** The first run in turn with a head is the run whose head has the smallest full key. */
  lemma TurnPicksBest(
    w: World, fold: Fold, prefixes: seq<ByteString>, dir: Direction, at: Places, lens: seq<nat>, pos: seq<nat>)
    requires SplitsAtBackslash(fold) && ByPath(w, fold, prefixes, dir, at)
    requires |lens| == |prefixes| && Within(lens, pos)
    ensures Pick(w, VolumesInTurn(fold, prefixes, dir), lens, pos)
            == Best(w, lens, pos, |lens|) == Pick(w, None, lens, pos)
  {
    var turn := VolumesInTurn(fold, prefixes, dir);
    if turn.Some? {
      var folded := FoldPrefixes(fold, prefixes);
      BestIsForemost(w, fold, prefixes, dir, at, lens, pos, |lens|);
      FirstIsForemost(dir, folded, turn.value, lens, pos, 0);
      PickNone(w, turn, lens, pos);
      PickNone(w, None, lens, pos);
      var first, best := Pick(w, turn, lens, pos), Best(w, lens, pos, |lens|);
      if first.Some? && first.value != best.value {
        EarlierIsStrictTotal(dir, folded[first.value], folded[best.value]);
      }
    }
  }

  // -- the same pages -------------------------------------------------------------------------------

  lemma TakeInTurn(
    q: Query, w: World, fold: Fold, prefixes: seq<ByteString>, dir: Direction, at: Places, pos: seq<nat>)
    requires SplitsAtBackslash(fold) && ByPath(w, fold, prefixes, dir, at)
    requires |q.lens| == |prefixes| && q.turn == VolumesInTurn(fold, prefixes, dir) && Within(q.lens, pos)
    ensures TakeOne(q, w, pos) == TakeOne(q.(turn := None), w, pos)
  {
    hide ByPath, SplitsAtBackslash, VolumesInTurn, Pick, Best, Advance;
    TurnPicksBest(w, fold, prefixes, dir, at, q.lens, Skip(w, q.lens, pos));
  }

  lemma {:induction false} FillInTurn(
    q: Query, w: World, fold: Fold, prefixes: seq<ByteString>, dir: Direction, at: Places,
    pos: seq<nat>, taken: nat, bytes: nat)
    requires SplitsAtBackslash(fold) && ByPath(w, fold, prefixes, dir, at)
    requires |q.lens| == |prefixes| && q.turn == VolumesInTurn(fold, prefixes, dir) && Within(q.lens, pos)
    ensures Fill(q, w, pos, taken, bytes) == Fill(q.(turn := None), w, pos, taken, bytes)
    decreases Sum(q.lens) - Sum(pos)
  {
    hide ByPath, SplitsAtBackslash, VolumesInTurn, Pick, TakeOne, Sum, Ahead, Within, TakenRow;
    if !PageEnds(q, pos, taken, bytes) {
      TakeInTurn(q, w, fold, prefixes, dir, at, pos);
      TakeAdvances(q, w, pos);
      var t := TakeOne(q, w, pos);
      if t.Take? {
        var sends := Sends(q, w, Sum(t.pos), t.row);
        FillInTurn(q, w, fold, prefixes, dir, at, t.pos, taken + 1, if sends then bytes + w.size(t.row) else bytes);
      }
    }
  }

  /**
    * Taking volumes in turn sends the same pages, row for row and byte for byte, as comparing
    * all heads by their full keys, ascending and descending, whatever the rows and however
    * they change or go between pages.
    */
  lemma {:induction false} StreamInTurn(
    q: Query, worlds: nat -> World, taken: nat -> bool, fold: Fold, prefixes: seq<ByteString>, dir: Direction,
    at: nat -> Places, k: nat, pos: seq<nat>)
    requires SplitsAtBackslash(fold) && forall j :: ByPath(worlds(j), fold, prefixes, dir, at(j))
    requires |q.lens| == |prefixes| && q.turn == VolumesInTurn(fold, prefixes, dir)
    requires q.Ok() && Within(q.lens, pos)
    ensures Stream(q, worlds, taken, k, pos) == Stream(q.(turn := None), worlds, taken, k, pos)
    decreases Sum(q.lens) - Sum(pos)
  {
    hide ByPath, SplitsAtBackslash, VolumesInTurn, Fill, Sum;
    FillInTurn(q, worlds(k), fold, prefixes, dir, at(k), pos, 0, q.HeaderBytes());
    PosAfterMoves(q, worlds(k), pos);
    if taken(k) && PageOf(q, worlds(k), pos).more {
      StreamInTurn(q, worlds, taken, fold, prefixes, dir, at, k + 1, PosAfter(q, worlds(k), pos));
    }
  }

  /** In a path sort on which nothing changes, the turn agrees with the comparison at all positions. */
  lemma TurnIsSteady(
    q: Query, w: World, fold: Fold, prefixes: seq<ByteString>, dir: Direction, at: Places, le: Order,
    shown: Row -> bool)
    requires SplitsAtBackslash(fold) && ByPath(w, fold, prefixes, dir, at)
    requires |q.lens| == |prefixes| && q.turn == VolumesInTurn(fold, prefixes, dir)
    requires Settled(w, le) && forall row :: w.presentable(row) == shown(row)
    ensures Steady(q, w, le, shown)
  {
    hide ByPath, SplitsAtBackslash, VolumesInTurn, Pick, Best, Settled;
    forall pos | Within(q.lens, pos) ensures Pick(w, q.turn, q.lens, pos) == Best(w, q.lens, pos, |q.lens|) {
      TurnPicksBest(w, fold, prefixes, dir, at, q.lens, pos);
    }
  }

  /**
    * When nothing changes while the pages of a path sort are built, the rows sent are exactly the
    * rows from the offset to the limit of the stable merge by full key of all rows found, whether
    * the volumes are taken in turn or not.
    */
  lemma PathPagesAreStableMerge(
    found: seq<nat>, fold: Fold, prefixes: seq<ByteString>, dir: Direction, at: nat -> Places, offset: nat,
    limit: Option<nat>, totalSize: bool, worlds: nat -> World, taken: nat -> bool, le: Order, shown: Row -> bool,
    merged: seq<Row>)
    requires |found| == |prefixes| && forall r :: 0 <= r < |found| ==> found[r] <= U32_MAX
    requires SplitsAtBackslash(fold) && forall j :: ByPath(worlds(j), fold, prefixes, dir, at(j)) && taken(j)
    requires TotalPreorder(le) && SortedRuns(le, found) && StableMerge(le, found, merged)
    requires forall j :: Settled(worlds(j), le) && forall row :: worlds(j).presentable(row) == shown(row)
    ensures var turn, lens, n := VolumesInTurn(fold, prefixes, dir), RunLengths(found, offset, limit), |merged|;
            var q := QueryFor(lens, turn, offset, limit, totalSize);
            var lo := if offset < n then offset else n;
            var hi := if limit.None? || n < offset + limit.value then n else offset + limit.value;
            && ListsRuns(turn, |found|) && q.Ok() && Within(q.lens, Outset(|lens|)) && lo <= hi
            && AllRows(Stream(q, worlds, taken, 0, Outset(|lens|))) == Filter(shown, merged[lo..hi])
  {
    hide ByPath, SplitsAtBackslash, Settled, Steady, TotalPreorder, SortedRuns, StableMerge, Stream, AllRows, Filter;
    var turn, lens := VolumesInTurn(fold, prefixes, dir), RunLengths(found, offset, limit);
    var q := QueryFor(lens, turn, offset, limit, totalSize);
    forall j ensures Steady(q, worlds(j), le, shown) && taken(j) {
      assert ByPath(worlds(j), fold, prefixes, dir, at(j)) && Settled(worlds(j), le);
      TurnIsSteady(q, worlds(j), fold, prefixes, dir, at(j), le, shown);
    }
    PagesAreStableMerge(found, turn, offset, limit, totalSize, worlds, taken, le, shown, merged);
  }
}
