/**
  * How a name store lays its names out in two arenas. `names[id]` is the name an id
  * was interned as, kept here for dead ids too, and `rc[id]` its reference count:
  * together with the fold they determine every byte of both arenas.
  */
module NameArena {
  import opened Bytes

  /** Bit 31 of the offset of a raw reference: the bytes live in the folded arena. */
  const RAW_IN_FOLDED: nat := 0x8000_0000

  /** The longest name a 16-bit length holds. */
  const MAX_NAME: nat := 0xFFFF

  type Fold = ByteString -> ByteString

  /** A byte offset and length in an arena, the separator left out. */
  datatype NameRef = NameRef(off: nat, len: nat)

  /** The raw and the folded bytes of one name. */
  datatype NamePair = NamePair(raw: NameRef, folded: NameRef) {
    /** The raw bytes are the folded ones: one copy serves both. */
    predicate SharesFolded() {
      raw.off >= RAW_IN_FOLDED
    }
  }

  /** The bytes a reference names in an arena. */
  function Slice(arena: ByteString, r: NameRef): (s: ByteString)
    requires r.off + r.len <= |arena|
    ensures |s| == r.len
  {
    arena[r.off..r.off + r.len]
  }

  /** Names the store accepts: NUL-free, raw and folded, and short enough for a 16-bit length. */
  predicate Nameable(fold: Fold, name: ByteString) {
    && NulFree(name) && NulFree(fold(name))
    && |name| <= MAX_NAME && |fold(name)| <= MAX_NAME
  }

  // -- cells ------------------------------------------------------------------------

  /** The folded bytes of a name and their separator, zero-filled once the name is dead. */
  function FoldedCell(fold: Fold, name: ByteString, live: bool): ByteString {
    (if live then fold(name) else Zeros(|fold(name)|)) + [0]
  }

  /** What a name adds to the raw arena: nothing when it folds to itself. */
  function RawCell(fold: Fold, name: ByteString, live: bool): ByteString {
    if fold(name) == name then [] else (if live then name else Zeros(|name|)) + [0]
  }

  function FoldedCells(fold: Fold, names: seq<ByteString>, rc: seq<nat>): (cells: seq<ByteString>)
    requires |names| == |rc|
    ensures |cells| == |names|
    ensures forall i :: 0 <= i < |names| ==> cells[i] == FoldedCell(fold, names[i], rc[i] > 0)
  {
    seq(|names|, i requires 0 <= i < |names| => FoldedCell(fold, names[i], rc[i] > 0))
  }

  function RawCells(fold: Fold, names: seq<ByteString>, rc: seq<nat>): (cells: seq<ByteString>)
    requires |names| == |rc|
    ensures |cells| == |names|
    ensures forall i :: 0 <= i < |names| ==> cells[i] == RawCell(fold, names[i], rc[i] > 0)
  {
    seq(|names|, i requires 0 <= i < |names| => RawCell(fold, names[i], rc[i] > 0))
  }

  /** The references of name `i` in arenas of these cells. */
  function PairOf(fold: Fold, name: ByteString, foldedOff: nat, rawOff: nat): NamePair {
    var folded := NameRef(foldedOff, |fold(name)|);
    if fold(name) == name then NamePair(NameRef(foldedOff + RAW_IN_FOLDED, folded.len), folded)
    else NamePair(NameRef(rawOff, |name|), folded)
  }

  /** The two arenas and the table of references. */
  datatype Arenas = Arenas(raw: ByteString, folded: ByteString, pairs: seq<NamePair>) {

    /** The arenas hold exactly the cells of `names`, in id order, each arena at most 2 GiB. */
    ghost predicate Lay(fold: Fold, names: seq<ByteString>, rc: seq<nat>) {
      && |names| == |rc| == |pairs|
      && (forall i {:trigger Nameable(fold, names[i])} :: 0 <= i < |names| ==> Nameable(fold, names[i]))
      && folded == Flat(FoldedCells(fold, names, rc))
      && raw == Flat(RawCells(fold, names, rc))
      && |folded| <= RAW_IN_FOLDED && |raw| <= RAW_IN_FOLDED
      && forall i {:trigger PairFits(fold, names, rc, i)} :: 0 <= i < |pairs| ==> PairFits(fold, names, rc, i)
    }

    /** The references of `i` name its cells. */
    ghost predicate PairFits(fold: Fold, names: seq<ByteString>, rc: seq<nat>, i: nat)
      requires i < |names| == |rc| == |pairs|
    {
      pairs[i] == PairOf(fold, names[i], Start(FoldedCells(fold, names, rc), i), Start(RawCells(fold, names, rc), i))
    }

    /** The folded reference of `i` is its folded cell without the separator. */
    ghost predicate FoldedFits(fold: Fold, names: seq<ByteString>, rc: seq<nat>, i: nat)
      requires i < |names| == |rc| == |pairs|
    {
      pairs[i].folded == NameRef(Start(FoldedCells(fold, names, rc), i), |fold(names[i])|)
    }

    predicate InBounds(id: nat) {
      && id < |pairs|
      && pairs[id].folded.off + pairs[id].folded.len <= |folded|
      && if pairs[id].SharesFolded()
         then pairs[id].raw.off - RAW_IN_FOLDED + pairs[id].raw.len <= |folded|
         else pairs[id].raw.off + pairs[id].raw.len <= |raw|
    }

    function FoldedBytes(id: nat): ByteString
      requires InBounds(id)
    {
      Slice(folded, pairs[id].folded)
    }

    function RawBytes(id: nat): ByteString
      requires InBounds(id)
    {
      var r := pairs[id].raw;
      if pairs[id].SharesFolded() then Slice(folded, r.(off := r.off - RAW_IN_FOLDED)) else Slice(raw, r)
    }
  }

  /** Where a name lies: inside the arenas, its separator right after it. */
  lemma NameInBounds(a: Arenas, fold: Fold, names: seq<ByteString>, rc: seq<nat>, id: nat)
    requires a.Lay(fold, names, rc) && id < |names|
    ensures a.InBounds(id)
    ensures a.pairs[id].folded.off + a.pairs[id].folded.len < |a.folded|
    ensures a.pairs[id].SharesFolded() <==> fold(names[id]) == names[id]
    ensures !a.pairs[id].SharesFolded() ==> a.pairs[id].raw.off + a.pairs[id].raw.len < |a.raw|
  {
    assert a.PairFits(fold, names, rc, id);
    FlatSplit(FoldedCells(fold, names, rc), id);
    FlatSplit(RawCells(fold, names, rc), id);
  }

  lemma FoldedReads(a: Arenas, fold: Fold, names: seq<ByteString>, rc: seq<nat>, id: nat)
    requires |names| == |rc| == |a.pairs| && id < |names| && rc[id] > 0
    requires a.folded == Flat(FoldedCells(fold, names, rc)) && a.FoldedFits(fold, names, rc, id)
    ensures var f := a.pairs[id].folded; f.off + f.len < |a.folded| && Slice(a.folded, f) == fold(names[id])
  {
    CellReads(FoldedCells(fold, names, rc), id, fold(names[id]));
  }

  lemma RawReads(a: Arenas, fold: Fold, names: seq<ByteString>, rc: seq<nat>, id: nat)
    requires |names| == |rc| == |a.pairs| && id < |names| && rc[id] > 0 && fold(names[id]) != names[id]
    requires a.raw == Flat(RawCells(fold, names, rc)) && a.PairFits(fold, names, rc, id)
    ensures var r := a.pairs[id].raw; r.off + r.len < |a.raw| && Slice(a.raw, r) == names[id]
  {
    CellReads(RawCells(fold, names, rc), id, names[id]);
  }

  /** A live name reads back as it was interned, raw and folded. */
  lemma LiveNameReads(a: Arenas, fold: Fold, names: seq<ByteString>, rc: seq<nat>, id: nat)
    requires a.Lay(fold, names, rc) && id < |names| && rc[id] > 0
    ensures a.InBounds(id) && a.RawBytes(id) == names[id] && a.FoldedBytes(id) == fold(names[id])
  {
    NameInBounds(a, fold, names, rc, id);
    assert a.PairFits(fold, names, rc, id);
    FoldedReads(a, fold, names, rc, id);
    if fold(names[id]) != names[id] {
      RawReads(a, fold, names, rc, id);
    }
  }

  lemma CellsAscend(fold: Fold, names: seq<ByteString>, rc: seq<nat>, i: nat, j: nat)
    requires i < j < |names| == |rc|
    ensures Start(FoldedCells(fold, names, rc), i) + |fold(names[i])| < Start(FoldedCells(fold, names, rc), j)
  {
    var cells := FoldedCells(fold, names, rc);
    StartStep(cells, i);
    StartMonotone(cells, i + 1, j);
  }

  /** Folded offsets ascend with the id, and names do not overlap. */
  lemma OffsetsAscend(a: Arenas, fold: Fold, names: seq<ByteString>, rc: seq<nat>, i: nat, j: nat)
    requires a.Lay(fold, names, rc) && i < j < |names|
    ensures a.pairs[i].folded.off + a.pairs[i].folded.len < a.pairs[j].folded.off
  {
    assert a.PairFits(fold, names, rc, i) && a.PairFits(fold, names, rc, j);
    hide Arenas.Lay, FoldedCells, RawCells, Start;
    CellsAscend(fold, names, rc, i, j);
  }

  // -- the contiguous scan ------------------------------------------------------------

  /** The hit at `k` lies inside the folded slice of the live name `id`. */
  ghost predicate HitIn(a: Arenas, rc: seq<nat>, needle: ByteString, k: nat, id: nat) {
    && id < |a.pairs| == |rc|
    && rc[id] > 0
    && a.InBounds(id)
    && a.pairs[id].folded.off <= k
    && OccursAt(a.FoldedBytes(id), needle, k - a.pairs[id].folded.off)
  }

  /**
    * A NUL-free needle occurs in the folded arena at `k` exactly when it occurs there
    * inside the folded bytes of a live name: never across a separator, never in a dead name.
    */
  lemma ScanExact(a: Arenas, fold: Fold, names: seq<ByteString>, rc: seq<nat>, needle: ByteString, k: nat)
    requires a.Lay(fold, names, rc) && needle != [] && NulFree(needle)
    ensures OccursAt(a.folded, needle, k) <==> exists id: nat :: HitIn(a, rc, needle, k, id)
  {
    if OccursAt(a.folded, needle, k) {
      var id := ScanFinds(a, fold, names, rc, needle, k);
      assert HitIn(a, rc, needle, k, id);
    }
    forall id: nat | HitIn(a, rc, needle, k, id) ensures OccursAt(a.folded, needle, k) {
      var f := a.pairs[id].folded;
      OccursInPart(a.folded, f.off, f.off + f.len, needle, k);
    }
  }

  /** At most one name holds a hit. */
  lemma ScanUnique(a: Arenas, fold: Fold, names: seq<ByteString>, rc: seq<nat>, needle: ByteString, k: nat, i: nat,
    j: nat)
    requires a.Lay(fold, names, rc) && needle != []
    requires HitIn(a, rc, needle, k, i) && HitIn(a, rc, needle, k, j)
    ensures i == j
  {
    if i < j {
      OffsetsAscend(a, fold, names, rc, i, j);
    } else if j < i {
      OffsetsAscend(a, fold, names, rc, j, i);
    }
  }

  lemma ScanFinds(a: Arenas, fold: Fold, names: seq<ByteString>, rc: seq<nat>, needle: ByteString, k: nat)
    returns (id: nat)
    requires a.Lay(fold, names, rc) && needle != [] && NulFree(needle)
    requires OccursAt(a.folded, needle, k)
    ensures HitIn(a, rc, needle, k, id)
  {
    var bodies := seq(|names|, i requires 0 <= i < |names| =>
      if rc[i] > 0 then fold(names[i]) else Zeros(|fold(names[i])|));
    id := OccursInCell(FoldedCells(fold, names, rc), bodies, needle, k);
    assert rc[id] > 0 by {
      NotInZeros(|fold(names[id])|, needle, k - Start(FoldedCells(fold, names, rc), id));
    }
    NameInBounds(a, fold, names, rc, id);
    assert a.PairFits(fold, names, rc, id);
    FoldedReads(a, fold, names, rc, id);
  }

  lemma NotInZeros(n: nat, needle: ByteString, k: nat)
    requires needle != [] && NulFree(needle)
    ensures !OccursAt(Zeros(n), needle, k)
  {
    if k + |needle| <= n {
      assert Zeros(n)[k..k + |needle|][0] == 0;
    }
  }

  // -- how the layout changes -------------------------------------------------------

  /** The arenas with one more live name at the end. */
  function Push(a: Arenas, fold: Fold, name: ByteString): Arenas {
    Arenas(
      if fold(name) == name then a.raw else a.raw + name + [0],
      a.folded + fold(name) + [0],
      a.pairs + [PairOf(fold, name, |a.folded|, |a.raw|)])
  }

  /** Both arenas have room for one more name below 2 GiB. */
  predicate HasRoom(a: Arenas, fold: Fold, name: ByteString) {
    && |a.folded| + |fold(name)| + 1 <= RAW_IN_FOLDED
    && (fold(name) == name || |a.raw| + |name| + 1 <= RAW_IN_FOLDED)
  }

  lemma CellsAppend(fold: Fold, names: seq<ByteString>, rc: seq<nat>, name: ByteString, count: nat)
    requires |names| == |rc| && count > 0
    ensures FoldedCells(fold, names + [name], rc + [count]) == FoldedCells(fold, names, rc) + [fold(name) + [0]]
    ensures RawCells(fold, names + [name], rc + [count])
            == RawCells(fold, names, rc) + [if fold(name) == name then [] else name + [0]]
  {
  }

  lemma LayPush(a: Arenas, fold: Fold, names: seq<ByteString>, rc: seq<nat>, name: ByteString, count: nat)
    requires a.Lay(fold, names, rc) && Nameable(fold, name) && HasRoom(a, fold, name) && count > 0
    ensures Push(a, fold, name).Lay(fold, names + [name], rc + [count])
  {
    var b, names', rc' := Push(a, fold, name), names + [name], rc + [count];
    var fcells, rcells := FoldedCells(fold, names, rc), RawCells(fold, names, rc);
    var fcells', rcells' := FoldedCells(fold, names', rc'), RawCells(fold, names', rc');
    CellsAppend(fold, names, rc, name, count);
    FlatAppend(fcells, fold(name) + [0]);
    FlatAppend(rcells, if fold(name) == name then [] else name + [0]);
    forall i | 0 <= i < |b.pairs| ensures b.PairFits(fold, names', rc', i) {
      assert fcells'[..i] == fcells[..i] && rcells'[..i] == rcells[..i];
      if i < |a.pairs| {
        assert a.PairFits(fold, names, rc, i);
      } else {
        assert fcells[..i] == fcells && rcells[..i] == rcells;
      }
    }
  }

  /** Counting references of a name that stays live moves no byte. */
  lemma LayRecount(a: Arenas, fold: Fold, names: seq<ByteString>, rc: seq<nat>, id: nat, count: nat)
    requires a.Lay(fold, names, rc) && id < |rc| && rc[id] > 0 && count > 0
    ensures a.Lay(fold, names, rc[id := count])
  {
    assert FoldedCells(fold, names, rc[id := count]) == FoldedCells(fold, names, rc);
    assert RawCells(fold, names, rc[id := count]) == RawCells(fold, names, rc);
    var rc' := rc[id := count];
    forall i | 0 <= i < |a.pairs| ensures a.PairFits(fold, names, rc', i) {
      assert a.PairFits(fold, names, rc, i);
    }
  }

  /** The arena with the bytes of a reference zero-filled. */
  function Blank(arena: ByteString, r: NameRef): (b: ByteString)
    requires r.off + r.len <= |arena|
    ensures |b| == |arena|
  {
    arena[..r.off] + Zeros(r.len) + arena[r.off + r.len..]
  }

  /** The arenas once the last reference to `id` is gone. */
  function Kill(a: Arenas, id: nat): (b: Arenas)
    requires a.InBounds(id)
    ensures b.pairs == a.pairs
  {
    var pair := a.pairs[id];
    Arenas(if pair.SharesFolded() then a.raw else Blank(a.raw, pair.raw), Blank(a.folded, pair.folded), a.pairs)
  }

  /** Zero-filling a cell's body is the arena of the cells with that cell zero-filled. */
  lemma BlankCell(cells: seq<ByteString>, i: nat, body: ByteString)
    requires i < |cells| && cells[i] == body + [0]
    ensures Start(cells, i) + |body| < |Flat(cells)|
    ensures Flat(cells[i := Zeros(|body|) + [0]]) == Blank(Flat(cells), NameRef(Start(cells, i), |body|))
  {
    CellReads(cells, i, body);
    FlatUpdate(cells, i, Zeros(|body|) + [0]);
  }

  lemma CellsKill(fold: Fold, names: seq<ByteString>, rc: seq<nat>, id: nat)
    requires id < |rc| == |names| && rc[id] > 0
    ensures FoldedCells(fold, names, rc[id := 0])
            == FoldedCells(fold, names, rc)[id := FoldedCell(fold, names[id], false)]
    ensures RawCells(fold, names, rc[id := 0]) == RawCells(fold, names, rc)[id := RawCell(fold, names[id], false)]
  {
  }

  lemma PairsKill(a: Arenas, fold: Fold, names: seq<ByteString>, rc: seq<nat>, id: nat, i: nat)
    requires |names| == |rc| == |a.pairs| && id < |rc| && rc[id] > 0
    requires i < |a.pairs| && a.PairFits(fold, names, rc, i)
    ensures a.PairFits(fold, names, rc[id := 0], i)
  {
    CellsKill(fold, names, rc, id);
    StartUpdate(FoldedCells(fold, names, rc), id, FoldedCell(fold, names[id], false), i);
    StartUpdate(RawCells(fold, names, rc), id, RawCell(fold, names[id], false), i);
  }

  lemma BytesKill(a: Arenas, fold: Fold, names: seq<ByteString>, rc: seq<nat>, id: nat)
    requires a.Lay(fold, names, rc) && id < |rc| && rc[id] > 0 && a.InBounds(id)
    ensures Kill(a, id).folded == Flat(FoldedCells(fold, names, rc[id := 0]))
    ensures Kill(a, id).raw == Flat(RawCells(fold, names, rc[id := 0]))
  {
    assert a.PairFits(fold, names, rc, id);
    var name, rcells := names[id], RawCells(fold, names, rc);
    CellsKill(fold, names, rc, id);
    BlankCell(FoldedCells(fold, names, rc), id, fold(name));
    if fold(name) == name {
      assert rcells[id := []] == rcells;
    } else {
      BlankCell(rcells, id, name);
      FlatSplit(rcells, id);
    }
  }

  lemma LayKill(a: Arenas, fold: Fold, names: seq<ByteString>, rc: seq<nat>, id: nat)
    requires a.Lay(fold, names, rc) && id < |rc| && rc[id] > 0
    ensures a.InBounds(id) && Kill(a, id).Lay(fold, names, rc[id := 0])
  {
    NameInBounds(a, fold, names, rc, id);
    BytesKill(a, fold, names, rc, id);
    var b, rc' := Kill(a, id), rc[id := 0];
    forall i | 0 <= i < |b.pairs| ensures b.PairFits(fold, names, rc', i) {
      assert a.PairFits(fold, names, rc, i);
      PairsKill(a, fold, names, rc, id, i);
    }
  }

  // -- garbage -------------------------------------------------------------------------

  /** The arena bytes one name takes, separators included. */
  function CellBytes(fold: Fold, name: ByteString): nat {
    |fold(name)| + 1 + if fold(name) == name then 0 else |name| + 1
  }

  /** The arena bytes of the names below `n` that are live (or dead). */
  function BytesOf(fold: Fold, names: seq<ByteString>, rc: seq<nat>, live: bool, n: nat): nat
    requires n <= |names| == |rc|
  {
    if n == 0 then 0 else
    BytesOf(fold, names, rc, live, n - 1) + if (rc[n - 1] > 0) == live then CellBytes(fold, names[n - 1]) else 0
  }

  lemma {:induction false} BytesOfAll(fold: Fold, names: seq<ByteString>, rc: seq<nat>, n: nat)
    requires n <= |names| == |rc|
    ensures Start(FoldedCells(fold, names, rc), n) + Start(RawCells(fold, names, rc), n)
            == BytesOf(fold, names, rc, true, n) + BytesOf(fold, names, rc, false, n)
  {
    if n > 0 {
      BytesOfAll(fold, names, rc, n - 1);
      var fcells, rcells := FoldedCells(fold, names, rc), RawCells(fold, names, rc);
      StartStep(fcells, n - 1);
      StartStep(rcells, n - 1);
      assert |fcells[n - 1]| + |rcells[n - 1]| == CellBytes(fold, names[n - 1]);
    }
  }

  /** The two arenas hold the live bytes and the dead ones. */
  lemma ArenaBytes(a: Arenas, fold: Fold, names: seq<ByteString>, rc: seq<nat>)
    requires a.Lay(fold, names, rc)
    ensures |a.raw| + |a.folded| == BytesOf(fold, names, rc, true, |rc|) + BytesOf(fold, names, rc, false, |rc|)
  {
    BytesOfAll(fold, names, rc, |rc|);
    assert FoldedCells(fold, names, rc)[..|rc|] == FoldedCells(fold, names, rc);
    assert RawCells(fold, names, rc)[..|rc|] == RawCells(fold, names, rc);
  }

  lemma {:induction false} BytesOfPrefix(fold: Fold, names: seq<ByteString>, rc: seq<nat>, name: ByteString,
    count: nat, live: bool, n: nat)
    requires n <= |names| == |rc|
    ensures BytesOf(fold, names + [name], rc + [count], live, n) == BytesOf(fold, names, rc, live, n)
  {
    if n > 0 {
      BytesOfPrefix(fold, names, rc, name, count, live, n - 1);
    }
  }

  /** One more live name adds its bytes to the live ones and none to the dead ones. */
  lemma BytesOfGrow(fold: Fold, names: seq<ByteString>, rc: seq<nat>, name: ByteString, count: nat, live: bool)
    requires |names| == |rc| && count > 0
    ensures BytesOf(fold, names + [name], rc + [count], live, |names| + 1)
            == BytesOf(fold, names, rc, live, |names|) + if live then CellBytes(fold, name) else 0
  {
    BytesOfPrefix(fold, names, rc, name, count, live, |names|);
  }

  /** The dead bytes grow by exactly the bytes of a name that dies. */
  lemma {:induction false} BytesOfRecount(fold: Fold, names: seq<ByteString>, rc: seq<nat>, id: nat, count: nat, n: nat)
    requires n <= |names| == |rc| && id < |rc| && rc[id] > 0
    ensures BytesOf(fold, names, rc[id := count], false, n)
            == BytesOf(fold, names, rc, false, n) + if id < n && count == 0 then CellBytes(fold, names[id]) else 0
  {
    if n > 0 {
      BytesOfRecount(fold, names, rc, id, count, n - 1);
    }
  }
}
