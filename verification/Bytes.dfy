/**
  * Byte strings: the lexicographic order of byte slices, NUL-freedom, substring
  * occurrence, and arenas that hold a sequence of cells end to end.
  */
module Bytes {

  type Byte = i: int | 0 <= i < 256
  type ByteString = seq<Byte>

  /** The byte that closes a folder path. */
  const BACKSLASH: Byte := 0x5C

  predicate NulFree(s: ByteString) {
    forall k :: 0 <= k < |s| ==> s[k] != 0
  }

  function Zeros(n: nat): (z: ByteString)
    ensures |z| == n && forall k :: 0 <= k < n ==> z[k] == 0
  {
    seq(n, _ => 0)
  }

  // -- lexicographic order ----------------------------------------------------

  /** `a` sorts strictly before `b`, bytes compared left to right, a proper prefix first. */
  predicate Less(a: ByteString, b: ByteString) {
    b != [] && (a == [] || a[0] < b[0] || (a[0] == b[0] && Less(a[1..], b[1..])))
  }

  lemma {:induction false} LessTrichotomy(a: ByteString, b: ByteString)
    ensures Less(a, b) || a == b || Less(b, a)
    ensures !(Less(a, b) && Less(b, a))
    ensures a == b ==> !Less(a, b)
  {
    if a != [] && b != [] {
      LessTrichotomy(a[1..], b[1..]);
      if a[0] == b[0] && a[1..] == b[1..] {
        assert a == [a[0]] + a[1..] && b == [b[0]] + b[1..];
      }
    }
  }

  lemma {:induction false} LessTransitive(a: ByteString, b: ByteString, c: ByteString)
    requires Less(a, b) && Less(b, c)
    ensures Less(a, c)
  {
    if a != [] && a[0] == b[0] && b[0] == c[0] {
      LessTransitive(a[1..], b[1..], c[1..]);
    }
  }

  /** Neither string starts the other, so what follows them cannot change their order. */
  lemma {:induction false} LessIgnoresSuffix(a: ByteString, b: ByteString, x: ByteString, y: ByteString)
    requires !(a <= b) && !(b <= a)
    ensures Less(a + x, b + y) <==> Less(a, b)
  {
    if a[0] == b[0] {
      assert (a + x)[1..] == a[1..] + x && (b + y)[1..] == b[1..] + y;
      assert !(a[1..] <= b[1..]) && !(b[1..] <= a[1..]);
      LessIgnoresSuffix(a[1..], b[1..], x, y);
    }
  }

  // -- substring occurrence -----------------------------------------------------

  /** `needle` occurs in `s` at position `k`. */
  predicate OccursAt(s: ByteString, needle: ByteString, k: nat) {
    k + |needle| <= |s| && s[k..k + |needle|] == needle
  }

  // -- arenas -------------------------------------------------------------------

  /** The cells end to end. */
  function Flat(cells: seq<ByteString>): ByteString {
    if cells == [] then [] else Flat(cells[..|cells| - 1]) + cells[|cells| - 1]
  }

  /** Where cell `i` begins in the arena. */
  function Start(cells: seq<ByteString>, i: nat): nat
    requires i <= |cells|
  {
    |Flat(cells[..i])|
  }

  lemma FlatAppend(cells: seq<ByteString>, c: ByteString)
    ensures Flat(cells + [c]) == Flat(cells) + c
  {
    assert (cells + [c])[..|cells|] == cells;
  }

  /** Cell `i + 1` begins where cell `i` ends. */
  lemma StartStep(cells: seq<ByteString>, i: nat)
    requires i < |cells|
    ensures Start(cells, i + 1) == Start(cells, i) + |cells[i]|
  {
    assert cells[..i + 1] == cells[..i] + [cells[i]];
    FlatAppend(cells[..i], cells[i]);
  }

  /** An arena is what precedes cell `i`, the cell, and the rest. */
  lemma {:induction false} FlatSplit(cells: seq<ByteString>, i: nat)
    requires i < |cells|
    ensures Start(cells, i) + |cells[i]| <= |Flat(cells)|
    ensures Flat(cells)[..Start(cells, i)] == Flat(cells[..i])
    ensures Flat(cells)[Start(cells, i)..Start(cells, i) + |cells[i]|] == cells[i]
    decreases |cells|
  {
    var last := |cells| - 1;
    if i == last {
      assert cells[..i] == cells[..last];
    } else {
      FlatSplit(cells[..last], i);
      assert cells[..last][..i] == cells[..i];
    }
  }

  /** Replacing a cell by one of the same length rewrites its bytes and moves no other cell. */
  lemma {:induction false} FlatUpdate(cells: seq<ByteString>, i: nat, c: ByteString)
    requires i < |cells| && |c| == |cells[i]|
    ensures Start(cells, i) + |c| <= |Flat(cells)|
    ensures Flat(cells[i := c]) == Flat(cells)[..Start(cells, i)] + c + Flat(cells)[Start(cells, i) + |c|..]
    decreases |cells|
  {
    var last := |cells| - 1;
    if i == last {
      assert cells[i := c][..last] == cells[..last];
      assert cells[..i] == cells[..last];
    } else {
      FlatUpdate(cells[..last], i, c);
      assert cells[i := c][..last] == cells[..last][i := c];
      assert cells[..last][..i] == cells[..i];
    }
  }

  /** `FlatUpdate` keeps the start of every cell. */
  lemma StartUpdate(cells: seq<ByteString>, i: nat, c: ByteString, j: nat)
    requires i < |cells| && |c| == |cells[i]| && j <= |cells|
    ensures Start(cells[i := c], j) == Start(cells, j)
  {
    if i < j {
      assert cells[i := c][..j] == cells[..j][i := c];
      FlatUpdate(cells[..j], i, c);
    } else {
      assert cells[i := c][..j] == cells[..j];
    }
  }

  lemma {:induction false} StartMonotone(cells: seq<ByteString>, i: nat, j: nat)
    requires i <= j <= |cells|
    ensures Start(cells, i) <= Start(cells, j)
    decreases j
  {
    if i < j {
      StartStep(cells, j - 1);
      StartMonotone(cells, i, j - 1);
    }
  }

  /** Every byte of an arena lies in a cell. */
  lemma {:induction false} Locate(cells: seq<ByteString>, k: nat) returns (i: nat)
    requires k < |Flat(cells)|
    ensures i < |cells| && Start(cells, i) <= k < Start(cells, i) + |cells[i]|
    decreases |cells|
  {
    var last := |cells| - 1;
    if k < |Flat(cells[..last])| {
      i := Locate(cells[..last], k);
      assert cells[..last][..i] == cells[..i];
    } else {
      i := last;
    }
  }

  /** A cell that is `body` and its separator: the arena reads `body` where the cell begins, then 0. */
  lemma CellReads(cells: seq<ByteString>, i: nat, body: ByteString)
    requires i < |cells| && cells[i] == body + [0]
    ensures Start(cells, i) + |body| < |Flat(cells)|
    ensures Flat(cells)[Start(cells, i)..Start(cells, i) + |body|] == body
    ensures Flat(cells)[Start(cells, i) + |body|] == 0
  {
    FlatSplit(cells, i);
    var arena, off := Flat(cells), Start(cells, i);
    assert arena[off..off + |body|] == arena[off..off + |body| + 1][..|body|];
    assert arena[off + |body|] == arena[off..off + |body| + 1][|body|];
  }

  /** What occurs inside a part of a string occurs in the string, and the other way round. */
  lemma OccursInPart(s: ByteString, lo: nat, hi: nat, needle: ByteString, k: nat)
    requires lo <= k && k + |needle| <= hi <= |s|
    ensures OccursAt(s[lo..hi], needle, k - lo) <==> OccursAt(s, needle, k)
  {
    var part := s[lo..hi];
    var inner, outer := part[k - lo..k - lo + |needle|], s[k..k + |needle|];
    forall m | 0 <= m < |needle| ensures inner[m] == outer[m] {
      assert inner[m] == part[k - lo + m] == s[k + m];
    }
    assert inner == outer;
  }

  /** A NUL-free string that occurs at `k` covers no zero byte. */
  lemma OccursClearOfZero(s: ByteString, needle: ByteString, k: nat, z: nat)
    requires OccursAt(s, needle, k) && NulFree(needle) && z < |s| && s[z] == 0
    ensures z < k || k + |needle| <= z
  {
    var found := s[k..k + |needle|];
    assert forall m :: 0 <= m < |found| ==> found[m] != 0;
  }

  /** In an arena of separated cells a NUL-free string occurs only inside one cell. */
  lemma OccursInCell(cells: seq<ByteString>, bodies: seq<ByteString>, needle: ByteString, k: nat) returns (i: nat)
    requires |cells| == |bodies| && forall j :: 0 <= j < |cells| ==> cells[j] == bodies[j] + [0]
    requires needle != [] && NulFree(needle) && OccursAt(Flat(cells), needle, k)
    ensures i < |cells| && Start(cells, i) <= k && OccursAt(bodies[i], needle, k - Start(cells, i))
  {
    i := Locate(cells, k);
    CellReads(cells, i, bodies[i]);
    var off := Start(cells, i);
    OccursClearOfZero(Flat(cells), needle, k, off + |bodies[i]|);
    OccursInPart(Flat(cells), off, off + |bodies[i]|, needle, k);
  }
}
