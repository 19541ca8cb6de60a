/**
  * Compaction on values: the live ids keep their names, counts and heads and are
  * renumbered without gaps; the order and the waiting list are renumbered with them.
  */
module NameCompaction {
  import opened Bytes
  import opened NameOrder

  /** "No id" and "no entry": `u32::MAX`. */
  const NIL: nat := 0xFFFF_FFFF

  /** The elements of `s` at `ids`. */
  function Pick<T>(s: seq<T>, ids: seq<nat>): (r: seq<T>)
    requires InRange(|s|, ids)
    ensures |r| == |ids| && forall k :: 0 <= k < |ids| ==> r[k] == s[ids[k]]
  {
    seq(|ids|, k requires 0 <= k < |ids| => s[ids[k]])
  }

  /** Every id of the store that survives, ascending. */
  function Kept(rc: seq<nat>): seq<nat> {
    LiveIds(rc, |rc|)
  }

  /** A live id becomes the number of live ids before it, a dead one `NIL`. */
  ghost predicate IsRemap(rc: seq<nat>, remap: seq<nat>) {
    && |remap| == |rc| <= NIL
    && forall i {:trigger remap[i]} :: 0 <= i < |rc| ==> remap[i] == if rc[i] > 0 then |LiveIds(rc, i)| else NIL
  }

  lemma {:induction false} LiveIdsCount(rc: seq<nat>, n: nat)
    requires n <= |rc|
    ensures |LiveIds(rc, n)| <= n
  {
    if n > 0 { LiveIdsCount(rc, n - 1); }
  }

  lemma {:induction false} LiveIdsPrefix(rc: seq<nat>, i: nat, n: nat)
    requires i <= n <= |rc|
    ensures LiveIds(rc, i) <= LiveIds(rc, n)
    decreases n
  {
    if i < n { LiveIdsPrefix(rc, i, n - 1); }
  }

  /** A live id is listed after the live ids before it. */
  lemma LiveIdsAt(rc: seq<nat>, i: nat, n: nat)
    requires i < n <= |rc| && rc[i] > 0
    ensures |LiveIds(rc, i)| < |LiveIds(rc, n)| && LiveIds(rc, n)[|LiveIds(rc, i)|] == i
  {
    var next := LiveIds(rc, i + 1);
    assert next == LiveIds(rc, i) + [i];
    LiveIdsPrefix(rc, i + 1, n);
    assert next[|LiveIds(rc, i)|] == i;
  }

  /** The new id of a live id is the one its data moved to. */
  lemma RemapFinds(rc: seq<nat>, remap: seq<nat>, i: nat)
    requires IsRemap(rc, remap) && i < |rc| && rc[i] > 0
    ensures remap[i] < |Kept(rc)| && Kept(rc)[remap[i]] == i && remap[i] != NIL
  {
    LiveIdsAt(rc, i, |rc|);
    LiveIdsCount(rc, i);
  }

  /** Renumbering keeps the order of live ids, so two of them never meet. */
  lemma RemapMonotone(rc: seq<nat>, remap: seq<nat>, i: nat, j: nat)
    requires IsRemap(rc, remap) && i < j < |rc| && rc[i] > 0 && rc[j] > 0
    ensures remap[i] < remap[j]
  {
    LiveIdsAt(rc, i, j);
  }

  /** Every new id comes from one old live id. */
  lemma RemapCovers(rc: seq<nat>, remap: seq<nat>, k: nat)
    requires IsRemap(rc, remap) && k < |Kept(rc)|
    ensures Kept(rc)[k] < |rc| && rc[Kept(rc)[k]] > 0 && remap[Kept(rc)[k]] == k
  {
    LiveIdsAscend(rc, |rc|);
    RemapFinds(rc, remap, Kept(rc)[k]);
  }

  /** The ids of a list that survive, renumbered. */
  function Renumber(ids: seq<nat>, remap: seq<nat>): seq<nat>
    requires InRange(|remap|, ids)
  {
    if ids == [] then [] else
    var rest := Renumber(ids[..|ids| - 1], remap);
    var n := remap[ids[|ids| - 1]];
    if n != NIL then rest + [n] else rest
  }

  /** A renumbered list holds the new ids of the live ids of the list, and only those. */
  lemma {:induction false} RenumberHolds(rc: seq<nat>, ids: seq<nat>, remap: seq<nat>, i: nat)
    requires IsRemap(rc, remap) && InRange(|rc|, ids) && i < |rc| && rc[i] > 0
    ensures remap[i] in Renumber(ids, remap) <==> i in ids
    decreases |ids|
  {
    if ids != [] {
      var last := |ids| - 1;
      RenumberHolds(rc, ids[..last], remap, i);
      assert ids == ids[..last] + [ids[last]];
      RemapFinds(rc, remap, i);
      if rc[ids[last]] > 0 {
        RemapFinds(rc, remap, ids[last]);
      }
    }
  }

  /** Every element of a renumbered list is the new id of a live id of the list. */
  lemma {:induction false} RenumberFrom(rc: seq<nat>, ids: seq<nat>, remap: seq<nat>, k: nat) returns (p: nat)
    requires IsRemap(rc, remap) && InRange(|rc|, ids) && k < |Renumber(ids, remap)|
    ensures p < |ids| && rc[ids[p]] > 0 && remap[ids[p]] == Renumber(ids, remap)[k]
    decreases |ids|
  {
    var last := |ids| - 1;
    if k < |Renumber(ids[..last], remap)| {
      p := RenumberFrom(rc, ids[..last], remap, k);
    } else {
      p := last;
    }
  }

  /** Folded order and ties by id both survive renumbering. */
  lemma BeforeRemap(keys: seq<ByteString>, rc: seq<nat>, remap: seq<nat>, a: nat, b: nat)
    requires |keys| == |rc| && IsRemap(rc, remap)
    requires a < |rc| && b < |rc| && rc[a] > 0 && rc[b] > 0 && Before(keys, a, b)
    ensures remap[a] < |Kept(rc)| && remap[b] < |Kept(rc)|
    ensures Before(Pick(keys, Kept(rc)), remap[a], remap[b])
  {
    RemapFinds(rc, remap, a);
    RemapFinds(rc, remap, b);
    if a < b { RemapMonotone(rc, remap, a, b); }
  }

  /** A renumbered sorted list is sorted and holds only live ids. */
  lemma {:induction false} RenumberSorted(keys: seq<ByteString>, rc: seq<nat>, ids: seq<nat>, remap: seq<nat>)
    requires |keys| == |rc| && IsRemap(rc, remap) && Sorted(keys, ids)
    ensures Sorted(Pick(keys, Kept(rc)), Renumber(ids, remap))
    ensures AllLive(Pick(rc, Kept(rc)), Renumber(ids, remap))
    decreases |ids|
  {
    if ids != [] {
      var last := |ids| - 1;
      var r, rest, keys' := Renumber(ids, remap), Renumber(ids[..last], remap), Pick(keys, Kept(rc));
      RenumberSorted(keys, rc, ids[..last], remap);
      if rc[ids[last]] > 0 {
        RemapFinds(rc, remap, ids[last]);
        forall k | 0 <= k < |rest| ensures Before(keys', rest[k], remap[ids[last]]) {
          var p := RenumberFrom(rc, ids[..last], remap, k);
          BeforeRemap(keys, rc, remap, ids[p], ids[last]);
        }
      }
    }
  }

  lemma {:induction false} RenumberAscends(rc: seq<nat>, ids: seq<nat>, remap: seq<nat>)
    requires IsRemap(rc, remap) && InRange(|rc|, ids)
    requires Ascends(ids)
    ensures InRange(|Kept(rc)|, Renumber(ids, remap)) && Ascends(Renumber(ids, remap))
    decreases |ids|
  {
    if ids != [] {
      var last := |ids| - 1;
      var rest := Renumber(ids[..last], remap);
      RenumberAscends(rc, ids[..last], remap);
      if rc[ids[last]] > 0 {
        RemapFinds(rc, remap, ids[last]);
        forall k | 0 <= k < |rest| ensures rest[k] < remap[ids[last]] {
          var p := RenumberFrom(rc, ids[..last], remap, k);
          RemapMonotone(rc, remap, ids[p], ids[last]);
        }
      }
    }
  }

  /** The renumbered order and waiting list still cover every live id, once. */
  lemma RenumberWaiting(rc: seq<nat>, order: seq<nat>, unranked: seq<nat>, remap: seq<nat>)
    requires IsRemap(rc, remap) && InRange(|rc|, order) && Waiting(rc, order, unranked)
    ensures Waiting(Pick(rc, Kept(rc)), Renumber(order, remap), Renumber(unranked, remap))
  {
    var order', unranked' := Renumber(order, remap), Renumber(unranked, remap);
    RenumberAscends(rc, unranked, remap);
    forall id | id in unranked' ensures id !in order' {
      var i := Kept(rc)[id];
      RemapCovers(rc, remap, id);
      RenumberHolds(rc, unranked, remap, i);
      RenumberHolds(rc, order, remap, i);
    }
    forall id | 0 <= id < |Kept(rc)| ensures id in order' || id in unranked' {
      var i := Kept(rc)[id];
      RemapCovers(rc, remap, id);
      RenumberHolds(rc, unranked, remap, i);
      RenumberHolds(rc, order, remap, i);
    }
  }
}
