/**
  * The map from record numbers to entries: a vector indexed by record number or a hash
  * map, switching in both directions, and one partial map whichever it is.
  */
module Frn {
  import opened Options

  /** "No entry": `u32::MAX`, the mark of an empty slot of the vector. */
  const NIL: nat := 0xFFFF_FFFF

  /** How many records past twice its length the vector still grows to. */
  const DENSE_GROWTH_SLACK: nat := 0x1_0000

  datatype Backing = Dense(slots: seq<nat>) | Sparse(entries: map<nat, nat>)

  /** The records a vector maps. */
  function Records(slots: seq<nat>): (m: map<nat, nat>)
    ensures forall r: nat {:trigger r in m} :: r in m <==> r < |slots| && slots[r] != NIL
    ensures forall r: nat {:trigger m[r]} :: r in m ==> m[r] == slots[r]
  {
    map r: nat | r < |slots| && slots[r] != NIL :: slots[r]
  }

  /** The partial map a backing stands for. */
  function View(b: Backing): map<nat, nat> {
    match b
    case Dense(slots) => Records(slots)
    case Sparse(entries) => entries
  }

  /** No record maps to the mark of an empty slot. */
  ghost predicate Unmarked(m: map<nat, nat>) {
    forall r :: r in m ==> m[r] != NIL
  }

  /** The records that map to an entry. */
  ghost function Entries(m: map<nat, nat>): (rest: map<nat, nat>)
    ensures rest == m <==> Unmarked(m)
  {
    var rest := map r | r in m && m[r] != NIL :: m[r];
    assert Unmarked(m) ==> rest == m;
    assert rest == m ==> forall r :: r in m ==> r in rest;
    rest
  }

  /** The used slots of a vector, one after the other, as a hash map. */
  method Collect(slots: seq<nat>) returns (m: map<nat, nat>)
    ensures m == Records(slots)
  {
    m := map[];
    var r := 0;
    while r < |slots|
      invariant 0 <= r <= |slots| && m == Records(slots[..r])
    {
      if slots[r] != NIL {
        m := m[r := slots[r]];
      }
      r := r + 1;
    }
    assert slots[..r] == slots;
  }

  /** A vector grown with empty slots up to and including slot `r`. */
  function Grown(slots: seq<nat>, r: nat): (g: seq<nat>)
    ensures |g| == if r < |slots| then |slots| else r + 1
    ensures forall i :: 0 <= i < |g| ==> g[i] == if i < |slots| then slots[i] else NIL
  {
    if r < |slots| then slots else slots + seq(r + 1 - |slots|, _ => NIL)
  }

  method MaxKey(m: map<nat, nat>) returns (max: nat)
    requires m != map[]
    ensures max in m && forall r :: r in m ==> r <= max
  {
    var rest := m.Keys;
    assert rest != {};
    max :| max in rest;
    rest := rest - {max};
    while rest != {}
      invariant rest <= m.Keys && max in m
      invariant forall r :: r in m ==> r <= max || r in rest
      decreases |rest|
    {
      var r :| r in rest;
      if r > max { max := r; }
      rest := rest - {r};
    }
  }

  /** A vector that maps the entries the hash map maps. */
  method Fill(m: map<nat, nat>, max: nat) returns (slots: seq<nat>)
    requires forall r :: r in m ==> r <= max
    ensures |slots| == max + 1 && Records(slots) == Entries(m)
  {
    slots := seq(max + 1, _ => NIL);
    var rest := m.Keys;
    while rest != {}
      invariant |slots| == max + 1 && rest <= m.Keys
      invariant forall r: nat :: r <= max ==> slots[r] == if r in m && r !in rest then m[r] else NIL
      decreases |rest|
    {
      var r :| r in rest;
      slots := slots[r := m[r]];
      rest := rest - {r};
    }
  }

  function Power(k: nat): (p: nat)
    ensures p >= 1
  {
    if k == 0 then 1 else 2 * Power(k - 1)
  }

  lemma {:induction false} PowerMonotone(j: nat, k: nat)
    requires j <= k
    ensures Power(j) <= Power(k)
  {
    if j < k { PowerMonotone(j, k - 1); }
  }

  /** The least power of two, from the `k`-th on, that is at least `n`. */
  function NextPowerOfTwo(n: nat, k: nat): (q: nat)
    ensures q >= n && exists j: nat :: k <= j && q == Power(j)
    ensures forall j: nat :: k <= j && Power(j) >= n ==> q <= Power(j)
    decreases n - Power(k)
  {
    if Power(k) >= n then
      assert forall j: nat :: k <= j ==> Power(k) <= Power(j) by {
        forall j: nat | k <= j ensures Power(k) <= Power(j) {
          PowerMonotone(k, j);
        }
      }
      Power(k)
    else NextPowerOfTwo(n, k + 1)
  }

  class FrnMap {
    var backing: Backing

    /** What the map maps, whichever the backing. */
    ghost function Contents(): map<nat, nat>
      reads this
    {
      View(backing)
    }

    constructor Sparse()
      ensures Contents() == map[] && backing.Sparse?
    {
      backing := Backing.Sparse(map[]);
    }

    /** A vector with room for `capacity` records, all empty. */
    constructor Dense(capacity: nat)
      ensures Contents() == map[] && backing.Dense? && |backing.slots| == capacity
    {
      var slots: seq<nat> := seq(capacity, _ => NIL);
      backing := Backing.Dense(slots);
      assert Records(slots) == map[];
    }

    method Get(record: nat) returns (e: Option<nat>)
      ensures e == if record in Contents() then Some(Contents()[record]) else None
    {
      match backing {
        case Dense(slots) =>
          if record < |slots| && slots[record] != NIL {
            e := Some(slots[record]);
          } else {
            e := None;
          }
        case Sparse(entries) =>
          if record in entries {
            e := Some(entries[record]);
          } else {
            e := None;
          }
      }
    }

    /**
      * Maps `record` to `idx`; to the mark of an empty slot a vector cannot, and maps it to nothing.
      * A vector switches to the hash map for a record far past its end, so one call never takes it
      * beyond twice its length plus the slack.
      */
    method Set(record: nat, idx: nat)
      modifies this
      ensures Contents() == old(Contents())[record := idx] <==> idx != NIL || backing.Sparse?
      ensures idx == NIL && backing.Dense? ==> Contents() == old(Contents()) - {record}
      ensures old(backing.Sparse?) ==> backing.Sparse?
      ensures old(backing.Dense?) ==>
                (backing.Dense? <==> record <= 2 * |old(backing).slots| + DENSE_GROWTH_SLACK)
      ensures backing.Dense? ==>
                && |backing.slots| == (if record < |old(backing).slots| then |old(backing).slots| else record + 1)
                && |backing.slots| <= 2 * |old(backing).slots| + DENSE_GROWTH_SLACK + 1
    {
      if backing.Dense? && record > |backing.slots| * 2 + DENSE_GROWTH_SLACK {
        var entries := Collect(backing.slots);
        backing := Backing.Sparse(entries);
      }
      match backing {
        case Dense(slots) =>
          backing := Backing.Dense(Grown(slots, record)[record := idx]);
          if idx == NIL {
            assert Contents() == Records(slots) - {record};
            assert record !in Contents();
          } else {
            assert Contents() == Records(slots)[record := idx];
          }
        case Sparse(entries) =>
          backing := Backing.Sparse(entries[record := idx]);
      }
    }

    method Remove(record: nat)
      modifies this
      ensures Contents() == old(Contents()) - {record}
      ensures backing.Dense? == old(backing.Dense?)
      ensures backing.Dense? ==> |backing.slots| == |old(backing).slots|
    {
      match backing {
        case Dense(slots) =>
          if record < |slots| {
            backing := Backing.Dense(slots[record := NIL]);
          }
          assert Contents() == Records(slots) - {record};
        case Sparse(entries) =>
          backing := Backing.Sparse(entries - {record});
      }
    }

    /** Switches a hash map with `capacity` usable buckets to the vector, of its entries, when that is smaller. */
    method DensifyIfSmaller(capacity: nat)
      modifies this
      ensures Contents() == old(Contents()) <==> backing.Dense? == old(backing.Dense?) || Unmarked(old(Contents()))
      ensures backing.Dense? && old(backing.Sparse?) ==> Contents() == Entries(old(Contents()))
      ensures backing.Dense? == old(backing.Dense?) ==> backing == old(backing)
      ensures old(backing.Dense?) ==> backing.Dense?
      ensures old(backing.Sparse?) ==>
                (backing.Dense? <==> exists max ::
                   && max in old(Contents()) && (forall r :: r in old(Contents()) ==> r <= max)
                   && 4 * (max + 1) < 17 * NextPowerOfTwo(8 * capacity / 7, 0))
    {
      if backing.Dense? || backing.entries == map[] {
        return;
      }
      var max := MaxKey(backing.entries);
      if (max + 1) * 4 < NextPowerOfTwo(capacity * 8 / 7, 0) * 17 {
        var slots := Fill(backing.entries, max);
        backing := Backing.Dense(slots);
      }
    }
  }

  // -- whole runs ------------------------------------------------------------------------

  datatype Op = Set(record: nat, idx: nat) | Remove(record: nat) | Densify(capacity: nat)

  /** What a plain map holds after the first `n` operations. */
  function MapAfter(ops: seq<Op>, n: nat): map<nat, nat>
    requires n <= |ops|
  {
    if n == 0 then map[] else
    var m := MapAfter(ops, n - 1);
    match ops[n - 1]
    case Set(record, idx) => m[record := idx]
    case Remove(record) => m - {record}
    case Densify(_) => m
  }

  /** The first `n` operations store no mark of an empty slot. */
  ghost predicate StoreEntries(ops: seq<Op>, n: nat) {
    n <= |ops| && forall k :: 0 <= k < n && ops[k].Set? ==> ops[k].idx != NIL
  }

  /**
    * Any sequence of operations that store entries leaves the map what a plain map would be, however
    * often the backing switched; so does any other on a map that stays a hash map.
    */
  method RunOps(ops: seq<Op>, dense: bool, capacity: nat, record: nat) returns (e: Option<nat>)
    ensures StoreEntries(ops, |ops|) || (!dense && forall k :: 0 <= k < |ops| ==> !ops[k].Densify?) ==>
              e == if record in MapAfter(ops, |ops|) then Some(MapAfter(ops, |ops|)[record]) else None
  {
    var m;
    if dense {
      m := new FrnMap.Dense(capacity);
    } else {
      m := new FrnMap.Sparse();
    }
    var n := 0;
    while n < |ops|
      invariant 0 <= n <= |ops| && fresh(m)
      invariant StoreEntries(ops, n) ==> m.Contents() == MapAfter(ops, n) && Unmarked(m.Contents())
      invariant !dense && (forall k :: 0 <= k < n ==> !ops[k].Densify?) ==>
                  m.Contents() == MapAfter(ops, n) && m.backing.Sparse?
    {
      match ops[n] {
        case Set(r, idx) => m.Set(r, idx);
        case Remove(r) => m.Remove(r);
        case Densify(c) => m.DensifyIfSmaller(c);
      }
      n := n + 1;
    }
    e := m.Get(record);
  }
}
