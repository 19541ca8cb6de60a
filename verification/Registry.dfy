/**
  * The registry of indexed volumes. A volume instance is known by its stamp, the number of
  * instances added before it, so two instances of one GUID are told apart. A snapshot is a
  * value: it stays as it was taken.
  */
module Registry {

  datatype Volume = Volume(stamp: nat, guid: string)

  type VolumeSet = seq<Volume>

  /** The instances are listed in the order they were added. */
  ghost predicate Ascending(volumes: VolumeSet) {
    forall i, j :: 0 <= i < j < |volumes| ==> volumes[i].stamp < volumes[j].stamp
  }

  /** The instances were among the first `added`. */
  ghost predicate Stamped(volumes: VolumeSet, added: nat) {
    forall i :: 0 <= i < |volumes| ==> volumes[i].stamp < added
  }

  predicate Indexes(volumes: VolumeSet, guid: string) {
    exists i :: 0 <= i < |volumes| && volumes[i].guid == guid
  }

  /** `part` leaves volumes out of `whole` and keeps the order of the rest. */
  ghost predicate Picked(part: VolumeSet, whole: VolumeSet) {
    if part == [] then true
    else whole != [] && (if part[0] == whole[0] then Picked(part[1..], whole[1..]) else Picked(part, whole[1..]))
  }

  /** Leaving volumes out keeps the order of addition. */
  lemma {:induction false} PickedAscends(part: VolumeSet, whole: VolumeSet)
    requires Ascending(whole) && Picked(part, whole)
    ensures Ascending(part)
    ensures forall v :: v in part ==> v in whole
    decreases |whole|
  {
    if part != [] {
      var rest := if part[0] == whole[0] then part[1..] else part;
      PickedAscends(rest, whole[1..]);
      if part[0] == whole[0] {
        forall i, j | 0 <= i < j < |part| ensures part[i].stamp < part[j].stamp {
          assert part[j] == part[1..][j - 1];
          assert part[1..][j - 1] in part[1..];
          if i > 0 { assert part[i] == part[1..][i - 1]; }
        }
        assert part == [part[0]] + part[1..];
      }
    }
  }

  /** The volumes whose GUID is another. */
  function Without(volumes: VolumeSet, guid: string): (rest: VolumeSet)
    ensures !Indexes(rest, guid)
    ensures forall v :: v in rest <==> v in volumes && v.guid != guid
    ensures Picked(rest, volumes)
  {
    if volumes == [] then [] else
    assert volumes == [volumes[0]] + volumes[1..];
    var rest := Without(volumes[1..], guid);
    if volumes[0].guid != guid then
      assert ([volumes[0]] + rest)[1..] == rest;
      [volumes[0]] + rest
    else
      assert rest != [] ==> rest[0] in rest;
      rest
  }

  class VolumeRegistry {
    var volumes: VolumeSet
    var added: nat

    ghost predicate Valid()
      reads this
    {
      Ascending(volumes) && Stamped(volumes, added)
    }

    constructor ()
      ensures Valid() && volumes == [] && added == 0
    {
      volumes, added := [], 0;
    }

    /** The indexed volumes now, in order of addition. */
    method Current() returns (snapshot: VolumeSet)
      requires Valid()
      ensures snapshot == volumes && Ascending(snapshot)
    {
      snapshot := volumes;
    }

    /** Indexes a fresh instance of `guid` from the next snapshot on. */
    method Add(guid: string) returns (volume: Volume)
      requires Valid()
      modifies this
      ensures Valid() && added == old(added) + 1
      ensures volume == Volume(old(added), guid) && volume !in old(volumes)
      ensures volumes == old(volumes) + [volume]
    {
      volume := Volume(added, guid);
      volumes, added := volumes + [volume], added + 1;
    }

    /** Leaves every instance of `guid` out of the next snapshot on, the rest in order. */
    method Remove(guid: string)
      requires Valid()
      modifies this
      ensures Valid() && added == old(added)
      ensures !Indexes(volumes, guid) && Picked(volumes, old(volumes))
      ensures forall v :: v in old(volumes) && v.guid != guid ==> v in volumes
    {
      WithoutKeeps(volumes, added, guid);
      volumes := Without(volumes, guid);
    }
  }

  lemma WithoutKeeps(volumes: VolumeSet, added: nat, guid: string)
    requires Ascending(volumes) && Stamped(volumes, added)
    ensures Ascending(Without(volumes, guid)) && Stamped(Without(volumes, guid), added)
  {
    var rest := Without(volumes, guid);
    PickedAscends(rest, volumes);
    forall i | 0 <= i < |rest| ensures rest[i].stamp < added {
      assert rest[i] in rest;
    }
  }
}
