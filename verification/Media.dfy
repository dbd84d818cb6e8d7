/** A raw sector device, before any volume is mounted on it. */
module Media {
  import opened Words
  import opened Errors
  import opened Views

  /** Sectors `lo` to `hi` may differ, the others are the same. */
  ghost predicate Kept(disk: seq<seq<byte>>, disk': seq<seq<byte>>, lo: nat, hi: nat) {
    && |disk'| == |disk|
    && forall i :: 0 <= i < |disk| && !(lo <= i < hi) ==> disk'[i] == disk[i]
  }

  class Device {
    const size: nat
    const faulty: nat -> bool
    var clock: nat
    var disk: seq<seq<byte>>

    constructor (size: nat, faulty: nat -> bool, disk: seq<seq<byte>>)
      requires size > 0 && |disk| <= U64_MAX && forall i :: 0 <= i < |disk| ==> |disk[i]| == size
      ensures this.size == size && this.faulty == faulty && this.disk == disk && this.clock == 0 && Valid()
    {
      this.size, this.faulty, this.disk, this.clock := size, faulty, disk, 0;
    }

    ghost predicate Valid()
      reads this
    {
      size > 0 && |disk| <= U64_MAX && forall i :: 0 <= i < |disk| ==> |disk[i]| == size
    }

    method Read(lba: nat) returns (r: Option<seq<byte>>)
      requires Valid() && lba < |disk|
      modifies `clock
      ensures Valid() && (r.Some? ==> r.value == disk[lba]) && Honest(faulty, old(clock), clock, r.None?)
    {
      var ok := !faulty(clock);
      clock := clock + 1;
      return if ok then Some(disk[lba]) else None;
    }

    method Write(lba: nat, data: seq<byte>) returns (ok: bool)
      requires Valid() && lba < |disk| && |data| == size
      modifies `clock, `disk
      ensures Valid() && disk == (if ok then old(disk)[lba := data] else old(disk))
      ensures Honest(faulty, old(clock), clock, !ok)
    {
      ok := !faulty(clock);
      clock := clock + 1;
      if ok { disk := disk[lba := data]; }
    }

    /** Write consecutive sectors, one after the other. */
    method WriteSectors(lba: nat, data: seq<byte>, count: nat) returns (ok: bool)
      requires Valid() && |data| == count * size && lba + count <= |disk|
      modifies `clock, `disk
      ensures Valid() && Kept(old(disk), disk, lba, lba + count) && Honest(faulty, old(clock), clock, !ok)
      ensures ok ==> forall i :: 0 <= i < count ==>
        0 <= i * size && i * size + size <= |data| && disk[lba + i] == SectorOf(data, i, size)
    {
      for index := 0 to count
        invariant Honest(faulty, old(clock), clock, false)
        invariant Valid() && Kept(old(disk), disk, lba, lba + count)
        invariant forall i :: 0 <= i < index ==>
          0 <= i * size && i * size + size <= |data| && disk[lba + i] == SectorOf(data, i, size)
      {
        SectorFits(index, count, size);
        ok := Write(lba + index, SectorOf(data, index, size));
        if !ok { return; }
      }
      return true;
    }
  }
}
