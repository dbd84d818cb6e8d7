/** Directory slots on the device: where a slot lives, reading one, rewriting
    one, and the in-place update of an entry set's stream fields. */
module SlotIo {
  import opened Words
  import opened Errors
  import opened Geometry
  import opened Views
  import opened Volume
  import opened Extents
  import opened EntrySets
  import opened EntryCodec
  import opened Files
  import opened Tree

  ghost function DirSlots(heap: Heap, ext: seq<nat>): seq<Slot>
    requires forall i :: 0 <= i < |ext| ==> ext[i] < |heap|
  {
    SlotsOf(Flat(heap, ext))
  }

  /** Address of slot `k` of a directory. */
  ghost function LocAt(g: Geometry, ext: seq<nat>, k: nat): EntryLocator
    requires g.WellFormed() && g.clusterCount + 2 <= U32_MAX && InHeap(g, ext) && 32 * k < |ext| * g.BytesPerCluster()
  {
    UnderAt(g, ext, 32 * k);
    var cb := g.BytesPerCluster();
    EntryLocator(g.ClusterLba(ext[32 * k / cb]).value + 32 * k % cb / g.bytesPerSector, 32 * k % cb % g.bytesPerSector)
  }

  lemma Multiple32(x: nat, d: nat)
    requires d > 0 && x % 32 == 0 && d % 32 == 0
    ensures 0 <= x % d && x % d % 32 == 0 && x % d + 32 <= d
  {
    var e, q := d / 32, x / d;
    assert x == q * d + x % d;
    assert q * d == 32 * (q * e) by { assert d == 32 * e; }
  }

  lemma ClusterMultiple32(g: Geometry)
    requires g.WellFormed()
    ensures g.BytesPerCluster() > 0 && g.BytesPerCluster() % 32 == 0 && g.bytesPerSector % 32 == 0
  {
    BytesPositive(g);
    var e := g.bytesPerSector / 32;
    assert g.bytesPerSector == 32 * e;
    assert g.BytesPerCluster() == 32 * (e * g.sectorsPerCluster);
  }

  /** A slot lies inside one sector. */
  lemma SlotUnder(g: Geometry, ext: seq<nat>, k: nat)
    requires g.WellFormed() && g.clusterCount + 2 <= U32_MAX && InHeap(g, ext) && 32 * k < |ext| * g.BytesPerCluster()
    ensures var cb, loc := g.BytesPerCluster(), LocAt(g, ext, k);
            && cb > 0 && 0 <= 32 * k / cb && 0 <= 32 * k % cb / g.bytesPerSector
            && Under(g, ext, 32 * k, loc.lba, loc.offset, 32 * k / cb, 32 * k % cb / g.bytesPerSector)
            && loc.offset % 32 == 0 && loc.offset + 32 <= g.bytesPerSector
  {
    hide Under;
    hide Geometry.WellFormed;
    hide Geometry.BytesPerCluster;
    UnderAt(g, ext, 32 * k);
    ClusterMultiple32(g);
    SlotOffset(k, g.BytesPerCluster(), g.bytesPerSector);
  }

  lemma SlotOffset(k: nat, cb: nat, size: nat)
    requires cb > 0 && cb % 32 == 0 && size > 0 && size % 32 == 0
    ensures 0 <= 32 * k % cb && 32 * k % cb % size % 32 == 0 && 32 * k % cb % size + 32 <= size
  {
    Multiple32(32 * k, cb);
    Multiple32(32 * k % cb, size);
  }

  lemma SlotCount(g: Geometry, heap: Heap, ext: seq<nat>)
    requires g.WellFormed() && InHeap(g, ext) && HeapShape(g, heap)
    ensures |DirSlots(heap, ext)| * 32 == |ext| * g.BytesPerCluster() == |Flat(heap, ext)|
  {
    hide Geometry.WellFormed;
    hide Geometry.BytesPerCluster;
    ShapeFits(g, heap, ext);
    ClusterMultiple32(g);
    ProductMultiple32(|ext|, g.BytesPerCluster());
  }

  lemma ProductMultiple32(n: nat, d: nat)
    requires d % 32 == 0
    ensures n * d % 32 == 0 && n * d / 32 * 32 == n * d
  {
    var e := d / 32;
    assert n * d == 32 * (n * e) by { assert d == 32 * e; }
  }

  /** The sector at a slot's address holds the slot. */
  lemma SlotReads(fs: FileSystem, ext: seq<nat>, k: nat)
    requires fs.Valid() && InHeap(fs.g, ext) && k < |DirSlots(fs.heap, ext)|
    ensures 32 * k < |ext| * fs.g.BytesPerCluster()
    ensures var loc := LocAt(fs.g, ext, k);
            && loc.lba < |fs.disk| && loc.offset + 32 <= |fs.disk[loc.lba]| == fs.g.bytesPerSector
            && fs.disk[loc.lba][loc.offset..loc.offset + 32] == DirSlots(fs.heap, ext)[k]
  {
    hide FileSystem.Valid;
    hide Under;
    fs.Basics();
    SlotCount(fs.g, fs.heap, ext);
    SlotUnder(fs.g, ext, k);
    var cb, loc := fs.g.BytesPerCluster(), LocAt(fs.g, ext, k);
    UnderReads(fs, ext, 32 * k, loc.lba, loc.offset, 32 * k / cb, 32 * k % cb / fs.g.bytesPerSector, 32);
  }

  /** Overwriting 32 bytes on a slot boundary replaces that slot. */
  lemma SlotSplice(bytes: seq<byte>, k: nat, slot: Slot)
    requires 32 * k + 32 <= |bytes|
    ensures SlotsOf(Splice(bytes, 32 * k, slot)) == SlotsOf(bytes)[k := slot]
  {
    var bytes' := Splice(bytes, 32 * k, slot);
    forall j | 0 <= j < |bytes| / 32
      ensures SlotAt(bytes', j) == SlotsOf(bytes)[k := slot][j]
    {
      if j != k { assert bytes'[32 * j..32 * j + 32] == bytes[32 * j..32 * j + 32]; }
    }
  }

  /** Read slot `k` into the scratch buffer. */
  method LoadSlot(fs: FileSystem, loc: EntryLocator, ghost ext: seq<nat>, ghost k: nat) returns (r: Result<Slot>)
    requires fs.Valid() && InHeap(fs.g, ext) && k < |DirSlots(fs.heap, ext)|
    requires 32 * k < |ext| * fs.g.BytesPerCluster() && loc == LocAt(fs.g, ext, k)
    modifies fs`clock, fs`scratch
    ensures fs.Valid()
    ensures r.Err? ==> r.error == Device
    ensures r.Ok? ==> r.value == DirSlots(fs.heap, ext)[k] && loc.lba < |fs.disk| && fs.scratch == fs.disk[loc.lba]
    ensures Honest(fs.faulty, old(fs.clock), fs.clock, r == Err(Device))
  {
    hide FileSystem.Valid;
    SlotReads(fs, ext, k);
    if loc.offset + 32 > fs.g.bytesPerSector { return Err(Corrupt); }
    var ok := fs.ReadSector(loc.lba);
    if !ok { return Err(Device); }
    return Ok(fs.scratch[loc.offset..loc.offset + 32]);
  }

  /** Write a new value of slot `k`, whose sector is in the scratch buffer. */
  method StoreSlot(fs: FileSystem, loc: EntryLocator, slot: Slot, ghost ext: seq<nat>, ghost k: nat) returns (ok: bool)
    requires fs.Valid() && InHeap(fs.g, ext) && Distinct(ext) && k < |DirSlots(fs.heap, ext)|
    requires forall i :: 0 <= i < |ext| ==> ext[i] !in fs.bm
    requires 32 * k < |ext| * fs.g.BytesPerCluster() && loc == LocAt(fs.g, ext, k)
    requires loc.lba < |fs.disk| && fs.scratch == fs.disk[loc.lba]
    modifies fs`clock, fs`scratch, fs`disk, fs`heap
    ensures fs.Valid() && |fs.heap| == |old(fs.heap)|
    ensures !ok ==> fs.heap == old(fs.heap)
    ensures ok ==> DirSlots(fs.heap, ext) == old(DirSlots(fs.heap, ext))[k := slot]
    ensures forall c :: 0 <= c < |fs.heap| && c !in ext ==> fs.heap[c] == old(fs.heap)[c]
    ensures Honest(fs.faulty, old(fs.clock), fs.clock, !ok)
  {
    hide FileSystem.Valid;
    hide Under;
    hide Geometry.WellFormed;
    hide SlotsOf;
    hide LocAt;
    fs.Basics();
    SlotReads(fs, ext, k);
    SlotUnder(fs.g, ext, k);
    ghost var cb := fs.g.BytesPerCluster();
    ghost var i, s := 32 * k / cb, 32 * k % cb / fs.g.bytesPerSector;
    UnderOffset(fs.g, ext, 32 * k, loc.lba, loc.offset, i, s);
    UnderWrites(fs, ext, 32 * k, loc.lba, loc.offset, i, s, slot);
    SlotSplice(Flat(fs.heap, ext), k, slot);
    fs.FillScratch(loc.offset, slot);
    ok := fs.WriteHeapSector(loc.lba, ext[i], s);
  }

  // ----- updating the stream fields of an entry set ---------------------------------------

  /** Where an entry set is and what its stream extension is to say. */
  datatype StreamInfo = StreamInfo(
    primary: EntryLocator, stream: EntryLocator, entryLocs: seq<EntryLocator>, entryCount: nat,
    firstCluster: u32, dataLength: u64, validLength: u64, noFatChain: bool)

  /** The locators are those of the `count` slots from slot `k` on. */
  ghost predicate LocatedAt(g: Geometry, ext: seq<nat>, k: nat, locs: seq<EntryLocator>, count: nat) {
    && g.WellFormed() && g.clusterCount + 2 <= U32_MAX && InHeap(g, ext)
    && count <= |locs| == 19
    && forall i :: 0 <= i < count ==> 32 * (k + i) < |ext| * g.BytesPerCluster() && locs[i] == LocAt(g, ext, k + i)
  }

  ghost predicate Located(g: Geometry, ext: seq<nat>, k: nat, info: StreamInfo) {
    && LocatedAt(g, ext, k, info.entryLocs, info.entryCount)
    && 2 <= info.entryCount && info.primary == info.entryLocs[0] && info.stream == info.entryLocs[1]
  }

  lemma SetSumNone(none: seq<Slot>)
    requires none == []
    ensures SetSum(none) == 0
  {
  }

  /** Recompute the checksum of the set on the device. */
  method SumSlots(fs: FileSystem, locs: seq<EntryLocator>, count: nat, ghost ext: seq<nat>, ghost k: nat)
    returns (r: Result<u16>)
    requires fs.Valid() && InHeap(fs.g, ext) && LocatedAt(fs.g, ext, k, locs, count)
    requires k + count <= |DirSlots(fs.heap, ext)|
    modifies fs`clock, fs`scratch
    ensures fs.Valid()
    ensures r.Err? ==> r.error == Device
    ensures r.Ok? ==> r.value == SetSum(DirSlots(fs.heap, ext)[k..k + count])
    ensures Honest(fs.faulty, old(fs.clock), fs.clock, r == Err(Device))
  {
    hide FileSystem.Valid;
    hide SetSum;
    hide ChecksumStep;
    hide SlotsOf;
    hide LocAt;
    hide Geometry.WellFormed;
    fs.Basics();
    ghost var slots := DirSlots(fs.heap, ext);
    var checksum: u16 := 0;
    SetSumNone(slots[k..k]);
    for i := 0 to count
      invariant Honest(fs.faulty, old(fs.clock), fs.clock, false)
      invariant fs.Valid() && checksum == SetSum(slots[k..k + i])
    {
      var slot := LoadSlot(fs, locs[i], ext, k + i);
      if slot.Err? { return Err(slot.error); }
      assert slots[k..k + (i + 1)] == slots[k..k + i] + [slot.value];
      SetSumSnoc(slots[k..k + i], slot.value);
      checksum := FoldSlot(checksum, slot.value, i == 0);
    }
    return Ok(checksum);
  }

  function WithChecksum(primary: Slot, sum: u16): Slot {
    Splice(primary, 2, Enc16(sum))
  }

  lemma PatchInPlace(slots: seq<Slot>, k: nat, n: nat, info: StreamInfo, sum: u16)
    requires 2 <= n && k + n <= |slots|
    requires var win := slots[k..k + n];
             var staged := win[1 := PatchStream(win[1], info.noFatChain, info.validLength, info.firstCluster,
                                                info.dataLength)];
             sum == SetSum(staged)
    ensures var win := slots[k..k + n];
            var stream := PatchStream(win[1], info.noFatChain, info.validLength, info.firstCluster, info.dataLength);
            var primary := WithChecksum(win[0], sum);
            && win[1] == slots[k + 1] && win[0] == slots[k]
            && slots[k + 1 := stream][k := primary]
               == Window(slots, k, PatchedSet(win, info.noFatChain, info.validLength, info.firstCluster,
                                              info.dataLength))
  {
    hide SetSum;
    hide Splice;
    hide PatchStream;
    var win := slots[k..k + n];
    var stream := PatchStream(win[1], info.noFatChain, info.validLength, info.firstCluster, info.dataLength);
    TwoInPlace(slots, k, n, WithChecksum(win[0], sum), stream);
  }

  /** The first two slots of a window, stored one after the other. */
  lemma TwoInPlace(slots: seq<Slot>, k: nat, n: nat, primary: Slot, stream: Slot)
    requires 2 <= n && k + n <= |slots|
    ensures slots[k + 1 := stream][k := primary] == Window(slots, k, slots[k..k + n][1 := stream][0 := primary])
  {
    var a, b := slots[k + 1 := stream][k := primary], Window(slots, k, slots[k..k + n][1 := stream][0 := primary]);
    forall i | 0 <= i < |slots|
      ensures a[i] == b[i]
    {
    }
  }

  /** Write the new stream fields. */
  method PutStream(fs: FileSystem, info: StreamInfo, ghost ext: seq<nat>, ghost k: nat) returns (r: Result<()>)
    requires fs.Valid() && Distinct(ext) && Located(fs.g, ext, k, info)
    requires k + info.entryCount <= |DirSlots(fs.heap, ext)|
    requires forall i :: 0 <= i < |ext| ==> ext[i] !in fs.bm
    modifies fs`clock, fs`scratch, fs`disk, fs`heap
    ensures fs.Valid() && |fs.heap| == |old(fs.heap)|
    ensures r.Err? ==> r.error == Device && fs.heap == old(fs.heap)
    ensures r.Ok? ==>
      DirSlots(fs.heap, ext) == old(DirSlots(fs.heap, ext))[k + 1 := PatchStream(old(DirSlots(fs.heap, ext))[k + 1],
        info.noFatChain, info.validLength, info.firstCluster, info.dataLength)]
    ensures forall c :: 0 <= c < |fs.heap| && c !in ext ==> fs.heap[c] == old(fs.heap)[c]
    ensures Honest(fs.faulty, old(fs.clock), fs.clock, r == Err(Device))
  {
    hide FileSystem.Valid;
    hide SlotsOf;
    hide LocAt;
    hide Geometry.WellFormed;
    assert InHeap(fs.g, ext) && LocatedAt(fs.g, ext, k, info.entryLocs, info.entryCount);
    var slot := LoadSlot(fs, info.stream, ext, k + 1);
    if slot.Err? { return Err(slot.error); }
    var stream := PatchStream(slot.value, info.noFatChain, info.validLength, info.firstCluster, info.dataLength);
    var ok := StoreSlot(fs, info.stream, stream, ext, k + 1);
    return if ok then Ok(()) else Err(Device);
  }

  /** Store the checksum of the set in its primary slot. */
  method Reseal(fs: FileSystem, primaryLoc: EntryLocator, locs: seq<EntryLocator>, count: nat, ghost ext: seq<nat>,
                ghost k: nat)
    returns (r: Result<()>)
    requires fs.Valid() && Distinct(ext) && LocatedAt(fs.g, ext, k, locs, count) && 0 < count && primaryLoc == locs[0]
    requires k + count <= |DirSlots(fs.heap, ext)|
    requires forall i :: 0 <= i < |ext| ==> ext[i] !in fs.bm
    modifies fs`clock, fs`scratch, fs`disk, fs`heap
    ensures fs.Valid() && |fs.heap| == |old(fs.heap)|
    ensures r.Err? ==> r.error == Device && fs.heap == old(fs.heap)
    ensures r.Ok? ==>
      DirSlots(fs.heap, ext) == old(DirSlots(fs.heap, ext))[k :=
        WithChecksum(old(DirSlots(fs.heap, ext))[k], SetSum(old(DirSlots(fs.heap, ext))[k..k + count]))]
    ensures forall c :: 0 <= c < |fs.heap| && c !in ext ==> fs.heap[c] == old(fs.heap)[c]
    ensures Honest(fs.faulty, old(fs.clock), fs.clock, r == Err(Device))
  {
    hide FileSystem.Valid;
    hide SlotsOf;
    hide LocAt;
    hide Geometry.WellFormed;
    var sum := SumSlots(fs, locs, count, ext, k);
    if sum.Err? { return Err(sum.error); }
    var slot := LoadSlot(fs, primaryLoc, ext, k);
    if slot.Err? { return Err(slot.error); }
    var ok := StoreSlot(fs, primaryLoc, WithChecksum(slot.value, sum.value), ext, k);
    return if ok then Ok(()) else Err(Device);
  }

  /** The set of `count` slots at slot `k` of a directory has been patched, and
      nothing outside the directory has changed. */
  ghost predicate Rewritten(heap: Heap, heap': Heap, ext: seq<nat>, k: nat, info: StreamInfo) {
    && |heap'| == |heap|
    && (forall i :: 0 <= i < |ext| ==> ext[i] < |heap|)
    && (forall c :: 0 <= c < |heap| && c !in ext ==> heap'[c] == heap[c])
    && 2 <= info.entryCount && k + info.entryCount <= |DirSlots(heap, ext)|
    && DirSlots(heap', ext) == Window(DirSlots(heap, ext), k,
         PatchedSet(DirSlots(heap, ext)[k..k + info.entryCount],
                    info.noFatChain, info.validLength, info.firstCluster, info.dataLength))
  }

  /** The set at slot `k` carries the new stream fields under the old checksum,
      and nothing outside the directory has changed. */
  ghost predicate Torn(heap: Heap, heap': Heap, ext: seq<nat>, k: nat, info: StreamInfo) {
    && |heap'| == |heap|
    && (forall i :: 0 <= i < |ext| ==> ext[i] < |heap|)
    && (forall c :: 0 <= c < |heap| && c !in ext ==> heap'[c] == heap[c])
    && k + 1 < |DirSlots(heap, ext)|
    && DirSlots(heap', ext) == DirSlots(heap, ext)[k + 1 := PatchStream(DirSlots(heap, ext)[k + 1],
         info.noFatChain, info.validLength, info.firstCluster, info.dataLength)]
  }

  /** Rewrite the stream fields of an entry set and reseal it.  When a write
      fails, the set is as before, or carries the new stream fields under the
      old checksum (`torn`). */
  method UpdateStream(fs: FileSystem, info: StreamInfo, ghost ext: seq<nat>, ghost k: nat)
    returns (r: Result<()>, ghost torn: bool)
    requires fs.Valid() && Distinct(ext) && Located(fs.g, ext, k, info)
    requires k + info.entryCount <= |DirSlots(fs.heap, ext)|
    requires forall i :: 0 <= i < |ext| ==> ext[i] !in fs.bm
    modifies fs`clock, fs`scratch, fs`disk, fs`heap
    ensures fs.Valid() && |fs.heap| == |old(fs.heap)|
    ensures r.Err? ==> r.error == Device
    ensures r.Err? && !torn ==> fs.heap == old(fs.heap)
    ensures r.Err? && torn ==> Torn(old(fs.heap), fs.heap, ext, k, info)
    ensures r.Ok? ==> Rewritten(old(fs.heap), fs.heap, ext, k, info)
    ensures forall c :: 0 <= c < |fs.heap| && c !in ext ==> fs.heap[c] == old(fs.heap)[c]
    ensures Honest(fs.faulty, old(fs.clock), fs.clock, r == Err(Device))
  {
    hide FileSystem.Valid;
    hide SlotsOf;
    hide LocAt;
    hide Geometry.WellFormed;
    hide PatchedSet;
    hide PatchStream;
    hide WithChecksum;
    hide SetSum;
    hide Window;
    fs.Basics();
    ghost var slots, n := DirSlots(fs.heap, ext), info.entryCount;
    torn := false;
    if info.entryCount < 2 || info.entryCount > |info.entryLocs| { return Err(Corrupt), torn; }
    r := PutStream(fs, info, ext, k);
    if r.Err? { return r, torn; }
    torn := true;
    ghost var stream := PatchStream(slots[k + 1], info.noFatChain, info.validLength, info.firstCluster,
                                    info.dataLength);
    ghost var staged := slots[k..k + n][1 := stream];
    assert slots[k + 1 := stream][k..k + n] == staged;
    r := Reseal(fs, info.primary, info.entryLocs, info.entryCount, ext, k);
    PatchInPlace(slots, k, n, info, SetSum(staged));
  }
}
