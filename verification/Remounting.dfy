/** What a later mount finds: the same volume with the same files, as long as the
    root directory still has an unused slot.  The mount looks for the end marker
    of the root and takes the end of its chain for corruption, so a root whose
    slots are all in use is refused. */
module Remounting {
  import opened Words
  import opened Errors
  import opened Geometry
  import opened Views
  import opened Volume
  import opened Extents
  import opened EntrySets
  import opened Tree
  import opened SlotIo
  import opened Growth
  import opened Meaning
  import opened Listings
  import opened Standing
  import opened Upcase
  import opened Media
  import opened Formatting
  import opened RawViews
  import opened Mounting

  // ----- the descriptors in the root -----------------------------------------------------------

  /** The root announces this bitmap, the only one of the active FAT, and this
      table, the first. */
  ghost predicate RootSays(g: Geometry, slots: seq<Slot>, bitmap: AllocationBitmap, upcase: UpCaseTable) {
    && (forall k :: 0 <= k < |slots| && slots[k][0] == 0x81 ==> slots[k][1] < g.numberOfFats)
    && (exists k :: 0 <= k < |slots| && ActiveBitmap(g, slots[k]) && bitmap == BitmapEntry(slots[k])
          && forall j :: 0 <= j < |slots| && ActiveBitmap(g, slots[j]) ==> j == k)
    && (exists k :: 0 <= k < |slots| && slots[k][0] == 0x82 && upcase == UpcaseEntry(slots[k])
          && forall j :: 0 <= j < k ==> slots[j][0] != 0x82)
  }

  /** Entries of no set are what the mount goes by. */
  lemma SaysOn(g: Geometry, a: seq<Slot>, b: seq<Slot>, bitmap: AllocationBitmap, upcase: UpCaseTable)
    requires RootSays(g, a, bitmap, upcase) && FixedSame(a, b)
    ensures RootSays(g, b, bitmap, upcase)
  {
    hide BitmapEntry;
    hide UpcaseEntry;
    forall k | 0 <= k < |b| && (b[k][0] == 0x81 || b[k][0] == 0x82)
      ensures k < |a| && a[k] == b[k]
    {
      assert Fixed(b[k]);
    }
    forall k | 0 <= k < |a| && (a[k][0] == 0x81 || a[k][0] == 0x82)
      ensures a[k] == b[k]
    {
      assert Fixed(a[k]);
    }
    var m :| 0 <= m < |a| && ActiveBitmap(g, a[m]) && bitmap == BitmapEntry(a[m])
      && forall j :: 0 <= j < |a| && ActiveBitmap(g, a[j]) ==> j == m;
    var t :| 0 <= t < |a| && a[t][0] == 0x82 && upcase == UpcaseEntry(a[t])
      && forall j :: 0 <= j < t ==> a[j][0] != 0x82;
    assert ActiveBitmap(g, b[m]) && b[t][0] == 0x82;
  }

  /** The scan of such a root: it ends exactly if there is an unused slot, and
      then has found what the root announces. */
  lemma SaysScanned(g: Geometry, slots: seq<Slot>, bitmap: AllocationBitmap, upcase: UpCaseTable)
    requires g.numberOfFats <= 2 && RootSays(g, slots, bitmap, upcase) && ZeroTail(slots)
    ensures if exists k :: 0 <= k < |slots| && slots[k][0] == 0
            then Scanned(g, NOTHING, slots) == Scan(Some(bitmap), Some(upcase), AtEnd)
            else Scanned(g, NOTHING, slots).verdict == Reading
  {
    hide Scanned;
    hide BitmapEntry;
    hide UpcaseEntry;
    var n := FirstUnused(slots);
    var front := slots[..n];
    assert forall k :: 0 <= k < n ==> front[k] == slots[k];
    SaysClean(g, slots, n, bitmap, upcase);
    StillReading(g, front);
    AnnouncedOnce(g, front, Scanned(g, NOTHING, front), bitmap, upcase);
    if n < |slots| {
      ScannedSnoc(g, NOTHING, front, slots[n]);
      assert slots[..n + 1] == front + [slots[n]];
      ScannedPrefix(g, NOTHING, slots[..n + 1], slots);
    } else {
      assert front == slots;
    }
  }

  lemma SaysClean(g: Geometry, slots: seq<Slot>, n: nat, bitmap: AllocationBitmap, upcase: UpCaseTable)
    requires RootSays(g, slots, bitmap, upcase) && ZeroTail(slots) && n <= |slots|
    requires (forall k :: 0 <= k < n ==> slots[k][0] != 0) && (n < |slots| ==> slots[n][0] == 0)
    ensures Clean(g, slots[..n]) && Announces(g, slots[..n], Some(bitmap), Some(upcase))
  {
    hide BitmapEntry;
    hide UpcaseEntry;
    var front := slots[..n];
    assert forall k :: 0 <= k < n ==> front[k] == slots[k];
    assert forall k :: n <= k < |slots| ==> slots[k][0] == 0;
    var m :| 0 <= m < |slots| && ActiveBitmap(g, slots[m]) && bitmap == BitmapEntry(slots[m])
      && forall j :: 0 <= j < |slots| && ActiveBitmap(g, slots[j]) ==> j == m;
    var t :| 0 <= t < |slots| && slots[t][0] == 0x82 && upcase == UpcaseEntry(slots[t])
      && forall j :: 0 <= j < t ==> slots[j][0] != 0x82;
    assert m < n && t < n && front[m] == slots[m] && front[t] == slots[t];
  }

  /** What clean slots announce is determined. */
  lemma AnnouncedOnce(g: Geometry, slots: seq<Slot>, s: Scan, bitmap: AllocationBitmap, upcase: UpCaseTable)
    requires Clean(g, slots) && Announces(g, slots, Some(bitmap), Some(upcase))
    requires Announces(g, slots, s.bitmap, s.upcase)
    ensures s.bitmap == Some(bitmap) && s.upcase == Some(upcase)
  {
    hide BitmapEntry;
    hide UpcaseEntry;
  }

  // ----- what has to be carried along ----------------------------------------------------------------

  /** The root announces the volume's descriptors, and the table has the
      checksum its descriptor tells. */
  ghost predicate Carried(g: Geometry, bitmap: AllocationBitmap, upcase: UpCaseTable, heap: Heap, nodes: Owners) {
    && Root in nodes && nodes[Root].isDir && Reads(heap, nodes[Root].ext)
    && RootSays(g, DirSlots(heap, nodes[Root].ext), bitmap, upcase)
    && UpcaseFile in nodes && upcase.byteLength > 0 && Sum32(0, Content(heap, nodes[UpcaseFile])) == upcase.checksum
  }

  /** Whatever leaves the root's descriptors and the table alone carries it. */
  lemma CarriedOn(g: Geometry, bitmap: AllocationBitmap, upcase: UpCaseTable, heap0: Heap, nodes0: Owners, heap: Heap,
                  nodes: Owners)
    requires Carried(g, bitmap, upcase, heap0, nodes0) && RootStands(heap0, nodes0, heap, nodes)
    requires UpcaseFile in nodes && Content(heap, nodes[UpcaseFile]) == Content(heap0, nodes0[UpcaseFile])
    ensures Carried(g, bitmap, upcase, heap, nodes)
  {
    hide SlotsOf;
    hide RootSays;
    hide Content;
    hide Sum32;
    SaysOn(g, DirSlots(heap0, nodes0[Root].ext), DirSlots(heap, nodes[Root].ext), bitmap, upcase);
  }

  // ----- the parts of the device that no operation writes -----------------------------------------

  /** The mount took the geometry from this device. */
  ghost predicate Anchored(g: Geometry, origin: seq<seq<byte>>, gpt: Result<Partition>) {
    && Sectors(origin, g.bytesPerSector) && origin != [] && g.bytesPerSector in {512, 1024, 2048, 4096}
    && PartitionOf(origin, gpt) == Ok(g.partition) && Inside(origin, g.partition)
    && GeometryOf(origin, g.bytesPerSector, g.partition) == Ok(g)
  }

  /** The partition table and the boot regions lie outside the FAT and the heap. */
  lemma FrontOutside(g: Geometry, lba: nat)
    requires g.WellFormed() && (lba == 0 || g.partition.firstLba <= lba < g.partition.firstLba + 24)
    ensures Outside(g, lba)
  {
    FatBelowHeap(g);
  }

  lemma SoundStands(g: Geometry, origin: seq<seq<byte>>, disk: seq<seq<byte>>, offset: nat)
    requires g.WellFormed() && OutsideKept(g, origin, disk) && Inside(disk, g.partition) && offset <= 12
    ensures Sound(disk, g.partition, offset) <==> Sound(origin, g.partition, offset)
  {
    hide RegionSum;
    hide Repeats;
    if offset + 12 <= g.partition.sectorCount {
      var at := g.partition.firstLba + offset;
      forall i | at <= i < at + 12
        ensures disk[i] == origin[i]
      {
        FrontOutside(g, i);
      }
      assert disk[at..at + 11] == origin[at..at + 11];
    }
  }

  /** A device that differs only in the FAT and the heap has the same geometry. */
  lemma GeometryStands(g: Geometry, origin: seq<seq<byte>>, disk: seq<seq<byte>>, gpt: Result<Partition>)
    requires Anchored(g, origin, gpt) && OutsideKept(g, origin, disk) && Sized(g, disk)
    ensures Anchored(g, disk, gpt)
  {
    hide Sound;
    hide ParseBoot;
    FrontOutside(g, 0);
    SoundStands(g, origin, disk, 0);
    SoundStands(g, origin, disk, 12);
    FatBelowHeap(g);
    FrontOutside(g, g.partition.firstLba);
    FrontOutside(g, g.partition.firstLba + 12);
  }

  // ----- the views a mount would take ---------------------------------------------------------------

  lemma {:induction false} SameSectors(a: seq<byte>, b: seq<byte>, n: nat, size: nat)
    requires |a| == |b| == n * size && size > 0
    requires forall s :: 0 <= s < n ==>
      0 <= s * size && s * size + size <= |a| && SectorOf(a, s, size) == SectorOf(b, s, size)
    ensures a == b
  {
    forall k | 0 <= k < |a|
      ensures a[k] == b[k]
    {
      Position(k, size, n);
      assert SectorOf(a, k / size, size)[k % size] == a[k / size * size + k % size];
      assert SectorOf(b, k / size, size)[k % size] == b[k / size * size + k % size];
    }
  }

  /** The FAT and the heap that are tied to a device are the ones on it. */
  lemma TiedIsRaw(g: Geometry, disk: seq<seq<byte>>, fat: seq<u32>, heap: Heap)
    requires Sized(g, disk) && FatTied(g, disk, fat) && HeapTied(g, disk, heap)
    ensures Addressable(g, disk) && FatOf(g, disk) == fat
    ensures forall c :: 2 <= c < |heap| ==> HeapOf(g, disk)[c] == heap[c]
  {
    var raw := FatOf(g, disk);
    forall c | 0 <= c < |fat|
      ensures raw[c] == fat[c]
    {
      assert fat[c] == FatWord(g, disk, c) && raw[c] == LinkAt(g, disk, c);
    }
    forall c | 2 <= c < |heap|
      ensures HeapOf(g, disk)[c] == heap[c]
    {
      ClusterTied(g, disk, heap, c);
    }
  }

  lemma ClusterTied(g: Geometry, disk: seq<seq<byte>>, heap: Heap, c: nat)
    requires Sized(g, disk) && Addressable(g, disk) && HeapTied(g, disk, heap) && 2 <= c < |heap|
    ensures HeapOf(g, disk)[c] == heap[c]
  {
    hide Joined;
    var n, size := g.sectorsPerCluster, g.bytesPerSector;
    ClusterOnDisk(g, disk, c);
    var raw := ClusterBytes(g, disk, c);
    JoinedLength(disk, HeapLba(g, c, 0), n, size);
    forall s | 0 <= s < n
      ensures 0 <= s * size && s * size + size <= |raw| && SectorOf(raw, s, size) == SectorOf(heap[c], s, size)
    {
      JoinedSector(disk, HeapLba(g, c, 0), n, s, size);
      assert SectorTied(g, disk, heap, c, s);
    }
    SameSectors(raw, heap[c], n, size);
  }

  lemma RawFlat(g: Geometry, disk: seq<seq<byte>>, heap: Heap, ext: seq<nat>)
    requires Addressable(g, disk) && |heap| == g.clusterCount + 2 && InHeap(g, ext)
    requires forall c :: 2 <= c < |heap| ==> HeapOf(g, disk)[c] == heap[c]
    ensures Flat(HeapOf(g, disk), ext) == Flat(heap, ext)
  {
    hide HeapOf;
    FlatFrame(heap, HeapOf(g, disk), ext);
  }

  // ----- the root, and the table ----------------------------------------------------------------------

  /** Some slot of the root is unused: it starts with a zero byte. */
  ghost predicate RootHasRoom(heap: Heap, nodes: Owners) {
    && Root in nodes && Reads(heap, nodes[Root].ext)
    && exists k :: 0 <= k < |DirSlots(heap, nodes[Root].ext)| && DirSlots(heap, nodes[Root].ext)[k][0] == 0
  }

  /** A directory's extent is a chain for the mount, and the whole of it. */
  lemma DirectoryChain(g: Geometry, fat: seq<u32>, used: set<nat>, n: Node)
    requires NodeOk(g, fat, used, n) && n.isDir && g.WellFormed()
    requires |fat| == g.clusterCount + 2 <= 0xffff_fff7
    ensures n.ext != [] && Chain(g, fat, n.ext[0], EOC_MIN, n.ext) && Stuck(g, fat, n.ext[0], EOC_MIN, n.ext)
  {
    hide Geometry.WellFormed;
    hide Geometry.BytesPerCluster;
    DistinctFits(g, n.ext);
    assert g.ClusterEnd() == g.clusterCount + 2;
    var ext := n.ext;
    forall i | 0 <= i && i + 1 < |ext|
      ensures ext[i + 1] == fat[ext[i]] < EOC_MIN
    {
      assert 2 <= ext[i] < |fat| && 2 <= ext[i + 1] < |fat|;
    }
  }

  /** What the mount finds in the root. */
  lemma RootFoundAgain(g: Geometry, disk: seq<seq<byte>>, heap: Heap, nodes: Owners, used: set<nat>,
                       bitmap: AllocationBitmap, upcase: UpCaseTable)
    requires Addressable(g, disk) && g.clusterCount + 2 <= 0xffff_fff7 && HeapShape(g, heap) && TreeOk(g, heap, nodes)
    requires forall c :: 2 <= c < |heap| ==> HeapOf(g, disk)[c] == heap[c]
    requires Root in nodes && nodes[Root].isDir && NodeOk(g, FatOf(g, disk), used, nodes[Root])
    requires nodes[Root].ext != [] && nodes[Root].ext[0] == g.rootCluster && Reads(heap, nodes[Root].ext)
    requires RootSays(g, DirSlots(heap, nodes[Root].ext), bitmap, upcase)
    ensures RootEntries(g, disk) ==
      if RootHasRoom(heap, nodes) then Ok((bitmap, upcase)) else Err(RootDirectoryCorrupt)
  {
    hide RootEntries;
    hide RootSays;
    hide TreeOk;
    hide Scanned;
    hide SlotsOf;
    hide FatOf;
    hide HeapOf;
    hide Stored;
    hide NodeOk;
    hide Chain;
    hide Stuck;
    var ext := nodes[Root].ext;
    DirectoryChain(g, FatOf(g, disk), used, nodes[Root]);
    TreeStored(g, heap, nodes, Root);
    NodeInHeap(g, FatOf(g, disk), used, nodes[Root]);
    RawFlat(g, disk, heap, ext);
    SaysScanned(g, DirSlots(heap, ext), bitmap, upcase);
    assert RootScan(g, disk, ext) == Scanned(g, NOTHING, DirSlots(heap, ext));
    if RootHasRoom(heap, nodes) {
      RootFound(g, disk, ext);
    } else {
      RootLost(g, disk, ext);
    }
  }

  lemma NodeInHeap(g: Geometry, fat: seq<u32>, used: set<nat>, n: Node)
    requires NodeOk(g, fat, used, n) && g.clusterCount + 2 <= 0xffff_fff7
    ensures InHeap(g, n.ext) && InReach(g, n.ext)
  {
  }

  /** The mount finds the table sound. */
  lemma TableFoundAgain(g: Geometry, disk: seq<seq<byte>>, heap: Heap, n: Node, used: set<nat>, upcase: UpCaseTable)
    requires Addressable(g, disk) && g.clusterCount + 2 <= 0xffff_fff7 && HeapShape(g, heap)
    requires forall c :: 2 <= c < |heap| ==> HeapOf(g, disk)[c] == heap[c]
    requires NodeOk(g, FatOf(g, disk), used, n) && n.linked && n.ext != [] && n.ext[0] == upcase.firstCluster
    requires n.valid == upcase.byteLength > 0 && Sum32(0, Content(heap, n)) == upcase.checksum
    ensures exists ext: seq<nat> :: TableSound(g, disk, upcase, ext)
  {
    hide Sum32;
    hide Flat;
    var cb := g.BytesPerCluster();
    BytesPositive(g);
    var k := DivCeil(upcase.byteLength, cb);
    TableClusters(upcase.byteLength, cb, |n.ext|);
    var ext := n.ext[..k];
    DistinctFits(g, n.ext);
    FlatLength(heap, n.ext, cb);
    FlatPrefix(heap, n.ext, cb, k);
    RawFlat(g, disk, heap, ext);
    PrefixSlice(Flat(heap, n.ext), k * cb, upcase.byteLength);
    assert Chain(g, FatOf(g, disk), upcase.firstCluster, 0x1_0000_0000, ext);
    assert TableSound(g, disk, upcase, ext);
  }

  lemma PrefixSlice(whole: seq<byte>, a: nat, b: nat)
    requires b <= a <= |whole|
    ensures whole[..a][..b] == whole[..b]
  {
  }

  lemma TableClusters(length: nat, cb: nat, n: nat)
    requires cb > 0 && 0 < length <= n * cb
    ensures 0 < DivCeil(length, cb) <= n
    ensures (DivCeil(length, cb) - 1) * cb < length <= DivCeil(length, cb) * cb
  {
    CeilCovers(length, cb, n);
    CeilCovers(length, cb, DivCeil(length, cb));
    CeilCovers(length, cb, DivCeil(length, cb) - 1);
  }

  // ----- the mount of a used volume ----------------------------------------------------------------------

  /** A volume whose mount found a sound table, with what a later mount needs. */
  ghost predicate Mountable(fs: FileSystem, gpt: Result<Partition>)
    reads fs
  {
    && Inv(fs) && TableReady(fs) && fs.upcaseValid
    && Carried(fs.g, fs.bitmap, fs.upcase, fs.heap, fs.nodes) && Anchored(fs.g, fs.origin, gpt)
  }

  /** Mounting the device again: the same volume, or, exactly if the root has no
      unused slot, a refusal. */
  lemma MountsAgain(fs: FileSystem, scratchLength: nat, gpt: Result<Partition>)
    requires Mountable(fs, gpt) && scratchLength >= fs.g.bytesPerSector
    ensures Sectors(fs.disk, fs.g.bytesPerSector) && fs.disk != []
    ensures MountOf(fs.disk, fs.g.bytesPerSector, scratchLength, gpt) ==
      if RootHasRoom(fs.heap, fs.nodes) then Ok(MountedVolume(fs.g, fs.bitmap, fs.upcase, true))
      else Err(RootDirectoryCorrupt)
  {
    hide RootHasRoom;
    hide GeometryOf;
    hide PartitionOf;
    hide RootEntries;
    hide RootSays;
    hide TreeOk;
    hide HeapTied;
    hide FatTied;
    hide BitmapShape;
    hide UsedTied;
    hide OutsideKept;
    hide NodeOk;
    hide TableSound;
    hide Content;
    hide Sum32;
    hide Apart;
    hide SlotsOf;
    fs.Basics();
    GeometryStands(fs.g, fs.origin, fs.disk, gpt);
    TiedIsRaw(fs.g, fs.disk, fs.fat, fs.heap);
    assert HeapShape(fs.g, fs.heap);
    RootFoundAgain(fs.g, fs.disk, fs.heap, fs.nodes, fs.used, fs.bitmap, fs.upcase);
    TableFoundAgain(fs.g, fs.disk, fs.heap, fs.nodes[UpcaseFile], fs.used, fs.upcase);
  }

  /** Mount a device that holds what a file system last wrote.  The result has
      the same owners, the same files and the same bytes, and can be mounted
      again; only a root without an unused slot, or the device, prevents it. */
  method Remount(fs: FileSystem, d: Device, scratchLength: nat, gpt: Result<Partition>) returns (r: Result<FileSystem>)
    requires Mountable(fs, gpt) && scratchLength >= fs.g.bytesPerSector
    requires d.Valid() && d.disk == fs.disk && d.size == fs.g.bytesPerSector
    modifies d`clock
    ensures d.Valid()
    ensures r.Ok? ==>
      && fresh(r.value) && RootHasRoom(fs.heap, fs.nodes) && Mountable(r.value, gpt) && r.value.disk == d.disk
      && r.value.g == fs.g && r.value.bitmap == fs.bitmap && r.value.upcase == fs.upcase
      && r.value.nodes == fs.nodes && r.value.heap == fs.heap && r.value.fat == fs.fat && r.value.used == fs.used
    ensures r.Err? && r.error != Error.Device ==> r.error == RootDirectoryCorrupt && !RootHasRoom(fs.heap, fs.nodes)
    ensures Honest(d.faulty, old(d.clock), d.clock, r == Err(Error.Device))
  {
    hide RootHasRoom;
    hide MountOf;
    hide Carried;
    hide Anchored;
    hide OwnOk;
    hide TreeOk;
    hide FatTied;
    hide HeapTied;
    hide BitmapShape;
    hide UsedTied;
    MountsAgain(fs, scratchLength, gpt);
    AnchoredAgain(fs, gpt);
    var volume := Mount(d, scratchLength, gpt);
    if volume.Err? { return Err(volume.error); }
    var v := volume.value;
    var again := new FileSystem(v.geometry, v.bitmap, v.upcase, v.upcaseValid, d.faulty, d.clock, d.disk, Zeros(d.size),
                                fs.bm, fs.fat, fs.heap, fs.used, fs.nodes);
    return Ok(again);
  }

  lemma AnchoredAgain(fs: FileSystem, gpt: Result<Partition>)
    requires fs.Valid() && Anchored(fs.g, fs.origin, gpt)
    ensures Anchored(fs.g, fs.disk, gpt)
  {
    hide Anchored;
    hide FatTied;
    hide HeapTied;
    hide BitmapShape;
    hide UsedTied;
    GeometryStands(fs.g, fs.origin, fs.disk, gpt);
  }

  // ----- a root that is refused --------------------------------------------------------------------------

  /** On a fresh volume with clusters of one sector, two names of 61 to 75
      characters fill the root to its last slot. */
  lemma TwoNamesFillTheRoot(heap: Heap, nodes: Owners, slots: seq<Slot>, a: seq<Slot>, b: seq<Slot>)
    requires |slots| == 16 && slots[0][0] == 0x81 && slots[1][0] == 0x82
    requires FileSet(a) && FileSet(b) && |a| == |b| == 7
    requires Root in nodes && Reads(heap, nodes[Root].ext)
    requires DirSlots(heap, nodes[Root].ext) == Window(Window(slots, 2, a), 9, b)
    ensures !RootHasRoom(heap, nodes)
  {
    hide SlotsOf;
    hide Flat;
    var full := Window(Window(slots, 2, a), 9, b);
    forall k | 0 <= k < 16
      ensures full[k][0] != 0
    {
      if k < 2 {
        assert full[k] == slots[k];
      } else if k < 9 {
        assert full[k] == a[k - 2];
      } else {
        assert full[k] == b[k - 9];
      }
    }
  }
}
