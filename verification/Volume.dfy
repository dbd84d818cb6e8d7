/** The mounted volume on its sector device, and the FAT, bitmap and cluster
    allocation primitives.

    The device fails whenever `faulty` says so: every sector read or write takes
    one tick of `clock`, and a failed write changes nothing.  The ghost fields
    are the value-level reading of the device that `Valid` ties to `disk`. */
module Volume {
  import opened Words
  import opened Errors
  import opened Geometry
  import opened Views

  /** Name of a cluster owner.  A child is named by its directory and by the
      index there of the first slot of its entry set. */
  datatype Id = Root | BitmapFile | UpcaseFile | Child(dir: Id, at: nat)

  /** A cluster owner as its directory entry records it: the clusters, whether
      they are FAT-linked or contiguous, the valid length, whether it is a
      directory, and the number of slots of its entry set. */
  datatype Node = Node(ext: seq<nat>, linked: bool, valid: nat, isDir: bool, count: nat)

  type Owners = map<Id, Node>

  /** Every cluster is in use. */
  ghost predicate Full(g: Geometry, used: set<nat>) {
    forall c :: 2 <= c < g.clusterCount + 2 ==> c in used
  }

  class FileSystem {
    const g: Geometry
    const bitmap: AllocationBitmap
    const upcase: UpCaseTable
    const upcaseValid: bool
    const faulty: nat -> bool
    ghost const bm: seq<nat>
    ghost const origin: seq<seq<byte>>

    var clock: nat
    var disk: seq<seq<byte>>
    var scratch: seq<byte>
    var free: Option<nat>

    ghost var fat: seq<u32>
    ghost var heap: Heap
    ghost var used: set<nat>
    ghost var nodes: Owners

    /** The device, its views, and the counts agree; and nothing outside the
        active FAT and the heap has changed since the volume was mounted. */
    ghost predicate Valid()
      reads `disk, `scratch, `free, `fat, `heap, `used
    {
      && Sized(g, disk)
      && FatTied(g, disk, fat)
      && HeapTied(g, disk, heap)
      && BitmapShape(g, bitmap, bm, fat)
      && UsedTied(g, bitmap, bm, fat, heap, used)
      && |scratch| == g.bytesPerSector
      && OutsideKept(g, origin, disk)
      && (free.Some? ==> free.value + |used| == g.clusterCount)
    }

    /** The part of `Valid` that most proofs need. */
    lemma Basics()
      requires Valid()
      ensures g.WellFormed() && g.clusterCount + 2 <= 0xffff_fff7 && g.ClusterEnd() == g.clusterCount + 2
      ensures g.BytesPerCluster() > 0 && |scratch| == g.bytesPerSector
      ensures |fat| == g.clusterCount + 2 && HeapShape(g, heap)
      ensures InHeap(g, bm) && Distinct(bm)
      ensures forall c :: c in used ==> 2 <= c < g.clusterCount + 2
    {
      BytesPositive(g);
    }

    constructor (g: Geometry, bitmap: AllocationBitmap, upcase: UpCaseTable, upcaseValid: bool,
                 faulty: nat -> bool, clock: nat, disk: seq<seq<byte>>, scratch: seq<byte>,
                 ghost bm: seq<nat>, ghost fat: seq<u32>, ghost heap: Heap,
                 ghost used: set<nat>, ghost nodes: Owners)
      ensures this.g == g && this.bitmap == bitmap && this.upcase == upcase && this.upcaseValid == upcaseValid
      ensures this.faulty == faulty && this.clock == clock && this.disk == disk && this.scratch == scratch
      ensures this.bm == bm && this.fat == fat && this.heap == heap && this.used == used && this.nodes == nodes
      ensures free == None && origin == disk
    {
      this.g, this.bitmap, this.upcase, this.upcaseValid := g, bitmap, upcase, upcaseValid;
      this.faulty, this.clock, this.disk, this.scratch := faulty, clock, disk, scratch;
      this.bm, this.fat, this.heap, this.used, this.nodes := bm, fat, heap, used, nodes;
      origin, free := disk, None;
    }

    // ----- the device ---------------------------------------------------------------

    method ReadSector(lba: nat) returns (ok: bool)
      requires Valid() && lba < |disk|
      modifies `clock, `scratch
      ensures Valid() && (ok ==> scratch == disk[lba])
      ensures Honest(faulty, old(clock), clock, !ok)
    {
      ok := !faulty(clock);
      clock := clock + 1;
      if ok { scratch := disk[lba]; }
    }

    /** Edit the scratch buffer. */
    method FillScratch(offset: nat, data: seq<byte>)
      requires Valid() && offset + |data| <= |scratch|
      modifies `scratch
      ensures Valid() && scratch == Splice(old(scratch), offset, data)
    {
      scratch := Splice(scratch, offset, data);
    }

    /** Write the scratch sector to sector `s` of cluster `c`. */
    method WriteHeapSector(lba: nat, ghost c: nat, ghost s: nat) returns (ok: bool)
      requires Valid() && 2 <= c < g.clusterCount + 2 && c !in bm && s < g.sectorsPerCluster
      requires lba == HeapLba(g, c, s)
      modifies `clock, `disk, `heap
      ensures Valid()
      ensures !ok ==> heap == old(heap) && disk == old(disk)
      ensures 0 <= s * g.bytesPerSector && s * g.bytesPerSector + |scratch| <= |old(heap)[c]|
      ensures ok ==> heap == old(heap)[c := Splice(old(heap)[c], s * g.bytesPerSector, scratch)]
      ensures Honest(faulty, old(clock), clock, !ok)
    {
      hide OutsideKept;
      PutHeapTied(g, disk, fat, heap, c, s, scratch);
      HeapInside(g, c, s);
      PutInside(g, origin, disk, lba, scratch);
      ok := !faulty(clock);
      clock := clock + 1;
      if ok {
        disk := disk[lba := scratch];
        ghost var heap' := heap[c := Splice(heap[c], s * g.bytesPerSector, scratch)];
        OutsideBitmap(g, bitmap, bm, fat, fat, heap, heap', used);
        heap := heap';
      }
    }

    // ----- FAT ------------------------------------------------------------------------

    method NextCluster(cluster: nat) returns (r: Result<u32>)
      requires Valid() && cluster < g.clusterCount + 2
      modifies `clock, `scratch
      ensures Valid()
      ensures r == Ok(fat[cluster]) || r == Err(Device)
      ensures Honest(faulty, old(clock), clock, r == Err(Device))
    {
      FatAddress(g, cluster);
      var fatByte := cluster * 4;
      var lba := g.FatLbaForByte(fatByte);
      if lba.None? { return Err(Corrupt); }
      var offset := fatByte % g.bytesPerSector;
      var ok := ReadSector(lba.value);
      if !ok { return Err(Device); }
      assert fat[cluster] == FatWord(g, disk, cluster);
      return Ok(Le32(scratch[offset..offset + 4]));
    }

    method SetFat(cluster: nat, value: u32) returns (r: Result<()>)
      requires Valid() && cluster < g.clusterCount + 2 && cluster !in bm
      modifies `clock, `scratch, `disk, `fat
      ensures Valid()
      ensures r == Ok(()) || r == Err(Device)
      ensures fat == if r.Ok? then old(fat)[cluster := value] else old(fat)
      ensures r.Err? ==> disk == old(disk)
      ensures Honest(faulty, old(clock), clock, r == Err(Device))
    {
      hide OutsideKept;
      PutFatTied(g, disk, fat, heap, cluster, value);
      FatAddress(g, cluster);
      FatInside(g, cluster);
      var fatByte := cluster * 4;
      var lba := g.FatLbaForByte(fatByte);
      if lba.None? { return Err(Corrupt); }
      var offset := fatByte % g.bytesPerSector;
      var ok := ReadSector(lba.value);
      if !ok { return Err(Device); }
      scratch := Splice(scratch, offset, Enc32(value));
      PutInside(g, origin, disk, lba.value, scratch);
      ok := !faulty(clock);
      clock := clock + 1;
      if !ok { return Err(Device); }
      disk := disk[lba.value := scratch];
      ghost var fat' := fat[cluster := value];
      OutsideBitmap(g, bitmap, bm, fat, fat', heap, heap, used);
      fat := fat';
      return Ok(());
    }

    /** Follow `index` FAT links from `first`: exactly the walk on the FAT. */
    method ClusterAt(first: nat, index: nat) returns (r: Result<u32>)
      requires Valid() && g.InRange(first)
      modifies `clock, `scratch
      ensures Valid()
      ensures r.Ok? ==> index < g.clusterCount && Walk(g, fat, first, index) == Some(r.value)
      ensures r.Err? && r.error != Device ==>
        r.error == Corrupt && (index >= g.clusterCount || Walk(g, fat, first, index).None?)
      ensures Honest(faulty, old(clock), clock, r == Err(Device))
    {
      hide Failures;
      hide FileSystem.Valid;
      hide Geometry.WellFormed;
      Basics();
      if index >= g.clusterCount { return Err(Corrupt); }
      var cluster: u32 := first;
      for i := 0 to index
        invariant Honest(faulty, old(clock), clock, false)
        invariant Valid() && Walk(g, fat, first, i) == Some(cluster) && g.InRange(cluster)
      {
        var next := NextCluster(cluster);
        if next.Err? { return Err(next.error); }
        cluster := next.value;
        if !g.InRange(cluster) {
          if Walk(g, fat, first, index).Some? { WalkPrefix(g, fat, first, index, i + 1); }
          return Err(Corrupt);
        }
      }
      return Ok(cluster);
    }

    // ----- allocation bitmap --------------------------------------------------------------

    lemma SectorHolds(c: nat, within: nat)
      requires Valid() && 2 <= c < g.clusterCount + 2 && within < g.BytesPerCluster()
      ensures within / g.bytesPerSector < g.sectorsPerCluster
      ensures 0 <= within / g.bytesPerSector * g.bytesPerSector
      ensures within / g.bytesPerSector * g.bytesPerSector + within % g.bytesPerSector == within
      ensures HeapLba(g, c, within / g.bytesPerSector) < |disk|
      ensures within / g.bytesPerSector * g.bytesPerSector + g.bytesPerSector <= |heap[c]|
      ensures disk[HeapLba(g, c, within / g.bytesPerSector)]
           == SectorOf(heap[c], within / g.bytesPerSector, g.bytesPerSector)
      ensures disk[HeapLba(g, c, within / g.bytesPerSector)][within % g.bytesPerSector] == heap[c][within]
    {
      WithinSector(within, g.bytesPerSector, g.sectorsPerCluster);
      var s := within / g.bytesPerSector;
      HeapAddress(g, c, s);
      SectorFits(s, g.sectorsPerCluster, g.bytesPerSector);
      assert SectorTied(g, disk, heap, c, s);
    }

    /** Sector and offset of a bitmap byte. */
    method BitmapLocation(k: nat) returns (r: Result<(nat, nat)>)
      requires Valid()
      modifies `clock, `scratch
      ensures Valid()
      ensures r.Err? ==> r.error == Device || (r.error == Corrupt && k >= bitmap.byteLength)
      ensures r.Ok? ==> k < bitmap.byteLength && g.BytesPerCluster() > 0
      ensures r.Ok? ==>
        var cb := g.BytesPerCluster();
        && 0 <= k / cb < |bm| && 0 <= k % cb
        && k % cb / g.bytesPerSector < g.sectorsPerCluster
        && r.value == (HeapLba(g, bm[k / cb], k % cb / g.bytesPerSector), k % cb % g.bytesPerSector)
      ensures Honest(faulty, old(clock), clock, r == Err(Device))
    {
      var size: nat, clusterBytes := g.bytesPerSector, g.BytesPerCluster();
      if k >= bitmap.byteLength { return Err(Corrupt); }
      BytesPositive(g);
      ByteInChain(k, bitmap.byteLength, clusterBytes, |bm|);
      var cluster := ClusterAt(bitmap.firstCluster, k / clusterBytes);
      WalkFollowsLinks(g, fat, bm, k / clusterBytes);
      if cluster.Err? { return Err(cluster.error); }
      var within := k % clusterBytes;
      WithinSector(within, size, g.sectorsPerCluster);
      var lba := g.ClusterLba(cluster.value);
      if lba.None? { return Err(Corrupt); }
      return Ok((lba.value + within / size, within % size));
    }

    lemma BitmapByteHere(c: nat)
      requires Valid() && 2 <= c < g.clusterCount + 2
      ensures g.BytesPerCluster() > 0
      ensures var (q, w, b) := BitPlace(c, g.BytesPerCluster());
              && q < |bm| && bm[q] < |heap| && w < g.BytesPerCluster() == |heap[bm[q]]|
              && (c in used <==> Bit(heap[bm[q]][w], b))
    {
      BytesPositive(g);
      ByteInChain((c - 2) / 8, bitmap.byteLength, g.BytesPerCluster(), |bm|);
      assert c in used <==> ClusterUsed(g, bitmap, bm, fat, heap, c);
    }

    /** Bring the sector of bitmap byte `k` into the scratch buffer.  `w` is the
        byte's place in its cluster `c`, `s` its sector there. */
    method LoadBitmapSector(k: nat) returns (r: Result<(nat, nat)>, ghost c: nat, ghost w: nat, ghost s: nat)
      requires Valid() && k < bitmap.byteLength
      modifies `clock, `scratch
      ensures Valid()
      ensures r.Err? ==> r.error == Device
      ensures r.Ok? ==>
        && g.BytesPerCluster() > 0 && 0 <= k / g.BytesPerCluster() < |bm|
        && c == bm[k / g.BytesPerCluster()] && w == k % g.BytesPerCluster() && s == w / g.bytesPerSector
        && c < |heap| && w < |heap[c]| && s < g.sectorsPerCluster && 0 <= s * g.bytesPerSector
        && s * g.bytesPerSector + g.bytesPerSector <= |heap[c]|
        && var (lba, offset) := r.value;
           && offset == w % g.bytesPerSector && offset < |scratch|
           && s * g.bytesPerSector + offset == w
           && lba == HeapLba(g, c, s) && lba < |disk| && scratch == disk[lba]
           && scratch == SectorOf(heap[c], s, g.bytesPerSector)
           && scratch[offset] == heap[c][w]
      ensures Honest(faulty, old(clock), clock, r == Err(Device))
    {
      c, w, s := 0, 0, 0;
      var location := BitmapLocation(k);
      if location.Err? { return Err(location.error), c, w, s; }
      var (lba, offset) := location.value;
      c, w := bm[k / g.BytesPerCluster()], k % g.BytesPerCluster();
      s := w / g.bytesPerSector;
      SectorHolds(c, w);
      var ok := ReadSector(lba);
      if !ok { return Err(Device), c, w, s; }
      return Ok((lba, offset)), c, w, s;
    }

    /** Rewriting the sector of one bitmap bit flips that bit and nothing else. */
    lemma FlipTied(cluster: nat, on: bool)
      requires Valid() && 2 <= cluster < g.clusterCount + 2
      ensures g.BytesPerCluster() > 0
      ensures var (q, w, b) := BitPlace(cluster, g.BytesPerCluster());
              && q < |bm| && bm[q] < |heap| && w < |heap[bm[q]]| && b < 8
              && HeapLba(g, bm[q], w / g.bytesPerSector) < |disk|
              && var lba := HeapLba(g, bm[q], w / g.bytesPerSector);
                 var disk' := disk[lba := FlipBit(disk[lba], w % g.bytesPerSector, b, on)];
                 var heap' := heap[bm[q] := FlipBit(heap[bm[q]], w, b, on)];
                 && Sized(g, disk') && FatTied(g, disk', fat) && HeapTied(g, disk', heap')
                 && OutsideKept(g, origin, disk')
                 && HeapShape(g, heap')
                 && UsedTied(g, bitmap, bm, fat, heap', if on then used + {cluster} else used - {cluster})
    {
      hide OutsideKept;
      BitmapByteHere(cluster);
      PutUsed(g, bitmap, bm, fat, heap, used, cluster, on);
      var (q, w, b) := BitPlace(cluster, g.BytesPerCluster());
      SectorHolds(bm[q], w);
      var s := w / g.bytesPerSector;
      var lba := HeapLba(g, bm[q], s);
      var sector := FlipBit(disk[lba], w % g.bytesPerSector, b, on);
      PutHeapTied(g, disk, fat, heap, bm[q], s, sector);
      HeapInside(g, bm[q], s);
      PutInside(g, origin, disk, lba, sector);
      FlipInSector(heap[bm[q]], s, w % g.bytesPerSector, b, on, g.bytesPerSector);
    }

    /** The free count after a bit changes stays within its two checks. */
    lemma FreeCountFollows(cluster: nat, on: bool)
      requires Valid() && 2 <= cluster < g.clusterCount + 2 && free.Some?
      ensures on && cluster !in used ==> free.value > 0 && free.value - 1 + |used + {cluster}| == g.clusterCount
      ensures !on && cluster in used ==> free.value + 1 + |used - {cluster}| == g.clusterCount
    {
      UsedFits(g, used);
      UsedFits(g, used + {cluster});
    }

    method BitmapUsed(cluster: nat) returns (r: Result<bool>)
      requires Valid() && 2 <= cluster < g.clusterCount + 2
      modifies `clock, `scratch
      ensures Valid()
      ensures r == Ok(cluster in used) || r == Err(Device)
      ensures Honest(faulty, old(clock), clock, r == Err(Device))
    {
      var position := bitmap.PositionFor(cluster);
      if position.None? { return Err(Corrupt); }
      var (k, bit) := position.value;
      BitmapByteHere(cluster);
      var location, c, w, s := LoadBitmapSector(k);
      if location.Err? { return Err(location.error); }
      var (lba, offset) := location.value;
      return Ok(Bit(scratch[offset], bit));
    }

    lemma OneOperation(since: nat)
      requires clock == since + 1
      ensures Honest(faulty, since, clock, faulty(since))
    {
    }

    /** Write the scratch sector, in which the bit of `cluster` has been flipped,
        and publish the new free count once the write has succeeded. */
    method WriteBitmapSector(lba: nat, ghost cluster: nat, ghost on: bool, newFree: Option<nat>) returns (ok: bool)
      requires Valid() && 2 <= cluster < g.clusterCount + 2 && g.BytesPerCluster() > 0
      requires var (q, w, b) := BitPlace(cluster, g.BytesPerCluster());
               && q < |bm| && bm[q] < |heap| && w < |heap[bm[q]]| && b < 8
               && lba == HeapLba(g, bm[q], w / g.bytesPerSector) && lba < |disk|
               && scratch == FlipBit(disk[lba], w % g.bytesPerSector, b, on)
      requires newFree.Some? ==> newFree.value + |if on then used + {cluster} else used - {cluster}| == g.clusterCount
      modifies `clock, `disk, `heap, `used, `free
      ensures Valid()
      ensures !ok ==> disk == old(disk) && heap == old(heap) && used == old(used) && free == old(free)
      ensures ok ==> used == if on then old(used) + {cluster} else old(used) - {cluster}
      ensures ok ==> free == newFree
      ensures forall c :: 0 <= c < |heap| && c !in bm ==> heap[c] == old(heap)[c]
      ensures Honest(faulty, old(clock), clock, !ok)
    {
      hide Honest;
      hide OutsideKept;
      hide FatTied;
      hide HeapTied;
      hide UsedTied;
      hide FlipBit;
      hide BitPlace;
      hide HeapLba;
      FlipTied(cluster, on);
      ghost var (q, w, b) := BitPlace(cluster, g.BytesPerCluster());
      ghost var heap' := heap[bm[q] := FlipBit(heap[bm[q]], w, b, on)];
      ghost var used' := if on then used + {cluster} else used - {cluster};
      var disk' := disk[lba := scratch];
      ok := !faulty(clock);
      clock := clock + 1;
      OneOperation(old(clock));
      if ok {
        disk, heap, used, free := disk', heap', used', newFree;
      }
    }

    /** Mark or clear one cluster.  The free count follows, and its two
        consistency checks never fire. */
    method SetBitmap(cluster: nat, on: bool) returns (r: Result<()>)
      requires Valid() && 2 <= cluster < g.clusterCount + 2
      modifies `clock, `scratch, `disk, `heap, `used, `free
      ensures Valid()
      ensures r == Ok(()) || r == Err(Device)
      ensures r.Err? ==> disk == old(disk) && heap == old(heap) && used == old(used) && free == old(free)
      ensures r.Ok? ==> used == if on then old(used) + {cluster} else old(used) - {cluster}
      ensures forall c :: 0 <= c < |heap| && c !in bm ==> heap[c] == old(heap)[c]
      ensures Honest(faulty, old(clock), clock, r == Err(Device))
    {
      hide Failures;
      var position := bitmap.PositionFor(cluster);
      if position.None? { return Err(Corrupt); }
      var (k, bit) := position.value;
      BitmapByteHere(cluster);
      var location, c, w, s := LoadBitmapSector(k);
      if location.Err? { return Err(location.error); }
      var (lba, offset) := location.value;
      var wasUsed := Bit(scratch[offset], bit);
      if wasUsed == on { return Ok(()); }
      var newFree := free;
      if free.Some? {
        FreeCountFollows(cluster, on);
        if on {
          if free.value == 0 { return Err(Corrupt); }
          newFree := Some(free.value - 1);
        } else {
          if free.value + 1 > g.clusterCount { return Err(Corrupt); }
          newFree := Some(free.value + 1);
        }
      }
      scratch := FlipBit(scratch, offset, bit, on);
      var ok := WriteBitmapSector(lba, cluster, on, newFree);
      return if ok then Ok(()) else Err(Device);
    }

    // ----- free space -----------------------------------------------------------------------

    /** Bit `j` of bitmap byte `k` says whether its cluster is marked. */
    lemma ByteBit(k: nat, j: nat, cb: nat)
      requires Valid() && j < 8 && 8 * k + j < g.clusterCount && cb == g.BytesPerCluster() && cb > 0
      ensures 0 <= k / cb < |bm| && bm[k / cb] < |heap| && 0 <= k % cb < |heap[bm[k / cb]]|
      ensures 2 + 8 * k + j in used <==> Bit(heap[bm[k / cb]][k % cb], j)
    {
      hide FileSystem.Valid;
      hide Geometry.BytesPerCluster;
      assert (2 + 8 * k + j - 2) / 8 == k && (2 + 8 * k + j - 2) % 8 == j;
      BitmapByteHere(2 + 8 * k + j);
    }

    /** Count the marked clusters of `bytes` bitmap bytes from byte `k` on, which
        the scratch sector holds from `offset` on. */
    method CountBytes(k: nat, bytes: nat, offset: nat, usedBefore: nat, bitsBefore: nat, ghost cb: nat)
      returns (usedClusters: nat, remainingBits: nat)
      requires Valid() && cb == g.BytesPerCluster() && cb > 0 && offset + bytes <= |scratch|
      requires k % cb + bytes <= cb && 0 <= k / cb < |bm|
      requires scratch[offset..offset + bytes] == heap[bm[k / cb]][k % cb..k % cb + bytes]
      requires bitsBefore == BitsLeft(g.clusterCount, k) && bitsBefore > 0
      requires usedBefore == |UsedBelow(used, g.clusterCount - bitsBefore)|
      ensures remainingBits == BitsLeft(g.clusterCount, k + bytes)
      ensures usedClusters == |UsedBelow(used, g.clusterCount - remainingBits)|
    {
      hide FileSystem.Valid;
      hide Geometry.BytesPerCluster;
      usedClusters, remainingBits := usedBefore, bitsBefore;
      for i := 0 to bytes
        invariant remainingBits == BitsLeft(g.clusterCount, k + i)
        invariant usedClusters == |UsedBelow(used, g.clusterCount - remainingBits)|
      {
        if remainingBits == 0 { break; }
        var value := scratch[offset + i];
        SameCluster(k, i, cb);
        ByteBit(k + i, 0, cb);
        ghost var cluster := heap[bm[k / cb]];
        assert |cluster| == cb by { Basics(); }
        assert 0 <= k % cb;
        assert value == scratch[offset..offset + bytes][i] == cluster[k % cb..k % cb + bytes][i] == cluster[k % cb + i];
        var validBits := Min(remainingBits, 8);
        forall j | 0 <= j < validBits
          ensures 2 + 8 * (k + i) + j in used <==> Bit(value, j)
        {
          ByteBit(k + i, j, cb);
        }
        BitsCount(used, 8 * (k + i), value, validBits);
        usedClusters := usedClusters + LowOnes(value, validBits);
        remainingBits := remainingBits - validBits;
      }
    }

    /** Count the part of the bitmap that shares a sector and a cluster with
        byte `k`; `bytes` is how much that was. */
    method CountSector(k: nat, usedBefore: nat, bitsBefore: nat)
      returns (r: Result<()>, bytes: nat, usedClusters: nat, remainingBits: nat)
      requires Valid()
      requires bitsBefore == BitsLeft(g.clusterCount, k) && bitsBefore > 0
      requires usedBefore == |UsedBelow(used, g.clusterCount - bitsBefore)|
      modifies `clock, `scratch
      ensures Valid()
      ensures r == Ok(()) || r == Err(Device)
      ensures r.Ok? ==> bytes > 0 && remainingBits == BitsLeft(g.clusterCount, k + bytes)
      ensures r.Ok? ==> usedClusters == |UsedBelow(used, g.clusterCount - remainingBits)|
      ensures Honest(faulty, old(clock), clock, r == Err(Device))
    {
      hide Failures;
      bytes, usedClusters, remainingBits := 0, usedBefore, bitsBefore;
      var sectorSize: nat, clusterBytes := g.bytesPerSector, g.BytesPerCluster();
      var location, c, w, s := LoadBitmapSector(k);
      if location.Err? { return Err(location.error), bytes, usedClusters, remainingBits; }
      var (_, offset) := location.value;
      var untilNextCluster := clusterBytes - k % clusterBytes;
      bytes := Min(Min(sectorSize - offset, untilNextCluster), bitmap.byteLength - k);
      if bytes == 0 { return Err(Corrupt), bytes, usedClusters, remainingBits; }
      SliceOfSector(heap[c], s, sectorSize, offset, bytes);
      usedClusters, remainingBits := CountBytes(k, bytes, offset, usedBefore, bitsBefore, clusterBytes);
      r := Ok(());
    }

    /** Rescan the bitmap: the stored count is the number of clear bits, and no
        consistency check fires. */
    method RefreshFreeClusters() returns (r: Result<()>)
      requires Valid()
      modifies `clock, `scratch, `free
      ensures Valid()
      ensures r == Ok(()) || r == Err(Device)
      ensures r.Ok? ==> free.Some? && free.value + |used| == g.clusterCount
      ensures r.Err? ==> free == old(free)
      ensures Honest(faulty, old(clock), clock, r == Err(Device))
    {
      hide Failures;
      var k: nat := 0;
      var remainingBits: nat := g.clusterCount;
      var usedClusters: nat := 0;
      assert UsedBelow(used, 0) == {};
      while remainingBits != 0
        invariant Honest(faulty, old(clock), clock, false)
        invariant Valid() && free == old(free)
        invariant remainingBits == BitsLeft(g.clusterCount, k)
        invariant usedClusters == |UsedBelow(used, g.clusterCount - remainingBits)|
        decreases remainingBits
      {
        var pass, bytes, usedAfter, bitsAfter := CountSector(k, usedClusters, remainingBits);
        if pass.Err? { return pass; }
        k, usedClusters, remainingBits := k + bytes, usedAfter, bitsAfter;
      }
      assert UsedBelow(used, g.clusterCount) == used;
      UsedFits(g, used);
      if usedClusters > g.clusterCount { return Err(Corrupt); }
      free := Some(g.clusterCount - usedClusters);
      return Ok(());
    }

    /** Free bytes, scanning the bitmap only when no count is stored. */
    method FreeSpaceBytes() returns (r: Result<nat>)
      requires Valid()
      modifies `clock, `scratch, `free
      ensures Valid()
      ensures r == Ok((g.clusterCount - |used|) * g.BytesPerCluster()) || r == Err(Device)
      ensures Honest(faulty, old(clock), clock, r == Err(Device))
    {
      if free.None? {
        var refreshed := RefreshFreeClusters();
        if refreshed.Err? { return Err(refreshed.error); }
      }
      return Ok(free.value * g.BytesPerCluster());
    }

    // ----- allocation -----------------------------------------------------------------------

    /** Claim `cluster` if its bit is clear: zero it, mark it, end it. */
    method ClaimFreeCluster(cluster: nat) returns (r: Result<Option<nat>>)
      requires Valid() && 2 <= cluster < g.clusterCount + 2 && (cluster in bm ==> cluster in used)
      modifies `clock, `scratch, `disk, `fat, `heap, `used, `free
      ensures Valid()
      ensures r.Ok? ==> r.value == (if cluster in old(used) then None else Some(cluster))
      ensures r.Err? ==> r.error == Device
      ensures cluster in old(used) ==>
        fat == old(fat) && heap == old(heap) && used == old(used) && disk == old(disk) && free == old(free)
      ensures r.Ok? && cluster !in old(used) ==>
        && used == old(used) + {cluster}
        && fat == old(fat)[cluster := EOC]
        && heap[cluster] == Zeros(g.BytesPerCluster())
      ensures r.Err? ==> fat == old(fat) && (used == old(used) || used == old(used) + {cluster})
      ensures forall c :: 0 <= c < |heap| && c !in bm && c != cluster ==> heap[c] == old(heap)[c]
      ensures Honest(faulty, old(clock), clock, r == Err(Device))
    {
      hide Failures;
      var isUsed := BitmapUsed(cluster);
      if isUsed.Err? { return Err(isUsed.error); }
      if !isUsed.value {
        var firstLba := g.ClusterLba(cluster);
        if firstLba.None? { return Err(Corrupt); }
        var size: nat := g.bytesPerSector;
        for sector := 0 to g.sectorsPerCluster
          invariant Honest(faulty, old(clock), clock, false)
          invariant Valid() && fat == old(fat) && used == old(used) && free == old(free)
          invariant forall c :: 0 <= c < |heap| && c != cluster ==> heap[c] == old(heap)[c]
          invariant 0 <= sector * size <= |heap[cluster]|
          invariant forall i :: 0 <= i < sector * size ==> heap[cluster][i] == 0
        {
          scratch := Zeros(size);
          var ok := WriteHeapSector(firstLba.value + sector, cluster, sector);
          if !ok { return Err(Device); }
          SectorFits(sector, g.sectorsPerCluster, size);
          assert (sector + 1) * size == sector * size + size;
        }
        assert heap[cluster] == Zeros(g.BytesPerCluster());
        var marked := SetBitmap(cluster, true);
        if marked.Err? { return Err(marked.error); }
        var ended := SetFat(cluster, EOC);
        if ended.Err? { return Err(ended.error); }
        return Ok(Some(cluster));
      }
      return Ok(None);
    }

    /** First free cluster in cyclic order from the preferred one. */
    method AllocateClusterPreferred(preferred: nat) returns (r: Result<nat>)
      requires Valid() && (forall c :: c in bm ==> c in used)
      modifies `clock, `scratch, `disk, `fat, `heap, `used, `free
      ensures Valid()
      ensures r.Ok? ==>
        var c := r.value;
        && 2 <= c < g.clusterCount + 2 && c !in old(used)
        && (forall d :: 2 <= d < g.clusterCount + 2 && Turn(g, preferred, d) < Turn(g, preferred, c) ==> d in old(used))
        && used == old(used) + {c}
        && fat == old(fat)[c := EOC]
        && heap[c] == Zeros(g.BytesPerCluster())
      ensures r.Err? ==> r.error in {Device, NoSpace} && fat == old(fat)
      ensures r.Err? ==> old(used) <= used
      ensures forall c :: 0 <= c < |heap| && c in old(used) && c !in bm ==> heap[c] == old(heap)[c]
      ensures r.Ok? ==> forall c :: 0 <= c < |heap| && c != r.value && c !in bm ==> heap[c] == old(heap)[c]
      ensures r == Err(NoSpace) ==>
        && (forall d :: 2 <= d < g.clusterCount + 2 ==> d in old(used))
        && disk == old(disk) && heap == old(heap) && used == old(used) && free == old(free)
      ensures (forall d :: 2 <= d < g.clusterCount + 2 ==> d in old(used)) ==> r in {Err(NoSpace), Err(Device)}
      ensures Honest(faulty, old(clock), clock, r == Err(Device))
    {
      hide Failures;
      hide FileSystem.Valid;
      Basics();
      var end := g.clusterCount + 2;
      var first := if 2 <= preferred < end then preferred else 2;
      for cluster := first to end
        invariant Honest(faulty, old(clock), clock, false)
        invariant Valid() && fat == old(fat) && heap == old(heap) && used == old(used) && disk == old(disk)
        invariant free == old(free)
        invariant forall d :: first <= d < cluster ==> d in used
      {
        var claim := ClaimFreeCluster(cluster);
        if claim.Err? { return Err(claim.error); }
        if claim.value.Some? { return Ok(claim.value.value); }
      }
      for cluster := 2 to first
        invariant Honest(faulty, old(clock), clock, false)
        invariant Valid() && fat == old(fat) && heap == old(heap) && used == old(used) && disk == old(disk)
        invariant free == old(free)
        invariant forall d :: first <= d < end ==> d in used
        invariant forall d :: 2 <= d < cluster ==> d in used
      {
        var claim := ClaimFreeCluster(cluster);
        if claim.Err? { return Err(claim.error); }
        if claim.value.Some? { return Ok(claim.value.value); }
      }
      return Err(NoSpace);
    }
  }

  /** The marked clusters among the first `n`. */
  function UsedBelow(used: set<nat>, n: nat): set<nat> {
    set c | c in used && c < n + 2
  }

  lemma CountOneMore(used: set<nat>, n: nat)
    ensures |UsedBelow(used, n + 1)| == |UsedBelow(used, n)| + if n + 2 in used then 1 else 0
  {
    if n + 2 in used {
      assert UsedBelow(used, n + 1) == UsedBelow(used, n) + {n + 2};
    } else {
      assert UsedBelow(used, n + 1) == UsedBelow(used, n);
    }
  }

  /** The low bits of a bitmap byte count the clusters they stand for. */
  lemma {:induction false} BitsCount(used: set<nat>, base: nat, value: byte, n: nat)
    requires forall j :: 0 <= j < n ==> (2 + base + j in used <==> Bit(value, j))
    ensures |UsedBelow(used, base + n)| == |UsedBelow(used, base)| + LowOnes(value, n)
  {
    if n > 0 {
      BitsCount(used, base, value, n - 1);
      CountOneMore(used, base + (n - 1));
      assert 2 + base + (n - 1) in used <==> Bit(value, n - 1);
    }
  }

  lemma SliceOfSector(bytes: seq<byte>, s: nat, size: nat, o: nat, n: nat)
    requires 0 <= s * size && s * size + size <= |bytes| && o + n <= size
    ensures SectorOf(bytes, s, size)[o..o + n] == bytes[s * size + o..s * size + o + n]
  {
    SliceOfSlice(bytes, s * size, s * size + size, o, n);
  }

  /** Bits of the clusters that the bitmap bytes before byte `k` do not cover. */
  function BitsLeft(count: nat, k: nat): nat {
    if 8 * k < count then count - 8 * k else 0
  }

  lemma SameCluster(k: nat, i: nat, cb: nat)
    requires cb > 0 && i < cb - k % cb
    ensures (k + i) / cb == k / cb && (k + i) % cb == k % cb + i
  {
    var q, w := k / cb, k % cb + i;
    assert k + i == q * cb + w;
    DivModUnique(k + i, cb, q, w);
  }

  lemma DivModUnique(x: nat, d: nat, q: nat, w: nat)
    requires d > 0 && w < d && x == q * d + w
    ensures x / d == q && x % d == w
  {
    var p := x / d;
    assert x == p * d + x % d;
    assert (p + 1) * d == p * d + d && (q + 1) * d == q * d + d;
    if p < q {
      MulMonotone(p + 1, q, d);
    } else if q < p {
      MulMonotone(q + 1, p, d);
    }
  }

  /** Position of cluster `d` in the cyclic search order of an allocation. */
  function Turn(g: Geometry, preferred: nat, d: nat): int {
    var first := if 2 <= preferred < g.clusterCount + 2 then preferred else 2;
    if d >= first then d - first else d + g.clusterCount - first
  }

  lemma BytesPositive(g: Geometry)
    requires g.WellFormed()
    ensures g.BytesPerCluster() > 0
  {
    MulMonotone(1, g.sectorsPerCluster, g.bytesPerSector);
  }

  lemma WithinSector(within: nat, size: nat, spc: nat)
    requires size > 0 && within < size * spc
    ensures 0 <= within / size < spc
    ensures 0 <= within / size * size
    ensures within / size * size + within % size == within
  {
    if within / size >= spc {
      MulMonotone(spc, within / size, size);
    }
    MulMonotone(0, within / size, size);
  }

  /** The marked clusters fit in the heap. */
  lemma UsedFits(g: Geometry, used: set<nat>)
    requires forall c :: c in used ==> 2 <= c < g.clusterCount + 2
    ensures |used| <= g.clusterCount
  {
    SetInRange(used, g.clusterCount);
  }

  lemma {:induction false} SetInRange(s: set<nat>, n: nat)
    requires forall c :: c in s ==> 2 <= c < n + 2
    ensures |s| <= n
  {
    if n > 0 {
      var rest := s - {n + 1};
      SetInRange(rest, n - 1);
      assert s <= rest + {n + 1};
      assert |s| <= |rest| + 1;
    } else {
      assert s == {};
    }
  }

  lemma FlipInSector(bytes: seq<byte>, s: nat, offset: nat, bit: nat, on: bool, size: nat)
    requires bit < 8 && offset < size && 0 <= s * size && s * size + size <= |bytes|
    ensures Splice(bytes, s * size, FlipBit(SectorOf(bytes, s, size), offset, bit, on))
         == FlipBit(bytes, s * size + offset, bit, on)
  {
    var a := Splice(bytes, s * size, FlipBit(SectorOf(bytes, s, size), offset, bit, on));
    var b := FlipBit(bytes, s * size + offset, bit, on);
    forall k | 0 <= k < |bytes|
      ensures a[k] == b[k]
    {
      if s * size <= k < s * size + size { assert SectorOf(bytes, s, size)[k - s * size] == bytes[k]; }
    }
  }
}
