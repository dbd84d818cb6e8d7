/** The FAT and the cluster heap read straight off a device, for any geometry
    that fits on it. */
module RawViews {
  import opened Words
  import opened Geometry
  import opened Views
  import opened Extents
  import opened Tree

  /** Every sector of the volume exists. */
  ghost predicate Addressable(g: Geometry, disk: seq<seq<byte>>) {
    && g.WellFormed()
    && g.partition.firstLba + g.partition.sectorCount <= |disk| <= U64_MAX
    && forall lba :: 0 <= lba < |disk| ==> |disk[lba]| == g.bytesPerSector
  }

  /** The FAT word of a cluster. */
  ghost function LinkAt(g: Geometry, disk: seq<seq<byte>>, c: nat): u32
    requires Addressable(g, disk) && c < g.clusterCount + 2
  {
    FatAddress(g, c);
    var off := c * 4 % g.bytesPerSector;
    var lba := g.FatLbaForByte(c * 4).value;
    Le32(disk[lba][off..off + 4])
  }

  ghost function FatOf(g: Geometry, disk: seq<seq<byte>>): (fat: seq<u32>)
    requires Addressable(g, disk)
    ensures |fat| == g.clusterCount + 2 && forall c :: 0 <= c < |fat| ==> fat[c] == LinkAt(g, disk, c)
  {
    seq(g.clusterCount + 2, c requires 0 <= c < g.clusterCount + 2 => LinkAt(g, disk, c))
  }

  /** `n` consecutive sectors in one piece. */
  ghost function Joined(disk: seq<seq<byte>>, lba: nat, n: nat): seq<byte>
    requires lba + n <= |disk|
  {
    if n == 0 then [] else Joined(disk, lba, n - 1) + disk[lba + n - 1]
  }

  lemma {:induction false} JoinedLength(disk: seq<seq<byte>>, lba: nat, n: nat, size: nat)
    requires lba + n <= |disk| && forall i :: 0 <= i < |disk| ==> |disk[i]| == size
    ensures |Joined(disk, lba, n)| == n * size
  {
    if n > 0 {
      JoinedLength(disk, lba, n - 1, size);
      assert n * size == (n - 1) * size + size;
    }
  }

  lemma {:induction false} JoinedSector(disk: seq<seq<byte>>, lba: nat, n: nat, s: nat, size: nat)
    requires lba + n <= |disk| && s < n && forall i :: 0 <= i < |disk| ==> |disk[i]| == size
    ensures |Joined(disk, lba, n)| == n * size && 0 <= s * size && s * size + size <= n * size
    ensures SectorOf(Joined(disk, lba, n), s, size) == disk[lba + s]
  {
    JoinedLength(disk, lba, n, size);
    JoinedLength(disk, lba, n - 1, size);
    ChunkInside(s, n, size);
    if s < n - 1 {
      JoinedSector(disk, lba, n - 1, s, size);
      SliceOfFront(Joined(disk, lba, n - 1), disk[lba + n - 1], s * size, size);
    } else {
      assert n * size == (n - 1) * size + size;
    }
  }

  lemma SliceOfFront(a: seq<byte>, b: seq<byte>, at: nat, n: nat)
    requires at + n <= |a|
    ensures (a + b)[at..at + n] == a[at..at + n]
  {
  }

  lemma ClusterOnDisk(g: Geometry, disk: seq<seq<byte>>, c: nat)
    requires Addressable(g, disk) && 2 <= c < g.clusterCount + 2
    ensures HeapLba(g, c, 0) + g.sectorsPerCluster <= |disk|
    ensures forall s :: 0 <= s < g.sectorsPerCluster ==> HeapLba(g, c, s) == HeapLba(g, c, 0) + s
  {
    FatBelowHeap(g);
    SectorInside(c, g.sectorsPerCluster - 1, g.clusterCount, g.sectorsPerCluster);
  }

  /** The bytes of a cluster. */
  ghost function ClusterBytes(g: Geometry, disk: seq<seq<byte>>, c: nat): seq<byte>
    requires Addressable(g, disk) && 2 <= c < g.clusterCount + 2
  {
    ClusterOnDisk(g, disk, c);
    Joined(disk, HeapLba(g, c, 0), g.sectorsPerCluster)
  }

  ghost function HeapOf(g: Geometry, disk: seq<seq<byte>>): (heap: Heap)
    requires Addressable(g, disk)
    ensures |heap| == g.clusterCount + 2
    ensures forall c :: 2 <= c < |heap| ==> heap[c] == ClusterBytes(g, disk, c)
  {
    seq(g.clusterCount + 2, c requires 0 <= c < g.clusterCount + 2 => if c < 2 then [] else ClusterBytes(g, disk, c))
  }

  lemma HeapOfShape(g: Geometry, disk: seq<seq<byte>>)
    requires Addressable(g, disk)
    ensures HeapShape(g, HeapOf(g, disk))
  {
    var heap := HeapOf(g, disk);
    forall c | 2 <= c < |heap|
      ensures |heap[c]| == g.BytesPerCluster()
    {
      ClusterOnDisk(g, disk, c);
      JoinedLength(disk, HeapLba(g, c, 0), g.sectorsPerCluster, g.bytesPerSector);
    }
  }

  /** The two raw views are the ones a mounted volume is tied to. */
  lemma RawIsTied(g: Geometry, disk: seq<seq<byte>>)
    requires Addressable(g, disk) && g.clusterCount + 2 <= 0xffff_fff7
    ensures Sized(g, disk) && FatTied(g, disk, FatOf(g, disk)) && HeapTied(g, disk, HeapOf(g, disk))
  {
    var fat, heap := FatOf(g, disk), HeapOf(g, disk);
    HeapOfShape(g, disk);
    forall c, s | 2 <= c < |heap| && 0 <= s < g.sectorsPerCluster
      ensures SectorTied(g, disk, heap, c, s)
    {
      ClusterOnDisk(g, disk, c);
      HeapAddress(g, c, s);
      JoinedSector(disk, HeapLba(g, c, 0), g.sectorsPerCluster, s, g.bytesPerSector);
    }
    forall c | 0 <= c < |fat|
      ensures fat[c] == FatWord(g, disk, c)
    {
      assert fat[c] == LinkAt(g, disk, c);
    }
  }

  // ----- chains on raw media ------------------------------------------------------------------

  ghost predicate InReach(g: Geometry, seen: seq<nat>) {
    forall i :: 0 <= i < |seen| ==> 2 <= seen[i] < g.ClusterEnd()
  }

  /** A chain as the mount follows it: clusters in range, at most as many as
      there are, each named by the FAT word of the one before; words from `limit`
      on are not followed. */
  ghost predicate Chain(g: Geometry, fat: seq<u32>, first: nat, limit: nat, seen: seq<nat>)
    requires |fat| == g.clusterCount + 2
  {
    && |seen| <= g.clusterCount && InReach(g, seen)
    && (seen != [] ==> seen[0] == first)
    && forall i :: 0 <= i && i + 1 < |seen| ==> seen[i + 1] == fat[seen[i]] < limit
  }

  /** Of two chains from the same cluster one begins the other. */
  lemma {:induction false} ChainPrefix(g: Geometry, fat: seq<u32>, first: nat, limit: nat, a: seq<nat>, b: seq<nat>)
    requires |fat| == g.clusterCount + 2 && Chain(g, fat, first, limit, a) && Chain(g, fat, first, limit, b)
    requires |a| <= |b|
    ensures a == b[..|a|]
  {
    if a != [] {
      var n := |a| - 1;
      ChainPrefix(g, fat, first, limit, a[..n], b);
      if n > 0 {
        assert a[n - 1] == a[..n][n - 1] == b[..n][n - 1] == b[n - 1];
        assert a[n - 1 + 1] == fat[a[n - 1]] && b[n - 1 + 1] == fat[b[n - 1]];
      }
      assert a == a[..n] + [a[n]] && b[..n + 1] == b[..n] + [b[n]];
    }
  }

  /** The cluster a chain would go to next. */
  ghost function Following(g: Geometry, fat: seq<u32>, first: nat, seen: seq<nat>): nat
    requires |fat| == g.clusterCount + 2 && InReach(g, seen)
  {
    if seen == [] then first
    else
      var last := seen[|seen| - 1];
      assert g.InRange(last);
      fat[last]
  }

  /** The chain cannot go on. */
  ghost predicate Stuck(g: Geometry, fat: seq<u32>, first: nat, limit: nat, seen: seq<nat>)
    requires |fat| == g.clusterCount + 2 && InReach(g, seen)
  {
    var next := Following(g, fat, first, seen);
    |seen| >= g.clusterCount || !g.InRange(next) || (seen != [] && next >= limit)
  }

  lemma ChainMore(g: Geometry, fat: seq<u32>, first: nat, limit: nat, seen: seq<nat>)
    requires |fat| == g.clusterCount + 2 && Chain(g, fat, first, limit, seen) && !Stuck(g, fat, first, limit, seen)
    ensures Chain(g, fat, first, limit, seen + [Following(g, fat, first, seen)])
  {
  }

  /** Every chain goes the same way, and is stuck only at its end. */
  lemma LongerGoesOn(g: Geometry, fat: seq<u32>, first: nat, limit: nat, seen: seq<nat>, other: seq<nat>)
    requires |fat| == g.clusterCount + 2 && Chain(g, fat, first, limit, seen) && Chain(g, fat, first, limit, other)
    requires |seen| < |other|
    ensures !Stuck(g, fat, first, limit, seen)
  {
    ChainPrefix(g, fat, first, limit, seen, other);
    var n := |seen|;
    assert g.InRange(other[n]);
    if n > 0 {
      assert other[n - 1] == other[..n][n - 1] == seen[n - 1];
      assert other[n - 1 + 1] == fat[other[n - 1]];
    }
  }

  /** No chain goes beyond a stuck one. */
  lemma StuckIsLongest(g: Geometry, fat: seq<u32>, first: nat, limit: nat, seen: seq<nat>, other: seq<nat>)
    requires |fat| == g.clusterCount + 2 && Chain(g, fat, first, limit, seen) && Stuck(g, fat, first, limit, seen)
    requires Chain(g, fat, first, limit, other)
    ensures |other| <= |seen|
  {
    if |other| > |seen| { LongerGoesOn(g, fat, first, limit, seen, other); }
  }

  /** One more cluster of bytes. */
  lemma FlatSnoc(heap: Heap, seen: seq<nat>, c: nat)
    requires c < |heap| && forall i :: 0 <= i < |seen| ==> seen[i] < |heap|
    ensures Flat(heap, seen + [c]) == Flat(heap, seen) + heap[c]
  {
    assert (seen + [c])[..|seen|] == seen;
  }

  lemma SlotsConcat(a: seq<byte>, b: seq<byte>)
    requires |a| % 32 == 0 && |b| % 32 == 0
    ensures SlotsOf(a + b) == SlotsOf(a) + SlotsOf(b)
  {
    forall k | 0 <= k < |a + b| / 32
      ensures SlotAt(a + b, k) == (SlotsOf(a) + SlotsOf(b))[k]
    {
      if k >= |a| / 32 { assert SlotsOf(b)[k - |a| / 32] == SlotAt(b, k - |a| / 32); }
    }
  }
}
