/** The value-level views of a device: which bytes are FAT slots, which are
    cluster contents, which bits are the allocation bitmap, and the proof that
    one sector write changes one of these views and nothing else. */
module Views {
  import opened Words
  import opened Geometry

  /** End-of-chain marker, and the least value treated as one. */
  const EOC: u32 := 0xffff_ffff
  const EOC_MIN: u32 := 0xffff_fff8

  /** The device holds the whole partition, and the cluster numbers stay below
      the reserved FAT values (section 3.1.9 of the exFAT specification). */
  ghost predicate Sized(g: Geometry, disk: seq<seq<byte>>) {
    && g.WellFormed()
    && g.clusterCount + 2 <= 0xffff_fff7
    && g.partition.firstLba + g.partition.sectorCount <= |disk| <= U64_MAX
    && forall lba :: 0 <= lba < |disk| ==> |disk[lba]| == g.bytesPerSector
  }

  /** A sector that is neither in the active FAT nor in the cluster heap. */
  predicate Outside(g: Geometry, lba: nat) {
    && !(g.FatStart() <= lba < g.FatStart() + g.fatLength)
    && !(g.HeapStart() <= lba < g.HeapStart() + g.clusterCount * g.sectorsPerCluster)
  }

  /** Everything outside the active FAT and the heap is as it was. */
  ghost predicate OutsideKept(g: Geometry, origin: seq<seq<byte>>, disk: seq<seq<byte>>) {
    |origin| == |disk| && forall lba :: 0 <= lba < |disk| && Outside(g, lba) ==> disk[lba] == origin[lba]
  }

  lemma PutInside(g: Geometry, origin: seq<seq<byte>>, disk: seq<seq<byte>>, lba: nat, data: seq<byte>)
    requires OutsideKept(g, origin, disk) && lba < |disk| && !Outside(g, lba)
    ensures OutsideKept(g, origin, disk[lba := data])
  {
  }

  lemma HeapInside(g: Geometry, c: nat, s: nat)
    requires g.WellFormed() && 2 <= c < g.clusterCount + 2 && s < g.sectorsPerCluster
    ensures !Outside(g, HeapLba(g, c, s))
  {
    SectorInside(c, s, g.clusterCount, g.sectorsPerCluster);
  }

  lemma FatInside(g: Geometry, c: nat)
    requires g.WellFormed() && g.partition.firstLba + g.partition.sectorCount <= U64_MAX && c < g.clusterCount + 2
    ensures g.FatLbaForByte(c * 4).Some? && !Outside(g, g.FatLbaForByte(c * 4).value)
  {
    FatAddress(g, c);
  }

  /** The contents of the clusters, by cluster number; the first two have none. */
  type Heap = seq<seq<byte>>

  // ----- FAT --------------------------------------------------------------------

  ghost function FatWord(g: Geometry, disk: seq<seq<byte>>, c: nat): u32
    requires Sized(g, disk) && c < g.clusterCount + 2
  {
    FatAddress(g, c);
    var off := c * 4 % g.bytesPerSector;
    var lba := g.FatLbaForByte(c * 4).value;
    Le32(disk[lba][off..off + 4])
  }

  ghost predicate FatTied(g: Geometry, disk: seq<seq<byte>>, fat: seq<u32>)
    requires Sized(g, disk)
  {
    && |fat| == g.clusterCount + 2
    && forall c :: 0 <= c < |fat| ==> fat[c] == FatWord(g, disk, c)
  }

  // ----- cluster heap -------------------------------------------------------------

  ghost function HeapLba(g: Geometry, c: nat, s: nat): nat
    requires g.WellFormed() && c >= 2
  {
    MulMonotone(0, c - 2, g.sectorsPerCluster);
    g.HeapStart() + (c - 2) * g.sectorsPerCluster + s
  }

  /** Sector `s` of a cluster's bytes. */
  function SectorOf(bytes: seq<byte>, s: nat, size: nat): seq<byte>
    requires s * size + size <= |bytes|
  {
    bytes[s * size..s * size + size]
  }

  lemma SectorFits(s: nat, spc: nat, size: nat)
    requires s < spc
    ensures 0 <= s * size && s * size + size <= size * spc
  {
    MulMonotone(s + 1, spc, size);
    MulMonotone(0, s, size);
    assert (s + 1) * size == s * size + size;
  }

  ghost predicate HeapShape(g: Geometry, heap: Heap) {
    && |heap| == g.clusterCount + 2
    && forall c :: 2 <= c < |heap| ==> |heap[c]| == g.BytesPerCluster()
  }

  ghost predicate SectorTied(g: Geometry, disk: seq<seq<byte>>, heap: Heap, c: nat, s: nat)
    requires Sized(g, disk) && HeapShape(g, heap) && 2 <= c < |heap| && s < g.sectorsPerCluster
  {
    HeapAddress(g, c, s);
    SectorFits(s, g.sectorsPerCluster, g.bytesPerSector);
    disk[HeapLba(g, c, s)] == SectorOf(heap[c], s, g.bytesPerSector)
  }

  ghost predicate HeapTied(g: Geometry, disk: seq<seq<byte>>, heap: Heap)
    requires Sized(g, disk)
  {
    && HeapShape(g, heap)
    && forall c, s :: 2 <= c < |heap| && 0 <= s < g.sectorsPerCluster ==> SectorTied(g, disk, heap, c, s)
  }

  lemma OtherWord(sector: seq<byte>, off: nat, v: u32, o: nat)
    requires off + 4 <= |sector| && o + 4 <= |sector| && (off + 4 <= o || o + 4 <= off)
    ensures Splice(sector, off, Enc32(v))[o..o + 4] == sector[o..o + 4]
  {
  }

  /** One other FAT slot after a FAT slot has been written. */
  lemma OtherFatWord(g: Geometry, disk: seq<seq<byte>>, c: nat, v: u32, d: nat)
    requires Sized(g, disk) && c < g.clusterCount + 2 && d < g.clusterCount + 2 && c != d
    requires g.FatLbaForByte(c * 4).Some? && g.FatLbaForByte(c * 4).value < |disk|
    requires 0 <= c * 4 % g.bytesPerSector && c * 4 % g.bytesPerSector + 4 <= g.bytesPerSector
    ensures var lba, off := g.FatLbaForByte(c * 4).value, c * 4 % g.bytesPerSector;
            var disk' := disk[lba := Splice(disk[lba], off, Enc32(v))];
            Sized(g, disk') && FatWord(g, disk', d) == FatWord(g, disk, d)
  {
    FatAddress(g, d);
    if g.FatLbaForByte(c * 4).value == g.FatLbaForByte(d * 4).value {
      FatSlotsDisjoint(g, c, d);
      OtherWord(disk[g.FatLbaForByte(c * 4).value], c * 4 % g.bytesPerSector, v, d * 4 % g.bytesPerSector);
    }
  }

  /** Writing one FAT slot changes that slot and nothing else in any view. */
  lemma PutFatTied(g: Geometry, disk: seq<seq<byte>>, fat: seq<u32>, heap: Heap, c: nat, v: u32)
    requires Sized(g, disk) && FatTied(g, disk, fat) && HeapTied(g, disk, heap) && c < g.clusterCount + 2
    ensures g.FatLbaForByte(c * 4).Some? && g.FatLbaForByte(c * 4).value < |disk|
    ensures var lba, off := g.FatLbaForByte(c * 4).value, c * 4 % g.bytesPerSector;
            0 <= off && off + 4 <= g.bytesPerSector &&
            var disk' := disk[lba := Splice(disk[lba], off, Enc32(v))];
            Sized(g, disk') && FatTied(g, disk', fat[c := v]) && HeapTied(g, disk', heap)
  {
    FatAddress(g, c);
    var lba, off := g.FatLbaForByte(c * 4).value, c * 4 % g.bytesPerSector;
    var disk' := disk[lba := Splice(disk[lba], off, Enc32(v))];
    forall d | 0 <= d < |fat|
      ensures fat[c := v][d] == FatWord(g, disk', d)
    {
      assert fat[d] == FatWord(g, disk, d);
      if d != c { OtherFatWord(g, disk, c, v, d); }
    }
    forall d, s | 2 <= d < |heap| && 0 <= s < g.sectorsPerCluster
      ensures SectorTied(g, disk', heap, d, s)
    {
      HeapAddress(g, d, s);
      assert SectorTied(g, disk, heap, d, s);
    }
  }

  /** Writing one heap sector changes that sector and nothing else in any view. */
  lemma PutHeapTied(g: Geometry, disk: seq<seq<byte>>, fat: seq<u32>, heap: Heap, c: nat, s: nat, data: seq<byte>)
    requires Sized(g, disk) && FatTied(g, disk, fat) && HeapTied(g, disk, heap)
    requires 2 <= c < |heap| && s < g.sectorsPerCluster && |data| == g.bytesPerSector
    ensures 0 <= HeapLba(g, c, s) < |disk| && 0 <= s * g.bytesPerSector && s * g.bytesPerSector + |data| <= |heap[c]|
    ensures var disk' := disk[HeapLba(g, c, s) := data];
            var heap' := heap[c := Splice(heap[c], s * g.bytesPerSector, data)];
            Sized(g, disk') && FatTied(g, disk', fat) && HeapTied(g, disk', heap')
  {
    HeapAddress(g, c, s);
    SectorFits(s, g.sectorsPerCluster, g.bytesPerSector);
    var disk' := disk[HeapLba(g, c, s) := data];
    var cluster' := Splice(heap[c], s * g.bytesPerSector, data);
    var heap' := heap[c := cluster'];
    assert Sized(g, disk') && HeapShape(g, heap');
    forall d | 0 <= d < |fat|
      ensures fat[d] == FatWord(g, disk', d)
    {
      FatAddress(g, d);
    }
    forall d, t | 2 <= d < |heap'| && 0 <= t < g.sectorsPerCluster
      ensures SectorTied(g, disk', heap', d, t)
    {
      HeapAddress(g, d, t);
      assert SectorTied(g, disk, heap, d, t);
      SectorFits(t, g.sectorsPerCluster, g.bytesPerSector);
      if HeapLba(g, d, t) == HeapLba(g, c, s) {
        HeapAddressInjective(g, c, s, d, t);
      } else if d == c {
        OtherSector(heap[c], s, t, data, g.bytesPerSector);
      }
    }
  }

  lemma OtherSector(bytes: seq<byte>, s: nat, t: nat, data: seq<byte>, size: nat)
    requires s != t && |data| == size && s * size + size <= |bytes| && t * size + size <= |bytes|
    ensures SectorOf(Splice(bytes, s * size, data), t, size) == SectorOf(bytes, t, size)
  {
    if s < t {
      MulMonotone(s + 1, t, size);
      assert (s + 1) * size == s * size + size;
    } else {
      MulMonotone(t + 1, s, size);
      assert (t + 1) * size == t * size + size;
    }
  }

  // ----- chains -----------------------------------------------------------------

  ghost predicate InHeap(g: Geometry, chain: seq<nat>) {
    forall i :: 0 <= i < |chain| ==> 2 <= chain[i] < g.clusterCount + 2
  }

  ghost predicate Distinct(chain: seq<nat>) {
    forall i, j :: 0 <= i < j < |chain| ==> chain[i] != chain[j]
  }

  /** The FAT slot of every cluster of the chain but the last names the next. */
  ghost predicate Links(fat: seq<u32>, chain: seq<nat>) {
    forall i :: 0 <= i && i + 1 < |chain| ==> chain[i] < |fat| && fat[chain[i]] == chain[i + 1]
  }

  /** A contiguous extent. */
  ghost predicate Contiguous(chain: seq<nat>) {
    forall i :: 0 <= i < |chain| ==> chain[i] == chain[0] + i
  }

  /** The cluster reached from `first` by following `index` FAT links; `None`
      when a link leaves the cluster heap. */
  ghost function Walk(g: Geometry, fat: seq<u32>, first: nat, index: nat): Option<nat>
    requires |fat| == g.clusterCount + 2
  {
    if index == 0 then Some(first)
    else
      var before := Walk(g, fat, first, index - 1);
      if before.None? || before.value >= |fat| then None
      else if 2 <= fat[before.value] < g.clusterCount + 2 then Some(fat[before.value])
      else None
  }

  lemma {:induction false} WalkFollowsLinks(g: Geometry, fat: seq<u32>, chain: seq<nat>, index: nat)
    requires |fat| == g.clusterCount + 2 && InHeap(g, chain) && Links(fat, chain) && index < |chain|
    ensures Walk(g, fat, chain[0], index) == Some(chain[index])
  {
    if index > 0 {
      WalkFollowsLinks(g, fat, chain, index - 1);
      assert chain[index - 1 + 1] == chain[index];
    }
  }

  /** A walk that got this far got to every earlier index. */
  lemma {:induction false} WalkPrefix(g: Geometry, fat: seq<u32>, first: nat, index: nat, earlier: nat)
    requires |fat| == g.clusterCount + 2 && earlier <= index && Walk(g, fat, first, index).Some?
    ensures Walk(g, fat, first, earlier).Some?
  {
    if earlier < index {
      WalkPrefix(g, fat, first, index - 1, earlier);
    }
  }

  // ----- allocation bitmap ----------------------------------------------------------

  ghost function BitmapByte(heap: Heap, bm: seq<nat>, cb: nat, k: nat): byte
    requires cb > 0 && k / cb < |bm| && bm[k / cb] < |heap| && |heap[bm[k / cb]]| == cb
  {
    heap[bm[k / cb]][k % cb]
  }

  /** The bitmap's own extent: a FAT chain long enough for one bit per cluster. */
  ghost predicate BitmapShape(g: Geometry, bitmap: AllocationBitmap, bm: seq<nat>, fat: seq<u32>) {
    && |fat| == g.clusterCount + 2
    && InHeap(g, bm) && Distinct(bm) && Links(fat, bm)
    && 0 < |bm| <= g.clusterCount
    && bm[0] == bitmap.firstCluster
    && g.clusterCount <= 8 * bitmap.byteLength
    && bitmap.byteLength <= |bm| * g.BytesPerCluster()
  }

  lemma ByteInChain(k: nat, length: nat, cb: nat, n: nat)
    requires cb > 0 && k < length <= n * cb
    ensures 0 <= k / cb < n
  {
    if k / cb >= n {
      MulMonotone(n, k / cb, cb);
    }
  }

  ghost predicate ClusterUsed(g: Geometry, bitmap: AllocationBitmap, bm: seq<nat>, fat: seq<u32>, heap: Heap, c: nat)
    requires g.WellFormed() && HeapShape(g, heap) && BitmapShape(g, bitmap, bm, fat)
    requires 2 <= c < g.clusterCount + 2
  {
    ByteInChain((c - 2) / 8, bitmap.byteLength, g.BytesPerCluster(), |bm|);
    Bit(BitmapByte(heap, bm, g.BytesPerCluster(), (c - 2) / 8), (c - 2) % 8)
  }

  ghost predicate UsedTied(g: Geometry, bitmap: AllocationBitmap, bm: seq<nat>, fat: seq<u32>, heap: Heap,
                           used: set<nat>)
    requires g.WellFormed() && HeapShape(g, heap) && BitmapShape(g, bitmap, bm, fat)
  {
    && (forall c :: c in used ==> 2 <= c < g.clusterCount + 2)
    && (forall c :: 2 <= c < g.clusterCount + 2 ==> (c in used <==> ClusterUsed(g, bitmap, bm, fat, heap, c)))
  }

  /** A write outside the bitmap's clusters leaves every bit alone. */
  lemma OutsideBitmap(g: Geometry, bitmap: AllocationBitmap, bm: seq<nat>, fat: seq<u32>, fat': seq<u32>, heap: Heap,
                      heap': Heap, used: set<nat>)
    requires g.WellFormed() && HeapShape(g, heap) && HeapShape(g, heap')
    requires BitmapShape(g, bitmap, bm, fat) && BitmapShape(g, bitmap, bm, fat')
    requires UsedTied(g, bitmap, bm, fat, heap, used)
    requires forall i :: 0 <= i < |bm| ==> heap'[bm[i]] == heap[bm[i]]
    ensures UsedTied(g, bitmap, bm, fat', heap', used)
  {
    forall c | 2 <= c < g.clusterCount + 2
      ensures c in used <==> ClusterUsed(g, bitmap, bm, fat', heap', c)
    {
      assert c in used <==> ClusterUsed(g, bitmap, bm, fat, heap, c);
      ByteInChain((c - 2) / 8, bitmap.byteLength, g.BytesPerCluster(), |bm|);
    }
  }

  /** Byte, block and bit numbers of a cluster's bitmap bit. */
  ghost function BitPlace(c: nat, cb: nat): (nat, nat, nat)
    requires c >= 2 && cb > 0
  {
    var k := (c - 2) / 8;
    assert 0 <= k / cb && 0 <= k % cb;
    (k / cb, k % cb, (c - 2) % 8)
  }

  lemma BitPlaceInjective(c: nat, d: nat, cb: nat)
    requires c >= 2 && d >= 2 && cb > 0 && BitPlace(c, cb) == BitPlace(d, cb)
    ensures c == d
  {
    var k, m := (c - 2) / 8, (d - 2) / 8;
    assert k == k / cb * cb + k % cb && m == m / cb * cb + m % cb;
  }

  function FlipBit(bytes: seq<byte>, at: nat, bit: nat, on: bool): (r: seq<byte>)
    requires at < |bytes| && bit < 8
  {
    var b: byte := PutByteBit(bytes[at], bit, on);
    bytes[at := b]
  }

  lemma PutOneBit(heap: Heap, bm: seq<nat>, at: (nat, nat, nat), on: bool, other: (nat, nat, nat))
    requires Distinct(bm) && at.0 < |bm| && other.0 < |bm| && at.2 < 8 && other.2 < 8
    requires bm[at.0] < |heap| && at.1 < |heap[bm[at.0]]| && bm[other.0] < |heap| && other.1 < |heap[bm[other.0]]|
    ensures var b := heap[bm[at.0]];
            var heap' := heap[bm[at.0] := FlipBit(b, at.1, at.2, on)];
            Bit(heap'[bm[other.0]][other.1], other.2) ==
              if other == at then on else Bit(heap[bm[other.0]][other.1], other.2)
  {
  }

  /** Flipping one bitmap bit marks or clears exactly its cluster. */
  lemma PutUsed(g: Geometry, bitmap: AllocationBitmap, bm: seq<nat>, fat: seq<u32>, heap: Heap, used: set<nat>, c: nat,
                on: bool)
    requires g.WellFormed() && HeapShape(g, heap) && BitmapShape(g, bitmap, bm, fat)
    requires UsedTied(g, bitmap, bm, fat, heap, used)
    requires 2 <= c < g.clusterCount + 2
    ensures var (q, r, b) := BitPlace(c, g.BytesPerCluster());
            q < |bm| && r < |heap[bm[q]]| && b < 8 &&
            var heap' := heap[bm[q] := FlipBit(heap[bm[q]], r, b, on)];
            HeapShape(g, heap') &&
            UsedTied(g, bitmap, bm, fat, heap', if on then used + {c} else used - {c})
  {
    var cb := g.BytesPerCluster();
    ByteInChain((c - 2) / 8, bitmap.byteLength, cb, |bm|);
    var at := BitPlace(c, cb);
    var b := heap[bm[at.0]];
    var heap' := heap[bm[at.0] := FlipBit(b, at.1, at.2, on)];
    forall d | 2 <= d < g.clusterCount + 2
      ensures d in (if on then used + {c} else used - {c}) <==> ClusterUsed(g, bitmap, bm, fat, heap', d)
    {
      assert d in used <==> ClusterUsed(g, bitmap, bm, fat, heap, d);
      ByteInChain((d - 2) / 8, bitmap.byteLength, cb, |bm|);
      var other := BitPlace(d, cb);
      PutOneBit(heap, bm, at, on, other);
      if other == at { BitPlaceInjective(c, d, cb); }
    }
  }
}
