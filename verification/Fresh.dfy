/** A formatted device mounts, from either boot region, as the volume the plan
    describes; and that volume satisfies the invariant, with an empty root. */
module Fresh {
  import opened Words
  import opened Errors
  import opened Geometry
  import opened Layout
  import opened Views
  import opened Volume
  import opened Extents
  import opened EntrySets
  import opened Tree
  import opened SlotIo
  import opened Meaning
  import opened Upcase
  import opened Names
  import opened Paths
  import opened Creation
  import opened Media
  import opened Formatting
  import opened RawViews
  import opened Mounting
  import opened Standing
  import opened Remounting

  function PlanPartition(p: Plan): Partition {
    Partition(1, p.sectors)
  }

  function PlanGeometry(p: Plan): Geometry {
    Geometry(PlanPartition(p), 512, p.spc, FAT_OFFSET, p.fat, 1, 0, p.heap, p.clusters, 2)
  }

  /** One boot region says what the plan says, and the mount goes by it. */
  ghost predicate BootReadable(disk: seq<seq<byte>>, p: Plan) {
    && Inside(disk, PlanPartition(p))
    && (RegionOk(disk, 1, p) || (!Sound(disk, PlanPartition(p), 0) && RegionOk(disk, 13, p)))
  }

  /** Everything but the boot regions. */
  ghost predicate BodyWritten(disk: seq<seq<byte>>, p: Plan) {
    && p.Laid() && p.spc in {1, 16, 64} && |disk| == p.sectors + 1 && Sectors(disk, 512)
    && IsMbr(disk[0], p.sectors) && FatWritten(disk, p, p.fat)
    && BitmapWritten(disk, p.Lba(3), DivCeil(p.BitmapBytes(), 512), p.Reserved())
    && TableWritten(disk, p.Lba(p.UpcaseCluster()), 256)
    && p.Lba(2) < |disk| && IsRoot(disk[p.Lba(2)], p.BitmapBytes(), p.UpcaseCluster(), Sum32(0, AsciiBytes()))
  }

  // ----- the geometry ---------------------------------------------------------------------------

  lemma PlanWellFormed(p: Plan)
    requires p.Laid()
    ensures PlanGeometry(p).WellFormed() && p.clusters + 2 <= 0xffff_fff7
    ensures PlanGeometry(p).ClusterEnd() == p.clusters + 2 && PlanGeometry(p).BytesPerCluster() == p.ClusterBytes()
    ensures PlanGeometry(p).HeapStart() == 1 + p.heap && PlanGeometry(p).FatStart() == 25
  {
    PlanFits(p);
  }

  lemma PlanAddressable(disk: seq<seq<byte>>, p: Plan)
    requires p.Laid() && |disk| == p.sectors + 1 && Sectors(disk, 512)
    ensures Addressable(PlanGeometry(p), disk)
  {
    PlanWellFormed(p);
  }

  lemma ShiftBack(spc: nat)
    requires spc in {1, 16, 64}
    ensures Pow2(ClusterShift(spc)) == spc && Pow2(9) == 512 && ClusterShift(spc) <= 6
  {
    assert Pow2(4) == 16 && Pow2(6) == 64;
  }

  /** The boot sector of a plan is accepted, and parsed to the plan's geometry. */
  lemma ParsesBack(p: Plan, b: seq<byte>)
    requires p.Laid() && IsMainBoot(b, p)
    ensures ParseBoot(PlanPartition(p), b, 512) == Ok(PlanGeometry(p))
  {
    hide Plan.Laid;
    hide Le32;
    hide Le64;
    hide Pow2;
    PlanFits(p);
    PlanSizes(p);
    ShiftBack(p.spc);
    LayoutParses(p, b);
  }

  lemma PlanSizes(p: Plan)
    requires p.Laid()
    ensures p.heap == FAT_OFFSET + p.fat && 0 < p.sectors
    ensures DivCeil((p.clusters + 2) * 4, 512) <= p.fat
  {
    PlanFits(p);
    CeilCovers((p.clusters + 2) * 4, 512, p.fat);
  }

  lemma LayoutParses(p: Plan, b: seq<byte>)
    requires IsMainBoot(b, p) && p.spc in {1, 16, 64} && p.heap == FAT_OFFSET + p.fat && 0 < p.sectors
    requires DivCeil((p.clusters + 2) * 4, 512) <= p.fat && p.fat >= 1 && p.clusters >= 300
    requires p.heap + p.clusters * p.spc <= p.sectors && p.clusters + 2 <= 0xffff_fff7
    requires Pow2(ClusterShift(p.spc)) == p.spc && Pow2(9) == 512
    ensures 9 <= b[108] <= 12 && (b[108] as int) + (b[109] as int) <= 25
    ensures ParseLayout(PlanPartition(p), b) == Ok(PlanGeometry(p))
  {
    hide Le32;
    hide Le64;
    hide Le16;
    hide Pow2;
    assert p.fat * 1 == p.fat;
  }

  // ----- the partition and the boot region ------------------------------------------------------

  lemma PartitionBack(disk: seq<seq<byte>>, p: Plan, gpt: Result<Partition>)
    requires 0 < p.sectors <= U32_MAX && |disk| == p.sectors + 1 && IsMbr(disk[0], p.sectors)
    ensures PartitionOf(disk, gpt) == Ok(PlanPartition(p))
  {
    hide Le32;
    var b := disk[0];
    assert 446 + 16 * 0 + 4 == 450;
    assert b[446 + 16 * 0 + 8..446 + 16 * 0 + 12] == b[454..458];
    assert b[446 + 16 * 0 + 12..446 + 16 * 0 + 16] == b[458..462];
    assert Qualifies(b, 0);
    assert FirstEntry(b, 0) == Ok(EntryPartition(b, 0));
  }

  lemma RegionSound(disk: seq<seq<byte>>, p: Plan, offset: nat)
    requires p.sectors >= 24 && Inside(disk, PlanPartition(p)) && offset <= 12 && RegionOk(disk, 1 + offset, p)
    ensures Sound(disk, PlanPartition(p), offset) && IsMainBoot(disk[1 + offset], p)
  {
    hide RegionSum;
    hide Le32;
    hide IsMainBoot;
  }

  lemma PlanSectors(p: Plan)
    requires p.Laid()
    ensures 24 <= p.sectors <= U32_MAX
  {
  }

  /** The geometry the mount reads from whichever boot region it goes by. */
  lemma GeometryBack(disk: seq<seq<byte>>, p: Plan)
    requires p.Laid() && |disk| == p.sectors + 1 && Sectors(disk, 512) && BootReadable(disk, p)
    ensures GeometryOf(disk, 512, PlanPartition(p)) == Ok(PlanGeometry(p))
  {
    hide Plan.Laid;
    hide RegionOk;
    hide Sound;
    hide IsMainBoot;
    hide ParseBoot;
    PlanSectors(p);
    var offset := if RegionOk(disk, 1, p) then 0 else 12;
    RegionSound(disk, p, offset);
    ParsesBack(p, disk[1 + offset]);
  }

  // ----- the FAT ---------------------------------------------------------------------------------

  lemma PlanLba(p: Plan, c: nat)
    requires p.Laid() && 2 <= c < p.clusters + 2
    ensures PlanGeometry(p).WellFormed() && PlanGeometry(p).InRange(c)
    ensures PlanGeometry(p).ClusterLba(c) == Some(p.Lba(c)) && HeapLba(PlanGeometry(p), c, 0) == p.Lba(c)
  {
    PlanWellFormed(p);
  }

  /** Every FAT word is the one the formatter computed. */
  lemma FatBack(disk: seq<seq<byte>>, p: Plan, c: nat)
    requires BodyWritten(disk, p) && c < p.clusters + 2
    ensures Addressable(PlanGeometry(p), disk)
    ensures FatOf(PlanGeometry(p), disk)[c] == FatValue(p, c)
  {
    hide Plan.Laid;
    hide FatValue;
    hide Le32;
    hide IsRoot;
    hide IsMbr;
    hide BitmapWritten;
    hide TableWritten;
    hide Sum32;
    hide AsciiBytes;
    var g := PlanGeometry(p);
    PlanWellFormed(p);
    PlanFits(p);
    PlanAddressable(disk, p);
    FatAddress(g, c);
    var sector, index := c / 128, c % 128;
    assert c * 4 / 512 == sector && c * 4 % 512 == 4 * index && sector < p.fat;
    assert IsFatSector(disk[25 + sector], p, sector);
    assert 128 * sector + index == c;
    assert FatOf(g, disk)[c] == LinkAt(g, disk, c);
  }

  /** `n` clusters from `first` on. */
  function RunOf(first: nat, n: nat): (r: seq<nat>)
    ensures |r| == n && forall i :: 0 <= i < n ==> r[i] == first + i
  {
    seq(n, i => first + i)
  }

  function BitmapRun(p: Plan): seq<nat>
    requires p.spc > 0
  {
    RunOf(3, p.BitmapClusters())
  }

  function UpcaseRun(p: Plan): seq<nat>
    requires p.spc > 0
  {
    RunOf(p.UpcaseCluster(), p.UpcaseClusters())
  }

  lemma RunDistinct(first: nat, n: nat)
    ensures Distinct(RunOf(first, n)) && Contiguous(RunOf(first, n))
  {
  }

  lemma FatWords(p: Plan)
    requires p.spc > 0 && p.UpcaseCluster() + p.UpcaseClusters() <= U32_MAX
    ensures FatValue(p, 2) == EOC
    ensures forall c :: 3 <= c && c + 1 < 3 + p.BitmapClusters() ==> FatValue(p, c) == c + 1
    ensures forall c :: p.UpcaseCluster() <= c && c + 1 < p.UpcaseCluster() + p.UpcaseClusters() ==>
      FatValue(p, c) == c + 1
  {
  }

  /** A run of clusters whose fresh FAT words count up is a chain. */
  lemma RunLinked(disk: seq<seq<byte>>, p: Plan, first: nat, n: nat)
    requires BodyWritten(disk, p) && Addressable(PlanGeometry(p), disk) && 2 <= first && first + n <= p.clusters + 2
    requires forall c :: first <= c && c + 1 < first + n ==> FatValue(p, c) == c + 1
    ensures Links(FatOf(PlanGeometry(p), disk), RunOf(first, n))
  {
    hide BodyWritten;
    hide Plan.Laid;
    hide FatValue;
    var fat := FatOf(PlanGeometry(p), disk);
    forall i | 0 <= i && i + 1 < n
      ensures fat[RunOf(first, n)[i]] == RunOf(first, n)[i + 1]
    {
      FatBack(disk, p, first + i);
    }
  }

  /** The system files are FAT chains, and the root's chain ends at once. */
  lemma ChainsBack(disk: seq<seq<byte>>, p: Plan)
    requires BodyWritten(disk, p)
    ensures Addressable(PlanGeometry(p), disk)
    ensures var fat := FatOf(PlanGeometry(p), disk);
            fat[2] == EOC && Links(fat, BitmapRun(p)) && Links(fat, UpcaseRun(p))
  {
    hide BodyWritten;
    hide Plan.Laid;
    hide FatValue;
    hide Links;
    BodyLaid(disk, p);
    PlanFits(p);
    PlanAddressable(disk, p);
    FatBack(disk, p, 2);
    FatWords(p);
    RunLinked(disk, p, 3, p.BitmapClusters());
    RunLinked(disk, p, p.UpcaseCluster(), p.UpcaseClusters());
  }

  lemma BodyLaid(disk: seq<seq<byte>>, p: Plan)
    requires BodyWritten(disk, p)
    ensures p.Laid() && p.spc in {1, 16, 64} && |disk| == p.sectors + 1 && Sectors(disk, 512) && p.Lba(2) < |disk|
    ensures BitmapWritten(disk, p.Lba(3), DivCeil(p.BitmapBytes(), 512), p.Reserved())
    ensures TableWritten(disk, p.Lba(p.UpcaseCluster()), 256)
    ensures IsRoot(disk[p.Lba(2)], p.BitmapBytes(), p.UpcaseCluster(), Sum32(0, AsciiBytes()))
  {
  }

  // ----- runs of clusters -------------------------------------------------------------------------

  lemma {:induction false} JoinedConcat(disk: seq<seq<byte>>, lba: nat, m: nat, n: nat)
    requires lba + m + n <= |disk|
    ensures Joined(disk, lba, m + n) == Joined(disk, lba, m) + Joined(disk, lba + m, n)
  {
    if n > 0 {
      JoinedConcat(disk, lba, m, n - 1);
      assert lba + (m + n) - 1 == lba + m + n - 1;
    }
  }

  lemma RowsFit(a: nat, n: nat, spc: nat)
    ensures 0 <= n * spc && (a + n) * spc == a * spc + n * spc && (n + 1) * spc == n * spc + spc
  {
  }

  /** A run of clusters is a run of sectors. */
  lemma {:induction false} RunJoined(g: Geometry, disk: seq<seq<byte>>, first: nat, n: nat)
    requires Addressable(g, disk) && 2 <= first && first + n <= g.clusterCount + 2 && n > 0
    ensures InHeap(g, RunOf(first, n)) && 0 <= n * g.sectorsPerCluster
    ensures HeapLba(g, first, 0) + n * g.sectorsPerCluster <= |disk|
    ensures Flat(HeapOf(g, disk), RunOf(first, n)) == Joined(disk, HeapLba(g, first, 0), n * g.sectorsPerCluster)
  {
    hide Joined;
    var heap, spc, last := HeapOf(g, disk), g.sectorsPerCluster, first + n - 1;
    var lba := HeapLba(g, first, 0);
    RowsFit(first - 2, n - 1, spc);
    ClusterOnDisk(g, disk, last);
    assert HeapLba(g, last, 0) == lba + (n - 1) * spc;
    assert RunOf(first, n) == RunOf(first, n - 1) + [last];
    assert InHeap(g, RunOf(first, n - 1));
    FlatSnoc(heap, RunOf(first, n - 1), last);
    assert heap[last] == ClusterBytes(g, disk, last);
    if n > 1 {
      RunJoined(g, disk, first, n - 1);
      JoinedConcat(disk, lba, (n - 1) * spc, spc);
    } else {
      assert RunOf(first, 0) == [];
      assert Flat(heap, []) == [];
    }
  }

  /** Sectors that hold consecutive pieces of `data`. */
  lemma {:induction false} JoinedData(disk: seq<seq<byte>>, lba: nat, n: nat, data: seq<byte>)
    requires lba + n <= |disk| && 512 * n <= |data|
    requires forall i :: lba <= i < lba + n ==> disk[i] == data[512 * (i - lba)..512 * (i - lba) + 512]
    ensures Joined(disk, lba, n) == data[..512 * n]
  {
    if n > 0 {
      JoinedData(disk, lba, n - 1, data);
      assert disk[lba + n - 1] == data[512 * (n - 1)..512 * n];
      assert data[..512 * n] == data[..512 * (n - 1)] + data[512 * (n - 1)..512 * n];
    }
  }

  /** Byte `k` of consecutive sectors. */
  lemma JoinedByte(disk: seq<seq<byte>>, lba: nat, n: nat, k: nat)
    requires lba + n <= |disk| && k < n * 512 && forall i :: 0 <= i < |disk| ==> |disk[i]| == 512
    ensures |Joined(disk, lba, n)| == n * 512 && Joined(disk, lba, n)[k] == disk[lba + k / 512][k % 512]
  {
    JoinedSector(disk, lba, n, k / 512, 512);
    var s := SectorOf(Joined(disk, lba, n), k / 512, 512);
    assert s[k % 512] == Joined(disk, lba, n)[k / 512 * 512 + k % 512];
  }

  // ----- the up-case table ---------------------------------------------------------------------------

  /** The table's clusters hold exactly the table. */
  lemma TableBack(disk: seq<seq<byte>>, p: Plan)
    requires BodyWritten(disk, p)
    ensures Addressable(PlanGeometry(p), disk) && InHeap(PlanGeometry(p), UpcaseRun(p))
    ensures Flat(HeapOf(PlanGeometry(p), disk), UpcaseRun(p)) == AsciiBytes()
  {
    hide BodyWritten;
    hide AsciiBytes;
    hide Plan.Laid;
    BodyLaid(disk, p);
    PlanFits(p);
    PlanAddressable(disk, p);
    Regions(p);
    var g, first, n := PlanGeometry(p), p.UpcaseCluster(), p.UpcaseClusters();
    RunJoined(g, disk, first, n);
    PlanLba(p, first);
    UpcaseSectors(p);
    JoinedData(disk, p.Lba(first), 256, AsciiBytes());
    assert AsciiBytes()[..512 * 256] == AsciiBytes();
  }

  lemma UpcaseSectors(p: Plan)
    requires p.Laid()
    ensures p.spc in {1, 16, 64} && p.UpcaseClusters() * p.spc == 256
    ensures p.UpcaseClusters() * p.ClusterBytes() == UPCASE_BYTES
  {
    PlanFits(p);
  }

  function FreshTable(p: Plan): UpCaseTable
    requires p.spc > 0 && p.UpcaseCluster() <= U32_MAX
  {
    UpCaseTable(Sum32(0, AsciiBytes()), p.UpcaseCluster(), UPCASE_BYTES)
  }

  /** The mount finds the table sound. */
  lemma TableSoundBack(disk: seq<seq<byte>>, p: Plan)
    requires BodyWritten(disk, p)
    ensures p.UpcaseCluster() <= U32_MAX && Addressable(PlanGeometry(p), disk)
    ensures TableSound(PlanGeometry(p), disk, FreshTable(p), UpcaseRun(p))
  {
    hide BodyWritten;
    hide AsciiBytes;
    hide Sum32;
    hide Plan.Laid;
    BodyLaid(disk, p);
    PlanFits(p);
    PlanWellFormed(p);
    TableBack(disk, p);
    ChainsBack(disk, p);
    UpcaseSectors(p);
    assert AsciiBytes()[..UPCASE_BYTES] == AsciiBytes();
    LinksChain(PlanGeometry(p), FatOf(PlanGeometry(p), disk), UpcaseRun(p));
    LastRow(p.UpcaseClusters(), p.ClusterBytes());
  }

  lemma LastRow(n: nat, cb: nat)
    requires n > 0 && cb > 0
    ensures (n - 1) * cb < n * cb
  {
    assert n * cb == (n - 1) * cb + cb;
  }

  lemma LinksChain(g: Geometry, fat: seq<u32>, ext: seq<nat>)
    requires |fat| == g.clusterCount + 2 == g.ClusterEnd() && Links(fat, ext) && InHeap(g, ext)
    requires |ext| <= g.clusterCount && ext != []
    ensures Chain(g, fat, ext[0], 0x1_0000_0000, ext)
  {
    assert InReach(g, ext);
    forall i | 0 <= i && i + 1 < |ext|
      ensures ext[i + 1] == fat[ext[i]] < 0x1_0000_0000
    {
    }
  }

  // ----- the root ------------------------------------------------------------------------------------

  /** The first slots of the root. */
  lemma RootSlots(disk: seq<seq<byte>>, p: Plan, k: nat)
    requires BodyWritten(disk, p) && k < 16
    ensures Addressable(PlanGeometry(p), disk) && |disk[p.Lba(2)]| == 512 && InHeap(PlanGeometry(p), [2])
    ensures var slots := DirSlots(HeapOf(PlanGeometry(p), disk), [2]);
            |slots| == p.ClusterBytes() / 32 >= 16 && slots[k] == disk[p.Lba(2)][32 * k..32 * k + 32]
  {
    hide BodyWritten;
    hide Plan.Laid;
    hide SlotsOf;
    hide Joined;
    BodyLaid(disk, p);
    PlanFits(p);
    PlanAddressable(disk, p);
    var g := PlanGeometry(p);
    RunJoined(g, disk, 2, 1);
    PlanLba(p, 2);
    assert RunOf(2, 1) == [2];
    var bytes := Joined(disk, p.Lba(2), p.spc);
    assert Flat(HeapOf(g, disk), [2]) == bytes;
    JoinedSector(disk, p.Lba(2), p.spc, 0, 512);
    FrontSlot(bytes, disk[p.Lba(2)], k);
  }

  lemma FrontSlot(bytes: seq<byte>, front: seq<byte>, k: nat)
    requires |bytes| >= 512 && SectorOf(bytes, 0, 512) == front && k < 16
    ensures |SlotsOf(bytes)| == |bytes| / 32 && SlotsOf(bytes)[k] == front[32 * k..32 * k + 32]
  {
    hide SlotsOf;
    assert bytes[..512] == front;
    assert bytes[32 * k..32 * k + 32] == bytes[..512][32 * k..32 * k + 32];
    SlotIs(bytes, k);
  }

  function FreshBitmap(p: Plan): AllocationBitmap
    requires p.BitmapBytes() <= U64_MAX
  {
    AllocationBitmap(3, p.BitmapBytes())
  }

  lemma RootEntriesAt(b: seq<byte>, bytes: nat, upcase: nat, sum: u32)
    requires IsRoot(b, bytes, upcase, sum)
    ensures b[0..32][0] == 0x81 && b[0..32][1] == 0 && b[32..64][0] == 0x82 && b[64..96][0] == 0
    ensures upcase <= U32_MAX && bytes <= U64_MAX
    ensures BitmapEntry(b[0..32]) == AllocationBitmap(3, bytes)
    ensures UpcaseEntry(b[32..64]) == UpCaseTable(sum, upcase, UPCASE_BYTES)
  {
    hide Le32;
    hide Le64;
    SliceOfSlice(b, 0, 32, 20, 4);
    SliceOfSlice(b, 0, 32, 24, 8);
    SliceOfSlice(b, 32, 64, 4, 4);
    SliceOfSlice(b, 32, 64, 20, 4);
    SliceOfSlice(b, 32, 64, 24, 8);
  }

  /** Two descriptors and an unused slot. */
  lemma ThreeSlots(g: Geometry, slots: seq<Slot>)
    requires |slots| >= 3 && g.activeFat == 0 && g.numberOfFats == 1
    requires slots[0][0] == 0x81 && slots[0][1] == 0 && slots[1][0] == 0x82 && slots[2][0] == 0
    ensures Scanned(g, NOTHING, slots) == Scan(Some(BitmapEntry(slots[0])), Some(UpcaseEntry(slots[1])), AtEnd)
  {
    hide BitmapEntry;
    hide UpcaseEntry;
    hide Scanned;
    assert slots[..1] == [] + [slots[0]] && slots[..2] == slots[..1] + [slots[1]]
      && slots[..3] == slots[..2] + [slots[2]];
    ScannedEmpty(g, NOTHING);
    ScannedSnoc(g, NOTHING, [], slots[0]);
    ScannedSnoc(g, NOTHING, slots[..1], slots[1]);
    ScannedSnoc(g, NOTHING, slots[..2], slots[2]);
    ScannedPrefix(g, NOTHING, slots[..3], slots);
  }

  lemma ScannedEmpty(g: Geometry, s: Scan)
    ensures Scanned(g, s, []) == s
  {
  }

  /** The mount finds both descriptors. */
  lemma RootBack(disk: seq<seq<byte>>, p: Plan)
    requires BodyWritten(disk, p)
    ensures Addressable(PlanGeometry(p), disk) && p.UpcaseCluster() <= U32_MAX && p.BitmapBytes() <= U64_MAX
    ensures RootEntries(PlanGeometry(p), disk) == Ok((FreshBitmap(p), FreshTable(p)))
  {
    hide BodyWritten;
    hide IsRoot;
    hide BitmapEntry;
    hide UpcaseEntry;
    hide Scanned;
    hide AsciiBytes;
    hide Sum32;
    hide DirSlots;
    hide RootEntries;
    hide Plan.Laid;
    hide Plan.Lba;
    BodyLaid(disk, p);
    RootSlots(disk, p, 0);
    RootSlots(disk, p, 1);
    RootSlots(disk, p, 2);
    PlanWellFormed(p);
    var g, b := PlanGeometry(p), disk[p.Lba(2)];
    RootEntriesAt(b, p.BitmapBytes(), p.UpcaseCluster(), Sum32(0, AsciiBytes()));
    ThreeSlots(g, DirSlots(HeapOf(g, disk), [2]));
    assert RootChain(g, disk, [2]);
    RootFound(g, disk, [2]);
  }

  // ----- format, then mount -------------------------------------------------------------------------

  function FreshVolume(p: Plan): MountedVolume
    requires p.spc > 0 && p.UpcaseCluster() <= U32_MAX && p.BitmapBytes() <= U64_MAX
  {
    MountedVolume(PlanGeometry(p), FreshBitmap(p), FreshTable(p), true)
  }

  lemma VolumeBack(disk: seq<seq<byte>>, p: Plan)
    requires BodyWritten(disk, p)
    ensures Addressable(PlanGeometry(p), disk) && p.UpcaseCluster() <= U32_MAX && p.BitmapBytes() <= U64_MAX
    ensures VolumeOf(PlanGeometry(p), disk) == Ok(FreshVolume(p))
  {
    hide BodyWritten;
    hide RootEntries;
    hide TableSound;
    hide AsciiBytes;
    hide Sum32;
    RootBack(disk, p);
    TableSoundBack(disk, p);
  }

  /** A device formatted by the plan mounts as the plan's volume, by either boot
      region, with any scratch buffer that holds a sector. */
  lemma MountsBack(disk: seq<seq<byte>>, p: Plan, scratchLength: nat, gpt: Result<Partition>)
    requires BodyWritten(disk, p) && BootReadable(disk, p) && scratchLength >= 512
    ensures p.spc > 0 && p.UpcaseCluster() <= U32_MAX && p.BitmapBytes() <= U64_MAX
    ensures MountOf(disk, 512, scratchLength, gpt) == Ok(FreshVolume(p))
  {
    hide BootReadable;
    hide PartitionOf;
    hide GeometryOf;
    hide VolumeOf;
    hide AsciiBytes;
    hide Sum32;
    hide Plan.Laid;
    hide IsMbr;
    BodyLaid(disk, p);
    PlanSectors(p);
    PartitionBack(disk, p, gpt);
    GeometryBack(disk, p);
    VolumeBack(disk, p);
  }

  /** What the formatter leaves is all of this. */
  lemma FormattedIsWritten(disk: seq<seq<byte>>, p: Plan)
    requires Formatted(disk, p) && Sectors(disk, 512)
    ensures BodyWritten(disk, p) && BootReadable(disk, p)
  {
    hide RegionOk;
    hide IsRoot;
    hide AsciiBytes;
    hide Sum32;
  }

  /** Any damage to the main boot region that its checksum notices leaves a
      device that still mounts as the same volume. */
  lemma BackupServes(disk: seq<seq<byte>>, disk': seq<seq<byte>>, p: Plan)
    requires Formatted(disk, p) && Sectors(disk, 512) && Sectors(disk', 512) && Kept(disk, disk', 1, 13)
    requires Inside(disk', PlanPartition(p)) ==> !Sound(disk', PlanPartition(p), 0)
    ensures BodyWritten(disk', p) && BootReadable(disk', p)
  {
    hide IsRoot;
    hide AsciiBytes;
    hide Sum32;
    hide IsMainBoot;
    hide IsMbr;
    hide IsRepeated;
    hide IsFatSector;
    hide IsBitmapSector;
    hide RegionSum;
    hide OtherBoot;
    hide Plan.Laid;
    hide Plan.Lba;
    Regions(p);
    assert disk'[13..24] == disk[13..24];
    assert disk'[24] == disk[24];
  }

  // ----- the allocation bitmap ------------------------------------------------------------------------

  lemma BitmapShapeBack(disk: seq<seq<byte>>, p: Plan)
    requires BodyWritten(disk, p)
    ensures Addressable(PlanGeometry(p), disk) && p.BitmapBytes() <= U64_MAX
    ensures BitmapShape(PlanGeometry(p), FreshBitmap(p), BitmapRun(p), FatOf(PlanGeometry(p), disk))
  {
    hide BodyWritten;
    hide Plan.Laid;
    BodyLaid(disk, p);
    PlanFits(p);
    PlanWellFormed(p);
    Regions(p);
    ChainsBack(disk, p);
    RunDistinct(3, p.BitmapClusters());
  }

  /** The first `n` cluster numbers. */
  ghost function FirstClusters(n: nat): (s: set<nat>)
    ensures |s| == n && forall c :: c in s <==> 2 <= c < n + 2
  {
    if n == 0 then {} else FirstClusters(n - 1) + {n + 1}
  }

  /** The clusters a fresh volume has given away: the root, the bitmap and the
      table. */
  ghost function FreshUsed(p: Plan): set<nat>
    requires p.spc > 0
  {
    FirstClusters(p.Reserved())
  }

  lemma Rows512(n: nat, spc: nat)
    requires spc in {1, 16, 64}
    ensures n * (spc * 512) == n * spc * 512
  {
    if spc == 1 {
    } else if spc == 16 {
    } else {
    }
  }

  lemma BitmapRows(p: Plan)
    requires p.Laid()
    ensures p.spc in {1, 16, 64} && p.BitmapClusters() * p.ClusterBytes() == p.BitmapClusters() * p.spc * 512
    ensures DivCeil(p.BitmapBytes(), 512) <= p.BitmapClusters() * p.spc
  {
    hide Plan.Laid;
    hide Plan.BitmapBytes;
    hide Plan.BitmapClusters;
    PlanFits(p);
    Rows512(p.BitmapClusters(), p.spc);
    MulMonotone(0, p.BitmapClusters(), p.spc);
    CeilCovers(p.BitmapBytes(), 512, p.BitmapClusters() * p.spc);
  }

  /** Byte `k` of a run of clusters. */
  lemma RunByte(g: Geometry, disk: seq<seq<byte>>, first: nat, n: nat, k: nat)
    requires Addressable(g, disk) && g.bytesPerSector == 512 && 2 <= first && first + n <= g.clusterCount + 2
    requires k < n * g.BytesPerCluster() == n * g.sectorsPerCluster * 512
    ensures g.BytesPerCluster() > 0 && 0 <= k / g.BytesPerCluster() < n && 0 <= k % g.BytesPerCluster()
    ensures HeapLba(g, first, 0) + k / 512 < |disk|
    ensures var bytes, cb := HeapOf(g, disk)[first + k / g.BytesPerCluster()], g.BytesPerCluster();
            |bytes| == cb && k % cb < cb && bytes[k % cb] == disk[HeapLba(g, first, 0) + k / 512][k % 512]
  {
    hide Joined;
    hide Flat;
    hide Geometry.BytesPerCluster;
    var cb, heap, ext := g.BytesPerCluster(), HeapOf(g, disk), RunOf(first, n);
    BytesPositive(g);
    RunJoined(g, disk, first, n);
    JoinedByte(disk, HeapLba(g, first, 0), n * g.sectorsPerCluster, k);
    HeapOfShape(g, disk);
    Position(k, cb, n);
    ByteOfChunk(heap, ext, cb, k);
  }

  /** One bitmap byte on the device. */
  lemma BitmapByteBack(disk: seq<seq<byte>>, p: Plan, k: nat)
    requires BodyWritten(disk, p) && k < p.BitmapBytes()
    ensures Addressable(PlanGeometry(p), disk) && p.ClusterBytes() > 0
    ensures 0 <= k / p.ClusterBytes() < p.BitmapClusters() && InHeap(PlanGeometry(p), BitmapRun(p))
    ensures var heap, cb := HeapOf(PlanGeometry(p), disk), p.ClusterBytes();
            |heap[BitmapRun(p)[k / cb]]| == cb && p.Lba(3) + k / 512 < |disk| && |disk[p.Lba(3) + k / 512]| == 512
            && BitmapByte(heap, BitmapRun(p), cb, k) == disk[p.Lba(3) + k / 512][k % 512]
  {
    hide BodyWritten;
    hide Plan.Laid;
    hide Plan.BitmapBytes;
    hide Plan.BitmapClusters;
    hide Plan.ClusterBytes;
    hide Geometry.BytesPerCluster;
    hide Geometry.WellFormed;
    BodyLaid(disk, p);
    PlanFits(p);
    PlanWellFormed(p);
    PlanAddressable(disk, p);
    BitmapRows(p);
    PlanLba(p, 3);
    RunByte(PlanGeometry(p), disk, 3, p.BitmapClusters(), k);
  }

  lemma ByteOfChunk(heap: Heap, ext: seq<nat>, cb: nat, k: nat)
    requires cb > 0 && Fits(heap, ext, cb) && 0 <= k / cb < |ext| && 0 <= k % cb < cb && k / cb * cb + k % cb == k
    ensures k < |Flat(heap, ext)| == |ext| * cb && heap[ext[k / cb]][k % cb] == Flat(heap, ext)[k]
  {
    FlatChunk(heap, ext, cb, k / cb);
    var whole := Flat(heap, ext);
    assert whole[k / cb * cb..k / cb * cb + cb][k % cb] == whole[k / cb * cb + k % cb];
  }

  /** The bits set in a fresh bitmap are those of the clusters given away. */
  lemma UsedBack(disk: seq<seq<byte>>, p: Plan)
    requires BodyWritten(disk, p)
    ensures Addressable(PlanGeometry(p), disk) && p.BitmapBytes() <= U64_MAX
    ensures HeapShape(PlanGeometry(p), HeapOf(PlanGeometry(p), disk))
    ensures BitmapShape(PlanGeometry(p), FreshBitmap(p), BitmapRun(p), FatOf(PlanGeometry(p), disk))
    ensures UsedTied(PlanGeometry(p), FreshBitmap(p), BitmapRun(p), FatOf(PlanGeometry(p), disk),
                     HeapOf(PlanGeometry(p), disk), FreshUsed(p))
  {
    hide BodyWritten;
    hide Plan.Laid;
    hide Plan.BitmapBytes;
    hide Plan.BitmapClusters;
    hide BitmapByte;
    hide BitmapShape;
    hide BitmapRun;
    hide HeapShape;
    BodyLaid(disk, p);
    PlanFits(p);
    PlanWellFormed(p);
    BitmapShapeBack(disk, p);
    var g, bm, fat, heap := PlanGeometry(p), BitmapRun(p), FatOf(PlanGeometry(p), disk), HeapOf(PlanGeometry(p), disk);
    HeapOfShape(g, disk);
    assert forall c :: c in FreshUsed(p) ==> 2 <= c < g.clusterCount + 2;
    forall c | 2 <= c < g.clusterCount + 2
      ensures c in FreshUsed(p) <==> ClusterUsed(g, FreshBitmap(p), bm, fat, heap, c)
    {
      BitBack(disk, p, c);
    }
  }

  lemma BitBack(disk: seq<seq<byte>>, p: Plan, c: nat)
    requires BodyWritten(disk, p) && 2 <= c < p.clusters + 2
    requires Addressable(PlanGeometry(p), disk) && p.BitmapBytes() <= U64_MAX
    requires HeapShape(PlanGeometry(p), HeapOf(PlanGeometry(p), disk))
    requires BitmapShape(PlanGeometry(p), FreshBitmap(p), BitmapRun(p), FatOf(PlanGeometry(p), disk))
    ensures p.spc > 0
    ensures c < 2 + p.Reserved() <==>
            ClusterUsed(PlanGeometry(p), FreshBitmap(p), BitmapRun(p), FatOf(PlanGeometry(p), disk),
                        HeapOf(PlanGeometry(p), disk), c)
  {
    hide BodyWritten;
    hide Plan.Laid;
    hide Plan.BitmapBytes;
    hide Plan.BitmapClusters;
    hide BitmapByte;
    hide HeapShape;
    BodyLaid(disk, p);
    PlanFits(p);
    PlanWellFormed(p);
    var k, j := (c - 2) / 8, (c - 2) % 8;
    assert k < p.BitmapBytes() && 8 * k + j == c - 2;
    BitmapByteBack(disk, p, k);
    SectorCounts(p.BitmapBytes(), k);
    var lba := p.Lba(3) + k / 512;
    assert IsBitmapSector(disk[lba], lba - p.Lba(3), p.Reserved());
    assert 512 * (k / 512) + k % 512 == k;
    assert Bit(disk[lba][k % 512], j) <==> 8 * (512 * (k / 512) + k % 512) + j < p.Reserved();
  }

  lemma SectorCounts(bytes: nat, k: nat)
    requires k < bytes
    ensures k / 512 < DivCeil(bytes, 512)
  {
  }

  // ----- the owners -------------------------------------------------------------------------------------

  ghost function FreshNodes(p: Plan): Owners
    requires p.spc > 0
  {
    map[Root := Node([2], true, p.ClusterBytes(), true, 0),
        BitmapFile := Node(BitmapRun(p), true, p.BitmapBytes(), false, 0),
        UpcaseFile := Node(UpcaseRun(p), true, UPCASE_BYTES, false, 0)]
  }

  lemma OwnersBack(disk: seq<seq<byte>>, p: Plan)
    requires BodyWritten(disk, p)
    ensures Addressable(PlanGeometry(p), disk)
    ensures OwnOk(PlanGeometry(p), FatOf(PlanGeometry(p), disk), FreshUsed(p), BitmapRun(p), FreshNodes(p))
  {
    hide BodyWritten;
    hide Plan.Laid;
    hide Plan.BitmapBytes;
    hide Plan.BitmapClusters;
    hide Plan.UpcaseClusters;
    BodyLaid(disk, p);
    PlanFits(p);
    PlanWellFormed(p);
    ChainsBack(disk, p);
    RunDistinct(3, p.BitmapClusters());
    RunDistinct(p.UpcaseCluster(), p.UpcaseClusters());
    FreshApart(p);
    var g, fat, used, nodes := PlanGeometry(p), FatOf(PlanGeometry(p), disk), FreshUsed(p), FreshNodes(p);
    assert NodeOk(g, fat, used, nodes[Root]);
    assert NodeOk(g, fat, used, nodes[BitmapFile]);
    assert NodeOk(g, fat, used, nodes[UpcaseFile]);
    assert Rooted(g, BitmapRun(p), nodes);
  }

  lemma FreshApart(p: Plan)
    requires p.spc > 0
    ensures Apart(FreshNodes(p))
  {
    hide Plan.BitmapBytes;
    hide Plan.BitmapClusters;
    hide Plan.UpcaseClusters;
  }

  /** The rest of the root cluster, which the formatter does not write. */
  ghost predicate RootTailZero(disk: seq<seq<byte>>, p: Plan) {
    forall lba, i :: p.Lba(2) < lba < p.Lba(3) && lba < |disk| && 0 <= i < |disk[lba]| ==> disk[lba][i] == 0
  }

  lemma RootByte(disk: seq<seq<byte>>, p: Plan, i: nat)
    requires BodyWritten(disk, p) && 64 <= i < p.ClusterBytes() && RootTailZero(disk, p)
    ensures Addressable(PlanGeometry(p), disk) && InHeap(PlanGeometry(p), [2])
    ensures |Flat(HeapOf(PlanGeometry(p), disk), [2])| == p.ClusterBytes()
    ensures Flat(HeapOf(PlanGeometry(p), disk), [2])[i] == 0
  {
    hide BodyWritten;
    hide Plan.Laid;
    hide Joined;
    hide HeapOf;
    hide BitmapWritten;
    hide TableWritten;
    hide Addressable;
    BodyLaid(disk, p);
    RootJoined(disk, p);
    JoinedByte(disk, p.Lba(2), p.spc, i);
    var lba := p.Lba(2) + i / 512;
    if i >= 512 { assert p.Lba(2) < lba < p.Lba(3); }
  }

  /** The root cluster is its sectors, one after the other. */
  lemma RootJoined(disk: seq<seq<byte>>, p: Plan)
    requires BodyWritten(disk, p)
    ensures Addressable(PlanGeometry(p), disk) && InHeap(PlanGeometry(p), [2])
    ensures p.Lba(3) == p.Lba(2) + p.spc <= |disk| && p.ClusterBytes() == p.spc * 512
    ensures (forall i :: 0 <= i < |[2]| ==> [2][i] < |HeapOf(PlanGeometry(p), disk)|)
    ensures Flat(HeapOf(PlanGeometry(p), disk), [2]) == Joined(disk, p.Lba(2), p.spc)
  {
    hide BodyWritten;
    hide Plan.Laid;
    hide Joined;
    hide BitmapWritten;
    hide TableWritten;
    hide IsRoot;
    BodyLaid(disk, p);
    PlanFits(p);
    PlanAddressable(disk, p);
    RunJoined(PlanGeometry(p), disk, 2, 1);
    PlanLba(p, 2);
    assert RunOf(2, 1) == [2];
  }

  /** After the two descriptors every slot of a fresh root is unused. */
  lemma RootBlank(disk: seq<seq<byte>>, p: Plan)
    requires BodyWritten(disk, p) && RootTailZero(disk, p)
    ensures Addressable(PlanGeometry(p), disk) && InHeap(PlanGeometry(p), [2]) && p.BitmapBytes() <= U64_MAX
    ensures p.UpcaseCluster() <= U32_MAX
    ensures var slots := DirSlots(HeapOf(PlanGeometry(p), disk), [2]);
            && |slots| == 16 * p.spc && |slots| >= 16
            && slots[0][0] == 0x81 && slots[0][1] == 0 && slots[1][0] == 0x82
            && BitmapEntry(slots[0]) == FreshBitmap(p) && UpcaseEntry(slots[1]) == FreshTable(p)
            && forall k :: 2 <= k < |slots| ==> slots[k][0] == 0
  {
    hide BodyWritten;
    hide Plan.Laid;
    hide RootTailZero;
    hide SlotsOf;
    hide Plan.BitmapBytes;
    hide Plan.BitmapClusters;
    hide Plan.UpcaseClusters;
    hide IsRoot;
    hide BitmapEntry;
    hide UpcaseEntry;
    hide AsciiBytes;
    hide Sum32;
    BodyLaid(disk, p);
    RootSlots(disk, p, 0);
    RootSlots(disk, p, 1);
    RootEntriesAt(disk[p.Lba(2)], p.BitmapBytes(), p.UpcaseCluster(), Sum32(0, AsciiBytes()));
    var bytes := Flat(HeapOf(PlanGeometry(p), disk), [2]);
    forall k | 2 <= k < |SlotsOf(bytes)|
      ensures SlotsOf(bytes)[k][0] == 0
    {
      RootByte(disk, p, 32 * k);
      SlotIs(bytes, k);
    }
  }

  /** A fresh root has no records and no slot in use after its descriptors. */
  lemma TreeBack(disk: seq<seq<byte>>, p: Plan)
    requires BodyWritten(disk, p) && RootTailZero(disk, p)
    ensures Addressable(PlanGeometry(p), disk)
    ensures TreeOk(PlanGeometry(p), HeapOf(PlanGeometry(p), disk), FreshNodes(p))
  {
    hide BodyWritten;
    hide Plan.Laid;
    hide RootTailZero;
    hide SlotsOf;
    hide Plan.BitmapBytes;
    hide Plan.BitmapClusters;
    hide Plan.UpcaseClusters;
    hide IsRoot;
    hide RecordOk;
    BodyLaid(disk, p);
    PlanFits(p);
    PlanAddressable(disk, p);
    var g, heap, nodes := PlanGeometry(p), HeapOf(PlanGeometry(p), disk), FreshNodes(p);
    HeapOfShape(g, disk);
    RootBlank(disk, p);
    var bytes := Flat(heap, [2]);
    assert DirOk(nodes, Root, SlotsOf(bytes), g.BytesPerCluster());
  }

  // ----- the mounted file system ---------------------------------------------------------------------------

  lemma ContentsBack(disk: seq<seq<byte>>, p: Plan)
    requires BodyWritten(disk, p)
    ensures Addressable(PlanGeometry(p), disk)
    ensures Contents(HeapOf(PlanGeometry(p), disk), FreshNodes(p)) == map[UpcaseFile := AsciiBytes()]
  {
    hide BodyWritten;
    hide Plan.Laid;
    hide AsciiBytes;
    hide Flat;
    BodyLaid(disk, p);
    PlanAddressable(disk, p);
    TableBack(disk, p);
    var heap, nodes := HeapOf(PlanGeometry(p), disk), FreshNodes(p);
    assert AsciiBytes()[..UPCASE_BYTES] == AsciiBytes();
    assert Content(heap, nodes[UpcaseFile]) == AsciiBytes();
    assert IsFile(nodes, UpcaseFile) && forall id :: IsFile(nodes, id) ==> id == UpcaseFile;
  }

  /** An empty volume: the invariant holds, the root lists nothing, the only
      file is the up-case table, and exactly the reserved clusters are given away. */
  ghost predicate IsFresh(fs: FileSystem, p: Plan)
    reads fs
  {
    && Inv(fs) && TableReady(fs) && fs.upcaseValid && p.spc > 0 && fs.g == PlanGeometry(p)
    && Contents(fs.heap, fs.nodes) == map[UpcaseFile := AsciiBytes()] && Table(fs) == AsciiBytes()
    && Listed(fs.g, fs.heap, fs.nodes, Root) && ListHere(fs.g, fs.heap, fs.nodes, Root) == []
    && |fs.used| == p.Reserved() && fs.free == None && BlankRoot(fs.heap, fs.nodes, p.spc)
  }

  /** A root of so many sectors holds the two descriptors and nothing else. */
  ghost predicate BlankRoot(heap: Heap, nodes: Owners, spc: nat) {
    && Root in nodes && Reads(heap, nodes[Root].ext)
    && var slots := DirSlots(heap, nodes[Root].ext);
       && |slots| == 16 * spc && |slots| >= 16 && slots[0][0] == 0x81 && slots[1][0] == 0x82
       && forall k :: 2 <= k < |slots| ==> slots[k][0] == 0
  }

  /** The ghost state a mount starts from on a volume written by `p`. */
  ghost predicate StartsFresh(fs: FileSystem, p: Plan)
    requires p.spc > 0 && p.UpcaseCluster() <= U32_MAX && p.BitmapBytes() <= U64_MAX
    reads fs
  {
    && MountedVolume(fs.g, fs.bitmap, fs.upcase, fs.upcaseValid) == FreshVolume(p)
    && Addressable(fs.g, fs.disk) && fs.origin == fs.disk && |fs.scratch| == 512 && fs.free == None
    && fs.fat == FatOf(fs.g, fs.disk) && fs.heap == HeapOf(fs.g, fs.disk)
    && fs.bm == BitmapRun(p) && fs.used == FreshUsed(p) && fs.nodes == FreshNodes(p)
  }

  lemma FreshValid(fs: FileSystem, p: Plan)
    requires BodyWritten(fs.disk, p) && p.UpcaseCluster() <= U32_MAX && p.BitmapBytes() <= U64_MAX && StartsFresh(fs, p)
    ensures fs.Valid()
  {
    hide BodyWritten;
    hide Plan.Laid;
    hide BitmapShape;
    hide UsedTied;
    hide HeapShape;
    hide AsciiBytes;
    hide Sum32;
    hide FirstClusters;
    hide BitmapRun;
    hide FatTied;
    hide HeapTied;
    BodyLaid(fs.disk, p);
    PlanWellFormed(p);
    RawIsTied(fs.g, fs.disk);
    UsedBack(fs.disk, p);
  }

  lemma StartsAsFresh(fs: FileSystem, p: Plan)
    requires BodyWritten(fs.disk, p) && p.UpcaseCluster() <= U32_MAX && p.BitmapBytes() <= U64_MAX && StartsFresh(fs, p)
    requires RootTailZero(fs.disk, p)
    ensures IsFresh(fs, p)
  {
    hide BodyWritten;
    hide Plan.Laid;
    hide FileSystem.Valid;
    hide OwnOk;
    hide TreeOk;
    hide TreeRecords;
    hide TreeBut;
    hide AsciiBytes;
    hide Sum32;
    hide RootTailZero;
    hide Listed;
    hide Contents;
    BodyLaid(fs.disk, p);
    PlanFits(p);
    FreshValid(fs, p);
    OwnersBack(fs.disk, p);
    TreeBack(fs.disk, p);
    ContentsBack(fs.disk, p);
    TableContent(fs.heap, fs.nodes);
    RootBlank(fs.disk, p);
    BarelyBut(fs, Root);
    EmptyListing(fs, Root);
  }

  /** What a later mount goes by is all there. */
  lemma FreshSays(disk: seq<seq<byte>>, p: Plan)
    requires BodyWritten(disk, p) && RootTailZero(disk, p)
    ensures p.UpcaseCluster() <= U32_MAX && p.BitmapBytes() <= U64_MAX && Addressable(PlanGeometry(p), disk)
    ensures Reads(HeapOf(PlanGeometry(p), disk), [2])
    ensures RootSays(PlanGeometry(p), DirSlots(HeapOf(PlanGeometry(p), disk), [2]), FreshBitmap(p), FreshTable(p))
  {
    hide BodyWritten;
    hide Plan.Laid;
    hide RootTailZero;
    hide SlotsOf;
    hide Flat;
    hide Plan.BitmapBytes;
    hide Plan.BitmapClusters;
    hide Plan.UpcaseClusters;
    hide BitmapEntry;
    hide UpcaseEntry;
    hide AsciiBytes;
    hide Sum32;
    RootBlank(disk, p);
    var slots := DirSlots(HeapOf(PlanGeometry(p), disk), [2]);
    assert ActiveBitmap(PlanGeometry(p), slots[0]);
  }

  lemma FreshAnchored(disk: seq<seq<byte>>, p: Plan, gpt: Result<Partition>)
    requires BodyWritten(disk, p) && BootReadable(disk, p)
    ensures Anchored(PlanGeometry(p), disk, gpt)
  {
    hide BootReadable;
    hide Plan.Laid;
    hide AsciiBytes;
    hide Sum32;
    hide IsRoot;
    hide IsMbr;
    hide PartitionOf;
    hide GeometryOf;
    hide BitmapWritten;
    hide TableWritten;
    hide FatWritten;
    PlanSectors(p);
    PartitionBack(disk, p, gpt);
    GeometryBack(disk, p);
  }

  lemma FreshCarried(fs: FileSystem, p: Plan)
    requires BodyWritten(fs.disk, p) && RootTailZero(fs.disk, p) && IsFresh(fs, p)
    requires p.UpcaseCluster() <= U32_MAX && p.BitmapBytes() <= U64_MAX && StartsFresh(fs, p)
    ensures Carried(fs.g, fs.bitmap, fs.upcase, fs.heap, fs.nodes)
  {
    hide BodyWritten;
    hide Plan.Laid;
    hide Inv;
    hide AsciiBytes;
    hide Sum32;
    hide RootTailZero;
    hide RootSays;
    hide Contents;
    hide Content;
    hide Listed;
    hide SlotsOf;
    hide Flat;
    hide BitmapRun;
    hide UpcaseRun;
    FreshSays(fs.disk, p);
  }

  /** A fresh volume can be mounted again. */
  lemma FreshMountable(fs: FileSystem, p: Plan, gpt: Result<Partition>)
    requires BodyWritten(fs.disk, p) && BootReadable(fs.disk, p) && RootTailZero(fs.disk, p)
    requires p.UpcaseCluster() <= U32_MAX && p.BitmapBytes() <= U64_MAX && StartsFresh(fs, p)
    ensures Mountable(fs, gpt)
  {
    hide BodyWritten;
    hide BootReadable;
    hide Inv;
    hide AsciiBytes;
    hide Sum32;
    hide RootTailZero;
    hide Carried;
    hide Anchored;
    hide Contents;
    hide Listed;
    hide FreshNodes;
    StartsAsFresh(fs, p);
    FreshCarried(fs, p);
    FreshAnchored(fs.disk, p, gpt);
  }

  /** Folding on an empty volume is upper-casing of the ASCII letters, except
      that unit 0xffff, which reads as a run marker, is an error. */
  lemma FreshFolding(fs: FileSystem, p: Plan, unit: u16)
    requires IsFresh(fs, p)
    ensures UpcaseFile in fs.nodes
    ensures Folded(true, Table(fs), unit) ==
      if unit == 0xffff then Err(Corrupt) else Ok(if 0x61 <= unit <= 0x7a then unit - 0x20 else unit)
  {
    hide Inv;
    hide Listed;
    hide Folded;
    hide AsciiBytes;
    hide AsciiTable;
    AsciiWords();
    FormattedFolding(AsciiBytes(), unit);
  }

  /** Every name without that unit can be hashed there. */
  lemma FreshNames(fs: FileSystem, p: Plan, name: seq<Scalar>)
    requires IsFresh(fs, p) && IsName(name) && UnitCount(name) <= 255 && 0xffff !in name
    ensures UpcaseFile in fs.nodes && fs.upcaseValid && Encoded(name).Ok?
    ensures |Encoded(name).value| == UnitCount(name)
    ensures HashOf(fs.upcaseValid, Table(fs), Encoded(name).value).Ok?
  {
    hide Inv;
    hide Listed;
    hide Folded;
    hide FoldedName;
    hide AsciiBytes;
    hide Content;
    EncodedExactly(name);
    var units := Encoded(name).value;
    NoMarker(name);
    forall i | 0 <= i < |units|
      ensures Folded(true, Table(fs), units[i]).Ok?
    {
      FreshFolding(fs, p, units[i]);
    }
    MatchingHash(true, Table(fs), units, units);
  }

  lemma {:induction false} NoMarker(name: seq<Scalar>)
    requires 0xffff !in name
    ensures 0xffff !in Utf16(name)
  {
    if name != [] { NoMarker(name[1..]); }
  }

  lemma TableContent(heap: Heap, nodes: Owners)
    requires Contents(heap, nodes) == map[UpcaseFile := AsciiBytes()]
    ensures UpcaseFile in nodes && Content(heap, nodes[UpcaseFile]) == AsciiBytes()
  {
    hide AsciiBytes;
    assert UpcaseFile in Contents(heap, nodes);
    assert Contents(heap, nodes)[UpcaseFile] == AsciiBytes();
  }

  lemma MountedIsAddressable(disk: seq<seq<byte>>, size: nat, scratchLength: nat, gpt: Result<Partition>)
    requires Sectors(disk, size) && disk != [] && MountOf(disk, size, scratchLength, gpt).Ok?
    ensures Addressable(MountOf(disk, size, scratchLength, gpt).value.geometry, disk)
  {
    hide GeometryOf;
    hide RootEntries;
    hide TableSound;
    ParsedIsAddressable(disk, size, PartitionOf(disk, gpt).value);
  }

  /** Mount a device and keep it as the file system's own.  On a device formatted
      by `p`, from either boot region, the result is an empty volume. */
  method MountFileSystem(d: Device, scratchLength: nat, gpt: Result<Partition>, ghost p: Plan)
    returns (r: Result<FileSystem>)
    requires d.Valid() && d.disk != []
    modifies d`clock
    ensures d.Valid()
    ensures r.Ok? ==>
      && fresh(r.value) && r.value.disk == d.disk && r.value.faulty == d.faulty && r.value.clock == d.clock
      && MountOf(d.disk, d.size, scratchLength, gpt)
           == Ok(MountedVolume(r.value.g, r.value.bitmap, r.value.upcase, r.value.upcaseValid))
    ensures old(d.clock) <= d.clock && (FailedIn(d.faulty, old(d.clock), d.clock) ==> r == Err(Error.Device))
    ensures r.Err? && !FailedIn(d.faulty, old(d.clock), d.clock) ==>
      MountOf(d.disk, d.size, scratchLength, gpt) == Err(r.error)
    ensures d.size == 512 && scratchLength >= 512 && BodyWritten(d.disk, p) && BootReadable(d.disk, p) ==>
      (r.Ok? <==> !FailedIn(d.faulty, old(d.clock), d.clock))
      && (r.Ok? && RootTailZero(d.disk, p) ==> IsFresh(r.value, p) && Mountable(r.value, gpt))
  {
    hide MountOf;
    hide BodyWritten;
    hide BootReadable;
    hide IsFresh;
    hide Mountable;
    hide RootTailZero;
    hide Plan.BitmapClusters;
    hide Plan.UpcaseClusters;
    hide AsciiBytes;
    hide Sum32;
    var volume := Mount(d, scratchLength, gpt);
    if d.size == 512 && scratchLength >= 512 && BodyWritten(d.disk, p) && BootReadable(d.disk, p) {
      MountsBack(d.disk, p, scratchLength, gpt);
    }
    if volume.Err? { return Err(volume.error); }
    MountedIsAddressable(d.disk, d.size, scratchLength, gpt);
    var v := volume.value;
    ghost var bm := if p.spc > 0 then BitmapRun(p) else [];
    ghost var used := if p.spc > 0 then FreshUsed(p) else {};
    ghost var nodes := if p.spc > 0 then FreshNodes(p) else map[];
    var fs := new FileSystem(v.geometry, v.bitmap, v.upcase, v.upcaseValid, d.faulty, d.clock, d.disk, Zeros(d.size),
                             bm, FatOf(v.geometry, d.disk), HeapOf(v.geometry, d.disk), used, nodes);
    if d.size == 512 && scratchLength >= 512 && BodyWritten(d.disk, p) && BootReadable(d.disk, p)
      && RootTailZero(d.disk, p) {
      StartsAsFresh(fs, p);
      FreshMountable(fs, p, gpt);
    }
    return Ok(fs);
  }

  /** Format a device and mount the result.  Unless the device fails it works
      exactly for the sizes that have a layout, whatever the two scratch sizes
      are; and if the part of the root cluster that the formatter leaves alone
      was blank, the mounted volume is empty and sound. */
  method FormatThenMount(d: Device, formatScratch: nat, mountScratch: nat, gpt: Result<Partition>)
    returns (r: Result<FileSystem>, ghost p: Plan)
    requires d.Valid() && d.size == 512 && formatScratch >= 512 && formatScratch % 512 == 0 && mountScratch >= 512
    modifies d
    ensures d.Valid()
    ensures r.Ok? ==> fresh(r.value) && Formatted(d.disk, p) && r.value.disk == d.disk
    ensures r.Ok? && RootTailZero(old(d.disk), p) ==> IsFresh(r.value, p) && Mountable(r.value, gpt)
    ensures r.Ok? && RootTailZero(old(d.disk), p) ==>
      r.value.g.BytesPerCluster() ==
        if |d.disk| <= 0x2_0000 then 0x200 else if |d.disk| <= 0x10_0000 then 0x2000 else 0x8000
    ensures FailedIn(d.faulty, old(d.clock), d.clock) ==> r == Err(Error.Device)
    ensures !FailedIn(d.faulty, old(d.clock), d.clock) ==>
      (r.Ok? <==> 536 < |old(d.disk)| && |old(d.disk)| - 1 <= U32_MAX
                  && !Skipped(|old(d.disk)| - 1, ClusterSectors(|old(d.disk)| - 1)))
  {
    hide MountOf;
    hide BodyWritten;
    hide BootReadable;
    hide IsFresh;
    hide Mountable;
    hide Formatted;
    hide RootTailZero;
    hide Skipped;
    hide Plan.BitmapClusters;
    hide Plan.UpcaseClusters;
    hide Plan.Lba;
    hide AsciiBytes;
    ghost var disk0 := d.disk;
    var formatted;
    formatted, p := FormatExfat(d, formatScratch);
    if formatted.Err? { return Err(formatted.error), p; }
    FormattedSize(d.disk, p);
    FormattedIsWritten(d.disk, p);
    r := MountFileSystem(d, mountScratch, gpt, p);
    if r.Ok? {
      RootTailKept(disk0, d.disk, p);
      if RootTailZero(disk0, p) { FreshClusters(r.value, d.disk, p); }
    }
  }

  /** Up to 64 MiB a cluster has 512 bytes, up to 512 MiB it has 8192, else 32768. */
  lemma FreshClusters(fs: FileSystem, disk: seq<seq<byte>>, p: Plan)
    requires IsFresh(fs, p) && Formatted(disk, p)
    ensures fs.g.BytesPerCluster() ==
      if |disk| <= 0x2_0000 then 0x200 else if |disk| <= 0x10_0000 then 0x2000 else 0x8000
  {
    hide FileSystem.Valid;
    hide Inv;
    hide Contents;
    hide Listed;
    hide ListHere;
    hide BlankRoot;
    hide RegionOk;
    hide FatWritten;
    hide BitmapWritten;
    hide TableWritten;
    hide IsRoot;
    hide IsMbr;
    hide AsciiBytes;
    hide Consistent;
  }

  lemma FormattedSize(disk: seq<seq<byte>>, p: Plan)
    requires Formatted(disk, p)
    ensures |disk| == p.sectors + 1 && 536 <= p.sectors
  {
  }

  lemma RootTailKept(disk: seq<seq<byte>>, disk': seq<seq<byte>>, p: Plan)
    requires |disk'| == |disk| && forall i :: p.Lba(2) < i < p.Lba(3) && i < |disk| ==> disk'[i] == disk[i]
    ensures RootTailZero(disk, p) ==> RootTailZero(disk', p)
  {
  }
}
