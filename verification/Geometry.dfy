/** Boot-sector geometry: what the parser accepts, and the proof that every
    accepted geometry places boot sectors, FAT slots and cluster sectors at
    pairwise different addresses inside the partition. */
module Geometry {
  import opened Words
  import opened Errors

  datatype Partition = Partition(firstLba: u64, sectorCount: u64)

  datatype AllocationBitmap = AllocationBitmap(firstCluster: u32, byteLength: u64) {

    /** Bitmap byte and bit number of a cluster, when the bitmap reaches it. */
    function PositionFor(cluster: u32): Option<(u64, u8)> {
      if cluster < 2 then None
      else
        var bit := cluster - 2;
        if bit / 8 < byteLength then Some((bit / 8, bit % 8)) else None
    }
  }

  datatype UpCaseTable = UpCaseTable(checksum: u32, firstCluster: u32, byteLength: u64)

  datatype Geometry = Geometry(
    partition: Partition,
    bytesPerSector: u16,
    sectorsPerCluster: u32,
    fatOffset: u32,
    fatLength: u32,
    numberOfFats: u8,
    activeFat: u8,
    clusterHeapOffset: u32,
    clusterCount: u32,
    rootCluster: u32)
  {
    function BytesPerCluster(): nat { bytesPerSector * sectorsPerCluster }

    /** `clusterCount.saturating_add(2)`. */
    function ClusterEnd(): nat { Min(clusterCount + 2, U32_MAX) }

    predicate InRange(cluster: int) { 2 <= cluster < ClusterEnd() }

    function HeapStart(): nat { partition.firstLba + clusterHeapOffset }

    /** First sector of a cluster, for a cluster number in range. */
    function ClusterLba(cluster: nat): Option<nat> {
      if !InRange(cluster) then None
      else Some(HeapStart() + (cluster - 2) * sectorsPerCluster)
    }

    function FatStart(): nat { partition.firstLba + fatOffset + activeFat * fatLength }

    /** Sector of the active FAT holding a FAT byte; `None` on 64-bit overflow. */
    function FatLbaForByte(b: nat): Option<nat>
      requires bytesPerSector > 0
    {
      if FatStart() > U64_MAX || FatStart() + b / bytesPerSector > U64_MAX then None
      else Some(FatStart() + b / bytesPerSector)
    }

    /** What every accepted boot sector guarantees. */
    predicate WellFormed() {
      && bytesPerSector in {512, 1024, 2048, 4096}
      && 1 <= sectorsPerCluster
      && BytesPerCluster() <= 0x200_0000
      && numberOfFats in {1, 2}
      && activeFat < numberOfFats
      && 24 <= fatOffset
      && 1 <= clusterCount
      && 2 <= rootCluster < ClusterEnd()
      && (clusterCount + 2) * 4 <= fatLength * bytesPerSector
      && fatOffset + fatLength * numberOfFats <= clusterHeapOffset
      && clusterHeapOffset + clusterCount * sectorsPerCluster <= partition.sectorCount
    }
  }

  // ----- the boot-sector parser ------------------------------------------------

  const EXFAT_NAME: seq<byte> := [0x45, 0x58, 0x46, 0x41, 0x54, 0x20, 0x20, 0x20]
  const BOOT_JUMP: seq<byte> := [0xeb, 0x76, 0x90]

  function ParseBoot(partition: Partition, boot: seq<byte>, deviceSectorSize: nat): Result<Geometry> {
    if |boot| < 512 || boot[3..11] != EXFAT_NAME || boot[510] != 0x55 || boot[511] != 0xaa then
      Err(InvalidBootSector)
    else if
      || boot[..3] != BOOT_JUMP
      || (exists i :: 11 <= i < 64 && boot[i] != 0)
      || (exists i :: 113 <= i < 120 && boot[i] != 0)
      || boot[105] != 1
      || boot[104] > 99
      || !(boot[112] <= 100 || boot[112] == 0xff)
    then Err(Corrupt)
    else if !(9 <= boot[108] <= 12) then Err(UnsupportedSectorSize)
    else if Pow2(boot[108]) != deviceSectorSize then Err(InvalidBootSector)
    else if boot[109] > 25 || (boot[108] as int) + (boot[109] as int) > 25 then Err(UnsupportedClusterSize)
    else ParseLayout(partition, boot)
  }

  /** The part of the parser that runs once the sector and cluster shifts are
      known to be supported. */
  function ParseLayout(partition: Partition, boot: seq<byte>): Result<Geometry>
    requires |boot| >= 512
    requires 9 <= boot[108] <= 12 && (boot[108] as int) + (boot[109] as int) <= 25
  {
    ShiftBounds(boot[108], boot[109]);
    var bytesPerSector := Pow2(boot[108]);
    var sectorsPerCluster := Pow2(boot[109]);
    var fatOffset := Le32(boot[80..84]);
    var fatLength := Le32(boot[84..88]);
    var heapOffset := Le32(boot[88..92]);
    var clusterCount := Le32(boot[92..96]);
    var rootCluster := Le32(boot[96..100]);
    var volumeLength := Le64(boot[72..80]);
    var numberOfFats := boot[110];
    if !(numberOfFats == 1 || numberOfFats == 2) then Err(Corrupt)
    else
      var activeFat := if numberOfFats == 2 then Le16(boot[106..108]) % 2 else 0;
      if
        || fatOffset == 0 || fatLength == 0 || clusterCount == 0
        || rootCluster < 2 || rootCluster >= Min(clusterCount + 2, U32_MAX)
      then Err(Corrupt)
      else if
        || fatOffset < 24
        || fatLength < DivCeil((clusterCount + 2) * 4, bytesPerSector)
        || fatOffset + fatLength * numberOfFats > heapOffset
      then Err(Corrupt)
      else if
        || volumeLength == 0
        || heapOffset + clusterCount * sectorsPerCluster > volumeLength
        || volumeLength > partition.sectorCount
      then Err(Corrupt)
      else Ok(Geometry(partition, bytesPerSector, sectorsPerCluster, fatOffset, fatLength,
                       numberOfFats, activeFat, heapOffset, clusterCount, rootCluster))
  }

  lemma ShiftBounds(sectorShift: nat, clusterShift: nat)
    requires 9 <= sectorShift <= 12 && sectorShift + clusterShift <= 25
    ensures Pow2(sectorShift) in {512, 1024, 2048, 4096}
    ensures Pow2(clusterShift) <= 0x1_0000
    ensures Pow2(sectorShift) * Pow2(clusterShift) <= 0x200_0000
  {
    Pow2Monotone(clusterShift, 25 - sectorShift);
    assert Pow2(9) == 512 && Pow2(10) == 1024 && Pow2(11) == 2048 && Pow2(12) == 4096;
    assert Pow2(13) == 8192 && Pow2(14) == 16384 && Pow2(15) == 32768 && Pow2(16) == 65536;
    if sectorShift == 9 {
    } else if sectorShift == 10 {
    } else if sectorShift == 11 {
    } else {
    }
  }

  lemma {:induction false} Pow2Monotone(a: nat, b: nat)
    requires a <= b
    ensures Pow2(a) <= Pow2(b)
  {
    if a < b {
      Pow2Monotone(a, b - 1);
    }
  }

  // ----- what an accepted sector guarantees ------------------------------------------------

  lemma CeilCovers(x: nat, d: nat, q: nat)
    requires d > 0
    ensures q >= DivCeil(x, d) <==> x <= q * d
  {
    var f := x / d;
    assert x == f * d + x % d;
    if q <= f {
      assert q * d <= f * d;
      if q < f { assert (q + 1) * d <= f * d; }
    } else {
      assert (f + 1) * d <= q * d;
    }
  }

  /** Whatever the parser accepts is well formed and belongs to the partition
      it was given, with the device's own sector size. */
  lemma AcceptedIsWellFormed(partition: Partition, boot: seq<byte>, size: nat)
    requires ParseBoot(partition, boot, size).Ok?
    ensures var g := ParseBoot(partition, boot, size).value;
            g.WellFormed() && g.partition == partition && g.bytesPerSector == size
  {
    ShiftBounds(boot[108], boot[109]);
    var g := ParseBoot(partition, boot, size).value;
    CeilCovers((g.clusterCount + 2) * 4, g.bytesPerSector, g.fatLength);
  }

  ghost predicate LayoutFields(boot: seq<byte>, g: Geometry)
    requires |boot| >= 512
  {
    && Le32(boot[80..84]) == g.fatOffset && Le32(boot[84..88]) == g.fatLength
    && Le32(boot[88..92]) == g.clusterHeapOffset && Le32(boot[92..96]) == g.clusterCount
    && Le32(boot[96..100]) == g.rootCluster
    && boot[110] == g.numberOfFats && g.activeFat == if boot[110] == 2 then boot[106] % 2 else 0
  }

  /** The boot sector states the geometry, field by field, and is otherwise as the
      file system's specification demands. */
  ghost predicate States(boot: seq<byte>, g: Geometry) {
    && |boot| >= 512 && boot[..3] == [0xeb, 0x76, 0x90]
    && boot[3..11] == [0x45, 0x58, 0x46, 0x41, 0x54, 0x20, 0x20, 0x20] && boot[510] == 0x55 && boot[511] == 0xaa
    && (forall i :: 11 <= i < 64 || 113 <= i < 120 ==> boot[i] == 0)
    && boot[104] <= 99 && boot[105] == 1 && (boot[112] <= 100 || boot[112] == 0xff)
    && (|| (boot[108] == 9 && g.bytesPerSector == 512) || (boot[108] == 10 && g.bytesPerSector == 1024)
        || (boot[108] == 11 && g.bytesPerSector == 2048) || (boot[108] == 12 && g.bytesPerSector == 4096))
    && g.sectorsPerCluster == Pow2(boot[109])
    && g.clusterHeapOffset + g.clusterCount * g.sectorsPerCluster <= Le64(boot[72..80]) <= g.partition.sectorCount
    && LayoutFields(boot, g)
  }

  /** The parser accepts exactly the boot sectors that state a well-formed geometry
      for the partition and the device's sector size, and reads that geometry. */
  lemma AcceptedExactly(partition: Partition, boot: seq<byte>, size: nat, g: Geometry)
    ensures ParseBoot(partition, boot, size) == Ok(g) <==>
      g.partition == partition && g.bytesPerSector == size && g.WellFormed() && States(boot, g)
  {
    hide Le32;
    hide Le64;
    hide ParseLayout;
    if ParseBoot(partition, boot, size) == Ok(g) {
      AcceptedIsWellFormed(partition, boot, size);
      SectorShifts(boot[108]);
      LayoutReads(partition, boot, g);
    } else if g.partition == partition && g.bytesPerSector == size && g.WellFormed() && States(boot, g) {
      SectorShifts(boot[108]);
      ShiftsFit(boot[108], boot[109]);
      LayoutAccepted(partition, boot, g);
    }
  }

  lemma SectorShifts(shift: nat)
    ensures 9 <= shift <= 12 ==>
      Pow2(shift) == if shift == 9 then 512 else if shift == 10 then 1024 else if shift == 11 then 2048 else 4096
  {
    assert Pow2(9) == 512 && Pow2(10) == 1024 && Pow2(11) == 2048 && Pow2(12) == 4096;
  }

  lemma ShiftsFit(sectorShift: nat, clusterShift: nat)
    requires 9 <= sectorShift <= 12
    ensures sectorShift + clusterShift > 25 ==> Pow2(sectorShift) * Pow2(clusterShift) > 0x200_0000
  {
    SectorShifts(sectorShift);
    assert Pow2(14) == 16384 && Pow2(15) == 32768 && Pow2(16) == 65536 && Pow2(17) == 131072;
    if sectorShift + clusterShift > 25 {
      Pow2Monotone(26 - sectorShift, clusterShift);
      MulMonotone(Pow2(26 - sectorShift), Pow2(clusterShift), Pow2(sectorShift));
    }
  }

  lemma LowBit(a: byte, b: byte)
    ensures Le16([a, b]) % 2 == a % 2
  {
  }

  /** The parser reads the geometry that the fields state ... */
  lemma LayoutReads(partition: Partition, boot: seq<byte>, g: Geometry)
    requires |boot| >= 512 && 9 <= boot[108] <= 12 && (boot[108] as int) + (boot[109] as int) <= 25
    requires ParseLayout(partition, boot) == Ok(g)
    ensures g.partition == partition && g.bytesPerSector == Pow2(boot[108]) && g.sectorsPerCluster == Pow2(boot[109])
    ensures g.clusterHeapOffset + g.clusterCount * g.sectorsPerCluster <= Le64(boot[72..80]) <= partition.sectorCount
    ensures LayoutFields(boot, g)
  {
    hide Le16;
    hide Le32;
    hide Le64;
    hide Pow2;
    hide DivCeil;
    ShiftBounds(boot[108], boot[109]);
    assert boot[106..108] == [boot[106], boot[107]];
    LowBit(boot[106], boot[107]);
  }

  /** What a well-formed geometry promises the parser. */
  lemma Promises(g: Geometry)
    requires g.WellFormed()
    ensures g.bytesPerSector > 0 && g.numberOfFats in {1, 2} && g.activeFat < g.numberOfFats
    ensures 24 <= g.fatOffset && 1 <= g.clusterCount && 2 <= g.rootCluster < Min(g.clusterCount + 2, U32_MAX)
    ensures g.fatLength >= DivCeil((g.clusterCount + 2) * 4, g.bytesPerSector) && g.fatLength > 0
    ensures g.fatOffset + (if g.numberOfFats == 1 then g.fatLength else 2 * g.fatLength) <= g.clusterHeapOffset
  {
    CeilCovers((g.clusterCount + 2) * 4, g.bytesPerSector, g.fatLength);
  }

  /** ... and whatever well-formed geometry they state. */
  lemma LayoutAccepted(partition: Partition, boot: seq<byte>, g: Geometry)
    requires |boot| >= 512 && 9 <= boot[108] <= 12 && (boot[108] as int) + (boot[109] as int) <= 25
    requires g.WellFormed() && g.partition == partition && LayoutFields(boot, g)
    requires g.bytesPerSector == Pow2(boot[108]) && g.sectorsPerCluster == Pow2(boot[109])
    requires g.clusterHeapOffset + g.clusterCount * g.sectorsPerCluster <= Le64(boot[72..80]) <= partition.sectorCount
    ensures ParseLayout(partition, boot) == Ok(g)
  {
    hide Geometry.WellFormed;
    hide Le16;
    hide Le32;
    hide Le64;
    hide Pow2;
    hide DivCeil;
    ShiftBounds(boot[108], boot[109]);
    assert boot[106..108] == [boot[106], boot[107]];
    LowBit(boot[106], boot[107]);
    Promises(g);
  }

  lemma MulMonotone(a: nat, b: nat, m: nat)
    requires a <= b
    ensures a * m <= b * m
  {
  }

  /** The active FAT lies between the two boot regions and the cluster heap. */
  lemma FatBelowHeap(g: Geometry)
    requires g.WellFormed()
    ensures g.fatLength >= 1
    ensures g.partition.firstLba + 24 <= g.FatStart()
    ensures g.FatStart() + g.fatLength <= g.HeapStart()
    ensures g.HeapStart() + g.clusterCount * g.sectorsPerCluster <= g.partition.firstLba + g.partition.sectorCount
    ensures g.HeapStart() <= g.partition.firstLba + g.partition.sectorCount
  {
    MulMonotone(0, g.clusterCount, g.sectorsPerCluster);
    if g.numberOfFats == 1 {
      assert g.activeFat * g.fatLength == 0;
    } else if g.activeFat == 0 {
      assert g.activeFat * g.fatLength == 0;
    } else {
      assert g.activeFat * g.fatLength == g.fatLength;
      assert g.fatLength * g.numberOfFats == 2 * g.fatLength;
    }
  }

  lemma SectorInside(c: nat, s: nat, count: nat, m: nat)
    requires 2 <= c < count + 2 && s < m
    ensures 0 <= (c - 2) * m
    ensures (c - 2) * m + s < count * m
  {
    MulMonotone(0, c - 2, m);
    MulMonotone(c - 1, count, m);
    assert (c - 1) * m == (c - 2) * m + m;
  }

  /** Every sector of every cluster stays inside the partition, above the boot
      regions and above the active FAT. */
  lemma HeapAddress(g: Geometry, c: nat, s: nat)
    requires g.WellFormed() && g.InRange(c) && s < g.sectorsPerCluster
    ensures g.ClusterLba(c).Some?
    ensures g.partition.firstLba + 24 <= g.FatStart() < g.FatStart() + g.fatLength <= g.HeapStart()
    ensures g.HeapStart() <= g.ClusterLba(c).value + s < g.partition.firstLba + g.partition.sectorCount
    ensures g.ClusterLba(c).value + s < g.HeapStart() + g.clusterCount * g.sectorsPerCluster
    ensures c == 2 ==> g.ClusterLba(c).value == g.partition.firstLba + g.clusterHeapOffset
    ensures g.InRange(c + 1) ==> g.ClusterLba(c + 1) == Some(g.ClusterLba(c).value + g.sectorsPerCluster)
  {
    FatBelowHeap(g);
    assert (c - 1) * g.sectorsPerCluster == (c - 2) * g.sectorsPerCluster + g.sectorsPerCluster;
    SectorInside(c, s, g.clusterCount, g.sectorsPerCluster);
  }

  /** The map from (cluster, sector) to address is injective. */
  lemma HeapAddressInjective(g: Geometry, c: nat, s: nat, c': nat, s': nat)
    requires g.WellFormed() && g.InRange(c) && g.InRange(c')
    requires s < g.sectorsPerCluster && s' < g.sectorsPerCluster
    requires g.ClusterLba(c).value + s == g.ClusterLba(c').value + s'
    ensures c == c' && s == s'
  {
    var m := g.sectorsPerCluster;
    assert (c - 1) * m == (c - 2) * m + m && (c' - 1) * m == (c' - 2) * m + m;
    if c < c' {
      MulMonotone(c - 1, c' - 2, m);
    } else if c' < c {
      MulMonotone(c' - 1, c - 2, m);
    }
  }

  lemma SlotAligned(c: nat, m: nat)
    requires m in {512, 1024, 2048, 4096}
    ensures 0 <= c * 4 % m && c * 4 % m + 4 <= m && c * 4 % m % 4 == 0
  {
    var e, q := m / 4, c * 4 / m;
    assert c * 4 == q * m + c * 4 % m;
    assert q * m == 4 * (q * e) by { assert m == 4 * e; }
  }

  lemma QuotientBelow(x: nat, m: nat, length: nat)
    requires m > 0 && x < length * m
    ensures 0 <= x / m < length
  {
    if x / m >= length {
      MulMonotone(length, x / m, m);
    }
  }

  /** Every cluster's FAT slot lies inside one sector of the active FAT, below
      every heap sector. */
  lemma FatAddress(g: Geometry, c: nat)
    requires g.WellFormed() && g.partition.firstLba + g.partition.sectorCount <= U64_MAX
    requires c < g.clusterCount + 2
    ensures g.FatLbaForByte(c * 4) == Some(g.FatStart() + c * 4 / g.bytesPerSector)
    ensures g.FatStart() <= g.FatLbaForByte(c * 4).value < g.FatStart() + g.fatLength <= g.HeapStart()
    ensures g.HeapStart() <= g.partition.firstLba + g.partition.sectorCount
    ensures 0 <= c * 4 % g.bytesPerSector && c * 4 % g.bytesPerSector + 4 <= g.bytesPerSector
    ensures c * 4 % g.bytesPerSector % 4 == 0
  {
    FatBelowHeap(g);
    SlotAligned(c, g.bytesPerSector);
    QuotientBelow(c * 4, g.bytesPerSector, g.fatLength);
  }

  /** The FAT slots of two clusters never overlap. */
  lemma FatSlotsDisjoint(g: Geometry, c: nat, c': nat)
    requires g.WellFormed() && c != c'
    requires c * 4 / g.bytesPerSector == c' * 4 / g.bytesPerSector
    ensures c * 4 % g.bytesPerSector + 4 <= c' * 4 % g.bytesPerSector
            || c' * 4 % g.bytesPerSector + 4 <= c * 4 % g.bytesPerSector
  {
    var m := g.bytesPerSector;
    assert c * 4 == c * 4 / m * m + c * 4 % m;
    assert c' * 4 == c' * 4 / m * m + c' * 4 % m;
    SlotAligned(c, m);
    SlotAligned(c', m);
  }
}
