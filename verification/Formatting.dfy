/** The formatter: the plan of a fresh volume, and the writers of its regions. */
module Formatting {
  import opened Words
  import opened Errors
  import opened Geometry
  import opened Layout
  import opened Views
  import opened Upcase
  import opened Media

  const UPCASE_BYTES: nat := 0x2_0000

  /** Everything the formatter derives from the size of the partition. */
  datatype Plan = Plan(sectors: u64, spc: u32, fat: u32, heap: u32, clusters: u32)
  {
    function ClusterBytes(): nat { spc * 512 }
    function BitmapBytes(): nat { DivCeil(clusters, 8) }
    function BitmapClusters(): nat
      requires spc > 0
    {
      DivCeil(BitmapBytes(), ClusterBytes())
    }
    function UpcaseCluster(): nat
      requires spc > 0
    {
      3 + BitmapClusters()
    }
    function UpcaseClusters(): nat
      requires spc > 0
    {
      DivCeil(UPCASE_BYTES, ClusterBytes())
    }
    function Reserved(): nat
      requires spc > 0
    {
      1 + BitmapClusters() + UpcaseClusters()
    }

    /** The plan the layout iteration arrives at. */
    ghost predicate Laid() {
      && Formattable(sectors) && spc == ClusterSectors(sectors) && Consistent(sectors, spc, fat)
      && heap == FAT_OFFSET + fat && clusters == Clusters(sectors, spc, fat)
    }

    /** First sector of a cluster; the partition starts at sector 1. */
    function Lba(cluster: nat): nat
      requires cluster >= 2
    {
      MulMonotone(0, cluster - 2, spc);
      1 + heap + (cluster - 2) * spc
    }
  }

  /** What a laid-out plan guarantees about its numbers. */
  lemma PlanFits(p: Plan)
    requires p.Laid()
    ensures p.spc in {1, 16, 64} && p.fat >= 1 && p.clusters >= 300
    ensures (p.clusters + 2) * 4 <= p.fat * 512 && p.heap + p.clusters * p.spc <= p.sectors
    ensures p.clusters + 2 <= 0xffff_fff7
    ensures 1 <= p.BitmapClusters() <= 256 && 4 <= p.UpcaseClusters() <= 256
    ensures p.UpcaseClusters() * p.ClusterBytes() == UPCASE_BYTES
    ensures p.BitmapBytes() <= p.BitmapClusters() * p.ClusterBytes() && p.clusters <= 8 * p.BitmapBytes()
    ensures p.UpcaseCluster() + p.UpcaseClusters() <= p.clusters + 2
    ensures p.Reserved() <= 4096 && p.Reserved() + 2 == p.UpcaseCluster() + p.UpcaseClusters()
  {
    ConsistentExactly(p.sectors, p.fat);
    CandidateFits(p.sectors);
    CandidateBand(p.sectors, p.spc);
    CeilCovers((p.clusters + 2) * 4, 512, p.fat);
    CeilCovers(p.clusters, 8, p.BitmapBytes());
    CeilCovers(p.BitmapBytes(), p.ClusterBytes(), p.BitmapClusters());
    PlanNumbers(p);
  }

  lemma PlanNumbers(p: Plan)
    requires p.Laid() && p.spc in {1, 16, 64} && p.fat == Candidate(p.sectors, p.spc)
    requires 1 <= p.fat <= 524_288 && FAT_OFFSET + p.fat + 70 <= p.sectors
    ensures p.clusters >= 300 && p.heap + p.clusters * p.spc <= p.sectors && p.clusters + 2 <= 0xffff_fff7
    ensures 1 <= p.BitmapClusters() <= 256 && 4 <= p.UpcaseClusters() <= 256
    ensures p.UpcaseClusters() * p.ClusterBytes() == UPCASE_BYTES
    ensures p.UpcaseCluster() + p.UpcaseClusters() <= p.clusters + 2
    ensures p.Reserved() <= 4096 && p.Reserved() + 2 == p.UpcaseCluster() + p.UpcaseClusters()
  {
    if p.spc == 1 {
    } else if p.spc == 16 {
    } else {
    }
  }

  function ZeroSector(): (s: seq<byte>)
    ensures |s| == 512 && forall i :: 0 <= i < 512 ==> s[i] == 0
  {
    Zeros(512)
  }

  // ----- the partition table --------------------------------------------------------------

  ghost predicate IsMbr(b: seq<byte>, sectors: u32) {
    && |b| == 512 && b[510] == 0x55 && b[511] == 0xaa
    && b[450] == 7 && b[466] == 0 && b[482] == 0 && b[498] == 0
    && Le32(b[454..458]) == 1 && Le32(b[458..462]) == sectors
  }

  method WriteMbr(d: Device, sectors: u32) returns (ok: bool)
    requires d.Valid() && d.size == 512 && 0 < |d.disk|
    modifies d
    ensures d.Valid() && Kept(old(d.disk), d.disk, 0, 1) && Honest(d.faulty, old(d.clock), d.clock, !ok)
    ensures ok ==> IsMbr(d.disk[0], sectors)
  {
    var out := ZeroSector();
    out := out[450 := 7];
    out := Splice(out, 454, Enc32(1));
    out := Splice(out, 458, Enc32(sectors));
    out := Splice(out, 510, [0x55, 0xaa]);
    assert out[454..458] == Enc32(1) && out[458..462] == Enc32(sectors);
    ok := d.Write(0, out);
  }

  // ----- the boot region ------------------------------------------------------------------

  /** The first `n` bytes of a boot sector folded into the boot checksum; the
      main boot sector skips its volume flags and usage byte. */
  function FoldBoot(sum: u32, b: seq<byte>, n: nat, main: bool): u32
    requires n <= |b|
  {
    if n == 0 then sum
    else
      var before := FoldBoot(sum, b, n - 1, main);
      if main && (n - 1 == 106 || n - 1 == 107 || n - 1 == 112) then before else Roll32(before, b[n - 1])
  }

  /** The checksum of a boot region's sectors, the main boot sector first. */
  function RegionSum(sectors: seq<seq<byte>>): u32 {
    if sectors == [] then 0
    else
      var last := sectors[|sectors| - 1];
      FoldBoot(RegionSum(sectors[..|sectors| - 1]), last, |last|, |sectors| == 1)
  }

  method FoldSector(before: u32, b: seq<byte>, main: bool) returns (sum: u32)
    ensures sum == FoldBoot(before, b, |b|, main)
  {
    sum := before;
    for index := 0 to |b|
      invariant sum == FoldBoot(before, b, index, main)
    {
      if !main || !(index == 106 || index == 107 || index == 112) {
        sum := Roll32(sum, b[index]);
      }
    }
  }

  lemma RegionSumSnoc(sectors: seq<seq<byte>>, b: seq<byte>)
    ensures RegionSum(sectors + [b]) == FoldBoot(RegionSum(sectors), b, |b|, sectors == [])
  {
    assert (sectors + [b])[..|sectors|] == sectors;
  }

  /** What a boot region's checksum covers: all bytes of its sectors but the volume
      flags and the usage byte of the first. */
  function Covered(sectors: seq<seq<byte>>): seq<byte> {
    if sectors == [] then []
    else
      var last := sectors[|sectors| - 1];
      Covered(sectors[..|sectors| - 1]) +
        if |sectors| == 1 && |last| >= 113 then last[..106] + last[108..112] + last[113..] else last
  }

  /** The checksum of a region is the rolling sum of exactly those bytes. */
  lemma {:induction false} RegionSumCovers(sectors: seq<seq<byte>>)
    requires forall i :: 0 <= i < |sectors| ==> |sectors[i]| >= 113
    ensures RegionSum(sectors) == Sum32(0, Covered(sectors))
  {
    if sectors != [] {
      var n := |sectors| - 1;
      var last, before := sectors[n], Covered(sectors[..n]);
      RegionSumCovers(sectors[..n]);
      if n == 0 {
        FoldPlain(0, last, 106, true);
        FoldOn(0, last, 108, 112, true);
        FoldOn(0, last, 113, |last|, true);
        Sum32Concat(0, last[..106], last[108..112]);
        Sum32Concat(0, last[..106] + last[108..112], last[113..]);
        assert last[113..|last|] == last[113..];
        assert [] + (last[..106] + last[108..112] + last[113..]) == last[..106] + last[108..112] + last[113..];
      } else {
        FoldPlain(RegionSum(sectors[..n]), last, |last|, false);
        assert last[..|last|] == last;
        Sum32Concat(0, before, last);
      }
    }
  }

  lemma {:induction false} FoldPlain(sum: u32, b: seq<byte>, n: nat, main: bool)
    requires n <= |b| && (main ==> n <= 106)
    ensures FoldBoot(sum, b, n, main) == Sum32(sum, b[..n])
  {
    if n > 0 {
      FoldPlain(sum, b, n - 1, main);
      assert b[..n][..n - 1] == b[..n - 1];
    }
  }

  /** Bytes behind those that are skipped. */
  lemma {:induction false} FoldOn(sum: u32, b: seq<byte>, from: nat, to: nat, main: bool)
    requires from <= to <= |b| && 0 < from && main
    requires (from == 108 && to <= 112) || from == 113
    ensures FoldBoot(sum, b, to, main) ==
      Sum32(if from == 108 then FoldBoot(sum, b, 106, main) else FoldBoot(sum, b, 112, main), b[from..to])
  {
    if from < to {
      FoldOn(sum, b, from, to - 1, main);
      assert b[from..to][..to - from - 1] == b[from..to - 1];
    }
  }

  function ClusterShift(spc: u32): byte {
    if spc == 64 then 6 else if spc == 16 then 4 else 0
  }

  /** The main boot sector up to the layout fields. */
  ghost predicate IsFront(b: seq<byte>, p: Plan) {
    && |b| == 512 && b[..3] == BOOT_JUMP && b[3..11] == EXFAT_NAME
    && (forall i :: 11 <= i < 64 ==> b[i] == 0)
    && Le64(b[64..72]) == 1 && Le64(b[72..80]) == p.sectors
    && Le32(b[80..84]) == FAT_OFFSET && Le32(b[84..88]) == p.fat && Le32(b[88..92]) == p.heap
    && Le32(b[92..96]) == p.clusters && Le32(b[96..100]) == 2
  }

  /** The main boot sector says what the plan says. */
  ghost predicate IsMainBoot(b: seq<byte>, p: Plan) {
    && IsFront(b, p)
    && b[104] == 0 && b[105] == 1 && b[106] == 0 && b[107] == 0
    && b[108] == 9 && b[109] == ClusterShift(p.spc) && b[110] == 1 && b[111] == 0x80
    && (forall i :: 112 <= i < 120 ==> b[i] == 0)
    && (forall i :: 120 <= i < 510 ==> b[i] == 0xf4) && b[510] == 0x55 && b[511] == 0xaa
  }

  function Fill(n: nat, v: byte): (s: seq<byte>)
    ensures |s| == n && forall i :: 0 <= i < n ==> s[i] == v
  {
    seq(n, _ => v)
  }

  method MainBoot(p: Plan) returns (out: seq<byte>)
    ensures IsMainBoot(out, p)
  {
    out := ZeroSector();
    out := Splice(out, 0, BOOT_JUMP);
    out := Splice(out, 3, EXFAT_NAME);
    out := Splice(out, 64, Enc64(1));
    out := Splice(out, 72, Enc64(p.sectors));
    out := Splice(out, 80, Enc32(FAT_OFFSET));
    out := Splice(out, 84, Enc32(p.fat));
    out := Splice(out, 88, Enc32(p.heap));
    out := Splice(out, 92, Enc32(p.clusters));
    out := Splice(out, 96, Enc32(2));
    assert IsLayout(out, p);
    out := BootTail(out, p);
  }

  /** The front half of the main boot sector. */
  ghost predicate IsLayout(b: seq<byte>, p: Plan) {
    && |b| == 512 && b[..3] == BOOT_JUMP && b[3..11] == EXFAT_NAME
    && (forall i :: 11 <= i < 64 ==> b[i] == 0)
    && b[64..72] == Enc64(1) && b[72..80] == Enc64(p.sectors)
    && b[80..84] == Enc32(FAT_OFFSET) && b[84..88] == Enc32(p.fat) && b[88..92] == Enc32(p.heap)
    && b[92..96] == Enc32(p.clusters) && b[96..100] == Enc32(2)
    && (forall i :: 104 <= i < 512 ==> b[i] == 0)
  }

  /** The fields behind the layout are set. */
  ghost predicate IsFields(b: seq<byte>, front: seq<byte>, p: Plan) {
    && |b| == |front| == 512 && (forall i :: 0 <= i < 100 ==> b[i] == front[i])
    && b[104] == 0 && b[105] == 1 && b[106] == 0 && b[107] == 0
    && b[108] == 9 && b[109] == ClusterShift(p.spc) && b[110] == 1 && b[111] == 0x80
    && (forall i :: 112 <= i < 512 ==> b[i] == 0)
  }

  method BootFields(front: seq<byte>, p: Plan) returns (out: seq<byte>)
    requires IsLayout(front, p)
    ensures IsFields(out, front, p)
  {
    hide Le32;
    hide Le64;
    hide Enc32;
    hide Enc64;
    out := Splice(front, 100, Enc32(0x5445_5359));
    out := Splice(out, 104, Enc16(0x0100));
    assert Enc16(0x0100) == [0, 1];
    out := out[108 := 9];
    out := out[109 := ClusterShift(p.spc)];
    out := out[110 := 1];
    out := out[111 := 0x80];
  }

  method BootTail(front: seq<byte>, p: Plan) returns (out: seq<byte>)
    requires IsLayout(front, p)
    ensures IsMainBoot(out, p)
  {
    hide IsLayout;
    hide IsFront;
    hide Splice;
    out := BootFields(front, p);
    out := Splice(out, 120, Fill(390, 0xf4));
    out := Splice(out, 510, [0x55, 0xaa]);
    BootKept(front, out, p);
  }

  lemma BootKept(front: seq<byte>, out: seq<byte>, p: Plan)
    requires IsLayout(front, p) && |out| == 512 && forall i :: 0 <= i < 100 ==> out[i] == front[i]
    ensures IsFront(out, p)
  {
    hide Le64;
    hide Le32;
    assert out[..3] == front[..3] && out[3..11] == front[3..11];
    assert out[64..72] == front[64..72] && out[72..80] == front[72..80];
    assert out[80..84] == front[80..84] && out[84..88] == front[84..88] && out[88..92] == front[88..92];
    assert out[92..96] == front[92..96] && out[96..100] == front[96..100];
  }

  /** Sectors 1 to 8 carry the extended boot signature, 9 and 10 are zero. */
  function OtherBoot(sector: nat): (s: seq<byte>)
    ensures |s| == 512
  {
    if sector <= 8 then Splice(ZeroSector(), 508, [0x00, 0x00, 0x55, 0xaa]) else ZeroSector()
  }

  /** Eleven boot sectors from `start` on, and their checksum. */
  ghost predicate RegionWritten(disk: seq<seq<byte>>, start: nat, p: Plan, sum: u32) {
    && start + 11 <= |disk| && IsMainBoot(disk[start], p)
    && (forall s :: 1 <= s < 11 ==> disk[start + s] == OtherBoot(s))
    && sum == RegionSum(disk[start..start + 11])
  }

  method WriteBootRegion(d: Device, start: nat, p: Plan) returns (ok: bool, checksum: u32)
    requires d.Valid() && d.size == 512 && start + 11 <= |d.disk|
    modifies d
    ensures d.Valid() && Kept(old(d.disk), d.disk, start, start + 11) && Honest(d.faulty, old(d.clock), d.clock, !ok)
    ensures ok ==> RegionWritten(d.disk, start, p, checksum)
  {
    hide IsMainBoot;
    hide OtherBoot;
    hide RegionSum;
    hide FoldBoot;
    checksum, ok := 0, true;
    assert RegionSum(d.disk[start..start]) == 0 by { NoSectors(d.disk[start..start]); }
    for sector := 0 to 11
      invariant Honest(d.faulty, old(d.clock), d.clock, false)
      invariant d.Valid() && Kept(old(d.disk), d.disk, start, start + 11) && ok
      invariant checksum == RegionSum(d.disk[start..start + sector])
      invariant sector > 0 ==> IsMainBoot(d.disk[start], p)
      invariant forall s :: 1 <= s < sector ==> d.disk[start + s] == OtherBoot(s)
    {
      var out;
      if sector == 0 { out := MainBoot(p); } else { out := OtherBoot(sector); }
      BootSize(out, p);
      ghost var before := d.disk[start..start + sector];
      checksum := FoldSector(checksum, out, sector == 0);
      ok := d.Write(start + sector, out);
      if !ok { return; }
      assert d.disk[start..start + (sector + 1)] == before + [out];
      RegionSumSnoc(before, out);
    }
  }

  lemma NoSectors(none: seq<seq<byte>>)
    requires none == []
    ensures RegionSum(none) == 0
  {
  }

  lemma BootSize(b: seq<byte>, p: Plan)
    ensures IsMainBoot(b, p) ==> |b| == 512
  {
  }

  /** A sector that repeats one word. */
  ghost predicate IsRepeated(b: seq<byte>, word: u32) {
    |b| == 512 && forall w :: 0 <= w < 128 ==> Le32(b[4 * w..4 * w + 4]) == word
  }

  lemma OtherWords(b: seq<byte>, w: nat, v: u32, w': nat)
    requires |b| == 512 && w < 128 && w' < 128 && w != w'
    ensures Splice(b, 4 * w, Enc32(v))[4 * w'..4 * w' + 4] == b[4 * w'..4 * w' + 4]
  {
    OtherWord(b, 4 * w, v, 4 * w');
  }

  method WriteBootChecksum(d: Device, lba: nat, checksum: u32) returns (ok: bool)
    requires d.Valid() && d.size == 512 && lba < |d.disk|
    modifies d
    ensures d.Valid() && Kept(old(d.disk), d.disk, lba, lba + 1) && Honest(d.faulty, old(d.clock), d.clock, !ok)
    ensures ok ==> IsRepeated(d.disk[lba], checksum)
  {
    var out := ZeroSector();
    for w := 0 to 128
      invariant Honest(d.faulty, old(d.clock), d.clock, false)
      invariant |out| == 512 && forall v :: 0 <= v < w ==> Le32(out[4 * v..4 * v + 4]) == checksum
    {
      forall v | 0 <= v < 128 && v != w
        ensures Splice(out, 4 * w, Enc32(checksum))[4 * v..4 * v + 4] == out[4 * v..4 * v + 4]
      {
        OtherWords(out, w, checksum, v);
      }
      out := Splice(out, 4 * w, Enc32(checksum));
      assert out[4 * w..4 * w + 4] == Enc32(checksum);
    }
    ok := d.Write(lba, out);
  }

  // ----- the FAT --------------------------------------------------------------------------

  /** The word of cluster `c` in a fresh FAT. */
  function FatValue(p: Plan, c: nat): u32
    requires p.spc > 0
  {
    var bitmap, upcase := 3, p.UpcaseCluster();
    var bitmapEnd, upcaseEnd := bitmap + p.BitmapClusters(), upcase + p.UpcaseClusters();
    if c == 0 then 0xffff_fff8
    else if c == 1 || c == 2 then EOC
    else if bitmap <= c < bitmapEnd then if c + 1 < bitmapEnd && c + 1 <= U32_MAX then c + 1 else EOC
    else if upcase <= c < upcaseEnd then if c + 1 < upcaseEnd && c + 1 <= U32_MAX then c + 1 else EOC
    else 0
  }

  ghost predicate IsFatSector(b: seq<byte>, p: Plan, sector: nat)
    requires p.spc > 0
  {
    |b| == 512 && forall i :: 0 <= i < 128 ==> Le32(b[4 * i..4 * i + 4]) == FatValue(p, 128 * sector + i)
  }

  method FatSector(p: Plan, sector: nat) returns (data: seq<byte>)
    requires p.spc > 0
    ensures IsFatSector(data, p, sector)
  {
    hide FatValue;
    data := ZeroSector();
    for index := 0 to 128
      invariant |data| == 512 && forall v :: 0 <= v < index ==>
        Le32(data[4 * v..4 * v + 4]) == FatValue(p, 128 * sector + v)
    {
      var value := FatValue(p, 128 * sector + index);
      forall v | 0 <= v < 128 && v != index
        ensures Splice(data, 4 * index, Enc32(value))[4 * v..4 * v + 4] == data[4 * v..4 * v + 4]
      {
        OtherWords(data, index, value, v);
      }
      data := Splice(data, 4 * index, Enc32(value));
      assert data[4 * index..4 * index + 4] == Enc32(value);
    }
  }

  lemma AppendChunk(data: seq<byte>, b: seq<byte>, n: nat)
    requires |data| == n * 512 && |b| == 512
    ensures |data + b| == (n + 1) * 512 && SectorOf(data + b, n, 512) == b
    ensures forall i :: 0 <= i < n ==> SectorOf(data + b, i, 512) == SectorOf(data, i, 512)
  {
  }

  /** The first `n` sectors of the FAT are written. */
  ghost predicate FatWritten(disk: seq<seq<byte>>, p: Plan, n: nat)
    requires p.spc > 0
  {
    25 + n <= |disk| && forall lba :: 25 <= lba < 25 + n ==> IsFatSector(disk[lba], p, lba - 25)
  }

  /** The FAT sectors in a buffer. */
  ghost predicate FatBuffered(out: seq<byte>, p: Plan, first: nat, count: nat)
    requires p.spc > 0
  {
    && |out| == count * 512
    && forall i :: 0 <= i < count ==> IsFatSector(SectorOf(out, i, 512), p, first + i)
  }

  lemma FatMore(disk: seq<seq<byte>>, disk': seq<seq<byte>>, p: Plan, first: nat, out: seq<byte>, count: nat)
    requires p.spc > 0 && FatWritten(disk, p, first) && FatBuffered(out, p, first, count)
    requires 25 + first + count <= |disk|
    requires Kept(disk, disk', 25 + first, 25 + first + count)
    requires forall i :: 0 <= i < count ==> i * 512 + 512 <= |out| && disk'[25 + first + i] == SectorOf(out, i, 512)
    ensures FatWritten(disk', p, first + count)
  {
    hide IsFatSector;
    forall lba | 25 <= lba < 25 + first + count
      ensures IsFatSector(disk'[lba], p, lba - 25)
    {
      if lba >= 25 + first { assert disk'[25 + first + (lba - 25 - first)] == SectorOf(out, lba - 25 - first, 512); }
    }
  }

  /** Write the FAT in batches of as many sectors as the scratch buffer holds:
      the result does not depend on the batch size. */
  method WriteFat(d: Device, p: Plan, scratchSectors: nat) returns (ok: bool)
    requires d.Valid() && d.size == 512 && p.spc > 0 && 25 + p.fat <= |d.disk| && scratchSectors >= 1
    modifies d
    ensures d.Valid() && Kept(old(d.disk), d.disk, 25, 25 + p.fat) && Honest(d.faulty, old(d.clock), d.clock, !ok)
    ensures ok ==> FatWritten(d.disk, p, p.fat)
  {
    hide IsFatSector;
    ok := true;
    var first: nat := 0;
    while first < p.fat
      invariant Honest(d.faulty, old(d.clock), d.clock, false)
      invariant first <= p.fat && d.Valid() && Kept(old(d.disk), d.disk, 25, 25 + p.fat) && ok
      invariant FatWritten(d.disk, p, first)
    {
      var count := Min(p.fat - first, scratchSectors);
      ghost var before := d.disk;
      var out := FatBatch(p, first, count);
      ok := d.WriteSectors(25 + first, out, count);
      if !ok { return; }
      FatMore(before, d.disk, p, first, out, count);
      first := first + count;
    }
  }

  method FatBatch(p: Plan, first: nat, count: nat) returns (out: seq<byte>)
    requires p.spc > 0
    ensures FatBuffered(out, p, first, count)
  {
    hide IsFatSector;
    out := [];
    for offset := 0 to count
      invariant FatBuffered(out, p, first, offset)
    {
      var data := FatSector(p, first + offset);
      FatSize(data, p, first + offset);
      AppendChunk(out, data, offset);
      out := out + data;
    }
  }

  lemma FatSize(b: seq<byte>, p: Plan, sector: nat)
    requires p.spc > 0 && IsFatSector(b, p, sector)
    ensures |b| == 512
  {
  }

  // ----- the allocation bitmap --------------------------------------------------------------

  /** Exactly the first `reserved` bits, counted from the first bitmap sector,
      are set in bitmap sector `i`. */
  ghost predicate IsBitmapSector(b: seq<byte>, i: nat, reserved: nat) {
    |b| == 512 && forall k, j :: 0 <= k < 512 && 0 <= j < 8 ==> (Bit(b[k], j) <==> 8 * (512 * i + k) + j < reserved)
  }

  ghost predicate FirstBits(out: seq<byte>, n: nat) {
    forall k, j :: 0 <= k < |out| && 0 <= j < 8 ==> (Bit(out[k], j) <==> 8 * k + j < n)
  }

  lemma {:induction false} ZeroBits(j: nat)
    ensures !Bit(0, j)
  {
    if j > 0 { ZeroBits(j - 1); }
  }

  lemma NoBits(out: seq<byte>)
    requires forall i :: 0 <= i < |out| ==> out[i] == 0
    ensures FirstBits(out, 0)
  {
    forall k, j | 0 <= k < |out| && 0 <= j < 8
      ensures !Bit(out[k], j)
    {
      ZeroBits(j);
    }
  }

  lemma OneBit(out: seq<byte>, bit: nat)
    requires FirstBits(out, bit) && bit < 8 * |out|
    ensures bit / 8 < |out| && FirstBits(FlipBit(out, bit / 8, bit % 8, true), bit + 1)
  {
    var out' := FlipBit(out, bit / 8, bit % 8, true);
    forall k, j | 0 <= k < |out| && 0 <= j < 8
      ensures Bit(out'[k], j) <==> 8 * k + j < bit + 1
    {
      assert Bit(out[k], j) <==> 8 * k + j < bit;
      assert 8 * k + j == bit <==> k == bit / 8 && j == bit % 8;
    }
  }

  /** Set the bits of the reserved clusters. */
  method SetBits(zeros: seq<byte>, reserved: nat) returns (out: seq<byte>)
    requires (forall i :: 0 <= i < |zeros| ==> zeros[i] == 0) && reserved <= 8 * |zeros|
    ensures |out| == |zeros| && FirstBits(out, reserved)
  {
    out := zeros;
    NoBits(out);
    for bit := 0 to reserved
      invariant |out| == |zeros| && FirstBits(out, bit)
    {
      OneBit(out, bit);
      out := FlipBit(out, bit / 8, bit % 8, true);
    }
  }

  /** A sector of a buffer of bits. */
  lemma BitsSector(out: seq<byte>, n: nat, i: nat, reserved: nat)
    requires |out| == n * 512 && i < n && FirstBits(out, reserved)
    ensures 0 <= i * 512 && i * 512 + 512 <= |out| && IsBitmapSector(SectorOf(out, i, 512), i, reserved)
  {
    forall k, j | 0 <= k < 512 && 0 <= j < 8
      ensures Bit(SectorOf(out, i, 512)[k], j) <==> 8 * (512 * i + k) + j < reserved
    {
      assert SectorOf(out, i, 512)[k] == out[512 * i + k];
    }
  }

  lemma EmptySector(out: seq<byte>, n: nat, i: nat, reserved: nat, first: nat)
    requires |out| == n * 512 && i < n && (forall k :: 0 <= k < |out| ==> out[k] == 0) && first >= 1 && reserved <= 4096
    ensures 0 <= i * 512 && i * 512 + 512 <= |out| && IsBitmapSector(SectorOf(out, i, 512), first + i, reserved)
  {
    forall k, j | 0 <= k < 512 && 0 <= j < 8
      ensures Bit(SectorOf(out, i, 512)[k], j) <==> 8 * (512 * (first + i) + k) + j < reserved
    {
      ZeroBits(j);
    }
  }

  ghost predicate BitmapWritten(disk: seq<seq<byte>>, start: nat, n: nat, reserved: nat) {
    start + n <= |disk| && forall lba :: start <= lba < start + n ==> IsBitmapSector(disk[lba], lba - start, reserved)
  }

  /** One batch of the bitmap. */
  method WriteBitmapBatch(d: Device, start: nat, first: nat, count: nat, reserved: nat) returns (ok: bool)
    requires d.Valid() && d.size == 512 && start + first + count <= |d.disk| && reserved <= 4096 && count >= 1
    requires BitmapWritten(d.disk, start, first, reserved)
    modifies d
    ensures d.Valid() && Kept(old(d.disk), d.disk, start + first, start + first + count)
    ensures Honest(d.faulty, old(d.clock), d.clock, !ok)
    ensures ok ==> BitmapWritten(d.disk, start, first + count, reserved)
  {
    hide IsBitmapSector;
    ghost var before := d.disk;
    var out := Zeros(count * 512);
    if first == 0 {
      out := SetBits(out, reserved);
      forall i | 0 <= i < count
        ensures i * 512 + 512 <= |out| && IsBitmapSector(SectorOf(out, i, 512), first + i, reserved)
      {
        BitsSector(out, count, i, reserved);
      }
    } else {
      forall i | 0 <= i < count
        ensures i * 512 + 512 <= |out| && IsBitmapSector(SectorOf(out, i, 512), first + i, reserved)
      {
        EmptySector(out, count, i, reserved, first);
      }
    }
    ok := d.WriteSectors(start + first, out, count);
    if ok {
      forall lba | start <= lba < start + first + count
        ensures IsBitmapSector(d.disk[lba], lba - start, reserved)
      {
        if lba >= start + first {
          assert d.disk[start + first + (lba - start - first)] == SectorOf(out, lba - start - first, 512);
        }
      }
    }
  }

  method WriteBitmap(d: Device, start: nat, bytes: nat, reserved: nat, scratchSectors: nat) returns (ok: bool)
    requires d.Valid() && d.size == 512 && start + DivCeil(bytes, 512) <= |d.disk| && reserved <= 4096
    requires scratchSectors >= 1
    modifies d
    ensures d.Valid() && Kept(old(d.disk), d.disk, start, start + DivCeil(bytes, 512))
    ensures Honest(d.faulty, old(d.clock), d.clock, !ok)
    ensures ok ==> BitmapWritten(d.disk, start, DivCeil(bytes, 512), reserved)
  {
    ok := true;
    var left: nat := bytes;
    var lba := start;
    while left > 0
      invariant Honest(d.faulty, old(d.clock), d.clock, false)
      invariant d.Valid() && Kept(old(d.disk), d.disk, start, start + DivCeil(bytes, 512)) && ok
      invariant start <= lba && DivCeil(left, 512) + (lba - start) == DivCeil(bytes, 512) && left <= bytes
      invariant BitmapWritten(d.disk, start, lba - start, reserved)
    {
      var count := Min(DivCeil(left, 512), scratchSectors);
      ok := WriteBitmapBatch(d, start, lba - start, count, reserved);
      if !ok { return; }
      var written := Min(left, count * 512);
      left := left - written;
      lba := lba + count;
    }
  }

  // ----- the up-case table --------------------------------------------------------------------

  function AsciiByte(i: nat): byte
    requires i < 0x2_0000
  {
    Enc16(AsciiUpper(i / 2))[i % 2]
  }

  /** The whole table, two bytes a unit. */
  function AsciiBytes(): (t: seq<byte>)
    ensures |t| == 0x2_0000 && forall i :: 0 <= i < 0x2_0000 ==> t[i] == AsciiByte(i)
  {
    seq(0x2_0000, i requires 0 <= i < 0x2_0000 => AsciiByte(i))
  }

  lemma AsciiWords()
    ensures AsciiTable(AsciiBytes())
  {
    var t := AsciiBytes();
    forall c: u16
      ensures Word(t, c) == AsciiUpper(c)
    {
      assert t[2 * c] == AsciiByte(2 * c) && t[2 * c + 1] == AsciiByte(2 * c + 1);
      assert 2 * c / 2 == c && (2 * c + 1) / 2 == c && 2 * c % 2 == 0 && (2 * c + 1) % 2 == 1;
      assert t[2 * c..2 * c + 2] == Enc16(AsciiUpper(c));
    }
  }

  ghost predicate TableWritten(disk: seq<seq<byte>>, start: nat, n: nat) {
    start + n <= |disk| && n <= 256
    && forall lba :: start <= lba < start + n ==>
      disk[lba] == AsciiBytes()[512 * (lba - start)..512 * (lba - start) + 512]
  }

  /** The words of one batch, and the checksum over them. */
  method TableBatch(code: nat, count: nat, before: u32) returns (out: seq<byte>, sum: u32)
    requires code + count <= 65536 && before == Sum32(0, AsciiBytes()[..2 * code])
    ensures out == AsciiBytes()[2 * code..2 * (code + count)] && sum == Sum32(0, AsciiBytes()[..2 * (code + count)])
  {
    hide AsciiBytes;
    hide Sum32;
    hide Roll32;
    hide Enc16;
    out, sum := [], before;
    ghost var t := AsciiBytes();
    for i := 0 to count
      invariant out == t[2 * code..2 * (code + i)] && sum == Sum32(0, t[..2 * (code + i)])
    {
      var c := code + i;
      var v: u16 := if 0x61 <= c <= 0x7a then c - 0x61 + 0x41 else c;
      var word := Enc16(v);
      UnitBytes(c);
      SliceMore(t, 2 * code, 2 * c, word);
      out := out + word;
      sum := Roll32(Roll32(sum, word[0]), word[1]);
    }
  }

  lemma SliceMore(t: seq<byte>, lo: nat, hi: nat, w: seq<byte>)
    requires lo <= hi && hi + |w| <= |t| && t[hi..hi + |w|] == w
    ensures t[lo..hi] + w == t[lo..hi + |w|]
  {
  }

  lemma UnitBytes(c: nat)
    requires c < 65536
    ensures var t, w := AsciiBytes(), Enc16(AsciiUpper(c));
            && t[2 * c..2 * (c + 1)] == w && t[..2 * (c + 1)] == t[..2 * c] + w
            && Sum32(0, t[..2 * (c + 1)]) == Roll32(Roll32(Sum32(0, t[..2 * c]), w[0]), w[1])
  {
    var t, w := AsciiBytes(), Enc16(AsciiUpper(c));
    assert t[2 * c] == AsciiByte(2 * c) && t[2 * c + 1] == AsciiByte(2 * c + 1);
    assert 2 * c / 2 == c && (2 * c + 1) / 2 == c && 2 * c % 2 == 0 && (2 * c + 1) % 2 == 1;
    var a, b := t[..2 * c] + [w[0]], t[..2 * (c + 1)];
    assert b[..|b| - 1] == a && a[..|a| - 1] == t[..2 * c];
  }

  lemma TableMore(disk: seq<seq<byte>>, disk': seq<seq<byte>>, start: nat, n: nat, out: seq<byte>, count: nat)
    requires TableWritten(disk, start, n) && n + count <= 256 && start + n + count <= |disk|
    requires out == AsciiBytes()[512 * n..512 * (n + count)]
    requires Kept(disk, disk', start + n, start + n + count)
    requires forall i :: 0 <= i < count ==> i * 512 + 512 <= |out| && disk'[start + n + i] == SectorOf(out, i, 512)
    ensures TableWritten(disk', start, n + count)
  {
    var t := AsciiBytes();
    forall lba | start <= lba < start + n + count
      ensures disk'[lba] == t[512 * (lba - start)..512 * (lba - start) + 512]
    {
      if lba >= start + n {
        var i := lba - start - n;
        assert disk'[start + n + i] == SectorOf(out, i, 512);
        SliceOfSlice(t, 512 * n, 512 * (n + count), 512 * i, 512);
      }
    }
  }

  /** Write the table in batches; the checksum and the result do not depend on
      the batch size. */
  method WriteUpcase(d: Device, start: nat, scratchSectors: nat) returns (ok: bool, sum: u32)
    requires d.Valid() && d.size == 512 && start + 256 <= |d.disk| && scratchSectors >= 1
    modifies d
    ensures d.Valid() && Kept(old(d.disk), d.disk, start, start + 256) && Honest(d.faulty, old(d.clock), d.clock, !ok)
    ensures ok ==> TableWritten(d.disk, start, 256) && sum == Sum32(0, AsciiBytes())
  {
    hide Failures;
    hide AsciiBytes;
    hide Sum32;
    hide TableWritten;
    ok, sum := true, 0;
    var code, lba := 0, start;
    ghost var done := 0;
    TableStarts(d.disk, start);
    while code < 65536
      invariant Honest(d.faulty, old(d.clock), d.clock, false)
      invariant d.Valid() && Kept(old(d.disk), d.disk, start, start + 256) && ok
      invariant code == 256 * done && done <= 256 && lba == start + done
      invariant TableWritten(d.disk, start, done) && sum == Sum32(0, AsciiBytes()[..2 * code])
      decreases 256 - done
    {
      var count := Min(65536 - code, 512 * scratchSectors / 2);
      ghost var sectors := Min(256 - done, scratchSectors);
      BatchSize(done, scratchSectors);
      assert count == 256 * sectors && count * 2 / 512 == sectors;
      ghost var before := d.disk;
      var out;
      out, sum := TableBatch(code, count, sum);
      ok := d.WriteSectors(lba, out, count * 2 / 512);
      if !ok { return; }
      TableMore(before, d.disk, start, done, out, sectors);
      code := code + count;
      lba := lba + count * 2 / 512;
      done := done + sectors;
    }
    assert AsciiBytes()[..0x2_0000] == AsciiBytes();
  }

  lemma BatchSize(done: nat, scratchSectors: nat)
    requires done <= 256
    ensures Min(65536 - 256 * done, 512 * scratchSectors / 2) == 256 * Min(256 - done, scratchSectors)
    ensures 256 * Min(256 - done, scratchSectors) * 2 / 512 == Min(256 - done, scratchSectors)
  {
  }

  lemma TableStarts(disk: seq<seq<byte>>, start: nat)
    requires start + 256 <= |disk|
    ensures TableWritten(disk, start, 0) && Sum32(0, AsciiBytes()[..0]) == 0
  {
  }

  // ----- the root directory ---------------------------------------------------------------------

  ghost predicate IsRoot(b: seq<byte>, bitmapBytes: nat, upcase: nat, sum: u32) {
    && |b| == 512 && b[0] == 0x81 && b[1] == 0 && Le32(b[20..24]) == 3 && Le64(b[24..32]) == bitmapBytes
    && b[32] == 0x82 && Le32(b[36..40]) == sum && Le32(b[52..56]) == upcase && Le64(b[56..64]) == UPCASE_BYTES
    && forall i :: 64 <= i < 512 ==> b[i] == 0
  }

  method WriteRoot(d: Device, lba: nat, bitmapBytes: u64, upcase: u32, sum: u32) returns (ok: bool)
    requires d.Valid() && d.size == 512 && lba < |d.disk|
    modifies d
    ensures d.Valid() && Kept(old(d.disk), d.disk, lba, lba + 1) && Honest(d.faulty, old(d.clock), d.clock, !ok)
    ensures ok ==> IsRoot(d.disk[lba], bitmapBytes, upcase, sum)
  {
    var out := ZeroSector();
    out := out[0 := 0x81];
    out := Splice(out, 20, Enc32(3));
    out := Splice(out, 24, Enc64(bitmapBytes));
    out := out[32 := 0x82];
    out := Splice(out, 36, Enc32(sum));
    out := Splice(out, 52, Enc32(upcase));
    out := Splice(out, 56, Enc64(UPCASE_BYTES));
    assert out[20..24] == Enc32(3) && out[24..32] == Enc64(bitmapBytes);
    assert out[36..40] == Enc32(sum) && out[52..56] == Enc32(upcase) && out[56..64] == Enc64(UPCASE_BYTES);
    ok := d.Write(lba, out);
  }

  // ----- the whole volume -----------------------------------------------------------------------

  /** A boot region: eleven sectors, and a twelfth that repeats their checksum. */
  ghost predicate RegionOk(disk: seq<seq<byte>>, start: nat, p: Plan) {
    && start + 12 <= |disk| && RegionWritten(disk, start, p, RegionSum(disk[start..start + 11]))
    && IsRepeated(disk[start + 11], RegionSum(disk[start..start + 11]))
  }

  /** The device as the formatter leaves it. */
  ghost predicate Formatted(disk: seq<seq<byte>>, p: Plan) {
    && p.Laid() && p.spc in {1, 16, 64} && |disk| == p.sectors + 1
    && IsMbr(disk[0], p.sectors) && RegionOk(disk, 1, p) && RegionOk(disk, 13, p)
    && FatWritten(disk, p, p.fat)
    && BitmapWritten(disk, p.Lba(3), DivCeil(p.BitmapBytes(), 512), p.Reserved())
    && TableWritten(disk, p.Lba(p.UpcaseCluster()), 256)
    && p.Lba(2) < |disk| && IsRoot(disk[p.Lba(2)], p.BitmapBytes(), p.UpcaseCluster(), Sum32(0, AsciiBytes()))
  }

  /** The regions in ascending order: where each begins and ends. */
  lemma Regions(p: Plan)
    requires p.Laid()
    ensures p.spc in {1, 16, 64} && 25 + p.fat == p.Lba(2)
    ensures p.Lba(2) < p.Lba(3) <= p.Lba(3) + DivCeil(p.BitmapBytes(), 512) <= p.Lba(p.UpcaseCluster())
    ensures p.Lba(p.UpcaseCluster()) + 256 <= p.sectors + 1 && p.sectors <= U32_MAX && p.BitmapBytes() <= U32_MAX
    ensures p.UpcaseCluster() <= U32_MAX && p.Reserved() <= 4096
  {
    PlanFits(p);
    BitmapEnds(p);
    TableEnds(p);
  }

  /** The bitmap ends where the table begins, at the latest. */
  lemma BitmapEnds(p: Plan)
    requires p.spc in {1, 16, 64} && p.BitmapBytes() <= p.BitmapClusters() * p.ClusterBytes()
    ensures p.Lba(3) + DivCeil(p.BitmapBytes(), 512) <= p.Lba(p.UpcaseCluster())
  {
    hide Plan.BitmapBytes;
    hide Plan.BitmapClusters;
    if p.spc == 1 {
      CeilCovers(p.BitmapBytes(), 512, p.BitmapClusters());
    } else if p.spc == 16 {
      CeilCovers(p.BitmapBytes(), 512, p.BitmapClusters() * 16);
    } else {
      CeilCovers(p.BitmapBytes(), 512, p.BitmapClusters() * 64);
    }
  }

  /** The table ends inside the partition. */
  lemma TableEnds(p: Plan)
    requires p.spc in {1, 16, 64} && p.heap + p.clusters * p.spc <= p.sectors
    requires p.UpcaseClusters() * p.ClusterBytes() == UPCASE_BYTES
    requires p.UpcaseCluster() + p.UpcaseClusters() <= p.clusters + 2
    ensures p.Lba(p.UpcaseCluster()) + 256 <= p.sectors + 1
  {
    hide Plan.BitmapClusters;
    hide Plan.UpcaseClusters;
    if p.spc == 1 {
    } else if p.spc == 16 {
    } else {
    }
  }

  lemma RegionKept(disk: seq<seq<byte>>, disk': seq<seq<byte>>, lo: nat, hi: nat, start: nat, p: Plan, sum: u32)
    requires Kept(disk, disk', lo, hi) && start + 11 <= lo && RegionWritten(disk, start, p, sum)
    ensures RegionWritten(disk', start, p, sum)
  {
    assert disk'[start..start + 11] == disk[start..start + 11];
  }

  lemma RegionDone(disk: seq<seq<byte>>, disk': seq<seq<byte>>, start: nat, p: Plan, sum: u32)
    requires RegionWritten(disk, start, p, sum) && start + 12 <= |disk| && Kept(disk, disk', start + 11, start + 12)
    requires IsRepeated(disk'[start + 11], sum)
    ensures RegionOk(disk', start, p)
  {
    RegionKept(disk, disk', start + 11, start + 12, start, p, sum);
  }

  lemma RegionOkKept(disk: seq<seq<byte>>, disk': seq<seq<byte>>, lo: nat, hi: nat, start: nat, p: Plan)
    requires Kept(disk, disk', lo, hi) && start + 12 <= lo <= |disk| && RegionOk(disk, start, p)
    ensures RegionOk(disk', start, p)
  {
    hide IsMainBoot;
    hide IsRepeated;
    hide OtherBoot;
    RegionKept(disk, disk', lo, hi, start, p, RegionSum(disk[start..start + 11]));
    assert disk'[start..start + 11] == disk[start..start + 11];
  }

  /** Write both boot regions. */
  method WriteBootRegions(d: Device, p: Plan) returns (ok: bool)
    requires d.Valid() && d.size == 512 && 25 <= |d.disk|
    modifies d
    ensures d.Valid() && Kept(old(d.disk), d.disk, 1, 25) && Honest(d.faulty, old(d.clock), d.clock, !ok)
    ensures ok ==> RegionOk(d.disk, 1, p) && RegionOk(d.disk, 13, p)
  {
    hide IsMainBoot;
    hide RegionOk;
    hide RegionWritten;
    hide IsRepeated;
    var checksum;
    ok, checksum := WriteBootRegion(d, 1, p);
    if !ok { return; }
    ghost var disk1 := d.disk;
    ok := WriteBootChecksum(d, 12, checksum);
    if !ok { return; }
    RegionDone(disk1, d.disk, 1, p, checksum);
    ghost var disk2 := d.disk;
    ok, checksum := WriteBootRegion(d, 13, p);
    if !ok { return; }
    RegionOkKept(disk2, d.disk, 13, 24, 1, p);
    ghost var disk3 := d.disk;
    ok := WriteBootChecksum(d, 24, checksum);
    if !ok { return; }
    RegionDone(disk3, d.disk, 13, p, checksum);
    RegionOkKept(disk3, d.disk, 24, 25, 1, p);
  }

  /** Write the FAT, the bitmap, the table and the root directory. */
  method WriteHeap(d: Device, p: Plan, scratchSectors: nat) returns (ok: bool)
    requires d.Valid() && d.size == 512 && p.Laid() && |d.disk| == p.sectors + 1 && scratchSectors >= 1
    modifies d
    ensures d.Valid() && |d.disk| == |old(d.disk)| && p.spc > 0 && Honest(d.faulty, old(d.clock), d.clock, !ok)
    ensures forall i :: 0 <= i < 25 ==> d.disk[i] == old(d.disk)[i]
    ensures forall i :: p.Lba(2) < i < p.Lba(3) && i < |d.disk| ==> d.disk[i] == old(d.disk)[i]
    ensures ok ==>
      && FatWritten(d.disk, p, p.fat)
      && BitmapWritten(d.disk, p.Lba(3), DivCeil(p.BitmapBytes(), 512), p.Reserved())
      && TableWritten(d.disk, p.Lba(p.UpcaseCluster()), 256)
      && p.Lba(2) < |d.disk| && IsRoot(d.disk[p.Lba(2)], p.BitmapBytes(), p.UpcaseCluster(), Sum32(0, AsciiBytes()))
  {
    hide Failures;
    hide IsFatSector;
    hide IsBitmapSector;
    hide IsRoot;
    hide AsciiBytes;
    hide Sum32;
    hide Plan.Laid;
    hide Plan.Lba;
    Regions(p);
    ok := WriteFat(d, p, scratchSectors);
    if !ok { return; }
    ok := WriteBitmap(d, p.Lba(3), p.BitmapBytes(), p.Reserved(), scratchSectors);
    if !ok { return; }
    var sum;
    ok, sum := WriteUpcase(d, p.Lba(p.UpcaseCluster()), scratchSectors);
    if !ok { return; }
    ok := WriteRoot(d, p.Lba(2), p.BitmapBytes(), p.UpcaseCluster(), sum);
  }

  /** Format the device.  Success means a formatted volume whose plan is the
      layout's; the sizes it refuses are those outside the formatter's limits and
      those no layout fits, and apart from a device failure nothing else can go
      wrong. */
  method FormatExfat(d: Device, scratchLength: nat) returns (r: Result<()>, ghost p: Plan)
    requires d.Valid() && (scratchLength < 512 || scratchLength % 512 == 0)
    modifies d
    ensures d.Valid() && |d.disk| == |old(d.disk)|
    ensures r.Ok? ==>
      && Formatted(d.disk, p)
      && forall i :: p.Lba(2) < i < p.Lba(3) && i < |d.disk| ==> d.disk[i] == old(d.disk)[i]
    ensures r == Err(UnsupportedSectorSize) <==> d.size != 512
    ensures r == Err(InvalidSectorSize) <==> d.size == 512 && scratchLength < 512
    ensures r == Err(InvalidPartitionTable) <==>
      d.size == 512 && scratchLength >= 512 && (|d.disk| <= 536 || |d.disk| - 1 > U32_MAX)
    ensures r == Err(Corrupt) <==>
      && d.size == 512 && scratchLength >= 512 && 536 < |d.disk| && |d.disk| - 1 <= U32_MAX
      && Skipped(|d.disk| - 1, ClusterSectors(|d.disk| - 1))
    ensures r.Err? ==>
      r.error in {UnsupportedSectorSize, InvalidSectorSize, InvalidPartitionTable, Corrupt, Error.Device}
    ensures Honest(d.faulty, old(d.clock), d.clock, r == Err(Error.Device))
  {
    hide RegionOk;
    hide FatWritten;
    hide BitmapWritten;
    hide TableWritten;
    hide IsRoot;
    hide IsMbr;
    hide AsciiBytes;
    hide Sum32;
    hide Plan.Laid;
    hide Consistent;
    hide Skipped;
    hide Plan.Lba;
    p := Plan(0, 1, 0, 0, 0);
    if d.size != 512 { return Err(UnsupportedSectorSize), p; }
    if scratchLength < 512 { return Err(InvalidSectorSize), p; }
    var total := |d.disk|;
    if total <= 536 || total - 1 > U32_MAX { return Err(InvalidPartitionTable), p; }
    var sectors := total - 1;
    var spc := ClusterSectors(sectors);
    var laid := ComputeLayout(sectors, spc);
    if laid.Err? { return Err(laid.error), p; }
    var (fat, heap, clusters) := laid.value;
    var plan := Plan(sectors, spc, fat, heap, clusters);
    p := plan;
    assert plan.Laid() by { LaidOut(plan); }
    PlanFits(plan);
    Regions(plan);
    if plan.UpcaseCluster() + plan.UpcaseClusters() > clusters + 2 { return Err(Corrupt), p; }
    var ok := WriteMbr(d, sectors);
    if !ok { return Err(Error.Device), p; }
    ok := WriteBootRegions(d, plan);
    if !ok { return Err(Error.Device), p; }
    ghost var disk2 := d.disk;
    ok := WriteHeap(d, plan, scratchLength / 512);
    if !ok { return Err(Error.Device), p; }
    KeptBelow(disk2, d.disk);
    RegionOkKept(disk2, d.disk, 25, |d.disk|, 1, plan);
    RegionOkKept(disk2, d.disk, 25, |d.disk|, 13, plan);
    return Ok(()), p;
  }

  lemma LaidOut(p: Plan)
    requires Formattable(p.sectors) && p.spc == ClusterSectors(p.sectors) && Consistent(p.sectors, p.spc, p.fat)
    requires p.heap == FAT_OFFSET + p.fat && p.clusters == Clusters(p.sectors, p.spc, p.fat)
    ensures p.Laid()
  {
  }

  lemma KeptBelow(disk: seq<seq<byte>>, disk': seq<seq<byte>>)
    requires |disk'| == |disk| >= 25 && forall i :: 0 <= i < 25 ==> disk'[i] == disk[i]
    ensures Kept(disk, disk', 25, |disk|)
  {
  }
}
