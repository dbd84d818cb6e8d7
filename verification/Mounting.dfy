/** Mounting: from a raw device to the geometry, the allocation bitmap and the
    up-case table of the volume on it.  `MountOf` says for every device what the
    mount answers, and `Mount` computes exactly that unless the device fails. */
module Mounting {
  import opened Words
  import opened Errors
  import opened Geometry
  import opened Views
  import opened Extents
  import opened EntrySets
  import opened Tree
  import opened SlotIo
  import opened RawViews
  import opened Media
  import opened Formatting

  datatype MountedVolume = MountedVolume(
    geometry: Geometry, bitmap: AllocationBitmap, upcase: UpCaseTable, upcaseValid: bool)

  ghost predicate Sectors(disk: seq<seq<byte>>, size: nat) {
    |disk| <= U64_MAX && forall i :: 0 <= i < |disk| ==> |disk[i]| == size
  }

  ghost predicate Inside(disk: seq<seq<byte>>, partition: Partition) {
    partition.firstLba + partition.sectorCount <= |disk|
  }

  // ----- the partition table ------------------------------------------------------------------

  /** Entry `i` of the partition table is a usable basic-data partition. */
  predicate Qualifies(b: seq<byte>, i: nat)
    requires |b| >= 512 && i < 4
  {
    && b[446 + 16 * i + 4] == 7
    && Le32(b[446 + 16 * i + 8..446 + 16 * i + 12]) != 0 && Le32(b[446 + 16 * i + 12..446 + 16 * i + 16]) != 0
  }

  function EntryPartition(b: seq<byte>, i: nat): Partition
    requires |b| >= 512 && i < 4
  {
    Partition(Le32(b[446 + 16 * i + 8..446 + 16 * i + 12]), Le32(b[446 + 16 * i + 12..446 + 16 * i + 16]))
  }

  predicate Signed(b: seq<byte>)
    requires |b| >= 512
  {
    b[510] == 0x55 && b[511] == 0xaa
  }

  /** One of the four entries covers the disk for a GUID partition table. */
  predicate Protective(b: seq<byte>)
    requires |b| >= 512
  {
    exists k :: k in {450, 466, 482, 498} && b[k] == 0xee
  }

  /** The first usable entry from entry `i` on. */
  function FirstEntry(b: seq<byte>, i: nat): Result<Partition>
    requires |b| >= 512 && i <= 4
    decreases 4 - i
  {
    if i == 4 then Err(PartitionNotFound)
    else if Qualifies(b, i) then Ok(EntryPartition(b, i))
    else FirstEntry(b, i + 1)
  }

  ghost function TableOf(b: seq<byte>): Result<Partition>
    requires |b| >= 512
  {
    if !Signed(b) then Err(InvalidPartitionTable) else FirstEntry(b, 0)
  }

  method MbrPartition(b: seq<byte>) returns (r: Result<Partition>)
    requires |b| >= 512
    ensures r == TableOf(b)
  {
    if !Signed(b) { return Err(InvalidPartitionTable); }
    for i := 0 to 4
      invariant FirstEntry(b, 0) == FirstEntry(b, i)
    {
      if Qualifies(b, i) { return Ok(EntryPartition(b, i)); }
    }
    return Err(PartitionNotFound);
  }

  // ----- boot regions -------------------------------------------------------------------------

  ghost predicate Repeats(b: seq<byte>, word: u32) {
    forall w :: 0 <= w < |b| / 4 ==> Le32(b[4 * w..4 * w + 4]) == word
  }

  method AllWords(b: seq<byte>, word: u32) returns (same: bool)
    ensures same <==> Repeats(b, word)
  {
    for w := 0 to |b| / 4
      invariant forall v :: 0 <= v < w ==> Le32(b[4 * v..4 * v + 4]) == word
    {
      if Le32(b[4 * w..4 * w + 4]) != word { return false; }
    }
    return true;
  }

  /** The boot region at this offset repeats its own checksum. */
  ghost predicate Sound(disk: seq<seq<byte>>, partition: Partition, offset: nat)
    requires Inside(disk, partition)
  {
    && offset + 12 <= partition.sectorCount
    && var at := partition.firstLba + offset;
       Repeats(disk[at + 11], RegionSum(disk[at..at + 11]))
  }

  method ValidateBootChecksum(d: Device, partition: Partition, offset: nat) returns (r: Result<()>)
    requires d.Valid() && Inside(d.disk, partition)
    modifies d`clock
    ensures d.Valid() && (r == Ok(()) || r == Err(InvalidBootSector) || r == Err(Error.Device))
    ensures r.Ok? ==> Sound(d.disk, partition, offset)
    ensures r == Err(InvalidBootSector) ==> !Sound(d.disk, partition, offset)
    ensures Honest(d.faulty, old(d.clock), d.clock, r == Err(Error.Device))
  {
    hide RegionSum;
    hide FoldBoot;
    if partition.sectorCount < offset + 12 { return Err(InvalidBootSector); }
    var at := partition.firstLba + offset;
    var checksum: u32 := 0;
    NoSectors(d.disk[at..at]);
    for index := 0 to 11
      invariant Honest(d.faulty, old(d.clock), d.clock, false)
      invariant d.Valid() && checksum == RegionSum(d.disk[at..at + index])
    {
      var b := d.Read(at + index);
      if b.None? { return Err(Error.Device); }
      assert d.disk[at..at + (index + 1)] == d.disk[at..at + index] + [b.value];
      RegionSumSnoc(d.disk[at..at + index], b.value);
      checksum := FoldSector(checksum, b.value, index == 0);
    }
    var stored := d.Read(at + 11);
    if stored.None? { return Err(Error.Device); }
    var same := AllWords(stored.value, checksum);
    return if same then Ok(()) else Err(InvalidBootSector);
  }

  /** The boot region the mount goes by: the main one if it is sound, otherwise
      the backup if that is. */
  ghost function BootOffset(disk: seq<seq<byte>>, partition: Partition): (offset: Option<nat>)
    requires Inside(disk, partition)
    ensures offset.Some? ==> offset.value + 12 <= partition.sectorCount
  {
    if Sound(disk, partition, 0) then Some(0)
    else if Sound(disk, partition, 12) then Some(12)
    else None
  }

  method ChooseBoot(d: Device, partition: Partition) returns (r: Result<nat>)
    requires d.Valid() && Inside(d.disk, partition)
    modifies d`clock
    ensures d.Valid() && (r.Err? ==> r.error in {InvalidBootSector, Error.Device})
    ensures r.Ok? ==> BootOffset(d.disk, partition) == Some(r.value)
    ensures r == Err(InvalidBootSector) ==> BootOffset(d.disk, partition) == None
    ensures Honest(d.faulty, old(d.clock), d.clock, r == Err(Error.Device))
  {
    hide Sound;
    var main := ValidateBootChecksum(d, partition, 0);
    if main == Ok(()) { return Ok(0); }
    if main.error == InvalidBootSector {
      var backup := ValidateBootChecksum(d, partition, 12);
      return if backup == Ok(()) then Ok(12) else Err(backup.error);
    }
    return Err(main.error);
  }

  // ----- FAT links -----------------------------------------------------------------------------

  method NextClusterOn(d: Device, g: Geometry, cluster: nat) returns (r: Result<u32>)
    requires d.Valid() && Addressable(g, d.disk) && cluster < g.clusterCount + 2
    modifies d`clock
    ensures d.Valid()
    ensures Honest(d.faulty, old(d.clock), d.clock, FailedIn(d.faulty, old(d.clock), d.clock))
    ensures r == if FailedIn(d.faulty, old(d.clock), d.clock) then Err(Error.Device) else Ok(LinkAt(g, d.disk, cluster))
  {
    FatAddress(g, cluster);
    var lba := g.FatLbaForByte(cluster * 4);
    if lba.None? { return Err(Corrupt); }
    var offset := cluster * 4 % g.bytesPerSector;
    var b := d.Read(lba.value);
    if b.None? { return Err(Error.Device); }
    return Ok(Le32(b.value[offset..offset + 4]));
  }

  // ----- the root directory ----------------------------------------------------------------------

  datatype Verdict = Reading | AtEnd | Bad
  datatype Scan = Scan(bitmap: Option<AllocationBitmap>, upcase: Option<UpCaseTable>, verdict: Verdict)

  const NOTHING := Scan(None, None, Reading)

  function BitmapEntry(slot: Slot): AllocationBitmap {
    AllocationBitmap(Le32(slot[20..24]), Le64(slot[24..32]))
  }

  function UpcaseEntry(slot: Slot): UpCaseTable {
    UpCaseTable(Le32(slot[4..8]), Le32(slot[20..24]), Le64(slot[24..32]))
  }

  /** One more root slot. */
  function Note(g: Geometry, s: Scan, slot: Slot): Scan {
    if s.verdict != Reading then s
    else if slot[0] == 0 then s.(verdict := AtEnd)
    else if slot[0] == 0x81 then
      if slot[1] >= 2 || slot[1] >= g.numberOfFats then s.(verdict := Bad)
      else if slot[1] != g.activeFat then s
      else if s.bitmap.Some? then s.(verdict := Bad)
      else s.(bitmap := Some(BitmapEntry(slot)))
    else if slot[0] == 0x82 && s.upcase.None? then s.(upcase := Some(UpcaseEntry(slot)))
    else s
  }

  function Scanned(g: Geometry, s: Scan, slots: seq<Slot>): Scan {
    if slots == [] then s else Note(g, Scanned(g, s, slots[..|slots| - 1]), slots[|slots| - 1])
  }

  lemma ScannedSnoc(g: Geometry, s: Scan, slots: seq<Slot>, slot: Slot)
    ensures Scanned(g, s, slots + [slot]) == Note(g, Scanned(g, s, slots), slot)
  {
    assert (slots + [slot])[..|slots|] == slots;
  }

  lemma {:induction false} ScannedConcat(g: Geometry, s: Scan, a: seq<Slot>, b: seq<Slot>)
    ensures Scanned(g, s, a + b) == Scanned(g, Scanned(g, s, a), b)
  {
    hide Note;
    if b == [] {
      assert a + b == a;
    } else {
      var front := b[..|b| - 1];
      assert (a + b)[..|a + b| - 1] == a + front;
      ScannedConcat(g, s, a, front);
    }
  }

  /** Once the scan has stopped, later slots do not matter. */
  lemma {:induction false} ScannedStopped(g: Geometry, s: Scan, slots: seq<Slot>)
    requires s.verdict != Reading
    ensures Scanned(g, s, slots) == s
  {
    if slots != [] { ScannedStopped(g, s, slots[..|slots| - 1]); }
  }

  lemma ScannedPrefix(g: Geometry, s: Scan, a: seq<Slot>, b: seq<Slot>)
    requires a <= b && Scanned(g, s, a).verdict != Reading
    ensures Scanned(g, s, b) == Scanned(g, s, a)
  {
    hide Scanned;
    assert b == a + b[|a|..];
    ScannedConcat(g, s, a, b[|a|..]);
    ScannedStopped(g, Scanned(g, s, a), b[|a|..]);
  }

  predicate ActiveBitmap(g: Geometry, slot: Slot) {
    slot[0] == 0x81 && slot[1] == g.activeFat
  }

  /** No end, no bitmap entry for a FAT the volume does not have, and at most one
      for the active FAT. */
  ghost predicate Clean(g: Geometry, slots: seq<Slot>) {
    && (forall k :: 0 <= k < |slots| ==> slots[k][0] != 0 && (slots[k][0] == 0x81 ==> slots[k][1] < g.numberOfFats))
    && (forall i, k :: 0 <= i < k < |slots| && ActiveBitmap(g, slots[i]) ==> !ActiveBitmap(g, slots[k]))
  }

  /** The bitmap is the one of the active FAT, the table is the first. */
  ghost predicate Announces(g: Geometry, slots: seq<Slot>, bitmap: Option<AllocationBitmap>,
                            upcase: Option<UpCaseTable>) {
    && (match bitmap
        case None => forall k :: 0 <= k < |slots| ==> !ActiveBitmap(g, slots[k])
        case Some(b) => exists k :: 0 <= k < |slots| && ActiveBitmap(g, slots[k]) && b == BitmapEntry(slots[k]))
    && (match upcase
        case None => forall k :: 0 <= k < |slots| ==> slots[k][0] != 0x82
        case Some(u) => exists k :: 0 <= k < |slots| && slots[k][0] == 0x82 && u == UpcaseEntry(slots[k])
                                    && forall j :: 0 <= j < k ==> slots[j][0] != 0x82)
  }

  /** The scan is still reading exactly when the slots so far are clean, and
      then has noted what they announce. */
  lemma {:induction false} StillReading(g: Geometry, slots: seq<Slot>)
    requires g.numberOfFats <= 2
    ensures var s := Scanned(g, NOTHING, slots);
            && (s.verdict == Reading <==> Clean(g, slots))
            && (s.verdict == Reading ==> Announces(g, slots, s.bitmap, s.upcase))
  {
    hide BitmapEntry;
    hide UpcaseEntry;
    if slots != [] {
      var front, last := slots[..|slots| - 1], slots[|slots| - 1];
      StillReading(g, front);
      var s, s' := Scanned(g, NOTHING, front), Scanned(g, NOTHING, slots);
      CleanSnoc(g, front, last);
      assert slots == front + [last];
      if s'.verdict == Reading { AnnouncesSnoc(g, front, last, s); }
    }
  }

  lemma CleanSnoc(g: Geometry, front: seq<Slot>, last: Slot)
    ensures Clean(g, front + [last]) <==>
      && Clean(g, front) && last[0] != 0 && (last[0] == 0x81 ==> last[1] < g.numberOfFats)
      && (ActiveBitmap(g, last) ==> forall k :: 0 <= k < |front| ==> !ActiveBitmap(g, front[k]))
  {
    var all := front + [last];
    assert forall k :: 0 <= k < |front| ==> all[k] == front[k];
    assert all[|front|] == last;
  }

  lemma AnnouncesSnoc(g: Geometry, front: seq<Slot>, last: Slot, s: Scan)
    requires s.verdict == Reading && Announces(g, front, s.bitmap, s.upcase) && Note(g, s, last).verdict == Reading
    ensures Announces(g, front + [last], Note(g, s, last).bitmap, Note(g, s, last).upcase)
  {
    var all := front + [last];
    assert forall k :: 0 <= k < |front| ==> all[k] == front[k];
    assert all[|front|] == last;
  }

  lemma FinishesAt(g: Geometry, slots: seq<Slot>, n: nat)
    requires g.numberOfFats <= 2 && n < |slots| && slots[n][0] == 0 && Clean(g, slots[..n])
    ensures var s := Scanned(g, NOTHING, slots); s.verdict == AtEnd && Announces(g, slots[..n], s.bitmap, s.upcase)
  {
    hide Clean;
    hide Announces;
    hide Scanned;
    StillReading(g, slots[..n]);
    ScannedSnoc(g, NOTHING, slots[..n], slots[n]);
    assert slots[..n + 1] == slots[..n] + [slots[n]];
    ScannedPrefix(g, NOTHING, slots[..n + 1], slots);
  }

  /** A finished scan: its slots are clean up to the first unused one, and what
      it found is what those announce. */
  lemma {:induction false} FinishedExactly(g: Geometry, slots: seq<Slot>)
    requires g.numberOfFats <= 2
    ensures var s := Scanned(g, NOTHING, slots);
            s.verdict == AtEnd <==>
              exists n :: 0 <= n < |slots| && slots[n][0] == 0 && Clean(g, slots[..n])
                          && Announces(g, slots[..n], s.bitmap, s.upcase)
  {
    hide Clean;
    hide Announces;
    hide Scanned;
    forall n | 0 <= n < |slots| && slots[n][0] == 0 && Clean(g, slots[..n])
      ensures Scanned(g, NOTHING, slots).verdict == AtEnd
      ensures Announces(g, slots[..n], Scanned(g, NOTHING, slots).bitmap, Scanned(g, NOTHING, slots).upcase)
    {
      FinishesAt(g, slots, n);
    }
    if Scanned(g, NOTHING, slots).verdict == AtEnd {
      var n := WhereEnded(g, slots);
    }
  }

  lemma {:induction false} WhereEnded(g: Geometry, slots: seq<Slot>) returns (n: nat)
    requires g.numberOfFats <= 2 && Scanned(g, NOTHING, slots).verdict == AtEnd
    ensures n < |slots| && slots[n][0] == 0 && Clean(g, slots[..n])
  {
    var front := slots[..|slots| - 1];
    if Scanned(g, NOTHING, front).verdict == Reading {
      n := |slots| - 1;
      StillReading(g, front);
    } else {
      n := WhereEnded(g, front);
      assert front[..n] == slots[..n];
    }
  }

  /** What the scan of the root's first clusters has found. */
  ghost function RootScan(g: Geometry, disk: seq<seq<byte>>, seen: seq<nat>): Scan
    requires Addressable(g, disk) && InReach(g, seen)
  {
    Scanned(g, NOTHING, DirSlots(HeapOf(g, disk), seen))
  }

  ghost predicate RootChain(g: Geometry, disk: seq<seq<byte>>, seen: seq<nat>)
    requires Addressable(g, disk)
  {
    Chain(g, FatOf(g, disk), g.rootCluster, EOC_MIN, seen)
  }

  /** The root directory ends in its chain, after both descriptors. */
  ghost predicate Discovered(g: Geometry, disk: seq<seq<byte>>, seen: seq<nat>)
    requires Addressable(g, disk)
  {
    && RootChain(g, disk, seen)
    && RootScan(g, disk, seen).verdict == AtEnd
    && RootScan(g, disk, seen).bitmap.Some? && RootScan(g, disk, seen).upcase.Some?
  }

  ghost function Descriptors(g: Geometry, disk: seq<seq<byte>>, seen: seq<nat>): (AllocationBitmap, UpCaseTable)
    requires Addressable(g, disk) && Discovered(g, disk, seen)
  {
    (RootScan(g, disk, seen).bitmap.value, RootScan(g, disk, seen).upcase.value)
  }

  ghost function RootEntries(g: Geometry, disk: seq<seq<byte>>): (r: Result<(AllocationBitmap, UpCaseTable)>)
    requires Addressable(g, disk)
    ensures r.Ok? ==> exists seen: seq<nat> :: Discovered(g, disk, seen) && r.value == Descriptors(g, disk, seen)
    ensures r.Err? ==> r.error == RootDirectoryCorrupt && forall seen: seq<nat> :: !Discovered(g, disk, seen)
  {
    if exists seen: seq<nat> :: Discovered(g, disk, seen) then
      var seen: seq<nat> :| Discovered(g, disk, seen);
      Ok(Descriptors(g, disk, seen))
    else Err(RootDirectoryCorrupt)
  }

  lemma ClusterSlots(g: Geometry, disk: seq<seq<byte>>, seen: seq<nat>)
    requires Addressable(g, disk) && InReach(g, seen)
    ensures |Flat(HeapOf(g, disk), seen)| % 32 == 0
  {
    var heap, cb := HeapOf(g, disk), g.BytesPerCluster();
    HeapOfShape(g, disk);
    FlatLength(heap, seen, cb);
    ClusterMultiple32(g);
    Product32(|seen|, cb);
  }

  lemma Product32(n: nat, d: nat)
    requires d % 32 == 0
    ensures n * d % 32 == 0
  {
    var e := d / 32;
    assert n * d == 32 * (n * e) by { assert d == 32 * e; }
  }

  /** Scanning one more cluster. */
  lemma RootScanMore(g: Geometry, disk: seq<seq<byte>>, seen: seq<nat>, c: nat)
    requires Addressable(g, disk) && g.InRange(c) && InReach(g, seen)
    ensures RootScan(g, disk, seen + [c]) == Scanned(g, RootScan(g, disk, seen), SlotsOf(ClusterBytes(g, disk, c)))
    ensures DirSlots(HeapOf(g, disk), seen) <= DirSlots(HeapOf(g, disk), seen + [c])
  {
    hide Note;
    hide SlotsOf;
    var heap := HeapOf(g, disk);
    FlatSnoc(heap, seen, c);
    ClusterSlots(g, disk, seen);
    ClusterSlots(g, disk, [c]);
    assert Flat(heap, []) == [];
    FlatSnoc(heap, [], c);
    assert [] + [c] == [c];
    assert Flat(heap, [c]) == [] + heap[c] == heap[c];
    SlotsConcat(Flat(heap, seen), heap[c]);
    ScannedConcat(g, NOTHING, DirSlots(heap, seen), SlotsOf(heap[c]));
  }

  /** A longer beginning of the root that had stopped already. */
  lemma {:induction false} RootScanStopped(g: Geometry, disk: seq<seq<byte>>, a: seq<nat>, b: seq<nat>)
    requires Addressable(g, disk) && InReach(g, b) && |a| <= |b| && a == b[..|a|]
    requires RootScan(g, disk, a).verdict != Reading
    ensures RootScan(g, disk, b) == RootScan(g, disk, a)
  {
    hide Note;
    hide SlotsOf;
    if |a| < |b| {
      var front := b[..|b| - 1];
      assert front[..|a|] == b[..|a|];
      RootScanStopped(g, disk, a, front);
      assert front + [b[|b| - 1]] == b;
      RootScanMore(g, disk, front, b[|b| - 1]);
      ScannedStopped(g, RootScan(g, disk, front), SlotsOf(ClusterBytes(g, disk, b[|b| - 1])));
    } else {
      assert a == b;
    }
  }

  /** Two chains whose scans both stopped found the same. */
  lemma StoppedAlike(g: Geometry, disk: seq<seq<byte>>, a: seq<nat>, b: seq<nat>)
    requires Addressable(g, disk) && RootChain(g, disk, a) && RootChain(g, disk, b)
    requires RootScan(g, disk, a).verdict != Reading && RootScan(g, disk, b).verdict != Reading
    ensures RootScan(g, disk, a) == RootScan(g, disk, b)
  {
    hide RootScan;
    if |a| <= |b| {
      ChainPrefix(g, FatOf(g, disk), g.rootCluster, EOC_MIN, a, b);
      RootScanStopped(g, disk, a, b);
    } else {
      ChainPrefix(g, FatOf(g, disk), g.rootCluster, EOC_MIN, b, a);
      RootScanStopped(g, disk, b, a);
    }
  }

  lemma FoundAlike(g: Geometry, disk: seq<seq<byte>>, a: seq<nat>, b: seq<nat>)
    requires Addressable(g, disk) && Discovered(g, disk, a) && Discovered(g, disk, b)
    ensures Descriptors(g, disk, a) == Descriptors(g, disk, b)
  {
    hide RootScan;
    StoppedAlike(g, disk, a, b);
  }

  /** One root that is found decides what the mount finds. */
  lemma RootFound(g: Geometry, disk: seq<seq<byte>>, seen: seq<nat>)
    requires Addressable(g, disk) && Discovered(g, disk, seen)
    ensures RootEntries(g, disk) == Ok(Descriptors(g, disk, seen))
  {
    hide RootEntries;
    hide Discovered;
    hide Descriptors;
    assert RootEntries(g, disk).Ok?;
    var other: seq<nat> :| Discovered(g, disk, other) && RootEntries(g, disk).value == Descriptors(g, disk, other);
    FoundAlike(g, disk, seen, other);
  }

  /** A root whose scan stopped without both descriptors, or cannot go on. */
  lemma RootLost(g: Geometry, disk: seq<seq<byte>>, seen: seq<nat>)
    requires Addressable(g, disk) && RootChain(g, disk, seen) && !Discovered(g, disk, seen)
    requires RootScan(g, disk, seen).verdict != Reading || Stuck(g, FatOf(g, disk), g.rootCluster, EOC_MIN, seen)
    ensures RootEntries(g, disk) == Err(RootDirectoryCorrupt)
  {
    hide RootScan;
    hide RootEntries;
    forall other: seq<nat> | Discovered(g, disk, other)
      ensures false
    {
      if RootScan(g, disk, seen).verdict != Reading {
        StoppedAlike(g, disk, seen, other);
      } else {
        StuckIsLongest(g, FatOf(g, disk), g.rootCluster, EOC_MIN, seen, other);
        ChainPrefix(g, FatOf(g, disk), g.rootCluster, EOC_MIN, other, seen);
        RootScanStopped(g, disk, other, seen);
      }
    }
  }

  // ----- reading the root -------------------------------------------------------------------------

  lemma {:induction false} JoinedPrefix(disk: seq<seq<byte>>, lba: nat, m: nat, n: nat)
    requires m <= n && lba + n <= |disk|
    ensures Joined(disk, lba, m) <= Joined(disk, lba, n)
  {
    if m < n { JoinedPrefix(disk, lba, m, n - 1); }
  }

  lemma PrefixOfSlots(a: seq<byte>, b: seq<byte>)
    requires a <= b && |a| % 32 == 0 && |b| % 32 == 0
    ensures SlotsOf(a) <= SlotsOf(b)
  {
    hide SlotsOf;
    assert b == a + b[|a|..];
    SlotsConcat(a, b[|a|..]);
  }

  /** One sector of the root. */
  method ScanSector(g: Geometry, b: seq<byte>, before: Scan) returns (s: Scan)
    requires before.verdict == Reading && |b| % 32 == 0
    ensures s == Scanned(g, before, SlotsOf(b))
  {
    hide Note;
    hide SlotsOf;
    s := before;
    ghost var slots := SlotsOf(b);
    for k := 0 to |b| / 32
      invariant s.verdict == Reading && s == Scanned(g, before, slots[..k])
    {
      SlotIs(b, k);
      s := Note(g, s, b[32 * k..32 * k + 32]);
      ScannedSnoc(g, before, slots[..k], slots[k]);
      assert slots[..k + 1] == slots[..k] + [slots[k]];
      if s.verdict != Reading {
        ScannedPrefix(g, before, slots[..k + 1], slots);
        return;
      }
    }
    assert slots[..|slots|] == slots;
  }

  lemma SlotIs(b: seq<byte>, k: nat)
    requires k < |b| / 32
    ensures |SlotsOf(b)| == |b| / 32 && SlotsOf(b)[k] == b[32 * k..32 * k + 32]
  {
  }

  lemma SectorJoins(g: Geometry, disk: seq<seq<byte>>, lba: nat, n: nat)
    requires Addressable(g, disk) && lba + n < |disk|
    ensures SlotsOf(Joined(disk, lba, n + 1)) == SlotsOf(Joined(disk, lba, n)) + SlotsOf(disk[lba + n])
    ensures |disk[lba + n]| % 32 == 0
  {
    hide SlotsOf;
    JoinedLength(disk, lba, n, g.bytesPerSector);
    Product32(n, g.bytesPerSector);
    SlotsConcat(Joined(disk, lba, n), disk[lba + n]);
  }

  lemma JoinedMultiple(g: Geometry, disk: seq<seq<byte>>, lba: nat, n: nat)
    requires Addressable(g, disk) && lba + n <= |disk|
    ensures |Joined(disk, lba, n)| % 32 == 0
  {
    JoinedLength(disk, lba, n, g.bytesPerSector);
    Product32(n, g.bytesPerSector);
  }

  /** One cluster of the root. */
  method ScanCluster(d: Device, g: Geometry, cluster: nat, before: Scan) returns (ok: bool, s: Scan)
    requires d.Valid() && Addressable(g, d.disk) && g.InRange(cluster) && before.verdict == Reading
    modifies d`clock
    ensures d.Valid() && Honest(d.faulty, old(d.clock), d.clock, !ok)
    ensures ok ==> s == Scanned(g, before, SlotsOf(ClusterBytes(g, d.disk, cluster)))
  {
    hide Note;
    hide SlotsOf;
    hide Scanned;
    ClusterOnDisk(g, d.disk, cluster);
    var lba := g.ClusterLba(cluster).value;
    assert lba == HeapLba(g, cluster, 0);
    ok, s := true, before;
    NoSlots(g, before, Joined(d.disk, lba, 0));
    JoinedMultiple(g, d.disk, lba, g.sectorsPerCluster);
    for sector := 0 to g.sectorsPerCluster
      invariant Honest(d.faulty, old(d.clock), d.clock, false)
      invariant d.Valid() && ok && s.verdict == Reading && s == Scanned(g, before, SlotsOf(Joined(d.disk, lba, sector)))
    {
      var b := d.Read(lba + sector);
      if b.None? { return false, s; }
      SectorJoins(g, d.disk, lba, sector);
      ScannedConcat(g, before, SlotsOf(Joined(d.disk, lba, sector)), SlotsOf(b.value));
      s := ScanSector(g, b.value, s);
      if s.verdict != Reading {
        JoinedMultiple(g, d.disk, lba, sector + 1);
        JoinedPrefix(d.disk, lba, sector + 1, g.sectorsPerCluster);
        PrefixOfSlots(Joined(d.disk, lba, sector + 1), Joined(d.disk, lba, g.sectorsPerCluster));
        ScannedPrefix(g, before, SlotsOf(Joined(d.disk, lba, sector + 1)),
                      SlotsOf(Joined(d.disk, lba, g.sectorsPerCluster)));
        return;
      }
    }
  }

  lemma NoSlots(g: Geometry, s: Scan, none: seq<byte>)
    requires none == []
    ensures Scanned(g, s, SlotsOf(none)) == s
  {
  }

  /** Find the two descriptors, wherever in the root's chain they are. */
  method DiscoverRoot(d: Device, g: Geometry) returns (r: Result<(AllocationBitmap, UpCaseTable)>)
    requires d.Valid() && Addressable(g, d.disk)
    modifies d`clock
    ensures d.Valid()
    ensures Honest(d.faulty, old(d.clock), d.clock, FailedIn(d.faulty, old(d.clock), d.clock))
    ensures r == if FailedIn(d.faulty, old(d.clock), d.clock) then Err(Error.Device) else RootEntries(g, d.disk)
  {
    hide Failures;
    hide RootScan;
    hide Note;
    hide Scanned;
    hide SlotsOf;
    hide RootEntries;
    ghost var fat := FatOf(g, d.disk);
    ghost var seen: seq<nat> := [];
    var cluster: nat := g.rootCluster;
    var visited: nat := 0;
    var s := NOTHING;
    NothingYet(g, d.disk);
    while true
      invariant Honest(d.faulty, old(d.clock), d.clock, false)
      invariant d.Valid() && visited == |seen| && RootChain(g, d.disk, seen)
      invariant cluster == Following(g, fat, g.rootCluster, seen) && (seen != [] ==> cluster < EOC_MIN)
      invariant s == RootScan(g, d.disk, seen) && s.verdict == Reading
      decreases g.clusterCount - |seen|
    {
      visited := visited + 1;
      if visited > g.clusterCount {
        RootLost(g, d.disk, seen);
        return Err(RootDirectoryCorrupt);
      }
      if g.ClusterLba(cluster).None? {
        RootLost(g, d.disk, seen);
        return Err(RootDirectoryCorrupt);
      }
      ChainMore(g, fat, g.rootCluster, EOC_MIN, seen);
      RootScanMore(g, d.disk, seen, cluster);
      var ok;
      ok, s := ScanCluster(d, g, cluster, s);
      if !ok { return Err(Error.Device); }
      seen := seen + [cluster];
      if s.verdict != Reading {
        if s.verdict == AtEnd && s.bitmap.Some? && s.upcase.Some? {
          RootFound(g, d.disk, seen);
          return Ok((s.bitmap.value, s.upcase.value));
        }
        RootLost(g, d.disk, seen);
        return Err(RootDirectoryCorrupt);
      }
      var next := NextClusterOn(d, g, cluster);
      if next.Err? { return Err(next.error); }
      cluster := next.value;
      if cluster >= EOC_MIN {
        RootLost(g, d.disk, seen);
        return Err(RootDirectoryCorrupt);
      }
    }
  }

  lemma NothingYet(g: Geometry, disk: seq<seq<byte>>)
    requires Addressable(g, disk)
    ensures RootChain(g, disk, []) && RootScan(g, disk, []) == NOTHING
  {
  }

  // ----- the up-case table -------------------------------------------------------------------------

  /** The table's chain is as long as its length calls for, and its bytes have
      the recorded checksum. */
  ghost predicate TableSound(g: Geometry, disk: seq<seq<byte>>, u: UpCaseTable, ext: seq<nat>)
    requires Addressable(g, disk)
  {
    && u.byteLength > 0 && ext != []
    && Chain(g, FatOf(g, disk), u.firstCluster, 0x1_0000_0000, ext)
    && (|ext| - 1) * g.BytesPerCluster() < u.byteLength <= |ext| * g.BytesPerCluster()
    && u.byteLength <= |Flat(HeapOf(g, disk), ext)|
    && Sum32(0, Flat(HeapOf(g, disk), ext)[..u.byteLength]) == u.checksum
  }

  method FoldBytes32(before: u32, b: seq<byte>) returns (sum: u32)
    ensures sum == Sum32(before, b)
  {
    sum := before;
    for i := 0 to |b|
      invariant sum == Sum32(before, b[..i])
    {
      sum := Roll32(sum, b[i]);
      assert b[..i + 1][..i] == b[..i];
    }
    assert b[..|b|] == b;
  }

  lemma MoreOfCluster(whole: seq<byte>, at: nat, b: seq<byte>, size: nat, n: nat, sum: u32)
    requires at + size <= |whole| && whole[at..at + size] == b && n <= size
    ensures Sum32(Sum32(sum, whole[..at]), b[..n]) == Sum32(sum, whole[..at + n])
  {
    assert whole[..at + n] == whole[..at] + b[..n];
    Sum32Concat(sum, whole[..at], b[..n]);
  }

  /** Fold the part of one cluster that belongs to the table into the checksum. */
  method SumCluster(d: Device, g: Geometry, cluster: nat, before: u32, left: nat)
    returns (ok: bool, sum: u32, remaining: nat)
    requires d.Valid() && Addressable(g, d.disk) && g.InRange(cluster)
    modifies d`clock
    ensures d.Valid() && Honest(d.faulty, old(d.clock), d.clock, !ok)
    ensures var n := Min(left, g.BytesPerCluster());
            ok ==> remaining == left - n && n <= |ClusterBytes(g, d.disk, cluster)|
                   && sum == Sum32(before, ClusterBytes(g, d.disk, cluster)[..n])
  {
    hide Failures;
    hide Sum32;
    hide Joined;
    ClusterOnDisk(g, d.disk, cluster);
    var lba, size: nat := g.ClusterLba(cluster).value, g.bytesPerSector;
    ghost var whole := ClusterBytes(g, d.disk, cluster);
    JoinedLength(d.disk, lba, g.sectorsPerCluster, size);
    ok, sum, remaining := true, before, left;
    EmptySum(before, whole);
    for sector := 0 to g.sectorsPerCluster
      invariant Honest(d.faulty, old(d.clock), d.clock, false)
      invariant d.Valid() && ok && 0 <= sector * size <= |whole|
      invariant remaining == left - Min(left, sector * size) && sum == Sum32(before, whole[..Min(left, sector * size)])
    {
      if remaining == 0 { break; }
      var b := d.Read(lba + sector);
      if b.None? { return false, sum, remaining; }
      JoinedSector(d.disk, lba, g.sectorsPerCluster, sector, size);
      var count := Min(remaining, size);
      MoreOfCluster(whole, sector * size, b.value, size, count, before);
      sum := FoldBytes32(sum, b.value[..count]);
      remaining := remaining - count;
      assert (sector + 1) * size == sector * size + size;
    }
  }

  lemma EmptySum(sum: u32, whole: seq<byte>)
    ensures Sum32(sum, whole[..0]) == sum
  {
  }

  /** Two chains that hold the table are the same chain. */
  lemma TableChainUnique(g: Geometry, fat: seq<u32>, u: UpCaseTable, a: seq<nat>, b: seq<nat>)
    requires |fat| == g.clusterCount + 2
    requires Chain(g, fat, u.firstCluster, 0x1_0000_0000, a) && Chain(g, fat, u.firstCluster, 0x1_0000_0000, b)
    requires (|a| - 1) * g.BytesPerCluster() < u.byteLength <= |a| * g.BytesPerCluster()
    requires (|b| - 1) * g.BytesPerCluster() < u.byteLength <= |b| * g.BytesPerCluster()
    ensures a == b
  {
    var cb := g.BytesPerCluster();
    if |a| < |b| { MulMonotone(|a|, |b| - 1, cb); }
    if |b| < |a| { MulMonotone(|b|, |a| - 1, cb); }
    ChainPrefix(g, fat, u.firstCluster, 0x1_0000_0000, a, b);
    assert b[..|b|] == b;
  }

  lemma SoundOnlyHere(g: Geometry, disk: seq<seq<byte>>, u: UpCaseTable, ext: seq<nat>, other: seq<nat>)
    requires Addressable(g, disk) && Chain(g, FatOf(g, disk), u.firstCluster, 0x1_0000_0000, ext)
    requires (|ext| - 1) * g.BytesPerCluster() < u.byteLength <= |ext| * g.BytesPerCluster()
    ensures TableSound(g, disk, u, other) ==> other == ext
  {
    hide Sum32;
    if TableSound(g, disk, u, other) { TableChainUnique(g, FatOf(g, disk), u, ext, other); }
  }

  /** A chain that covers the table but not with the recorded checksum. */
  lemma TableMismatch(g: Geometry, disk: seq<seq<byte>>, u: UpCaseTable, ext: seq<nat>)
    requires Addressable(g, disk) && !TableSound(g, disk, u, ext)
    requires Chain(g, FatOf(g, disk), u.firstCluster, 0x1_0000_0000, ext)
    requires (|ext| - 1) * g.BytesPerCluster() < u.byteLength <= |ext| * g.BytesPerCluster()
    ensures forall other: seq<nat> :: !TableSound(g, disk, u, other)
  {
    hide TableSound;
    forall other: seq<nat>
      ensures !TableSound(g, disk, u, other)
    {
      SoundOnlyHere(g, disk, u, ext, other);
    }
  }

  lemma SoundWithin(g: Geometry, disk: seq<seq<byte>>, u: UpCaseTable, seen: seq<nat>, other: seq<nat>)
    requires Addressable(g, disk) && Chain(g, FatOf(g, disk), u.firstCluster, 0x1_0000_0000, seen)
    requires Stuck(g, FatOf(g, disk), u.firstCluster, 0x1_0000_0000, seen)
    ensures TableSound(g, disk, u, other) ==> u.byteLength <= |seen| * g.BytesPerCluster()
  {
    hide Sum32;
    if TableSound(g, disk, u, other) {
      StuckIsLongest(g, FatOf(g, disk), u.firstCluster, 0x1_0000_0000, seen, other);
      MulMonotone(|other|, |seen|, g.BytesPerCluster());
    }
  }

  /** A chain that breaks off before it covers the table. */
  lemma TableBroken(g: Geometry, disk: seq<seq<byte>>, u: UpCaseTable, seen: seq<nat>)
    requires Addressable(g, disk) && Chain(g, FatOf(g, disk), u.firstCluster, 0x1_0000_0000, seen)
    requires Stuck(g, FatOf(g, disk), u.firstCluster, 0x1_0000_0000, seen)
    requires |seen| * g.BytesPerCluster() < u.byteLength
    ensures forall other: seq<nat> :: !TableSound(g, disk, u, other)
  {
    hide TableSound;
    forall other: seq<nat>
      ensures !TableSound(g, disk, u, other)
    {
      SoundWithin(g, disk, u, seen, other);
    }
  }

  lemma NoTable(g: Geometry, disk: seq<seq<byte>>, u: UpCaseTable)
    requires Addressable(g, disk) && (u.firstCluster < 2 || u.byteLength == 0)
    ensures forall other: seq<nat> :: !TableSound(g, disk, u, other)
  {
    hide Sum32;
  }

  /** The first `n` bytes of a chain and of the cluster after it. */
  lemma SumOneMore(g: Geometry, disk: seq<seq<byte>>, seen: seq<nat>, c: nat, n: nat)
    requires Addressable(g, disk) && InReach(g, seen) && g.InRange(c) && n <= |ClusterBytes(g, disk, c)|
    ensures var before, after := Flat(HeapOf(g, disk), seen), Flat(HeapOf(g, disk), seen + [c]);
            |before| == |seen| * g.BytesPerCluster() && |before| + n <= |after|
            && Sum32(0, after[..|before| + n]) == Sum32(Sum32(0, before), ClusterBytes(g, disk, c)[..n])
            && (n == |ClusterBytes(g, disk, c)| ==> after[..|before| + n] == after)
    ensures |ClusterBytes(g, disk, c)| == g.BytesPerCluster()
  {
    hide Sum32;
    var heap := HeapOf(g, disk);
    HeapOfShape(g, disk);
    FlatLength(heap, seen, g.BytesPerCluster());
    FlatSnoc(heap, seen, c);
    var before, after := Flat(heap, seen), Flat(heap, seen + [c]);
    assert after[..|before| + n] == before + heap[c][..n];
    Sum32Concat(0, before, heap[c][..n]);
  }

  /** So far the chain `seen` has been folded into the checksum, up to the end
      of the table. */
  ghost predicate Summed(g: Geometry, disk: seq<seq<byte>>, u: UpCaseTable, seen: seq<nat>, remaining: nat, sum: u32)
    requires Addressable(g, disk)
  {
    && Chain(g, FatOf(g, disk), u.firstCluster, 0x1_0000_0000, seen)
    && var bytes, cb := Flat(HeapOf(g, disk), seen), g.BytesPerCluster();
    && (remaining != 0 ==> remaining + |seen| * cb == u.byteLength && sum == Sum32(0, bytes))
    && (remaining == 0 ==> seen != [] && (|seen| - 1) * cb < u.byteLength <= |seen| * cb
                           && u.byteLength <= |bytes| && sum == Sum32(0, bytes[..u.byteLength]))
  }

  lemma SummedMore(g: Geometry, disk: seq<seq<byte>>, u: UpCaseTable, seen: seq<nat>, remaining: nat, sum: u32, c: nat)
    requires Addressable(g, disk) && Summed(g, disk, u, seen, remaining, sum) && remaining != 0
    requires c == Following(g, FatOf(g, disk), u.firstCluster, seen)
    requires !Stuck(g, FatOf(g, disk), u.firstCluster, 0x1_0000_0000, seen)
    ensures var n := Min(remaining, g.BytesPerCluster());
            n <= |ClusterBytes(g, disk, c)| &&
            Summed(g, disk, u, seen + [c], remaining - n, Sum32(sum, ClusterBytes(g, disk, c)[..n]))
  {
    hide Sum32;
    hide ClusterBytes;
    hide Stuck;
    hide Following;
    hide Geometry.BytesPerCluster;
    hide Geometry.WellFormed;
    ChainMore(g, FatOf(g, disk), u.firstCluster, 0x1_0000_0000, seen);
    NextInReach(g, FatOf(g, disk), u.firstCluster, seen);
    SumOneMore(g, disk, seen, c, 0);
    var cb := g.BytesPerCluster();
    SumOneMore(g, disk, seen, c, Min(remaining, cb));
    OneMoreRow(|seen|, cb);
    assert |seen + [c]| == |seen| + 1;
  }

  lemma OneMoreRow(n: nat, m: nat)
    ensures (n + 1) * m == n * m + m
  {
  }

  lemma NextInReach(g: Geometry, fat: seq<u32>, first: nat, seen: seq<nat>)
    requires |fat| == g.clusterCount + 2 && InReach(g, seen) && !Stuck(g, fat, first, 0x1_0000_0000, seen)
    ensures g.InRange(Following(g, fat, first, seen))
  {
  }

  lemma SummedStarts(g: Geometry, disk: seq<seq<byte>>, u: UpCaseTable)
    requires Addressable(g, disk) && u.byteLength != 0
    ensures Summed(g, disk, u, [], u.byteLength, 0)
  {
  }

  lemma SummedChain(g: Geometry, disk: seq<seq<byte>>, u: UpCaseTable, seen: seq<nat>, remaining: nat, sum: u32)
    requires Addressable(g, disk) && Summed(g, disk, u, seen, remaining, sum)
    ensures Chain(g, FatOf(g, disk), u.firstCluster, 0x1_0000_0000, seen)
    ensures remaining != 0 ==> |seen| * g.BytesPerCluster() < u.byteLength
  {
    hide Sum32;
  }

  lemma TableDecided(g: Geometry, disk: seq<seq<byte>>, u: UpCaseTable, seen: seq<nat>, sum: u32)
    requires Addressable(g, disk) && Summed(g, disk, u, seen, 0, sum) && u.byteLength != 0
    ensures TableSound(g, disk, u, seen) <==> sum == u.checksum
    ensures sum != u.checksum ==> forall ext: seq<nat> :: !TableSound(g, disk, u, ext)
  {
    hide Sum32;
    if sum != u.checksum { TableMismatch(g, disk, u, seen); }
  }

  /** Walk the table's chain and check its checksum.  Any failure but the
      device's means that no chain on the volume holds a sound table. */
  method ValidateUpcaseTable(d: Device, g: Geometry, u: UpCaseTable) returns (r: Result<()>)
    requires d.Valid() && Addressable(g, d.disk)
    modifies d`clock
    ensures d.Valid()
    ensures r.Ok? ==> exists ext: seq<nat> :: TableSound(g, d.disk, u, ext)
    ensures r.Err? && r.error != Error.Device ==> forall ext: seq<nat> :: !TableSound(g, d.disk, u, ext)
    ensures Honest(d.faulty, old(d.clock), d.clock, r == Err(Error.Device))
  {
    hide Failures;
    hide Sum32;
    hide ClusterBytes;
    hide Summed;
    hide TableSound;
    if u.firstCluster < 2 || u.byteLength == 0 {
      NoTable(g, d.disk, u);
      return Err(UpcaseDescriptorInvalid);
    }
    ghost var seen: seq<nat> := [];
    var remaining: nat, cluster: nat, visited: nat, checksum: u32 := u.byteLength, u.firstCluster, 0, 0;
    SummedStarts(g, d.disk, u);
    while remaining != 0
      invariant Honest(d.faulty, old(d.clock), d.clock, false)
      invariant d.Valid() && visited == |seen| && Summed(g, d.disk, u, seen, remaining, checksum) && InReach(g, seen)
      invariant remaining != 0 ==> cluster == Following(g, FatOf(g, d.disk), u.firstCluster, seen)
      decreases g.clusterCount - |seen|
    {
      SummedChain(g, d.disk, u, seen, remaining, checksum);
      visited := visited + 1;
      if visited > g.clusterCount || g.ClusterLba(cluster).None? {
        TableBroken(g, d.disk, u, seen);
        return Err(Corrupt);
      }
      SummedMore(g, d.disk, u, seen, remaining, checksum, cluster);
      var ok;
      ok, checksum, remaining := SumCluster(d, g, cluster, checksum, remaining);
      if !ok { return Err(Error.Device); }
      seen := seen + [cluster];
      if remaining != 0 {
        SummedChain(g, d.disk, u, seen, remaining, checksum);
        var next := NextClusterOn(d, g, cluster);
        if next.Err? { return Err(next.error); }
        cluster := next.value;
        if !g.InRange(cluster) {
          TableBroken(g, d.disk, u, seen);
          return Err(UpcaseChainInvalid);
        }
      }
    }
    TableDecided(g, d.disk, u, seen, checksum);
    if checksum != u.checksum { return Err(UpcaseChecksumMismatch); }
    return Ok(());
  }

  // ----- the mount ---------------------------------------------------------------------------------

  ghost function PartitionOf(disk: seq<seq<byte>>, gpt: Result<Partition>): Result<Partition>
    requires 0 < |disk| && |disk[0]| >= 512
  {
    var found := if Protective(disk[0]) then gpt else TableOf(disk[0]);
    if found.Ok? && !Inside(disk, found.value) then Err(InvalidPartitionTable)
    else if found.Ok? && found.value.firstLba >= |disk| then Err(InvalidPartitionTable)
    else found
  }

  ghost function GeometryOf(disk: seq<seq<byte>>, size: nat, partition: Partition): Result<Geometry>
    requires Sectors(disk, size) && Inside(disk, partition)
  {
    var offset := BootOffset(disk, partition);
    if offset.None? then Err(InvalidBootSector)
    else
      var parsed := ParseBoot(partition, disk[partition.firstLba + offset.value], size);
      if parsed == Err(Corrupt) then Err(BootGeometryCorrupt) else parsed
  }

  lemma ParsedIsAddressable(disk: seq<seq<byte>>, size: nat, partition: Partition)
    requires Sectors(disk, size) && Inside(disk, partition) && GeometryOf(disk, size, partition).Ok?
    ensures Addressable(GeometryOf(disk, size, partition).value, disk)
    ensures GeometryOf(disk, size, partition).value.partition == partition
  {
    hide ParseBoot;
    hide BootOffset;
    hide Geometry.WellFormed;
    AcceptedIsWellFormed(partition, disk[partition.firstLba + BootOffset(disk, partition).value], size);
  }

  ghost function VolumeOf(g: Geometry, disk: seq<seq<byte>>): Result<MountedVolume>
    requires Addressable(g, disk)
  {
    var root := RootEntries(g, disk);
    if root.Err? then Err(root.error)
    else
      var (bitmap, upcase) := root.value;
      Ok(MountedVolume(g, bitmap, upcase, exists ext: seq<nat> :: TableSound(g, disk, upcase, ext)))
  }

  /** What the mount answers, as a function of the device's contents; `gpt` is
      what the GUID partition table would name. */
  ghost function MountOf(disk: seq<seq<byte>>, size: nat, scratchLength: nat, gpt: Result<Partition>)
    : Result<MountedVolume>
    requires Sectors(disk, size) && disk != []
  {
    if size !in {512, 1024, 2048, 4096} then Err(UnsupportedSectorSize)
    else if scratchLength < size then Err(InvalidSectorSize)
    else
      var partition := PartitionOf(disk, gpt);
      if partition.Err? then Err(partition.error)
      else
        var g := GeometryOf(disk, size, partition.value);
        if g.Err? then Err(g.error)
        else
          ParsedIsAddressable(disk, size, partition.value);
          VolumeOf(g.value, disk)
  }

  // ----- what is mounted, from the bytes on the device ----------------------------------------------

  /** Entry `i` of the partition table: type 7, with a start and a length. */
  ghost predicate Usable(b: seq<byte>, i: nat)
    requires |b| >= 512 && i < 4
  {
    b[450 + 16 * i] == 7 && Le32(b[454 + 16 * i..458 + 16 * i]) != 0 && Le32(b[458 + 16 * i..462 + 16 * i]) != 0
  }

  /** The device's first sector names the partition: with a protective entry (type
      0xee) what the GUID table does, otherwise the first usable entry of a signed
      sector; and the partition lies on the device. */
  ghost predicate Names(disk: seq<seq<byte>>, gpt: Result<Partition>, partition: Partition)
    requires 0 < |disk| && |disk[0]| >= 512
  {
    var b := disk[0];
    && (if b[450] == 0xee || b[466] == 0xee || b[482] == 0xee || b[498] == 0xee then gpt == Ok(partition)
        else b[510] == 0x55 && b[511] == 0xaa && exists i :: 0 <= i < 4 && FirstUsable(b, i, partition))
    && partition.firstLba < |disk| && partition.firstLba + partition.sectorCount <= |disk|
  }

  ghost predicate FirstUsable(b: seq<byte>, i: nat, partition: Partition)
    requires |b| >= 512 && i < 4
  {
    && Usable(b, i) && (forall j :: 0 <= j < i ==> !Usable(b, j))
    && partition.firstLba == Le32(b[454 + 16 * i..458 + 16 * i])
    && partition.sectorCount == Le32(b[458 + 16 * i..462 + 16 * i])
  }

  lemma {:induction false} EntriesExactly(b: seq<byte>, i: nat, partition: Partition)
    requires |b| >= 512 && i <= 4 && forall j :: 0 <= j < i ==> !Usable(b, j)
    ensures FirstEntry(b, i) == Ok(partition) <==> exists k :: 0 <= k < 4 && FirstUsable(b, k, partition)
    decreases 4 - i
  {
    hide Le32;
    if i < 4 {
      assert 446 + 16 * i + 4 == 450 + 16 * i;
      if Usable(b, i) {
        assert partition == EntryPartition(b, i) ==> FirstUsable(b, i, partition);
      } else {
        EntriesExactly(b, i + 1, partition);
      }
    }
  }

  lemma PartitionExactly(disk: seq<seq<byte>>, gpt: Result<Partition>, partition: Partition)
    requires 0 < |disk| && |disk[0]| >= 512
    ensures PartitionOf(disk, gpt) == Ok(partition) <==> Names(disk, gpt, partition)
  {
    hide Le32;
    hide FirstEntry;
    hide FirstUsable;
    EntriesExactly(disk[0], 0, partition);
  }

  /** Twelve sectors at this offset: every word of the last is the rolling sum of the
      bytes of the others that the checksum covers. */
  ghost predicate Verified(disk: seq<seq<byte>>, partition: Partition, offset: nat)
    requires Inside(disk, partition)
  {
    && offset + 12 <= partition.sectorCount
    && var at := partition.firstLba + offset;
       forall w :: 0 <= w < |disk[at + 11]| / 4 ==>
         Le32(disk[at + 11][4 * w..4 * w + 4]) == Sum32(0, Covered(disk[at..at + 11]))
  }

  lemma SoundExactly(disk: seq<seq<byte>>, size: nat, partition: Partition, offset: nat)
    requires Sectors(disk, size) && size >= 512 && Inside(disk, partition)
    ensures Sound(disk, partition, offset) <==> Verified(disk, partition, offset)
  {
    hide Le32;
    hide RegionSum;
    hide Sum32;
    hide Covered;
    if offset + 12 <= partition.sectorCount {
      var at := partition.firstLba + offset;
      RegionSumCovers(disk[at..at + 11]);
    }
  }

  /** The main boot region, or, when that one is damaged, the backup twelve sectors
      further, is sound and states the geometry. */
  ghost predicate Booted(disk: seq<seq<byte>>, g: Geometry)
    requires Inside(disk, g.partition)
  {
    var first := g.partition.firstLba;
    if Verified(disk, g.partition, 0) then States(disk[first], g)
    else Verified(disk, g.partition, 12) && States(disk[first + 12], g)
  }

  lemma GeometryExactly(disk: seq<seq<byte>>, size: nat, partition: Partition, g: Geometry)
    requires Sectors(disk, size) && size >= 512 && Inside(disk, partition)
    ensures GeometryOf(disk, size, partition) == Ok(g) <==>
      g.partition == partition && g.bytesPerSector == size && g.WellFormed() && Booted(disk, g)
  {
    hide ParseBoot;
    hide Sound;
    hide Verified;
    hide States;
    hide Geometry.WellFormed;
    SoundExactly(disk, size, partition, 0);
    SoundExactly(disk, size, partition, 12);
    var offset := BootOffset(disk, partition);
    if offset.Some? {
      AcceptedExactly(partition, disk[partition.firstLba + offset.value], size, g);
    }
    if g.partition == partition && Booted(disk, g) { BootedAt(disk, g); }
  }

  lemma BootedAt(disk: seq<seq<byte>>, g: Geometry)
    requires Inside(disk, g.partition) && Booted(disk, g)
    ensures Verified(disk, g.partition, 0) || Verified(disk, g.partition, 12)
  {
  }

  /** The root's slots, along its chain and up to the first unused one, are clean and
      announce the bitmap and the table. */
  ghost predicate Described(g: Geometry, disk: seq<seq<byte>>, bitmap: AllocationBitmap, upcase: UpCaseTable)
    requires Addressable(g, disk)
  {
    exists seen: seq<nat>, n: nat :: DescribedBy(g, disk, bitmap, upcase, seen, n)
  }

  ghost predicate DescribedBy(g: Geometry, disk: seq<seq<byte>>, bitmap: AllocationBitmap, upcase: UpCaseTable,
                              seen: seq<nat>, n: nat)
    requires Addressable(g, disk)
  {
    && RootChain(g, disk, seen)
    && var slots := DirSlots(HeapOf(g, disk), seen);
       n < |slots| && slots[n][0] == 0 && Clean(g, slots[..n]) && Announces(g, slots[..n], Some(bitmap), Some(upcase))
  }

  /** Clean slots announce one bitmap and one table. */
  lemma AnnouncedOnce(g: Geometry, slots: seq<Slot>, a: AllocationBitmap, u: UpCaseTable,
                      b: Option<AllocationBitmap>, v: Option<UpCaseTable>)
    requires Clean(g, slots) && Announces(g, slots, Some(a), Some(u)) && Announces(g, slots, b, v)
    ensures b == Some(a) && v == Some(u)
  {
    hide BitmapEntry;
    hide UpcaseEntry;
    var i :| 0 <= i < |slots| && ActiveBitmap(g, slots[i]) && a == BitmapEntry(slots[i]);
    var k :| 0 <= k < |slots| && slots[k][0] == 0x82 && u == UpcaseEntry(slots[k])
             && forall j :: 0 <= j < k ==> slots[j][0] != 0x82;
  }

  lemma RootExactly(g: Geometry, disk: seq<seq<byte>>, bitmap: AllocationBitmap, upcase: UpCaseTable)
    requires Addressable(g, disk)
    ensures RootEntries(g, disk) == Ok((bitmap, upcase)) <==> Described(g, disk, bitmap, upcase)
  {
    hide Clean;
    hide Announces;
    hide RootEntries;
    hide Note;
    hide Geometry.WellFormed;
    var r := RootEntries(g, disk);
    FatsKnown(g, disk);
    if r == Ok((bitmap, upcase)) {
      var seen: seq<nat> :| Discovered(g, disk, seen) && r.value == Descriptors(g, disk, seen);
      var slots := DirSlots(HeapOf(g, disk), seen);
      FinishedExactly(g, slots);
      var n :| 0 <= n < |slots| && slots[n][0] == 0 && Clean(g, slots[..n])
               && Announces(g, slots[..n], RootScan(g, disk, seen).bitmap, RootScan(g, disk, seen).upcase);
      assert DescribedBy(g, disk, bitmap, upcase, seen, n);
    }
    if Described(g, disk, bitmap, upcase) {
      var seen: seq<nat>, n: nat :| DescribedBy(g, disk, bitmap, upcase, seen, n);
      var slots := DirSlots(HeapOf(g, disk), seen);
      FinishesAt(g, slots, n);
      AnnouncedOnce(g, slots[..n], bitmap, upcase, RootScan(g, disk, seen).bitmap, RootScan(g, disk, seen).upcase);
      RootFound(g, disk, seen);
    }
  }

  lemma FatsKnown(g: Geometry, disk: seq<seq<byte>>)
    requires Addressable(g, disk)
    ensures g.numberOfFats <= 2
  {
  }

  /** The volume that the bytes on the device describe. */
  ghost predicate VolumeOn(disk: seq<seq<byte>>, size: nat, gpt: Result<Partition>, v: MountedVolume)
    requires Sectors(disk, size) && disk != []
  {
    var g := v.geometry;
    && g.WellFormed() && g.bytesPerSector == size && Names(disk, gpt, g.partition) && Booted(disk, g)
    && Described(g, disk, v.bitmap, v.upcase)
    && (v.upcaseValid <==> exists ext: seq<nat> :: TableSound(g, disk, v.upcase, ext))
  }

  /** The mount finds a volume exactly where the device holds it. */
  lemma MountsExactly(disk: seq<seq<byte>>, size: nat, scratchLength: nat, gpt: Result<Partition>, v: MountedVolume)
    requires Sectors(disk, size) && disk != []
    ensures MountOf(disk, size, scratchLength, gpt) == Ok(v) <==>
      scratchLength >= size && VolumeOn(disk, size, gpt, v)
  {
    hide PartitionOf;
    hide GeometryOf;
    hide RootEntries;
    hide TableSound;
    hide Names;
    hide Booted;
    hide Described;
    var g := v.geometry;
    if size in {512, 1024, 2048, 4096} {
      PartitionExactly(disk, gpt, g.partition);
      var partition := PartitionOf(disk, gpt);
      if partition.Ok? {
        PartitionExactly(disk, gpt, partition.value);
        FoundInside(disk, gpt);
        GeometryExactly(disk, size, partition.value, g);
        if GeometryOf(disk, size, partition.value).Ok? {
          ParsedIsAddressable(disk, size, partition.value);
        }
      }
      if partition == Ok(g.partition) && GeometryOf(disk, size, g.partition) == Ok(g) {
        RootExactly(g, disk, v.bitmap, v.upcase);
      }
    }
  }

  method FindPartition(d: Device, gpt: Result<Partition>) returns (r: Result<Partition>)
    requires d.Valid() && d.size >= 512 && 0 < |d.disk|
    modifies d`clock
    ensures d.Valid()
    ensures Honest(d.faulty, old(d.clock), d.clock, FailedIn(d.faulty, old(d.clock), d.clock))
    ensures r == if FailedIn(d.faulty, old(d.clock), d.clock) then Err(Error.Device) else PartitionOf(d.disk, gpt)
  {
    hide FirstEntry;
    var b := d.Read(0);
    if b.None? { return Err(Error.Device); }
    if Protective(b.value) { r := gpt; } else { r := MbrPartition(b.value); }
    if r.Ok? {
      if r.value.firstLba >= |d.disk| || r.value.sectorCount > |d.disk| - r.value.firstLba {
        return Err(InvalidPartitionTable);
      }
    }
  }

  method ReadGeometry(d: Device, partition: Partition) returns (r: Result<Geometry>)
    requires d.Valid() && Inside(d.disk, partition)
    modifies d`clock
    ensures d.Valid()
    ensures Honest(d.faulty, old(d.clock), d.clock, FailedIn(d.faulty, old(d.clock), d.clock))
    ensures r ==
      if FailedIn(d.faulty, old(d.clock), d.clock) then Err(Error.Device) else GeometryOf(d.disk, d.size, partition)
  {
    hide Sound;
    hide ParseBoot;
    var offset := ChooseBoot(d, partition);
    if offset.Err? { return Err(offset.error); }
    var b := d.Read(partition.firstLba + offset.value);
    if b.None? { return Err(Error.Device); }
    r := ParseBoot(partition, b.value, d.size);
    if r == Err(Corrupt) { return Err(BootGeometryCorrupt); }
  }

  /** Mount: unless the device fails, exactly the volume that the bytes on it describe;
      and any other answer is `MountOf`'s. */
  method Mount(d: Device, scratchLength: nat, gpt: Result<Partition>) returns (r: Result<MountedVolume>)
    requires d.Valid() && d.disk != []
    modifies d`clock
    ensures d.Valid()
    ensures Honest(d.faulty, old(d.clock), d.clock, FailedIn(d.faulty, old(d.clock), d.clock))
    ensures r ==
      if FailedIn(d.faulty, old(d.clock), d.clock) then Err(Error.Device)
      else MountOf(d.disk, d.size, scratchLength, gpt)
    ensures !FailedIn(d.faulty, old(d.clock), d.clock) ==>
      forall v :: r == Ok(v) <==> scratchLength >= d.size && VolumeOn(d.disk, d.size, gpt, v)
  {
    hide VolumeOn;
    hide Failures;
    hide PartitionOf;
    hide GeometryOf;
    hide RootEntries;
    hide TableSound;
    hide Geometry.WellFormed;
    forall v
      ensures MountOf(d.disk, d.size, scratchLength, gpt) == Ok(v) <==>
        scratchLength >= d.size && VolumeOn(d.disk, d.size, gpt, v)
    {
      MountsExactly(d.disk, d.size, scratchLength, gpt, v);
    }
    if d.size !in {512, 1024, 2048, 4096} { return Err(UnsupportedSectorSize); }
    if scratchLength < d.size { return Err(InvalidSectorSize); }
    var partition := FindPartition(d, gpt);
    if partition.Err? { return Err(partition.error); }
    FoundInside(d.disk, gpt);
    var geometry := ReadGeometry(d, partition.value);
    if geometry.Err? { return Err(geometry.error); }
    var g := geometry.value;
    ParsedIsAddressable(d.disk, d.size, partition.value);
    var root := DiscoverRoot(d, g);
    if root.Err? { return Err(root.error); }
    var (bitmap, upcase) := root.value;
    var valid := ValidateUpcaseTable(d, g, upcase);
    if valid == Err(Error.Device) { return Err(Error.Device); }
    return Ok(MountedVolume(g, bitmap, upcase, valid.Ok?));
  }

  lemma FoundInside(disk: seq<seq<byte>>, gpt: Result<Partition>)
    requires 0 < |disk| && |disk[0]| >= 512 && PartitionOf(disk, gpt).Ok?
    ensures Inside(disk, PartitionOf(disk, gpt).value)
  {
  }
}
