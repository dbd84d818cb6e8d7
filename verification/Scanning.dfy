/** Scanning a directory on the device, cluster by cluster and sector by sector:
    the visitor and the case-insensitive search. */
module Scanning {
  import opened Words
  import opened Errors
  import opened Geometry
  import opened Views
  import opened Volume
  import opened Extents
  import opened EntrySets
  import opened Tree
  import opened SlotIo
  import opened Growth
  import opened Meaning
  import opened Upcase

  /** A directory extent; length zero stands for the root chain. */
  datatype Directory = Directory(
    firstCluster: nat, dataLength: nat, noFatChain: bool,
    primary: Option<EntryLocator>, stream: Option<EntryLocator>,
    entryLocs: seq<EntryLocator>, entryCount: nat)

  function RootDirectory(g: Geometry): Directory {
    Directory(g.rootCluster, 0, false, None, None, seq(19, _ => NOWHERE), 0)
  }

  /** The directory an entry describes, if it describes one. */
  function DirectoryOf(e: DirectoryEntry): Option<Directory> {
    if e.isDirectory then
      Some(Directory(e.firstCluster, e.dataLength, e.noFatChain, Some(e.primary), Some(e.stream), e.entryLocs,
                     e.entryCount))
    else None
  }

  // ----- the clusters a scan visits ----------------------------------------------------------

  /** The clusters visited so far, in order: each the successor of the one
      before, by the FAT or by adjacency, repetitions not excluded. */
  ghost predicate Trail(g: Geometry, fat: seq<u32>, dir: Directory, seen: seq<nat>)
    requires |fat| == g.clusterCount + 2
  {
    && InHeap(g, seen)
    && (seen != [] ==> seen[0] == dir.firstCluster)
    && forall i :: 0 <= i && i + 1 < |seen| ==>
         seen[i + 1] == if dir.noFatChain then seen[i] + 1 else fat[seen[i]]
  }

  /** The cluster after the last visited one. */
  ghost function Successor(g: Geometry, fat: seq<u32>, dir: Directory, seen: seq<nat>): nat
    requires |fat| == g.clusterCount + 2 && InHeap(g, seen)
  {
    if seen == [] then dir.firstCluster
    else if dir.noFatChain then seen[|seen| - 1] + 1
    else fat[seen[|seen| - 1]]
  }

  /** The FAT ends the chain after the last visited cluster. */
  ghost predicate Chained(g: Geometry, fat: seq<u32>, dir: Directory, seen: seq<nat>)
    requires |fat| == g.clusterCount + 2 && InHeap(g, seen)
  {
    seen != [] && !dir.noFatChain && Successor(g, fat, dir, seen) >= EOC_MIN
  }

  /** The trail leads nowhere, or has used up its allowance of visits. */
  ghost predicate Broken(g: Geometry, fat: seq<u32>, dir: Directory, seen: seq<nat>)
    requires |fat| == g.clusterCount + 2 && InHeap(g, seen)
  {
    && !Chained(g, fat, dir, seen)
    && (|seen| >= g.clusterCount || !g.InRange(Successor(g, fat, dir, seen)))
  }

  lemma TrailStarts(g: Geometry, fat: seq<u32>, dir: Directory)
    requires |fat| == g.clusterCount + 2
    ensures Trail(g, fat, dir, []) && Successor(g, fat, dir, []) == dir.firstCluster && !Chained(g, fat, dir, [])
  {
  }

  lemma TrailOn(g: Geometry, fat: seq<u32>, dir: Directory, seen: seq<nat>, c: nat)
    requires |fat| == g.clusterCount + 2 && Trail(g, fat, dir, seen) && 2 <= c < g.clusterCount + 2
    requires c == Successor(g, fat, dir, seen)
    ensures Trail(g, fat, dir, seen + [c])
    ensures Successor(g, fat, dir, seen + [c]) == if dir.noFatChain then c + 1 else fat[c]
    ensures Chained(g, fat, dir, seen + [c]) <==> !dir.noFatChain && fat[c] >= EOC_MIN
  {
  }

  lemma TrailInHeap(g: Geometry, fat: seq<u32>, dir: Directory, seen: seq<nat>)
    requires |fat| == g.clusterCount + 2 && Trail(g, fat, dir, seen)
    ensures InHeap(g, seen)
  {
  }

  // ----- where the slots of a visited sector are ----------------------------------------------

  /** The places of all slots of an extent. */
  ghost function LocsOf(g: Geometry, ext: seq<nat>, count: nat): (locs: seq<EntryLocator>)
    requires g.WellFormed() && g.clusterCount + 2 <= U32_MAX && InHeap(g, ext)
    requires 32 * count <= |ext| * g.BytesPerCluster()
    ensures |locs| == count && forall k :: 0 <= k < count ==> locs[k] == LocAt(g, ext, k)
  {
    seq(count, k requires 0 <= k < count => LocAt(g, ext, k))
  }

  /** Clusters that can be read as directory slots. */
  ghost predicate Scannable(g: Geometry, heap: Heap, seen: seq<nat>) {
    g.WellFormed() && g.clusterCount + 2 <= U32_MAX && InHeap(g, seen) && HeapShape(g, heap)
  }

  lemma ScannableOn(fs: FileSystem, seen: seq<nat>)
    requires fs.Valid() && InHeap(fs.g, seen)
    ensures Scannable(fs.g, fs.heap, seen)
    ensures |fs.fat| == fs.g.clusterCount + 2 && forall i :: 0 <= i < |seen| ==> seen[i] < |fs.heap|
    ensures 32 * |DirSlots(fs.heap, seen)| == |seen| * fs.g.BytesPerCluster()
  {
    fs.Basics();
    SlotCount(fs.g, fs.heap, seen);
  }

  lemma ScannableGeometry(g: Geometry, heap: Heap, seen: seq<nat>)
    requires Scannable(g, heap, seen)
    ensures g.WellFormed() && InHeap(g, seen)
  {
  }

  /** The places of the slots of the visited clusters. */
  ghost function Places(g: Geometry, heap: Heap, seen: seq<nat>): (locs: seq<EntryLocator>)
    requires Scannable(g, heap, seen)
    ensures |locs| == |DirSlots(heap, seen)|
  {
    SlotCount(g, heap, seen);
    LocsOf(g, seen, |DirSlots(heap, seen)|)
  }

  /** The sector `bytes` at `lba` holds slots from number `n` on. */
  ghost predicate SectorHolds(slots: seq<Slot>, locs: seq<EntryLocator>, n: nat, bytes: seq<byte>, lba: nat) {
    && |slots| == |locs| && n + |bytes| / 32 <= |slots|
    && forall j :: 0 <= j < |bytes| / 32 ==>
      slots[n + j] == SlotAt(bytes, j) && locs[n + j] == EntryLocator(lba, 32 * j)
  }

  lemma LocHere(g: Geometry, ext: seq<nat>, i: nat, s: nat, n: nat, j: nat)
    requires g.WellFormed() && g.clusterCount + 2 <= U32_MAX && InHeap(g, ext) && i < |ext| && s < g.sectorsPerCluster
    requires 32 * n == i * g.BytesPerCluster() + s * g.bytesPerSector && 32 * j + 32 <= g.bytesPerSector
    ensures 32 * (n + j) + 32 <= |ext| * g.BytesPerCluster() && 0 <= s * g.bytesPerSector
    ensures LocAt(g, ext, n + j) == EntryLocator(HeapLba(g, ext[i], s), 32 * j)
  {
    var cb, size, k := g.BytesPerCluster(), g.bytesPerSector, n + j;
    SectorFits(s, g.sectorsPerCluster, size);
    ChunkInside(i, |ext|, cb);
    DivModUnique(32 * k, cb, i, s * size + 32 * j);
    DivModUnique(s * size + 32 * j, size, s, 32 * j);
  }

  /** Reading sector `s` of the `i`-th cluster brings in the slots from
      `(i * cb + s * size) / 32` on. */
  lemma SectorSlots(fs: FileSystem, ext: seq<nat>, i: nat, s: nat, n: nat)
    requires fs.Valid() && InHeap(fs.g, ext) && i < |ext| && s < fs.g.sectorsPerCluster
    requires 32 * n == i * fs.g.BytesPerCluster() + s * fs.g.bytesPerSector
    ensures |fs.fat| == fs.g.clusterCount + 2 && HeapLba(fs.g, ext[i], s) < |fs.disk|
    ensures |fs.disk[HeapLba(fs.g, ext[i], s)]| == fs.g.bytesPerSector
    ensures fs.g.bytesPerSector % 32 == 0 && Scannable(fs.g, fs.heap, ext)
    ensures SectorHolds(DirSlots(fs.heap, ext), Places(fs.g, fs.heap, ext), n,
                        fs.disk[HeapLba(fs.g, ext[i], s)], HeapLba(fs.g, ext[i], s))
  {
    hide FileSystem.Valid;
    hide Geometry.WellFormed;
    hide Geometry.BytesPerCluster;
    hide LocAt;
    fs.Basics();
    SlotCount(fs.g, fs.heap, ext);
    ClusterMultiple32(fs.g);
    SectorAddress(fs, ext, i, s);
    var slots, size, lba := DirSlots(fs.heap, ext), fs.g.bytesPerSector, HeapLba(fs.g, ext[i], s);
    LocHere(fs.g, ext, i, s, n, size / 32 - 1);
    forall j | 0 <= j < size / 32
      ensures n + j < |slots| && slots[n + j] == SlotAt(fs.disk[lba], j)
      ensures LocAt(fs.g, ext, n + j) == EntryLocator(lba, 32 * j)
    {
      LocHere(fs.g, ext, i, s, n, j);
      SlotReads(fs, ext, n + j);
    }
  }

  lemma SectorAddress(fs: FileSystem, ext: seq<nat>, i: nat, s: nat)
    requires fs.Valid() && InHeap(fs.g, ext) && i < |ext| && s < fs.g.sectorsPerCluster
    ensures HeapLba(fs.g, ext[i], s) < |fs.disk| && |fs.disk[HeapLba(fs.g, ext[i], s)]| == fs.g.bytesPerSector
    ensures fs.g.ClusterLba(ext[i]) == Some(HeapLba(fs.g, ext[i], 0))
    ensures HeapLba(fs.g, ext[i], 0) + s == HeapLba(fs.g, ext[i], s)
  {
    HeapAddress(fs.g, ext[i], s);
  }

  /** Visiting one more cluster leaves the earlier slots where they were. */
  lemma SlotsGrow(fs: FileSystem, seen: seq<nat>, c: nat)
    requires fs.Valid() && InHeap(fs.g, seen + [c])
    ensures InHeap(fs.g, seen) && fs.g.WellFormed() && fs.g.clusterCount + 2 <= U32_MAX
    ensures forall i :: 0 <= i < |seen + [c]| ==> (seen + [c])[i] < |fs.heap|
    ensures 32 * |DirSlots(fs.heap, seen)| == |seen| * fs.g.BytesPerCluster()
    ensures 32 * |DirSlots(fs.heap, seen + [c])| == (|seen| + 1) * fs.g.BytesPerCluster()
    ensures var a, b := DirSlots(fs.heap, seen), DirSlots(fs.heap, seen + [c]);
            a <= b && LocsOf(fs.g, seen, |a|) <= LocsOf(fs.g, seen + [c], |b|)
  {
    hide FileSystem.Valid;
    hide Geometry.WellFormed;
    hide Geometry.BytesPerCluster;
    fs.Basics();
    assert forall i :: 0 <= i < |seen| ==> seen[i] == (seen + [c])[i];
    SlotCount(fs.g, fs.heap, seen);
    SlotCount(fs.g, fs.heap, seen + [c]);
    var a, b := DirSlots(fs.heap, seen), DirSlots(fs.heap, seen + [c]);
    assert Flat(fs.heap, seen + [c]) == Flat(fs.heap, seen) + fs.heap[c] by { assert (seen + [c])[..|seen|] == seen; }
    PrefixSlots(Flat(fs.heap, seen), fs.heap[c]);
    forall k | 0 <= k < |a|
      ensures LocAt(fs.g, seen, k) == LocAt(fs.g, seen + [c], k)
    {
      SlotCluster(fs.g, seen, k);
    }
  }

  lemma SlotCluster(g: Geometry, ext: seq<nat>, k: nat)
    requires g.WellFormed() && 32 * k < |ext| * g.BytesPerCluster()
    ensures g.BytesPerCluster() > 0 && 0 <= 32 * k / g.BytesPerCluster() < |ext|
  {
    BytesPositive(g);
    Position(32 * k, g.BytesPerCluster(), |ext|);
  }

  lemma PrefixSlots(a: seq<byte>, b: seq<byte>)
    requires |a| % 32 == 0
    ensures SlotsOf(a) <= SlotsOf(a + b)
  {
    forall k | 0 <= k < |a| / 32
      ensures SlotAt(a, k) == SlotAt(a + b, k)
    {
    }
  }

  // ----- progress of a scan ---------------------------------------------------------------------

  /** The first `n` slots are in use and have been pushed into the parser, which
      started as `start`, is now `p`, and has reported `found`. */
  ghost predicate Scanned(start: Parser, slots: seq<Slot>, locs: seq<EntryLocator>, n: nat, p: Parser,
                          found: seq<DirectoryEntry>) {
    && |start.entry.entryLocs| == 19 && n <= |slots| == |locs|
    && (forall i :: 0 <= i < n ==> slots[i][0] != 0)
    && Feed(start, slots[..n], locs[..n]) == Ok(Fed(p, found))
  }

  lemma ScanBegins(start: Parser, slots: seq<Slot>, locs: seq<EntryLocator>)
    requires |start.entry.entryLocs| == 19 && |slots| == |locs|
    ensures Scanned(start, slots, locs, 0, start, [])
  {
  }

  lemma ScanOn(start: Parser, slots: seq<Slot>, locs: seq<EntryLocator>, n: nat, p: Parser, found: seq<DirectoryEntry>)
    requires Scanned(start, slots, locs, n, p, found) && n < |slots| && slots[n][0] != 0
    ensures |p.entry.entryLocs| == 19
    ensures var (q, out) := PushStep(p, slots[n], locs[n]);
            && (out == Ok(None) ==> Scanned(start, slots, locs, n + 1, q, found))
            && (out.Ok? && out.value.Some? ==> Scanned(start, slots, locs, n + 1, q, found + [out.value.value]))
            && (out.Err? ==> Feed(start, slots[..n + 1], locs[..n + 1]).Err?)
  {
    hide PushStep;
    assert slots[..n + 1][..n] == slots[..n] && locs[..n + 1][..n] == locs[..n];
    FeedLast(start, slots[..n + 1], locs[..n + 1]);
  }

  lemma ScanGrow(start: Parser, a: seq<Slot>, la: seq<EntryLocator>, b: seq<Slot>, lb: seq<EntryLocator>, n: nat,
                 p: Parser, found: seq<DirectoryEntry>)
    requires Scanned(start, a, la, n, p, found) && a <= b && la <= lb && |b| == |lb|
    ensures Scanned(start, b, lb, n, p, found)
  {
    assert a[..n] == b[..n] && la[..n] == lb[..n];
  }

  /** The parser fails on slot `n`. */
  ghost predicate ParseFails(start: Parser, slots: seq<Slot>, locs: seq<EntryLocator>, n: nat) {
    |start.entry.entryLocs| == 19 && n < |slots| == |locs| && Feed(start, slots[..n + 1], locs[..n + 1]).Err?
  }

  /** The next slot is unused. */
  ghost predicate AtEnd(slots: seq<Slot>, n: nat) {
    n < |slots| && slots[n][0] == 0
  }

  lemma ClusterAgain(x: nat, cb: nat)
    requires cb > 0 && x % cb == 0 && x > 0
    ensures x >= cb && (x - cb) % cb == 0
  {
    var q := x / cb;
    assert x == q * cb;
    assert x - cb == (q - 1) * cb;
    MulMonotone(0, q - 1, cb);
    DivModUnique(x - cb, cb, q - 1, 0);
  }

  // ----- visiting ----------------------------------------------------------------------------------

  /** The visitor wanted to go on after each of these. */
  ghost predicate AllGo(found: seq<DirectoryEntry>, goOn: DirectoryEntry -> bool) {
    forall i :: 0 <= i < |found| ==> goOn(found[i])
  }

  /** The visitor wanted to go on after each of these but the last. */
  ghost predicate LastStops(found: seq<DirectoryEntry>, goOn: DirectoryEntry -> bool) {
    && found != [] && !goOn(found[|found| - 1])
    && forall i :: 0 <= i < |found| - 1 ==> goOn(found[i])
  }

  /** How a visit stands: still going (`more`), or stopped by the visitor or by
      an unused slot. */
  ghost predicate Visited(slots: seq<Slot>, n: nat, found: seq<DirectoryEntry>, goOn: DirectoryEntry -> bool,
                          more: bool) {
    if more then AllGo(found, goOn)
    else LastStops(found, goOn) || (AllGo(found, goOn) && AtEnd(slots, n))
  }

  /** Push the slots of one sector. */
  method VisitSector(parser: EntrySet, bytes: seq<byte>, lba: nat, found: seq<DirectoryEntry>,
                     goOn: DirectoryEntry -> bool, ghost start: Parser, ghost slots: seq<Slot>,
                     ghost locs: seq<EntryLocator>, ghost n0: nat)
    returns (r: Result<seq<DirectoryEntry>>, more: bool, ghost n: nat)
    requires SectorHolds(slots, locs, n0, bytes, lba)
    requires Scanned(start, slots, locs, n0, parser.State(), found) && AllGo(found, goOn)
    modifies parser
    ensures r.Ok? ==>
      && Scanned(start, slots, locs, n, parser.State(), r.value) && Visited(slots, n, r.value, goOn, more)
      && (more ==> n == n0 + |bytes| / 32)
    ensures r.Err? ==> r.error == Corrupt && ParseFails(start, slots, locs, n)
  {
    hide PushStep;
    hide Feed;
    n := n0;
    var seen := found;
    for slot := 0 to |bytes| / 32
      invariant n == n0 + slot
      invariant Scanned(start, slots, locs, n, parser.State(), seen) && AllGo(seen, goOn)
    {
      var raw: Slot := bytes[32 * slot..32 * slot + 32];
      assert raw == SlotAt(bytes, slot) == slots[n0 + slot] && locs[n] == EntryLocator(lba, 32 * slot);
      if raw[0] == 0 { return Ok(seen), false, n; }
      ScanOn(start, slots, locs, n, parser.State(), seen);
      PushFails(parser.State(), raw, EntryLocator(lba, 32 * slot));
      var parsed := parser.Push(raw, EntryLocator(lba, 32 * slot));
      if parsed.Err? { return Err(parsed.error), false, n; }
      n := n + 1;
      if parsed.value.Some? {
        seen := seen + [parsed.value.value];
        if !goOn(parsed.value.value) { return Ok(seen), false, n; }
      }
    }
    return Ok(seen), true, n;
  }

  /** Read a sector and push its slots. */
  method VisitRead(fs: FileSystem, parser: EntrySet, lba: nat, usable: nat, found: seq<DirectoryEntry>,
                   goOn: DirectoryEntry -> bool, ghost start: Parser, ghost slots: seq<Slot>,
                   ghost locs: seq<EntryLocator>, ghost n0: nat)
    returns (r: Result<seq<DirectoryEntry>>, more: bool, ghost n: nat)
    requires fs.Valid() && lba < |fs.disk| && usable == |fs.disk[lba]|
    requires SectorHolds(slots, locs, n0, fs.disk[lba], lba)
    requires Scanned(start, slots, locs, n0, parser.State(), found) && AllGo(found, goOn)
    modifies fs`clock, fs`scratch, parser
    ensures fs.Valid()
    ensures r.Ok? ==>
      && Scanned(start, slots, locs, n, parser.State(), r.value) && Visited(slots, n, r.value, goOn, more)
      && (more ==> n == n0 + usable / 32)
    ensures r.Err? && r.error != Device ==> r.error == Corrupt && ParseFails(start, slots, locs, n)
    ensures Honest(fs.faulty, old(fs.clock), fs.clock, r == Err(Device))
  {
    hide Failures;
    hide FileSystem.Valid;
    hide Scanned;
    hide Visited;
    hide AllGo;
    hide ParseFails;
    hide SectorHolds;
    n, more := n0, true;
    var ok := fs.ReadSector(lba);
    if !ok { return Err(Device), false, n; }
    assert fs.scratch[..usable] == fs.scratch;
    r, more, n := VisitSector(parser, fs.scratch[..usable], lba, found, goOn, start, slots, locs, n);
  }

  lemma PushFails(p: Parser, raw: Slot, loc: EntryLocator)
    requires |p.entry.entryLocs| == 19
    ensures PushStep(p, raw, loc).1.Err? ==> PushStep(p, raw, loc).1.error == Corrupt
  {
  }

  /** Visit one cluster, the last of `ext`. */
  method VisitCluster(fs: FileSystem, parser: EntrySet, dir: Directory, cluster: nat, remaining: nat,
                      found: seq<DirectoryEntry>, goOn: DirectoryEntry -> bool, ghost start: Parser,
                      ghost ext: seq<nat>, ghost n0: nat)
    returns (r: Result<seq<DirectoryEntry>>, more: bool, left: nat, ghost n: nat)
    requires fs.Valid() && Scannable(fs.g, fs.heap, ext) && ext != [] && ext[|ext| - 1] == cluster
    requires 32 * n0 == (|ext| - 1) * fs.g.BytesPerCluster()
    requires dir.dataLength != 0 ==> remaining >= fs.g.BytesPerCluster()
    requires Scanned(start, DirSlots(fs.heap, ext), Places(fs.g, fs.heap, ext), n0, parser.State(), found)
    requires AllGo(found, goOn)
    modifies fs`clock, fs`scratch, parser
    ensures fs.Valid()
    ensures dir.dataLength != 0 && r.Ok? && more ==> left == remaining - fs.g.BytesPerCluster()
    ensures r.Ok? ==>
      && Scanned(start, DirSlots(fs.heap, ext), Places(fs.g, fs.heap, ext), n, parser.State(), r.value)
      && Visited(DirSlots(fs.heap, ext), n, r.value, goOn, more)
      && (more ==> n == |DirSlots(fs.heap, ext)|)
    ensures r.Err? && r.error != Device ==>
      r.error == Corrupt && ParseFails(start, DirSlots(fs.heap, ext), Places(fs.g, fs.heap, ext), n)
    ensures Honest(fs.faulty, old(fs.clock), fs.clock, r == Err(Device))
  {
    hide Failures;
    hide FileSystem.Valid;
    hide Geometry.WellFormed;
    hide Geometry.BytesPerCluster;
    hide Feed;
    hide Scanned;
    hide Visited;
    hide DirSlots;
    hide Places;
    hide Scannable;
    hide AllGo;
    hide SectorHolds;
    hide HeapLba;
    hide ParseFails;
    var size: nat := fs.g.bytesPerSector;
    ScannableGeometry(fs.g, fs.heap, ext);
    ScannableOn(fs, ext);
    ghost var slots, locs := DirSlots(fs.heap, ext), Places(fs.g, fs.heap, ext);
    ghost var cb := fs.g.BytesPerCluster();
    n, left, more := n0, remaining, true;
    OneSector(fs.g);
    SectorAddress(fs, ext, |ext| - 1, 0);
    var base := fs.g.ClusterLba(cluster);
    if base.None? { return Err(Corrupt), false, left, n; }
    var seen := found;
    assert Visited(slots, n, seen, goOn, true) by { VisitGoes(slots, n, seen, goOn); }
    for sector := 0 to fs.g.sectorsPerCluster
      invariant Honest(fs.faulty, old(fs.clock), fs.clock, false)
      invariant fs.Valid() && 32 * n == (|ext| - 1) * cb + sector * size && more
      invariant dir.dataLength != 0 ==> left == remaining - sector * size
      invariant Scanned(start, slots, locs, n, parser.State(), seen) && Visited(slots, n, seen, goOn, true)
    {
      SectorRoom(fs.g, sector);
      if dir.dataLength != 0 && left == 0 { return Ok(seen), true, left, n; }
      SectorAddress(fs, ext, |ext| - 1, sector);
      SectorSlots(fs, ext, |ext| - 1, sector, n);
      var usable := if dir.dataLength == 0 then size else Min(size, left);
      assert AllGo(seen, goOn) by { VisitGoing(slots, n, seen, goOn); }
      var out;
      out, more, n := VisitRead(fs, parser, base.value + sector, usable, seen, goOn, start, slots, locs, n);
      if out.Err? { return out, false, left, n; }
      seen := out.value;
      if !more { return Ok(seen), false, left, n; }
      if dir.dataLength != 0 { left := left - usable; }
    }
    LastSector(fs.g, |ext|, |slots|, n);
    return Ok(seen), true, left, n;
  }

  lemma VisitGoes(slots: seq<Slot>, n: nat, found: seq<DirectoryEntry>, goOn: DirectoryEntry -> bool)
    requires AllGo(found, goOn)
    ensures Visited(slots, n, found, goOn, true)
  {
  }

  lemma VisitGoing(slots: seq<Slot>, n: nat, found: seq<DirectoryEntry>, goOn: DirectoryEntry -> bool)
    requires Visited(slots, n, found, goOn, true)
    ensures AllGo(found, goOn)
  {
  }

  lemma OneSector(g: Geometry)
    requires g.WellFormed()
    ensures 0 < g.sectorsPerCluster
  {
  }

  lemma SectorRoom(g: Geometry, sector: nat)
    requires g.WellFormed() && sector < g.sectorsPerCluster
    ensures sector * g.bytesPerSector + g.bytesPerSector <= g.BytesPerCluster()
    ensures (sector + 1) * g.bytesPerSector == sector * g.bytesPerSector + g.bytesPerSector
    ensures g.bytesPerSector > 0 && g.bytesPerSector % 32 == 0 && g.bytesPerSector / 32 * 32 == g.bytesPerSector
  {
    SectorFits(sector, g.sectorsPerCluster, g.bytesPerSector);
  }

  lemma LastSector(g: Geometry, n: nat, slots: nat, at: nat)
    requires n > 0 && 32 * slots == n * g.BytesPerCluster()
    requires 32 * at == (n - 1) * g.BytesPerCluster() + g.sectorsPerCluster * g.bytesPerSector
    ensures at == slots
  {
    var cb := g.BytesPerCluster();
    assert n * cb == (n - 1) * cb + cb;
    assert g.sectorsPerCluster * g.bytesPerSector == cb;
  }

  /** The whole length of the directory has been visited. */
  ghost predicate Exhausted(g: Geometry, dir: Directory, seen: seq<nat>) {
    && (dir.dataLength != 0 || dir.noFatChain) && seen != []
    && |seen| * g.BytesPerCluster() >= dir.dataLength
  }

  /** A visit ended here, with all of the trail's slots scanned or with a reason
      not to scan them. */
  ghost predicate VisitOver(g: Geometry, fat: seq<u32>, dir: Directory, goOn: DirectoryEntry -> bool,
                            found: seq<DirectoryEntry>, seen: seq<nat>, slots: seq<Slot>, n: nat)
    requires |fat| == g.clusterCount + 2 && InHeap(g, seen)
  {
    || LastStops(found, goOn)
    || (AllGo(found, goOn) && AtEnd(slots, n))
    || (AllGo(found, goOn) && n == |slots| && (Chained(g, fat, dir, seen) || Exhausted(g, dir, seen)))
  }

  /** A complete account of a successful visit. */
  ghost predicate VisitDone(g: Geometry, fat: seq<u32>, heap: Heap, dir: Directory, goOn: DirectoryEntry -> bool,
                            start: Parser, found: seq<DirectoryEntry>, seen: seq<nat>, n: nat, p: Parser)
    requires Scannable(g, heap, seen) && |fat| == g.clusterCount + 2
  {
    && Scanned(start, DirSlots(heap, seen), Places(g, heap, seen), n, p, found)
    && VisitOver(g, fat, dir, goOn, found, seen, DirSlots(heap, seen), n)
  }

  /** The reasons a scan can find a directory corrupt: the clusters lead nowhere
      or on for too long, or the slots make the parser fail. */
  ghost predicate ScanFails(g: Geometry, fat: seq<u32>, heap: Heap, dir: Directory, start: Parser, seen: seq<nat>,
                            n: nat)
    requires Scannable(g, heap, seen) && |fat| == g.clusterCount + 2
  {
    || (Broken(g, fat, dir, seen) && !(dir.noFatChain && Exhausted(g, dir, seen)))
    || ParseFails(start, DirSlots(heap, seen), Places(g, heap, seen), n)
  }

  /** The scan state between two clusters, over the clusters `seen`. */
  ghost predicate Between(g: Geometry, heap: Heap, start: Parser, found: seq<DirectoryEntry>, seen: seq<nat>, p: Parser)
    requires Scannable(g, heap, seen)
  {
    Scanned(start, DirSlots(heap, seen), Places(g, heap, seen), |DirSlots(heap, seen)|, p, found)
  }

  lemma ScanStart(g: Geometry, heap: Heap, start: Parser, none: seq<nat>)
    requires Scannable(g, heap, none) && none == [] && |start.entry.entryLocs| == 19
    ensures Between(g, heap, start, [], none, start)
  {
    SlotCount(g, heap, none);
    ScanBegins(start, DirSlots(heap, none), Places(g, heap, none));
  }

  /** One more cluster to scan: the scan so far, over the longer trail. */
  lemma ScanOpens(fs: FileSystem, start: Parser, found: seq<DirectoryEntry>, seen: seq<nat>, c: nat, p: Parser)
    returns (n: nat)
    requires fs.Valid() && Scannable(fs.g, fs.heap, seen) && 2 <= c < fs.g.clusterCount + 2
    requires Between(fs.g, fs.heap, start, found, seen, p)
    ensures Scannable(fs.g, fs.heap, seen + [c]) && |seen + [c]| == |seen| + 1
    ensures 32 * n == |seen| * fs.g.BytesPerCluster()
    ensures Scanned(start, DirSlots(fs.heap, seen + [c]), Places(fs.g, fs.heap, seen + [c]), n, p, found)
  {
    hide FileSystem.Valid;
    hide Scanned;
    hide Geometry.WellFormed;
    hide Geometry.BytesPerCluster;
    assert InHeap(fs.g, seen + [c]);
    SlotsGrow(fs, seen, c);
    n := |DirSlots(fs.heap, seen)|;
    ScanGrow(start, DirSlots(fs.heap, seen), Places(fs.g, fs.heap, seen),
             DirSlots(fs.heap, seen + [c]), Places(fs.g, fs.heap, seen + [c]), n, p, found);
  }

  lemma ScanCloses(g: Geometry, heap: Heap, start: Parser, found: seq<DirectoryEntry>, seen: seq<nat>, n: nat,
                   p: Parser)
    requires Scannable(g, heap, seen) && n == |DirSlots(heap, seen)|
    requires Scanned(start, DirSlots(heap, seen), Places(g, heap, seen), n, p, found)
    ensures Between(g, heap, start, found, seen, p)
  {
  }

  lemma ScanStuck(g: Geometry, fat: seq<u32>, heap: Heap, dir: Directory, start: Parser, seen: seq<nat>, n: nat)
    requires Scannable(g, heap, seen) && |fat| == g.clusterCount + 2
    requires !Chained(g, fat, dir, seen) && (|seen| >= g.clusterCount || !g.InRange(Successor(g, fat, dir, seen)))
    requires dir.noFatChain && seen != [] ==> |seen| * g.BytesPerCluster() < dir.dataLength
    ensures ScanFails(g, fat, heap, dir, start, seen, n)
  {
  }

  lemma ScanStops(g: Geometry, fat: seq<u32>, heap: Heap, dir: Directory, start: Parser, seen: seq<nat>, n: nat)
    requires Scannable(g, heap, seen) && |fat| == g.clusterCount + 2
    requires ParseFails(start, DirSlots(heap, seen), Places(g, heap, seen), n)
    ensures ScanFails(g, fat, heap, dir, start, seen, n)
  {
  }

  lemma VisitStopped(g: Geometry, fat: seq<u32>, heap: Heap, dir: Directory, goOn: DirectoryEntry -> bool,
                     start: Parser, found: seq<DirectoryEntry>, seen: seq<nat>, n: nat, p: Parser)
    requires Scannable(g, heap, seen) && |fat| == g.clusterCount + 2
    requires Scanned(start, DirSlots(heap, seen), Places(g, heap, seen), n, p, found)
    requires Visited(DirSlots(heap, seen), n, found, goOn, false)
    ensures VisitDone(g, fat, heap, dir, goOn, start, found, seen, n, p)
  {
  }

  lemma VisitEnds(g: Geometry, fat: seq<u32>, heap: Heap, dir: Directory, goOn: DirectoryEntry -> bool, start: Parser,
                  found: seq<DirectoryEntry>, seen: seq<nat>, p: Parser) returns (n: nat)
    requires Scannable(g, heap, seen) && |fat| == g.clusterCount + 2
    requires Between(g, heap, start, found, seen, p) && AllGo(found, goOn)
    requires || Chained(g, fat, dir, seen)
             || ((dir.dataLength != 0 || dir.noFatChain) && seen != []
                 && |seen| * g.BytesPerCluster() >= dir.dataLength)
    ensures VisitDone(g, fat, heap, dir, goOn, start, found, seen, n, p)
  {
    n := |DirSlots(heap, seen)|;
  }

  lemma NoneGo(goOn: DirectoryEntry -> bool)
    ensures AllGo([], goOn)
  {
  }

  /** Show a visitor the entries of a directory, until it has had enough.  The
      visit ends within `clusterCount` clusters on any FAT whatsoever. */
  method ReadDirectory(fs: FileSystem, dir: Directory, goOn: DirectoryEntry -> bool)
    returns (r: Result<seq<DirectoryEntry>>, ghost seen: seq<nat>, ghost n: nat, ghost p: Parser)
    requires fs.Valid() && fs.g.BytesPerCluster() > 0 && dir.dataLength % fs.g.BytesPerCluster() == 0
    modifies fs`clock, fs`scratch
    ensures fs.Valid() && |fs.fat| == fs.g.clusterCount + 2
    ensures Trail(fs.g, fs.fat, dir, seen) && |seen| <= fs.g.clusterCount
    ensures Scannable(fs.g, fs.heap, seen)
    ensures r.Ok? ==> VisitDone(fs.g, fs.fat, fs.heap, dir, goOn, FRESH_PARSER, r.value, seen, n, p)
    ensures r.Err? && r.error != Device ==>
      r.error == Corrupt && ScanFails(fs.g, fs.fat, fs.heap, dir, FRESH_PARSER, seen, n)
    ensures Honest(fs.faulty, old(fs.clock), fs.clock, r == Err(Device))
  {
    hide Failures;
    hide FileSystem.Valid;
    hide Geometry.WellFormed;
    hide Geometry.BytesPerCluster;
    hide VisitDone;
    hide ScanFails;
    hide Between;
    hide Scanned;
    hide Trail;
    hide Chained;
    hide Successor;
    hide Exhausted;
    hide Visited;
    hide AllGo;
    hide DirSlots;
    hide LocsOf;
    hide Scannable;
    fs.Basics();
    assert AllGo([], goOn) by { NoneGo(goOn); }
    TrailStarts(fs.g, fs.fat, dir);
    var cluster := dir.firstCluster;
    var remaining: nat := dir.dataLength;
    var parser := new EntrySet();
    var found: seq<DirectoryEntry> := [];
    var visited: nat := 0;
    seen, n, p := [], 0, FRESH_PARSER;
    ScannableOn(fs, seen);
    ScanStart(fs.g, fs.heap, FRESH_PARSER, seen);
    while true
      invariant Honest(fs.faulty, old(fs.clock), fs.clock, false)
      invariant fs.Valid() && |fs.fat| == fs.g.clusterCount + 2 && |seen| == visited <= fs.g.clusterCount
      invariant Trail(fs.g, fs.fat, dir, seen) && InHeap(fs.g, seen)
      invariant cluster == Successor(fs.g, fs.fat, dir, seen) && !Chained(fs.g, fs.fat, dir, seen)
      invariant dir.dataLength != 0 ==> remaining % fs.g.BytesPerCluster() == 0
      invariant remaining == if dir.dataLength == 0 then 0 else dir.dataLength - |seen| * fs.g.BytesPerCluster()
      invariant dir.noFatChain && seen != [] ==> |seen| * fs.g.BytesPerCluster() < dir.dataLength
      invariant Scannable(fs.g, fs.heap, seen) && Between(fs.g, fs.heap, FRESH_PARSER, found, seen, parser.State())
      invariant AllGo(found, goOn)
      decreases fs.g.clusterCount - visited
    {
      visited := visited + 1;
      if visited > fs.g.clusterCount || fs.g.ClusterLba(cluster).None? {
        ScanStuck(fs.g, fs.fat, fs.heap, dir, FRESH_PARSER, seen, n);
        return Err(Corrupt), seen, n, p;
      }
      if dir.dataLength != 0 && remaining == 0 {
        p := parser.State();
        n := VisitEnds(fs.g, fs.fat, fs.heap, dir, goOn, FRESH_PARSER, found, seen, p);
        return Ok(found), seen, n, p;
      }
      if dir.dataLength != 0 { ClusterAgain(remaining, fs.g.BytesPerCluster()); }
      n := ScanOpens(fs, FRESH_PARSER, found, seen, cluster, parser.State());
      NextMultiple(|seen|, fs.g.BytesPerCluster());
      TrailOn(fs.g, fs.fat, dir, seen, cluster);
      seen := seen + [cluster];
      TrailInHeap(fs.g, fs.fat, dir, seen);
      var out, more, left;
      out, more, left, n := VisitCluster(fs, parser, dir, cluster, remaining, found, goOn, FRESH_PARSER, seen, n);
      p := parser.State();
      if out.Err? {
        if out.error != Device { ScanStops(fs.g, fs.fat, fs.heap, dir, FRESH_PARSER, seen, n); }
        return out, seen, n, p;
      }
      found := out.value;
      if !more {
        VisitStopped(fs.g, fs.fat, fs.heap, dir, goOn, FRESH_PARSER, found, seen, n, p);
        return Ok(found), seen, n, p;
      }
      VisitGoing(DirSlots(fs.heap, seen), n, found, goOn);
      ScanCloses(fs.g, fs.heap, FRESH_PARSER, found, seen, n, p);
      if dir.dataLength != 0 { remaining := left; }
      if dir.noFatChain {
        if remaining == 0 {
          n := VisitEnds(fs.g, fs.fat, fs.heap, dir, goOn, FRESH_PARSER, found, seen, p);
          return Ok(found), seen, n, p;
        }
        cluster := cluster + 1;
      } else {
        var next := fs.NextCluster(cluster);
        if next.Err? { return Err(next.error), seen, n, p; }
        cluster := next.value;
        if cluster >= EOC_MIN {
          n := VisitEnds(fs.g, fs.fat, fs.heap, dir, goOn, FRESH_PARSER, found, seen, p);
          return Ok(found), seen, n, p;
        }
        if cluster < 2 {
          ScanStuck(fs.g, fs.fat, fs.heap, dir, FRESH_PARSER, seen, n);
          return Err(Corrupt), seen, n, p;
        }
      }
    }
  }

  // ----- searching by name ---------------------------------------------------------------------------

  /** None of these records has the wanted name. */
  ghost predicate Missed(valid: bool, table: seq<byte>, found: seq<DirectoryEntry>, wanted: seq<u16>) {
    forall i :: 0 <= i < |found| ==> SameName(valid, table, NameUtf16(found[i]), wanted) == Ok(false)
  }

  /** The last of these records is the first one whose comparison with the
      wanted name answers `answer`; the ones before have other names. */
  ghost predicate Hit(valid: bool, table: seq<byte>, found: seq<DirectoryEntry>, wanted: seq<u16>,
                      answer: Result<bool>) {
    && found != [] && SameName(valid, table, NameUtf16(found[|found| - 1]), wanted) == answer
    && Missed(valid, table, found[..|found| - 1], wanted)
  }

  lemma MissedMore(valid: bool, table: seq<byte>, found: seq<DirectoryEntry>, e: DirectoryEntry, wanted: seq<u16>)
    requires Missed(valid, table, found, wanted)
    ensures SameName(valid, table, NameUtf16(e), wanted) == Ok(false) ==> Missed(valid, table, found + [e], wanted)
    ensures Hit(valid, table, found + [e], wanted, SameName(valid, table, NameUtf16(e), wanted))
  {
    hide SameName;
    assert (found + [e])[..|found|] == found;
  }

  /** How a search stands after a sector: `out` says what to answer, if anything. */
  ghost predicate Sought(valid: bool, table: seq<byte>, wanted: seq<u16>, slots: seq<Slot>, n: nat,
                         found: seq<DirectoryEntry>, out: Option<Result<Option<DirectoryEntry>>>) {
    match out
    case None => Missed(valid, table, found, wanted)
    case Some(Ok(None)) => Missed(valid, table, found, wanted) && AtEnd(slots, n)
    case Some(Ok(Some(e))) => Hit(valid, table, found, wanted, Ok(true)) && e == found[|found| - 1]
    case Some(Err(error)) => Hit(valid, table, found, wanted, Err(error))
  }

  /** The search has found an entry. */
  predicate Answered(out: Option<Result<Option<DirectoryEntry>>>) {
    out.Some? && (out.value.Err? || out.value.value.Some?)
  }

  /** A report leaves the parser between entry sets. */
  lemma ReportEndsSet(p: Parser, raw: Slot, loc: EntryLocator)
    requires |p.entry.entryLocs| == 19
    ensures var (q, out) := PushStep(p, raw, loc); out.Ok? && out.value.Some? ==> q.secondaryLeft == 0
  {
  }

  /** Compare the entries completed in one sector.  Folding a name reads the
      up-case table into the scratch buffer, so the sector is read again. */
  method MatchSector(fs: FileSystem, parser: EntrySet, lba: nat, usable: nat, wanted: seq<u16>, ghost start: Parser,
                     ghost slots: seq<Slot>, ghost locs: seq<EntryLocator>, ghost n0: nat,
                     ghost found0: seq<DirectoryEntry>)
    returns (out: Option<Result<Option<DirectoryEntry>>>, ghost n: nat, ghost found: seq<DirectoryEntry>)
    requires TableOk(fs) && lba < |fs.disk| && usable == |fs.disk[lba]| == |fs.scratch|
    requires fs.scratch == fs.disk[lba] && |parser.entry.entryLocs| == 19
    requires SectorHolds(slots, locs, n0, fs.disk[lba], lba)
    requires Scanned(start, slots, locs, n0, parser.State(), found0)
    requires Missed(fs.upcaseValid, Table(fs), found0, wanted)
    modifies fs`clock, fs`scratch, parser
    ensures TableOk(fs) && |parser.entry.entryLocs| == 19
    ensures || out == Some(Err(Device))
            || (out == Some(Err(Corrupt)) && ParseFails(start, slots, locs, n))
            || (&& Scanned(start, slots, locs, n, parser.State(), found)
                && Sought(fs.upcaseValid, Table(fs), wanted, slots, n, found, out)
                && (Answered(out) ==> parser.secondaryLeft == 0))
    ensures out.None? ==> n == n0 + usable / 32
    ensures Honest(fs.faulty, old(fs.clock), fs.clock, out == Some(Err(Device)))
  {
    hide Failures;
    hide FileSystem.Valid;
    hide OwnOk;
    hide TreeOk;
    hide Content;
    hide PushStep;
    hide Feed;
    hide SameName;
    hide Missed;
    hide Hit;
    n, found := n0, found0;
    ghost var bytes := fs.disk[lba];
    for slot := 0 to usable / 32
      invariant Honest(fs.faulty, old(fs.clock), fs.clock, false)
      invariant TableOk(fs) && Table(fs) == old(Table(fs)) && fs.scratch == bytes && n == n0 + slot
      invariant |parser.entry.entryLocs| == 19
      invariant Scanned(start, slots, locs, n, parser.State(), found)
      invariant Missed(fs.upcaseValid, Table(fs), found, wanted)
    {
      var offset := slot * 32;
      assert SlotAt(bytes, slot) == slots[n0 + slot] && locs[n] == EntryLocator(lba, offset);
      if fs.scratch[offset] == 0 { return Some(Ok(None)), n, found; }
      var raw: Slot := fs.scratch[offset..offset + 32];
      ScanOn(start, slots, locs, n, parser.State(), found);
      PushFails(parser.State(), raw, EntryLocator(lba, offset));
      ReportEndsSet(parser.State(), raw, EntryLocator(lba, offset));
      var parsed := parser.Push(raw, EntryLocator(lba, offset));
      if parsed.Err? { return Some(Err(parsed.error)), n, found; }
      n := n + 1;
      if parsed.value.Some? {
        var e := parsed.value.value;
        MissedMore(fs.upcaseValid, Table(fs), found, e, wanted);
        found := found + [e];
        var same := NamesMatch(fs, NameUtf16(e), wanted);
        if same.Err? { return Some(Err(same.error)), n, found; }
        if same.value { return Some(Ok(Some(e))), n, found; }
        var ok := fs.ReadSector(lba);
        if !ok { return Some(Err(Device)), n, found; }
      }
    }
    return None, n, found;
  }

  /** Search one cluster, the last of `ext`. */
  method MatchCluster(fs: FileSystem, parser: EntrySet, dir: Directory, cluster: nat, remaining: nat, wanted: seq<u16>,
                      ghost start: Parser, ghost ext: seq<nat>, ghost n0: nat, ghost found0: seq<DirectoryEntry>)
    returns (out: Option<Result<Option<DirectoryEntry>>>, left: nat, ghost n: nat, ghost found: seq<DirectoryEntry>)
    requires TableOk(fs) && Scannable(fs.g, fs.heap, ext) && ext != [] && ext[|ext| - 1] == cluster
    requires 32 * n0 == (|ext| - 1) * fs.g.BytesPerCluster()
    requires dir.dataLength != 0 ==> remaining >= fs.g.BytesPerCluster()
    requires Scanned(start, DirSlots(fs.heap, ext), Places(fs.g, fs.heap, ext), n0, parser.State(), found0)
    requires Missed(fs.upcaseValid, Table(fs), found0, wanted) && |parser.entry.entryLocs| == 19
    modifies fs`clock, fs`scratch, parser
    ensures TableOk(fs) && |parser.entry.entryLocs| == 19
    ensures || out == Some(Err(Device))
            || (out == Some(Err(Corrupt)) && ParseFails(start, DirSlots(fs.heap, ext), Places(fs.g, fs.heap, ext), n))
            || (&& Scanned(start, DirSlots(fs.heap, ext), Places(fs.g, fs.heap, ext), n, parser.State(), found)
                && Sought(fs.upcaseValid, Table(fs), wanted, DirSlots(fs.heap, ext), n, found, out)
                && (Answered(out) ==> parser.secondaryLeft == 0))
    ensures out.None? ==> n == |DirSlots(fs.heap, ext)|
    ensures dir.dataLength != 0 && out.None? ==> left == remaining - fs.g.BytesPerCluster()
    ensures Honest(fs.faulty, old(fs.clock), fs.clock, out == Some(Err(Device)))
  {
    hide Failures;
    hide FileSystem.Valid;
    hide OwnOk;
    hide TreeOk;
    hide Content;
    hide Geometry.WellFormed;
    hide Geometry.BytesPerCluster;
    hide Feed;
    hide Scanned;
    hide Missed;
    hide Hit;
    hide DirSlots;
    hide Places;
    hide Scannable;
    hide ParseFails;
    hide SectorHolds;
    var size: nat := fs.g.bytesPerSector;
    ScannableGeometry(fs.g, fs.heap, ext);
    ScannableOn(fs, ext);
    ghost var slots, locs := DirSlots(fs.heap, ext), Places(fs.g, fs.heap, ext);
    ghost var cb := fs.g.BytesPerCluster();
    n, left, found := n0, remaining, found0;
    OneSector(fs.g);
    SectorAddress(fs, ext, |ext| - 1, 0);
    var base := fs.g.ClusterLba(cluster);
    if base.None? { return Some(Err(Corrupt)), left, n, found; }
    for sector := 0 to fs.g.sectorsPerCluster
      invariant Honest(fs.faulty, old(fs.clock), fs.clock, false)
      invariant TableOk(fs) && Table(fs) == old(Table(fs)) && |parser.entry.entryLocs| == 19
      invariant 32 * n == (|ext| - 1) * cb + sector * size
      invariant dir.dataLength != 0 ==> left == remaining - sector * size
      invariant Scanned(start, slots, locs, n, parser.State(), found)
      invariant Missed(fs.upcaseValid, Table(fs), found, wanted)
    {
      SectorRoom(fs.g, sector);
      if dir.dataLength != 0 && left == 0 { return Some(Ok(None)), left, n, found; }
      SectorAddress(fs, ext, |ext| - 1, sector);
      SectorSlots(fs, ext, |ext| - 1, sector, n);
      var ok := fs.ReadSector(base.value + sector);
      if !ok { return Some(Err(Device)), left, n, found; }
      var usable := if dir.dataLength == 0 then size else Min(size, left);
      out, n, found := MatchSector(fs, parser, base.value + sector, usable, wanted, start, slots, locs, n, found);
      if out.Some? { return out, left, n, found; }
      if dir.dataLength != 0 { left := left - usable; }
    }
    LastSector(fs.g, |ext|, |slots|, n);
    return None, left, n, found;
  }

  /** A complete account of a search. */
  ghost predicate SearchDone(g: Geometry, fat: seq<u32>, heap: Heap, dir: Directory, valid: bool, table: seq<byte>,
                             wanted: seq<u16>, start: Parser, r: Result<Option<DirectoryEntry>>, seen: seq<nat>, n: nat,
                             p: Parser, found: seq<DirectoryEntry>)
    requires Scannable(g, heap, seen) && |fat| == g.clusterCount + 2
  {
    && Scanned(start, DirSlots(heap, seen), Places(g, heap, seen), n, p, found)
    && SearchOver(g, fat, dir, valid, table, wanted, r, seen, DirSlots(heap, seen), n, found)
  }

  /** A search ended here: with an answer, at an unused slot, or with all slots
      of the trail scanned and no reason to follow it further. */
  ghost predicate SearchOver(g: Geometry, fat: seq<u32>, dir: Directory, valid: bool, table: seq<byte>,
                             wanted: seq<u16>, r: Result<Option<DirectoryEntry>>, seen: seq<nat>, slots: seq<Slot>,
                             n: nat, found: seq<DirectoryEntry>)
    requires |fat| == g.clusterCount + 2 && InHeap(g, seen)
  {
    || Sought(valid, table, wanted, slots, n, found, Some(r))
    || (&& r == Ok(None) && Missed(valid, table, found, wanted) && n == |slots| && seen != []
        && (dir.noFatChain || Chained(g, fat, dir, seen)
            || (dir.dataLength != 0 && |seen| * g.BytesPerCluster() >= dir.dataLength)))
  }

  lemma SearchEnds(g: Geometry, fat: seq<u32>, heap: Heap, dir: Directory, valid: bool, table: seq<byte>,
                   wanted: seq<u16>, start: Parser, seen: seq<nat>, p: Parser, found: seq<DirectoryEntry>)
                     returns (n: nat)
    requires Scannable(g, heap, seen) && |fat| == g.clusterCount + 2 && seen != []
    requires Between(g, heap, start, found, seen, p) && Missed(valid, table, found, wanted)
    requires dir.noFatChain || Chained(g, fat, dir, seen)
             || (dir.dataLength != 0 && |seen| * g.BytesPerCluster() >= dir.dataLength)
    ensures SearchDone(g, fat, heap, dir, valid, table, wanted, start, Ok(None), seen, n, p, found)
  {
    n := |DirSlots(heap, seen)|;
  }

  /** What the search of a cluster has come to, when it ends the search. */
  lemma SearchHalts(g: Geometry, fat: seq<u32>, heap: Heap, dir: Directory, valid: bool, table: seq<byte>,
                    wanted: seq<u16>, start: Parser, out: Option<Result<Option<DirectoryEntry>>>, seen: seq<nat>,
                    n: nat, p: Parser, found: seq<DirectoryEntry>)
    requires Scannable(g, heap, seen) && |fat| == g.clusterCount + 2 && out.Some?
    requires || out == Some(Err(Device))
             || (out == Some(Err(Corrupt)) && ParseFails(start, DirSlots(heap, seen), Places(g, heap, seen), n))
             || (&& Scanned(start, DirSlots(heap, seen), Places(g, heap, seen), n, p, found)
                 && Sought(valid, table, wanted, DirSlots(heap, seen), n, found, out)
                 && (Answered(out) ==> p.secondaryLeft == 0))
    ensures || out.value == Err(Device)
            || (out.value == Err(Corrupt) && ScanFails(g, fat, heap, dir, start, seen, n))
            || (&& SearchDone(g, fat, heap, dir, valid, table, wanted, start, out.value, seen, n, p, found)
                && (Answered(Some(out.value)) ==> p.secondaryLeft == 0))
  {
    hide Scanned;
    hide ParseFails;
    hide Sought;
    hide SearchDone;
    hide ScanFails;
    if out.value != Err(Device) {
      if Scanned(start, DirSlots(heap, seen), Places(g, heap, seen), n, p, found)
         && Sought(valid, table, wanted, DirSlots(heap, seen), n, found, out)
         && (Answered(out) ==> p.secondaryLeft == 0) {
        SearchStopped(g, fat, heap, dir, valid, table, wanted, start, out.value, seen, n, p, found);
      } else {
        ScanStops(g, fat, heap, dir, start, seen, n);
      }
    }
  }

  lemma SearchStopped(g: Geometry, fat: seq<u32>, heap: Heap, dir: Directory, valid: bool, table: seq<byte>,
                      wanted: seq<u16>, start: Parser, out: Result<Option<DirectoryEntry>>, seen: seq<nat>, n: nat,
                      p: Parser, found: seq<DirectoryEntry>)
    requires Scannable(g, heap, seen) && |fat| == g.clusterCount + 2
    requires Scanned(start, DirSlots(heap, seen), Places(g, heap, seen), n, p, found)
    requires Sought(valid, table, wanted, DirSlots(heap, seen), n, found, Some(out))
    ensures SearchDone(g, fat, heap, dir, valid, table, wanted, start, out, seen, n, p, found)
  {
  }

  lemma SoughtOn(valid: bool, table: seq<byte>, wanted: seq<u16>, slots: seq<Slot>, n: nat, found: seq<DirectoryEntry>)
    requires Sought(valid, table, wanted, slots, n, found, None)
    ensures Missed(valid, table, found, wanted)
  {
  }

  /** Find a directory's entry by name, ignoring case.  The parser is the
      caller's and must be between entry sets.  The search ends within
      `clusterCount` clusters on any FAT whatsoever. */
  method FindChild(fs: FileSystem, dir: Directory, wanted: seq<u16>, parser: EntrySet)
    returns (r: Result<Option<DirectoryEntry>>, ghost seen: seq<nat>, ghost n: nat, ghost found: seq<DirectoryEntry>)
    requires TableOk(fs) && |parser.entry.entryLocs| == 19
    requires fs.g.BytesPerCluster() > 0 && dir.dataLength % fs.g.BytesPerCluster() == 0
    modifies fs`clock, fs`scratch, parser
    ensures TableOk(fs) && |fs.fat| == fs.g.clusterCount + 2 && |parser.entry.entryLocs| == 19
    ensures Trail(fs.g, fs.fat, dir, seen) && |seen| <= fs.g.clusterCount && Scannable(fs.g, fs.heap, seen)
    ensures || r == Err(Device)
            || (r == Err(Corrupt) && ScanFails(fs.g, fs.fat, fs.heap, dir, old(parser.State()), seen, n))
            || (&& SearchDone(fs.g, fs.fat, fs.heap, dir, fs.upcaseValid, Table(fs), wanted, old(parser.State()), r,
                              seen, n, parser.State(), found)
                && (Answered(Some(r)) ==> parser.secondaryLeft == 0))
    ensures Honest(fs.faulty, old(fs.clock), fs.clock, r == Err(Device))
  {
    hide Failures;
    hide FileSystem.Valid;
    hide OwnOk;
    hide TreeOk;
    hide Content;
    hide Geometry.WellFormed;
    hide Geometry.BytesPerCluster;
    hide SearchDone;
    hide ScanFails;
    hide Between;
    hide Scanned;
    hide Sought;
    hide Trail;
    hide Chained;
    hide Successor;
    hide Exhausted;
    hide Missed;
    hide DirSlots;
    hide Places;
    hide Walk;
    hide Feed;
    hide SameName;
    hide LocsOf;
    hide Scannable;
    fs.Basics();
    ghost var start, table := parser.State(), Table(fs);
    TrailStarts(fs.g, fs.fat, dir);
    var cluster := dir.firstCluster;
    var remaining: nat := dir.dataLength;
    var visited: nat := 0;
    seen, n, found := [], 0, [];
    ScannableOn(fs, seen);
    ScanStart(fs.g, fs.heap, start, seen);
    assert Missed(fs.upcaseValid, table, [], wanted) by { NoneMissed(fs.upcaseValid, table, wanted); }
    while true
      invariant Honest(fs.faulty, old(fs.clock), fs.clock, false)
      invariant TableOk(fs) && Table(fs) == table && |fs.fat| == fs.g.clusterCount + 2
      invariant |parser.entry.entryLocs| == 19
      invariant |seen| == visited <= fs.g.clusterCount && Trail(fs.g, fs.fat, dir, seen) && InHeap(fs.g, seen)
      invariant cluster == Successor(fs.g, fs.fat, dir, seen) && !Chained(fs.g, fs.fat, dir, seen)
      invariant dir.dataLength != 0 ==> remaining % fs.g.BytesPerCluster() == 0
      invariant remaining == if dir.dataLength == 0 then 0 else dir.dataLength - |seen| * fs.g.BytesPerCluster()
      invariant dir.noFatChain ==> seen == []
      invariant Scannable(fs.g, fs.heap, seen) && Between(fs.g, fs.heap, start, found, seen, parser.State())
      invariant Missed(fs.upcaseValid, table, found, wanted)
      decreases fs.g.clusterCount - visited
    {
      visited := visited + 1;
      if visited > fs.g.clusterCount || fs.g.ClusterLba(cluster).None? {
        ScanStuck(fs.g, fs.fat, fs.heap, dir, start, seen, n);
        return Err(Corrupt), seen, n, found;
      }
      if dir.dataLength != 0 && remaining == 0 {
        n := SearchEnds(fs.g, fs.fat, fs.heap, dir, fs.upcaseValid, table, wanted, start, seen, parser.State(), found);
        return Ok(None), seen, n, found;
      }
      if dir.dataLength != 0 { ClusterAgain(remaining, fs.g.BytesPerCluster()); }
      n := ScanOpens(fs, start, found, seen, cluster, parser.State());
      NextMultiple(|seen|, fs.g.BytesPerCluster());
      TrailOn(fs.g, fs.fat, dir, seen, cluster);
      seen := seen + [cluster];
      TrailInHeap(fs.g, fs.fat, dir, seen);
      var out, left;
      out, left, n, found := MatchCluster(fs, parser, dir, cluster, remaining, wanted, start, seen, n, found);
      if out.Some? {
        SearchHalts(fs.g, fs.fat, fs.heap, dir, fs.upcaseValid, table, wanted, start, out, seen, n, parser.State(),
                    found);
        return out.value, seen, n, found;
      }
      SoughtOn(fs.upcaseValid, table, wanted, DirSlots(fs.heap, seen), n, found);
      ScanCloses(fs.g, fs.heap, start, found, seen, n, parser.State());
      if dir.dataLength != 0 { remaining := left; }
      if dir.noFatChain {
        n := SearchEnds(fs.g, fs.fat, fs.heap, dir, fs.upcaseValid, table, wanted, start, seen, parser.State(), found);
        return Ok(None), seen, n, found;
      }
      var next := fs.NextCluster(cluster);
      if next.Err? { return Err(next.error), seen, n, found; }
      cluster := next.value;
      if cluster >= EOC_MIN {
        n := SearchEnds(fs.g, fs.fat, fs.heap, dir, fs.upcaseValid, table, wanted, start, seen, parser.State(), found);
        return Ok(None), seen, n, found;
      }
      if cluster < 2 {
        ScanStuck(fs.g, fs.fat, fs.heap, dir, start, seen, n);
        return Err(Corrupt), seen, n, found;
      }
    }
  }

  lemma NoneMissed(valid: bool, table: seq<byte>, wanted: seq<u16>)
    ensures Missed(valid, table, [], wanted)
  {
  }
}
