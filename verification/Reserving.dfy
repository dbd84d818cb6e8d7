/** Finding room for an entry set: the scan for a run of free slots, and the
    cluster by cluster growth of a directory that has none. */
module Reserving {
  import opened Words
  import opened Errors
  import opened Geometry
  import opened Views
  import opened Volume
  import opened Extents
  import opened EntrySets
  import opened EntryCodec
  import opened Files
  import opened Tree
  import opened SlotIo
  import opened Growth
  import opened Meaning
  import opened Commits
  import opened Listings
  import opened Standing
  import opened Scanning
  import opened Directories
  import opened Vacancies

  /** The first `n` locators are those of the slots from `k` on. */
  ghost predicate LocsFrom(places: seq<EntryLocator>, k: nat, locs: seq<EntryLocator>, n: nat) {
    |locs| == 19 && n <= 19 && k + n <= |places| && forall i :: 0 <= i < n ==> locs[i] == places[k + i]
  }

  /** Look for the run among the slots of one sector. */
  method FreeInSector(bytes: seq<byte>, lba: nat, run0: nat, locs0: seq<EntryLocator>, wanted: nat,
                      ghost slots: seq<Slot>, ghost places: seq<EntryLocator>, ghost n0: nat)
    returns (found: bool, run: nat, locs: seq<EntryLocator>, ghost n: nat)
    requires SectorHolds(slots, places, n0, bytes, lba) && |bytes| % 32 == 0 && 3 <= wanted <= 19
    requires RunAt(slots, n0, run0) && run0 < wanted && LocsFrom(places, n0 - run0, locs0, run0)
    requires NoRunIn(slots, n0, wanted)
    ensures n <= |slots| == |places| && RunAt(slots, n, run) && LocsFrom(places, n - run, locs, run)
    ensures if found then run == wanted && NoRunIn(slots, n - 1, wanted)
            else run < wanted && NoRunIn(slots, n, wanted) && n == n0 + |bytes| / 32
  {
    run, locs, n := run0, locs0, n0;
    for slot := 0 to |bytes| / 32
      invariant n == n0 + slot && RunAt(slots, n, run) && run < wanted && LocsFrom(places, n - run, locs, run)
      invariant NoRunIn(slots, n, wanted)
    {
      assert SlotAt(bytes, slot) == slots[n0 + slot] && places[n] == EntryLocator(lba, 32 * slot);
      RunMore(slots, n, run, wanted);
      n := n + 1;
      if bytes[slot * 32] < 0x80 {
        if run < wanted { locs := locs[run := EntryLocator(lba, slot * 32)]; }
        run := run + 1;
        if run == wanted { return true, run, locs, n; }
      } else {
        run := 0;
      }
    }
    return false, run, locs, n;
  }

  /** Look for the run in one cluster, the `i`-th of the directory. */
  method FreeInCluster(fs: FileSystem, dir: Directory, cluster: nat, remaining: nat, run0: nat,
                       locs0: seq<EntryLocator>, wanted: nat, ghost ext: seq<nat>, ghost i: nat, ghost n0: nat)
    returns (r: Result<bool>, left: nat, run: nat, locs: seq<EntryLocator>, ghost n: nat)
    requires fs.Valid() && Scannable(fs.g, fs.heap, ext) && i < |ext| && ext[i] == cluster
    requires 32 * n0 == i * fs.g.BytesPerCluster() && 3 <= wanted <= 19
    requires dir.dataLength != 0 ==> remaining >= fs.g.BytesPerCluster()
    requires RunAt(DirSlots(fs.heap, ext), n0, run0) && run0 < wanted && NoRunIn(DirSlots(fs.heap, ext), n0, wanted)
    requires LocsFrom(Places(fs.g, fs.heap, ext), n0 - run0, locs0, run0)
    modifies fs`clock, fs`scratch
    ensures fs.Valid()
    ensures r.Err? ==> r.error == Device
    ensures r.Ok? ==>
      && RunAt(DirSlots(fs.heap, ext), n, run) && LocsFrom(Places(fs.g, fs.heap, ext), n - run, locs, run)
      && (if r.value then run == wanted && NoRunIn(DirSlots(fs.heap, ext), n - 1, wanted)
          else && run < wanted && 32 * n == (i + 1) * fs.g.BytesPerCluster()
               && NoRunIn(DirSlots(fs.heap, ext), n, wanted)
               && (dir.dataLength != 0 ==> left == remaining - fs.g.BytesPerCluster()))
    ensures Honest(fs.faulty, old(fs.clock), fs.clock, r == Err(Device))
  {
    hide Failures;
    hide FileSystem.Valid;
    hide Geometry.WellFormed;
    hide Geometry.BytesPerCluster;
    hide RunAt;
    hide NoRunIn;
    hide LocsFrom;
    hide DirSlots;
    hide Places;
    hide Scannable;
    hide SectorHolds;
    var size: nat := fs.g.bytesPerSector;
    ScannableGeometry(fs.g, fs.heap, ext);
    ScannableOn(fs, ext);
    ghost var slots, places, cb := DirSlots(fs.heap, ext), Places(fs.g, fs.heap, ext), fs.g.BytesPerCluster();
    left, run, locs, n := remaining, run0, locs0, n0;
    OneSector(fs.g);
    SectorAddress(fs, ext, i, 0);
    var base := fs.g.ClusterLba(cluster);
    if base.None? { return Err(Corrupt), left, run, locs, n; }
    RunBound(slots, n, run);
    for sector := 0 to fs.g.sectorsPerCluster
      invariant Honest(fs.faulty, old(fs.clock), fs.clock, false)
      invariant fs.Valid() && 32 * n == i * cb + sector * size && run <= n
      invariant dir.dataLength != 0 ==> left == remaining - sector * size
      invariant RunAt(slots, n, run) && run < wanted && LocsFrom(places, n - run, locs, run)
      invariant NoRunIn(slots, n, wanted)
    {
      SectorRoom(fs.g, sector);
      if left == 0 && dir.dataLength != 0 { return Err(NoSpace), left, run, locs, n; }
      SectorAddress(fs, ext, i, sector);
      SectorSlots(fs, ext, i, sector, n);
      var ok := fs.ReadSector(base.value + sector);
      if !ok { return Err(Device), left, run, locs, n; }
      var slotCount := if dir.dataLength == 0 then size / 32 else Min(size, left) / 32;
      assert fs.scratch[..slotCount * 32] == fs.scratch;
      var found;
      found, run, locs, n := FreeInSector(fs.scratch[..slotCount * 32], base.value + sector, run, locs, wanted, slots,
                                          places, n);
      RunBound(slots, n, run);
      if found { return Ok(true), left, run, locs, n; }
      if dir.dataLength != 0 { left := left - size; }
    }
    ClusterDone(fs.g, i);
    return Ok(false), left, run, locs, n;
  }

  lemma LocsBound(places: seq<EntryLocator>, k: nat, locs: seq<EntryLocator>, n: nat)
    requires LocsFrom(places, k, locs, n)
    ensures |locs| == 19
  {
  }

  lemma ClusterDone(g: Geometry, i: nat)
    ensures i * g.BytesPerCluster() + g.sectorsPerCluster * g.bytesPerSector == (i + 1) * g.BytesPerCluster()
  {
  }

  /** A run of `wanted` free slots ends after `n` slots, or the shorter run at the
      end of the directory does. */
  ghost predicate LookedThrough(g: Geometry, heap: Heap, ext: seq<nat>, wanted: nat, found: bool, last: nat, run: nat,
                                locs: seq<EntryLocator>, n: nat) {
    && Scannable(g, heap, ext) && ext != [] && 0 < wanted
    && RunAt(DirSlots(heap, ext), n, run) && LocsFrom(Places(g, heap, ext), n - run, locs, run)
    && (if found then run == wanted && NoRunIn(DirSlots(heap, ext), n - 1, wanted)
        else && run < wanted && n == |DirSlots(heap, ext)| && last == ext[|ext| - 1]
             && NoRunIn(DirSlots(heap, ext), n, wanted))
  }

  /** Look for the run in the whole directory.  `last` is the final cluster of
      the chain when the run is not found. */
  method FindRun(fs: FileSystem, dir: Directory, wanted: nat, ghost id: Id)
    returns (r: Result<bool>, last: nat, run: nat, locs: seq<EntryLocator>, ghost n: nat)
    requires InvLoose(fs) && DirIs(fs.g, fs.nodes, dir, id) && 3 <= wanted <= 19
    modifies fs`clock, fs`scratch
    ensures InvLoose(fs) && id in fs.nodes
    ensures r.Err? ==> r.error == Device
    ensures r.Ok? ==> LookedThrough(fs.g, fs.heap, fs.nodes[id].ext, wanted, r.value, last, run, locs, n)
    ensures Honest(fs.faulty, old(fs.clock), fs.clock, r == Err(Device))
  {
    hide Failures;
    hide FileSystem.Valid;
    hide OwnOk;
    hide TreeRecords;
    hide Geometry.WellFormed;
    hide Geometry.BytesPerCluster;
    hide RunAt;
    hide NoRunIn;
    hide LocsFrom;
    hide DirSlots;
    hide Places;
    hide Scannable;
    fs.Basics();
    DirReady(fs, dir, id);
    ghost var ext, cb := fs.nodes[id].ext, fs.g.BytesPerCluster();
    ghost var slots, places := DirSlots(fs.heap, ext), Places(fs.g, fs.heap, ext);
    ScannableOn(fs, ext);
    locs, run, n, last := seq(19, _ => NOWHERE), 0, 0, 0;
    RunStarts(slots, places, locs, wanted);
    var cluster := dir.firstCluster;
    var remaining: nat := dir.dataLength;
    var visited := 0;
    ghost var i := 0;
    while true
      invariant Honest(fs.faulty, old(fs.clock), fs.clock, false)
      invariant InvLoose(fs) && i < |ext| && cluster == ext[i] && visited == i && run <= n && 32 * n == i * cb
      invariant dir.dataLength != 0 ==> remaining == (|ext| - i) * cb
      invariant RunAt(slots, n, run) && run < wanted && LocsFrom(places, n - run, locs, run)
      invariant NoRunIn(slots, n, wanted)
      decreases |ext| - i
    {
      visited := visited + 1;
      if visited > fs.g.clusterCount { return Err(Corrupt), last, run, locs, n; }
      NextMultiple(|ext| - i - 1, cb);
      MulMonotone(0, |ext| - i - 1, cb);
      var found;
      found, remaining, run, locs, n := FreeInCluster(fs, dir, cluster, remaining, run, locs, wanted, ext, i, n);
      if found.Err? { return found, last, run, locs, n; }
      RunBound(slots, n, run);
      if found.value { return Ok(true), last, run, locs, n; }
      if dir.noFatChain { return Err(NoSpace), last, run, locs, n; }
      var next := fs.NextCluster(cluster);
      if next.Err? { return Err(next.error), last, run, locs, n; }
      ChainStep(fs.g, fs.fat, ext, i);
      i := i + 1;
      if next.value < EOC_MIN {
        if next.value < 2 { return Err(Corrupt), last, run, locs, n; }
        cluster := next.value;
      } else {
        last := cluster;
        return Ok(false), last, run, locs, n;
      }
    }
  }

  lemma RunStarts(slots: seq<Slot>, places: seq<EntryLocator>, locs: seq<EntryLocator>, wanted: nat)
    requires |locs| == 19 && 0 < wanted
    ensures RunAt(slots, 0, 0) && LocsFrom(places, 0, locs, 0) && NoRunIn(slots, 0, wanted)
  {
  }

  /** The FAT slot of a directory's cluster: the next cluster, or the end mark. */
  lemma ChainStep(g: Geometry, fat: seq<u32>, ext: seq<nat>, i: nat)
    requires InHeap(g, ext) && |fat| == g.clusterCount + 2 <= 0xffff_fff7 && Links(fat, ext) && Ended(fat, ext)
    requires i < |ext|
    ensures if i + 1 < |ext| then fat[ext[i]] == ext[i + 1] && 2 <= fat[ext[i]] < EOC_MIN else fat[ext[i]] >= EOC_MIN
  {
  }

  // ----- growing a directory ------------------------------------------------------------------

  function MarkedByte(bytes: seq<byte>, i: nat): byte
    requires i < |bytes|
  {
    if i % 32 == 0 && bytes[i] == 0 then 0x80 else bytes[i]
  }

  function MarkedBytes(bytes: seq<byte>): (s: seq<byte>)
    ensures |s| == |bytes| && forall i :: 0 <= i < |s| ==> s[i] == MarkedByte(bytes, i)
  {
    seq(|bytes|, i requires 0 <= i < |bytes| => MarkedByte(bytes, i))
  }

  /** Mark the unused slots of the sector in the scratch buffer. */
  method MarkScratch(fs: FileSystem)
    requires fs.Valid() && |fs.scratch| % 32 == 0
    modifies fs`scratch
    ensures fs.Valid() && fs.scratch == MarkedBytes(old(fs.scratch))
  {
    hide FileSystem.Valid;
    ghost var before := fs.scratch;
    for slot := 0 to |fs.scratch| / 32
      invariant fs.Valid() && |fs.scratch| == |before|
      invariant forall i :: 0 <= i < |before| ==>
        fs.scratch[i] == if i < 32 * slot then MarkedByte(before, i) else before[i]
    {
      if fs.scratch[slot * 32] == 0 { fs.FillScratch(slot * 32, [0x80]); }
      SlotBytes(slot);
    }
  }

  lemma SlotBytes(slot: nat)
    ensures forall i :: 32 * slot <= i < 32 * slot + 32 ==> (i % 32 == 0 <==> i == 32 * slot)
  {
  }

  lemma MarkedSlotAt(bytes: seq<byte>, p: nat, k: nat)
    requires p <= |bytes| && p % 32 == 0 && 32 * k + 32 <= |bytes|
    ensures Splice(bytes, p, MarkedBytes(bytes[p..]))[32 * k..32 * k + 32]
         == if 32 * k >= p then Marked(bytes[32 * k..32 * k + 32]) else bytes[32 * k..32 * k + 32]
  {
    var a := Splice(bytes, p, MarkedBytes(bytes[p..]))[32 * k..32 * k + 32];
    var slot: Slot := bytes[32 * k..32 * k + 32];
    if 32 * k >= p {
      forall j | 0 <= j < 32
        ensures a[j] == Marked(slot)[j]
      {
        MarkHere(bytes, p, k, j);
      }
    } else {
      assert 32 * k + 32 <= p;
      assert a == slot;
    }
  }

  /** Marking the last bytes of a directory marks its last slots. */
  lemma MarkSlots(bytes: seq<byte>, n: nat)
    requires n <= |bytes| && |bytes| % 32 == 0 && n % 32 == 0
    ensures SlotsOf(Splice(bytes, |bytes| - n, MarkedBytes(bytes[|bytes| - n..])))
            == MarkedFrom(SlotsOf(bytes), |bytes| / 32 - n / 32)
  {
    hide Splice;
    hide MarkedBytes;
    hide Marked;
    var p := |bytes| - n;
    var bytes' := Splice(bytes, p, MarkedBytes(bytes[p..]));
    forall k | 0 <= k < |bytes| / 32
      ensures SlotsOf(bytes')[k] == MarkedFrom(SlotsOf(bytes), |bytes| / 32 - n / 32)[k]
    {
      MarkedSlotAt(bytes, p, k);
    }
  }

  lemma MarkHere(bytes: seq<byte>, p: nat, k: nat, j: nat)
    requires p <= 32 * k && 32 * k + 32 <= |bytes| && j < 32 && p % 32 == 0
    ensures MarkedBytes(bytes[p..])[32 * k + j - p] == Marked(bytes[32 * k..32 * k + 32])[j]
  {
    var i := 32 * k + j - p;
    assert bytes[p..][i] == bytes[32 * k + j];
    assert i % 32 == 0 <==> j == 0;
  }

  /** Rewrite the last sector of a directory so that its readers go on to the
      next cluster. */
  method MarkTail(fs: FileSystem, last: nat, ghost ext: seq<nat>) returns (r: Result<()>)
    requires fs.Valid() && Scannable(fs.g, fs.heap, ext) && Distinct(ext) && ext != [] && last == ext[|ext| - 1]
    requires last !in fs.bm
    modifies fs`clock, fs`scratch, fs`disk, fs`heap
    ensures fs.Valid() && |fs.heap| == |old(fs.heap)| && Scannable(fs.g, fs.heap, ext)
    ensures r.Err? ==> r.error == Device
    ensures r.Ok? ==>
      DirSlots(fs.heap, ext) == MarkedFrom(old(DirSlots(fs.heap, ext)),
                                           |old(DirSlots(fs.heap, ext))| - fs.g.bytesPerSector / 32)
    ensures forall c :: 0 <= c < |fs.heap| && c != last ==> fs.heap[c] == old(fs.heap)[c]
    ensures Honest(fs.faulty, old(fs.clock), fs.clock, r == Err(Device))
  {
    hide FileSystem.Valid;
    hide Geometry.WellFormed;
    hide Geometry.BytesPerCluster;
    hide SlotsOf;
    ScannableGeometry(fs.g, fs.heap, ext);
    ScannableOn(fs, ext);
    var size: nat, sectors: nat := fs.g.bytesPerSector, fs.g.sectorsPerCluster;
    OneSector(fs.g);
    ghost var s := sectors - 1;
    SectorAddress(fs, ext, |ext| - 1, s);
    TailSector(fs, ext, s);
    var base := fs.g.ClusterLba(last);
    if base.None? { return Err(Corrupt); }
    var lba := base.value + (sectors - 1);
    var ok := fs.ReadSector(lba);
    if !ok { return Err(Device); }
    MarkScratch(fs);
    ok := fs.WriteHeapSector(lba, last, s);
    ScannableOn(fs, ext);
    return if ok then Ok(()) else Err(Device);
  }

  lemma TailSector(fs: FileSystem, ext: seq<nat>, s: nat)
    requires fs.Valid() && Scannable(fs.g, fs.heap, ext) && Distinct(ext) && ext != []
    requires s + 1 == fs.g.sectorsPerCluster
    ensures var c, size, lba := ext[|ext| - 1], fs.g.bytesPerSector, HeapLba(fs.g, ext[|ext| - 1], s);
            && c < |fs.heap| && lba < |fs.disk| && |fs.disk[lba]| == size == |fs.scratch| && size % 32 == 0
            && 0 <= s * size && s * size + size <= |fs.heap[c]|
            && var heap' := fs.heap[c := Splice(fs.heap[c], s * size, MarkedBytes(fs.disk[lba]))];
               && (forall i :: 0 <= i < |ext| ==> ext[i] < |heap'|)
               && DirSlots(heap', ext) == MarkedFrom(DirSlots(fs.heap, ext), |DirSlots(fs.heap, ext)| - size / 32)
  {
    hide FileSystem.Valid;
    hide Geometry.WellFormed;
    hide Geometry.BytesPerCluster;
    hide MarkedBytes;
    hide MarkedFrom;
    hide SlotsOf;
    hide Flat;
    fs.Basics();
    ScannableOn(fs, ext);
    var i, cb, size, lba := |ext| - 1, fs.g.BytesPerCluster(), fs.g.bytesPerSector, HeapLba(fs.g, ext[|ext| - 1], s);
    TiedHere(fs, ext[i], s);
    ShapeFits(fs.g, fs.heap, ext);
    TailAt(fs.g, |ext|, s);
    var bytes, data := Flat(fs.heap, ext), MarkedBytes(fs.disk[lba]);
    FlatPut(fs.heap, ext, cb, i, s * size, data);
    FlatSlice(fs.heap, ext, cb, i, s * size, size);
    assert bytes[|bytes| - size..] == bytes[|bytes| - size..|bytes|] == fs.disk[lba];
    MarkSlots(bytes, size);
  }

  lemma TiedHere(fs: FileSystem, c: nat, s: nat)
    requires fs.Valid() && 2 <= c < fs.g.clusterCount + 2 && s < fs.g.sectorsPerCluster && fs.g.WellFormed()
    ensures HeapLba(fs.g, c, s) < |fs.disk| && |fs.disk[HeapLba(fs.g, c, s)]| == fs.g.bytesPerSector == |fs.scratch|
    ensures 0 <= s * fs.g.bytesPerSector && s * fs.g.bytesPerSector + fs.g.bytesPerSector <= |fs.heap[c]|
    ensures fs.disk[HeapLba(fs.g, c, s)] == SectorOf(fs.heap[c], s, fs.g.bytesPerSector)
  {
    HeapAddress(fs.g, c, s);
    assert SectorTied(fs.g, fs.disk, fs.heap, c, s);
    SectorFits(s, fs.g.sectorsPerCluster, fs.g.bytesPerSector);
  }

  lemma TailAt(g: Geometry, n: nat, s: nat)
    requires g.WellFormed() && n > 0 && s + 1 == g.sectorsPerCluster
    ensures (n - 1) * g.BytesPerCluster() + s * g.bytesPerSector == n * g.BytesPerCluster() - g.bytesPerSector
    ensures s * g.bytesPerSector + g.bytesPerSector == g.BytesPerCluster()
    ensures g.bytesPerSector % 32 == 0 && n * g.BytesPerCluster() % 32 == 0
  {
    ClusterMultiple32(g);
    ProductMultiple32(n, g.BytesPerCluster());
    NextMultiple(n - 1, g.BytesPerCluster());
    NextMultiple(s, g.bytesPerSector);
  }

  /** The owners once directory `id` has one more cluster. */
  ghost function Extended(g: Geometry, nodes: Owners, id: Id, c: nat): Owners
    requires id in nodes
  {
    nodes[id := nodes[id].(ext := nodes[id].ext + [c], valid := nodes[id].valid + g.BytesPerCluster())]
  }

  /** Linking a fresh, ended cluster behind a directory's last one. */
  lemma ExtendOwn(g: Geometry, fat: seq<u32>, used: set<nat>, bm: seq<nat>, nodes: Owners, id: Id, c: nat)
    requires OwnOk(g, fat, used, bm, nodes) && id in nodes && nodes[id].isDir
    requires |fat| == g.clusterCount + 2 <= 0xffff_fff7 && 2 <= c < |fat| && c in used && fat[c] >= EOC_MIN
    requires forall other, i :: other in nodes && 0 <= i < |nodes[other].ext| ==> nodes[other].ext[i] != c
    ensures nodes[id].ext != [] && 2 <= nodes[id].ext[|nodes[id].ext| - 1] < |fat|
    ensures OwnOk(g, fat[nodes[id].ext[|nodes[id].ext| - 1] := c], used, bm, Extended(g, nodes, id, c))
  {
    hide Links;
    hide Contiguous;
    hide Ended;
    var ext := nodes[id].ext;
    assert NodeOk(g, fat, used, nodes[id]);
    DirectoryLast(g, fat, used, nodes[id]);
    var last := ext[|ext| - 1];
    var fat', nodes' := fat[last := c], Extended(g, nodes, id, c);
    ExtendNode(g, fat, used, nodes[id], c);
    forall other | other in nodes'
      ensures NodeOk(g, fat', used, nodes'[other])
    {
      if other != id {
        LastElsewhere(nodes, other, id);
        OtherNode(g, fat, used, nodes[other], last, c);
      }
    }
    ExtendApart(g, nodes, id, c);
    ExtendRooted(g, bm, nodes, id, c);
  }

  lemma DirectoryLast(g: Geometry, fat: seq<u32>, used: set<nat>, n: Node)
    requires NodeOk(g, fat, used, n) && n.isDir
    ensures n.ext != [] && 2 <= n.ext[|n.ext| - 1] < g.clusterCount + 2
  {
  }

  lemma ExtendNode(g: Geometry, fat: seq<u32>, used: set<nat>, n: Node, c: nat)
    requires NodeOk(g, fat, used, n) && n.isDir && n.ext != [] && |fat| == g.clusterCount + 2
    requires 2 <= c < |fat| && c < 0x1_0000_0000 && c in used && c !in n.ext && fat[c] >= EOC_MIN
    requires n.ext[|n.ext| - 1] < |fat|
    ensures NodeOk(g, fat[n.ext[|n.ext| - 1] := c], used,
                   n.(ext := n.ext + [c], valid := n.valid + g.BytesPerCluster()))
  {
    hide Geometry.BytesPerCluster;
    NextMultiple(|n.ext|, g.BytesPerCluster());
    LinksExtend(fat, n.ext, c);
  }

  lemma OtherNode(g: Geometry, fat: seq<u32>, used: set<nat>, n: Node, last: nat, c: nat)
    requires NodeOk(g, fat, used, n) && last < |fat| && c < 0x1_0000_0000
    requires forall i :: 0 <= i < |n.ext| ==> n.ext[i] != last
    ensures NodeOk(g, fat[last := c], used, n)
  {
  }

  lemma ExtendApart(g: Geometry, nodes: Owners, id: Id, c: nat)
    requires Apart(nodes) && id in nodes
    requires forall other, i :: other in nodes && 0 <= i < |nodes[other].ext| ==> nodes[other].ext[i] != c
    ensures Apart(Extended(g, nodes, id, c))
  {
  }

  lemma ExtendRooted(g: Geometry, bm: seq<nat>, nodes: Owners, id: Id, c: nat)
    requires Rooted(g, bm, nodes) && id in nodes && nodes[id].isDir
    ensures Rooted(g, bm, Extended(g, nodes, id, c))
  {
    var nodes' := Extended(g, nodes, id, c);
    forall d, k: nat | Child(d, k) in nodes'
      ensures d in nodes' && nodes'[d].isDir
    {
      assert Child(d, k) in nodes;
    }
  }

  lemma LastElsewhere(nodes: Owners, other: Id, id: Id)
    requires Apart(nodes) && other in nodes && id in nodes && other != id && nodes[id].ext != []
    ensures forall i :: 0 <= i < |nodes[other].ext| ==> nodes[other].ext[i] != nodes[id].ext[|nodes[id].ext| - 1]
  {
  }

  /** Respacing unused slots keeps the records. */
  lemma RecordsSpaced(nodes: Owners, d: Id, a: seq<Slot>, b: seq<Slot>, cb: nat)
    requires DirRecords(nodes, d, a, cb) && SameSets(a, b)
    ensures DirRecords(nodes, d, b, cb)
  {
    hide Says;
    forall k: nat | Child(d, k) in nodes
      ensures k < |b| && RecordOk(nodes[Child(d, k)], b, k, cb)
    {
      assert RecordOk(nodes[Child(d, k)], a, k, cb);
      RecordInUse(nodes[Child(d, k)], a, k, cb);
      assert a[k..k + nodes[Child(d, k)].count] == b[k..k + nodes[Child(d, k)].count];
    }
  }

  lemma RecordInUse(n: Node, slots: seq<Slot>, k: nat, cb: nat)
    requires RecordOk(n, slots, k, cb)
    ensures forall i :: k <= i < k + n.count ==> !Spare(slots[i])
    ensures 3 <= n.count <= 19 && k + n.count <= |slots|
  {
    var win := slots[k..k + n.count];
    forall i | k <= i < k + n.count
      ensures !Spare(slots[i])
    {
      assert win[i - k] == slots[i];
    }
  }

  /** Only directory `d` and, unless it is the root, its record in its parent
      have been rewritten. */
  ghost predicate Enlarged(g: Geometry, heap: Heap, heap': Heap, nodes: Owners, id: Id, c: nat) {
    && g.clusterCount + 2 <= U32_MAX && id in nodes && nodes[id].isDir && HeapShape(g, heap) && HeapShape(g, heap')
      && InHeap(g, nodes[id].ext) && 2 <= c < g.clusterCount + 2
    && SameSets(DirSlots(heap, nodes[id].ext), DirSlots(heap', nodes[id].ext + [c]))
    && (if id.Child? then
          && id.dir in nodes && nodes[id.dir].isDir && InHeap(g, nodes[id.dir].ext) && nodes[id].count >= 2
          && id.at + nodes[id].count <= |DirSlots(heap, nodes[id.dir].ext)|
          && (var slots, n := DirSlots(heap, nodes[id.dir].ext), nodes[id].count;
              DirSlots(heap', nodes[id.dir].ext) == Window(slots, id.at,
                PatchedSet(slots[id.at..id.at + n], false, Grown(g, nodes[id]), First(nodes[id].ext),
                           Grown(g, nodes[id]))))
          && (forall x :: 0 <= x < |heap| && x !in nodes[id].ext && x != c && x !in nodes[id.dir].ext ==>
              heap'[x] == heap[x])
        else forall x :: 0 <= x < |heap| && x !in nodes[id].ext && x != c ==> heap'[x] == heap[x])
  }

  /** The length a directory has once it is one cluster longer. */
  ghost function Grown(g: Geometry, n: Node): u64 {
    var length := (|n.ext| + 1) * g.BytesPerCluster();
    if length <= U64_MAX then length else U64_MAX
  }

  /** A directory's record after its stream fields were rewritten to the longer
      length. */
  lemma GrownSays(g: Geometry, n: Node, win: seq<Slot>, c: nat)
    requires Says(n, win, g.BytesPerCluster()) && n.isDir && n.linked && n.ext != [] && g.clusterCount + 2 <= U32_MAX
    requires 2 <= n.ext[0] < g.clusterCount + 2 && n.valid == |n.ext| * g.BytesPerCluster()
    requires (|n.ext| + 1) * g.BytesPerCluster() <= U64_MAX
    ensures 2 <= |win| && First(n.ext) == n.ext[0] <= U32_MAX
    ensures var n' := n.(ext := n.ext + [c], valid := n.valid + g.BytesPerCluster());
            var patched := PatchedSet(win, false, Grown(g, n), First(n.ext), Grown(g, n));
            && Says(n', patched, g.BytesPerCluster())
            && forall i :: 0 <= i < |win| ==> patched[i][0] == win[i][0]
  {
    hide Geometry.BytesPerCluster;
    SaysLength(n, win, g.BytesPerCluster());
    NextMultiple(|n.ext|, g.BytesPerCluster());
    var n' := n.(ext := n.ext + [c], valid := n.valid + g.BytesPerCluster());
    PatchedSays(n, n', win, g.BytesPerCluster(), false, Grown(g, n), First(n.ext), Grown(g, n));
  }

  /** The tree once a directory has been enlarged. */
  lemma EnlargedTree(g: Geometry, heap: Heap, heap': Heap, nodes: Owners, id: Id, c: nat)
    requires TreeBut(g, heap, nodes, id) && Enlarged(g, heap, heap', nodes, id, c) && Apart(nodes)
    requires id in nodes && nodes[id].isDir && nodes[id].linked && nodes[id].ext != []
    requires nodes[id].valid == |nodes[id].ext| * g.BytesPerCluster()
    requires (|nodes[id].ext| + 1) * g.BytesPerCluster() <= U64_MAX
    requires forall other, i :: other in nodes && 0 <= i < |nodes[other].ext| ==> nodes[other].ext[i] != c
    requires id == Root || (id.Child? && id.dir != id)
    ensures TreeBut(g, heap', Extended(g, nodes, id, c), id)
  {
    hide Says;
    hide SlotsOf;
    hide PatchedSet;
    hide Geometry.BytesPerCluster;
    hide Enlarged;
    hide DirRecords;
    var nodes', cb := Extended(g, nodes, id, c), g.BytesPerCluster();
    assert nodes[id].isDir && DirRecords(nodes, id, DirSlots(heap, nodes[id].ext), cb);
    EnlargedSelf(g, heap, heap', nodes, id, c);
    forall d | d in nodes' && nodes'[d].isDir
      ensures InHeap(g, nodes'[d].ext)
      ensures DirRecords(nodes', d, SlotsOf(Flat(heap', nodes'[d].ext)), cb)
      ensures d != id ==> ZeroTail(SlotsOf(Flat(heap', nodes'[d].ext)))
    {
      assert DirRecords(nodes, d, DirSlots(heap, nodes[d].ext), cb);
      if d == id {
      } else if id.Child? && d == id.dir {
        EnlargedParent(g, heap, heap', nodes, id, c);
      } else {
        EnlargedElsewhere(g, heap, heap', nodes, id, c, d);
        FlatFrame(heap, heap', nodes[d].ext);
        SameChildren(nodes, nodes', d, DirSlots(heap, nodes[d].ext), cb);
      }
    }
  }

  lemma EnlargedElsewhere(g: Geometry, heap: Heap, heap': Heap, nodes: Owners, id: Id, c: nat, d: Id)
    requires Enlarged(g, heap, heap', nodes, id, c) && Apart(nodes) && d in nodes && d != id
    requires !(id.Child? && d == id.dir)
    requires forall other, i :: other in nodes && 0 <= i < |nodes[other].ext| ==> nodes[other].ext[i] != c
    ensures |heap'| == |heap|
    ensures forall i :: 0 <= i < |nodes[d].ext| && nodes[d].ext[i] < |heap| ==>
      heap'[nodes[d].ext[i]] == heap[nodes[d].ext[i]]
  {
    hide SlotsOf;
    hide PatchedSet;
    hide SameSets;
    ApartExtents(nodes, d, id);
    if id.Child? { ApartExtents(nodes, d, id.dir); }
  }

  lemma EnlargedSelf(g: Geometry, heap: Heap, heap': Heap, nodes: Owners, id: Id, c: nat)
    requires Enlarged(g, heap, heap', nodes, id, c)
    requires DirRecords(nodes, id, DirSlots(heap, nodes[id].ext), g.BytesPerCluster())
    requires id == Root || (id.Child? && id.dir != id)
    ensures DirRecords(Extended(g, nodes, id, c), id, DirSlots(heap', nodes[id].ext + [c]), g.BytesPerCluster())
    ensures InHeap(g, nodes[id].ext + [c]) && HeapShape(g, heap')
  {
    hide Says;
    hide SlotsOf;
    hide PatchedSet;
    hide Geometry.BytesPerCluster;
    var nodes', cb := Extended(g, nodes, id, c), g.BytesPerCluster();
    RecordsSpaced(nodes, id, DirSlots(heap, nodes[id].ext), DirSlots(heap', nodes[id].ext + [c]), cb);
    SameChildren(nodes, nodes', id, DirSlots(heap', nodes[id].ext + [c]), cb);
  }

  lemma EnlargedParent(g: Geometry, heap: Heap, heap': Heap, nodes: Owners, id: Id, c: nat)
    requires TreeBut(g, heap, nodes, id) && Enlarged(g, heap, heap', nodes, id, c) && id.Child?
    requires id.dir != id
    requires nodes[id].linked && nodes[id].ext != [] && nodes[id].valid == |nodes[id].ext| * g.BytesPerCluster()
    requires (|nodes[id].ext| + 1) * g.BytesPerCluster() <= U64_MAX
    ensures DirOk(Extended(g, nodes, id, c), id.dir, DirSlots(heap', nodes[id.dir].ext), g.BytesPerCluster())
  {
    hide Says;
    hide SlotsOf;
    hide PatchedSet;
    hide Geometry.BytesPerCluster;
    var slots, n, cb := DirSlots(heap, nodes[id.dir].ext), nodes[id], g.BytesPerCluster();
    assert Child(id.dir, id.at) == id;
    ButRecords(g, heap, nodes, id);
    RecordHere(g, heap, nodes, id);
    var win := slots[id.at..id.at + n.count];
    GrownSays(g, n, win, c);
    var patched := PatchedSet(win, false, Grown(g, n), First(n.ext), Grown(g, n));
    WindowTypes(slots, id.at, win, patched);
    assert DirOk(nodes, id.dir, slots, cb);
    DirRewrite(nodes, id.dir, slots, cb, id.at, n.(ext := n.ext + [c], valid := n.valid + cb), patched);
  }

  /** An enlarged directory stands, and so do all others. */
  lemma EnlargedStays(g: Geometry, heap: Heap, heap': Heap, nodes: Owners, id: Id, c: nat)
    requires TreeRecords(g, heap, nodes) && Enlarged(g, heap, heap', nodes, id, c) && Apart(nodes)
    requires nodes[id].ext != [] && 2 <= nodes[id].ext[0]
    requires forall other, i :: other in nodes && 0 <= i < |nodes[other].ext| ==> nodes[other].ext[i] != c
    requires id == Root || (id.Child? && id.dir != id)
    ensures DirsStay(heap, nodes, heap', Extended(g, nodes, id, c))
  {
    hide TreeRecords;
    hide SlotsOf;
    hide PatchedSet;
    hide Geometry.BytesPerCluster;
    hide Enlarged;
    hide Stays;
    hide Stored;
    hide SameSets;
    EnlargedReads(g, heap, heap', nodes, id, c);
    var nodes' := Extended(g, nodes, id, c);
    forall d | d in nodes && nodes[d].isDir
      ensures DirStays(heap, nodes, heap', nodes', d)
    {
      RecordsStored(g, heap, nodes, d);
      if d == id {
        StaysSpaced(DirSlots(heap, nodes[id].ext), DirSlots(heap', nodes[id].ext + [c]));
      } else if id.Child? && d == id.dir {
        EnlargedRecordStays(g, heap, heap', nodes, id, c);
      } else {
        EnlargedElsewhere(g, heap, heap', nodes, id, c, d);
        FlatFrame(heap, heap', nodes[d].ext);
        StaysRefl(DirSlots(heap, nodes[d].ext));
      }
    }
  }

  lemma EnlargedReads(g: Geometry, heap: Heap, heap': Heap, nodes: Owners, id: Id, c: nat)
    requires Enlarged(g, heap, heap', nodes, id, c)
    ensures id in nodes && nodes[id].isDir && Reads(heap', nodes[id].ext + [c]) && Reads(heap, nodes[id].ext)
    ensures SameSets(DirSlots(heap, nodes[id].ext), DirSlots(heap', nodes[id].ext + [c]))
  {
    hide SlotsOf;
    hide SameSets;
    hide PatchedSet;
    hide Flat;
  }

  lemma EnlargedRecordStays(g: Geometry, heap: Heap, heap': Heap, nodes: Owners, id: Id, c: nat)
    requires TreeRecords(g, heap, nodes) && Enlarged(g, heap, heap', nodes, id, c) && id.Child? && id.dir != id
    requires nodes[id].ext != [] && 2 <= nodes[id].ext[0]
    ensures DirStays(heap, nodes, heap', Extended(g, nodes, id, c), id.dir)
  {
    hide TreeRecords;
    hide SlotsOf;
    hide PatchedSet;
    hide Geometry.BytesPerCluster;
    hide Stays;
    hide Stored;
    hide SameSets;
    hide Says;
    hide Flat;
    RecordHere(g, heap, nodes, id);
    RecordsStored(g, heap, nodes, id.dir);
    var slots := DirSlots(heap, nodes[id.dir].ext);
    SaysOpens(nodes[id], slots, id.at, g.BytesPerCluster());
    StaysPatched(slots, id.at, nodes[id].count, false, Grown(g, nodes[id]), First(nodes[id].ext), Grown(g, nodes[id]));
  }

  /** Enlarging a directory changes no file's bytes. */
  lemma EnlargedContents(g: Geometry, heap: Heap, heap': Heap, nodes: Owners, id: Id, c: nat)
    requires Enlarged(g, heap, heap', nodes, id, c) && Apart(nodes)
    requires id in nodes && nodes[id].isDir && (id.Child? ==> id.dir in nodes && nodes[id.dir].isDir)
    requires forall other, i :: other in nodes && 0 <= i < |nodes[other].ext| ==> nodes[other].ext[i] != c
    ensures Contents(heap', Extended(g, nodes, id, c)) == Contents(heap, nodes)
  {
    hide Enlarged;
    hide Content;
    var nodes' := Extended(g, nodes, id, c);
    forall f | IsFile(nodes, f)
      ensures Content(heap', nodes[f]) == Content(heap, nodes[f])
    {
      EnlargedElsewhere(g, heap, heap', nodes, id, c, f);
      ContentFrame(heap, heap', nodes[f]);
    }
    assert Contents(heap', nodes').Keys == Contents(heap, nodes).Keys;
  }

  /** The handle knows where the directory's own record is. */
  ghost predicate MetaOk(g: Geometry, nodes: Owners, dir: Directory, id: Id) {
    id == Root ||
      (&& id.Child? && id in nodes && id.dir in nodes && dir.primary.Some? && dir.stream.Some?
       && dir.entryCount == nodes[id].count && 2 <= dir.entryCount
       && LocatedAt(g, nodes[id.dir].ext, id.at, dir.entryLocs, dir.entryCount)
       && dir.primary.value == dir.entryLocs[0] && dir.stream.value == dir.entryLocs[1])
  }

  lemma SlotsAppend(g: Geometry, heap: Heap, ext: seq<nat>, c: nat)
    requires g.WellFormed() && HeapShape(g, heap) && InHeap(g, ext + [c]) && 2 <= c < |heap|
    requires heap[c] == Zeros(g.BytesPerCluster())
    ensures (forall i :: 0 <= i < |ext| ==> ext[i] < |heap|) && 2 <= c < |heap|
    ensures DirSlots(heap, ext + [c]) == DirSlots(heap, ext) + seq(g.BytesPerCluster() / 32, _ => ZeroSlot())
  {
    hide Geometry.WellFormed;
    hide Geometry.BytesPerCluster;
    assert (ext + [c])[..|ext|] == ext && (ext + [c])[|ext|] == c;
    assert forall i :: 0 <= i < |ext| ==> ext[i] == (ext + [c])[i];
    SlotCount(g, heap, ext);
    ClusterMultiple32(g);
    ZeroSlots(Flat(heap, ext), g.BytesPerCluster());
  }

  lemma ZeroSlots(bytes: seq<byte>, n: nat)
    requires |bytes| % 32 == 0 && n % 32 == 0
    ensures SlotsOf(bytes + Zeros(n)) == SlotsOf(bytes) + seq(n / 32, _ => ZeroSlot())
  {
    var all := bytes + Zeros(n);
    forall k | 0 <= k < |all| / 32
      ensures SlotAt(all, k) == (SlotsOf(bytes) + seq(n / 32, _ => ZeroSlot()))[k]
    {
      if 32 * k < |bytes| {
        assert all[32 * k..32 * k + 32] == bytes[32 * k..32 * k + 32];
      } else {
        assert all[32 * k..32 * k + 32] == ZeroSlot();
      }
    }
  }

  /** The directory's record in its parent, unless it is the root, has been
      rewritten to the new length, and nothing else changed. */
  ghost predicate ParentRewritten(g: Geometry, heap: Heap, heap': Heap, nodes: Owners, id: Id) {
    && id in nodes
    && if id.Child? then
         && id.dir in nodes && nodes[id.dir].isDir && id.dir != id && InHeap(g, nodes[id.dir].ext)
           && nodes[id].count >= 2
         && First(nodes[id].ext) <= U32_MAX && HeapShape(g, heap)
         && Rewritten(heap, heap', nodes[id.dir].ext, id.at, GrownInfo(g, nodes[id]))
       else heap' == heap
  }

  /** The slots of the grown directory itself. */
  lemma EnlargedSlots(g: Geometry, heap1: Heap, heap3: Heap, heap4: Heap, nodes: Owners, id: Id, c: nat)
    requires g.WellFormed() && id in nodes && nodes[id].isDir && nodes[id].ext != []
    requires HeapShape(g, heap1) && HeapShape(g, heap3) && HeapShape(g, heap4) && InHeap(g, nodes[id].ext)
    requires 2 <= c < |heap1|
    requires |heap3| == |heap1|
    requires heap3[c] == Zeros(g.BytesPerCluster()) && Apart(nodes) && ParentRewritten(g, heap3, heap4, nodes, id)
    requires forall other, i :: other in nodes && 0 <= i < |nodes[other].ext| ==> nodes[other].ext[i] != c
    requires DirSlots(heap3, nodes[id].ext) ==
      MarkedFrom(DirSlots(heap1, nodes[id].ext), |DirSlots(heap1, nodes[id].ext)| - g.bytesPerSector / 32)
    requires |DirSlots(heap1, nodes[id].ext)| >= g.bytesPerSector / 32
    ensures InHeap(g, nodes[id].ext + [c])
    ensures DirSlots(heap4, nodes[id].ext + [c]) ==
      Roomier(DirSlots(heap1, nodes[id].ext), g.bytesPerSector / 32, g.BytesPerCluster() / 32)
  {
    hide SlotsOf;
    hide PatchedSet;
    hide Geometry.WellFormed;
    hide Geometry.BytesPerCluster;
    hide ParentRewritten;
    hide HeapShape;
    var ext := nodes[id].ext;
    ParentElsewhere(g, heap3, heap4, nodes, id, c);
    FlatFrame(heap3, heap4, ext + [c]);
    SlotsAppend(g, heap3, ext, c);
  }

  lemma ParentElsewhere(g: Geometry, heap3: Heap, heap4: Heap, nodes: Owners, id: Id, c: nat)
    requires id in nodes && Apart(nodes) && ParentRewritten(g, heap3, heap4, nodes, id)
    requires HeapShape(g, heap3) && HeapShape(g, heap4) && InHeap(g, nodes[id].ext) && 2 <= c < |heap3|
    requires forall other, i :: other in nodes && 0 <= i < |nodes[other].ext| ==> nodes[other].ext[i] != c
    ensures InHeap(g, nodes[id].ext + [c]) && c < |heap4|
    ensures forall i :: 0 <= i < |nodes[id].ext + [c]| ==>
      (nodes[id].ext + [c])[i] < |heap3| && (nodes[id].ext + [c])[i] < |heap4|
      && heap4[(nodes[id].ext + [c])[i]] == heap3[(nodes[id].ext + [c])[i]]
  {
    hide SlotsOf;
    hide PatchedSet;
    if id.Child? { ApartExtents(nodes, id, id.dir); }
  }

  /** The pieces of a growth put together. */
  lemma EnlargedDone(g: Geometry, heap1: Heap, heap3: Heap, heap4: Heap, nodes: Owners, id: Id, c: nat)
    requires g.clusterCount + 2 <= U32_MAX && id in nodes && nodes[id].isDir && nodes[id].ext != []
    requires HeapShape(g, heap1) && HeapShape(g, heap4) && InHeap(g, nodes[id].ext) && 2 <= c < g.clusterCount + 2
    requires Apart(nodes) && ParentRewritten(g, heap3, heap4, nodes, id) && |heap3| == |heap1|
    requires forall x :: 0 <= x < |heap1| && x != nodes[id].ext[|nodes[id].ext| - 1] ==> heap3[x] == heap1[x]
    requires SameSets(DirSlots(heap1, nodes[id].ext), DirSlots(heap4, nodes[id].ext + [c]))
    ensures Enlarged(g, heap1, heap4, nodes, id, c)
  {
    hide SlotsOf;
    hide PatchedSet;
    hide SameSets;
    hide Geometry.BytesPerCluster;
    if id.Child? {
      ApartExtents(nodes, id.dir, id);
      FlatFrame(heap1, heap3, nodes[id.dir].ext);
    }
  }

  /** What the record of a growing directory is to say.  Only these fields of the
      handle matter to its contents. */
  ghost function GrownInfo(g: Geometry, n: Node): StreamInfo
    requires n.count >= 2 && First(n.ext) <= U32_MAX
  {
    StreamInfo(NOWHERE, NOWHERE, [], n.count, First(n.ext), Grown(g, n), Grown(g, n), false)
  }

  /** Facts about a directory that growing it relies on. */
  lemma ExtendReady(fs: FileSystem, dir: Directory, id: Id)
    requires InvLoose(fs) && DirIs(fs.g, fs.nodes, dir, id) && MetaOk(fs.g, fs.nodes, dir, id)
    ensures |fs.fat| == fs.g.clusterCount + 2 <= 0xffff_fff7 && Apart(fs.nodes) && HeapShape(fs.g, fs.heap)
    ensures id in fs.nodes
    ensures var n := fs.nodes[id];
            && InHeap(fs.g, n.ext) && Distinct(n.ext) && n.linked && n.ext != [] && n.isDir
            && n.valid == |n.ext| * fs.g.BytesPerCluster() && (|n.ext| + 1) * fs.g.BytesPerCluster() <= U64_MAX
            && First(n.ext) == n.ext[0] <= U32_MAX
            && n.ext[|n.ext| - 1] !in fs.bm && 2 <= n.ext[|n.ext| - 1] < fs.g.clusterCount + 2
            && Scannable(fs.g, fs.heap, n.ext) && |DirSlots(fs.heap, n.ext)| >= fs.g.bytesPerSector / 32
    ensures id == Root || (id.Child? && id.dir != id && id.dir in fs.nodes && fs.nodes[id.dir].isDir)
    ensures id.Child? ==>
      var dext := fs.nodes[id.dir].ext;
      && InHeap(fs.g, dext) && Distinct(dext) && fs.nodes[id].count >= 2
      && (forall i :: 0 <= i < |dext| ==> dext[i] < |fs.heap| && dext[i] !in fs.bm)
      && id.at + fs.nodes[id].count <= |DirSlots(fs.heap, dext)|
    ensures BitmapFile in fs.nodes && !fs.nodes[BitmapFile].isDir
  {
    hide FileSystem.Valid;
    hide Says;
    fs.Basics();
    var n := fs.nodes[id];
    assert NodeOk(fs.g, fs.fat, fs.used, n);
    DirectoryExtent(fs.g, fs.fat, fs.used, fs.bm, fs.nodes, id);
    DistinctFits(fs.g, n.ext);
    ClusterBound(fs.g);
    LengthFits(|n.ext| + 1, fs.g.BytesPerCluster());
    ScannableOn(fs, n.ext);
    MulMonotone(1, |n.ext|, fs.g.BytesPerCluster());
    OneSector(fs.g);
    SectorRoom(fs.g, 0);
    if id.Child? {
      ChildParent(fs.g, fs.fat, fs.used, fs.bm, fs.nodes, id);
      DirectoryExtent(fs.g, fs.fat, fs.used, fs.bm, fs.nodes, id.dir);
      RecordHere(fs.g, fs.heap, fs.nodes, id);
    }
  }

  /** Taking a free cluster leaves a directory's slots alone. */
  lemma SlotsKept(g: Geometry, fat: seq<u32>, used: set<nat>, bm: seq<nat>, nodes: Owners, heap: Heap, heap': Heap,
                  id: Id)
    requires OwnOk(g, fat, used, bm, nodes) && Untouched(heap, heap', used, bm) && id in nodes && nodes[id].isDir
    requires forall i :: 0 <= i < |nodes[id].ext| ==> nodes[id].ext[i] < |heap|
    ensures |heap'| == |heap| && DirSlots(heap', nodes[id].ext) == DirSlots(heap, nodes[id].ext)
  {
    hide SlotsOf;
    assert NodeOk(g, fat, used, nodes[id]);
    DirectoryExtent(g, fat, used, bm, nodes, id);
    FlatFrame(heap, heap', nodes[id].ext);
  }

  /** Taking a free cluster keeps the tree, gap and all, and what was reserved. */
  lemma ButKept(g: Geometry, fat: seq<u32>, used: set<nat>, bm: seq<nat>, nodes: Owners, heap: Heap, heap': Heap,
                me: Id)
    requires OwnOk(g, fat, used, bm, nodes) && Untouched(heap, heap', used, bm) && HeapShape(g, heap')
    requires TreeBut(g, heap, nodes, me)
    ensures TreeBut(g, heap', nodes, me)
    ensures Contents(heap', nodes) == Contents(heap, nodes) && DirsKept(heap, heap', nodes)
  {
    hide SlotsOf;
    hide DirRecords;
    hide ZeroTail;
    forall d | d in nodes && nodes[d].isDir
      ensures Flat(heap', nodes[d].ext) == Flat(heap, nodes[d].ext)
    {
      DirectoryFlat(g, fat, used, bm, nodes, heap, heap', d);
    }
    UntouchedKeeps(g, fat, used, bm, nodes, heap, heap', BitmapFile);
    KeptContents(heap, heap', nodes, BitmapFile);
    BitmapNotDirectory(g, fat, used, bm, nodes);
    OthersKeepDirs(heap, heap', nodes, BitmapFile);
  }

  lemma DirectoryFlat(g: Geometry, fat: seq<u32>, used: set<nat>, bm: seq<nat>, nodes: Owners, heap: Heap, heap': Heap,
                      d: Id)
    requires OwnOk(g, fat, used, bm, nodes) && Untouched(heap, heap', used, bm) && d in nodes && nodes[d].isDir
    requires forall i :: 0 <= i < |nodes[d].ext| ==> nodes[d].ext[i] < |heap|
    ensures |heap'| == |heap| && Flat(heap', nodes[d].ext) == Flat(heap, nodes[d].ext)
  {
    assert NodeOk(g, fat, used, nodes[d]);
    DirectoryExtent(g, fat, used, bm, nodes, d);
    FlatFrame(heap, heap', nodes[d].ext);
  }

  /** Directory `id` has a new last cluster, zeroed and linked.  `heap1` is the
      volume between the allocation and the marking of the old last sector. */
  ghost predicate ChainExtended(g: Geometry, bm: seq<nat>, nodes: Owners, id: Id, c: nat, fat: seq<u32>,
                                used0: set<nat>, used: set<nat>, heap0: Heap, heap1: Heap, heap3: Heap) {
    && id in nodes && nodes[id].ext != [] && 2 <= c < g.clusterCount + 2 && c !in used0 && used == used0 + {c}
    && |fat| == g.clusterCount + 2
    && (forall other, i :: other in nodes && 0 <= i < |nodes[other].ext| ==> nodes[other].ext[i] != c)
    && OwnOk(g, fat, used, bm, Extended(g, nodes, id, c))
    && TreeBut(g, heap1, nodes, id) && HeapShape(g, heap1) && HeapShape(g, heap3)
    && Contents(heap1, nodes) == Contents(heap0, nodes)
    && Scannable(g, heap0, nodes[id].ext) && Scannable(g, heap1, nodes[id].ext) && Scannable(g, heap3, nodes[id].ext)
    && DirSlots(heap1, nodes[id].ext) == DirSlots(heap0, nodes[id].ext)
    && DirsStay(heap0, nodes, heap1, nodes)
    && DirSlots(heap3, nodes[id].ext) ==
         MarkedFrom(DirSlots(heap1, nodes[id].ext), |DirSlots(heap1, nodes[id].ext)| - g.bytesPerSector / 32)
    && heap3[c] == Zeros(g.BytesPerCluster())
    && (forall x :: 0 <= x < |heap1| && x != nodes[id].ext[|nodes[id].ext| - 1] ==> heap3[x] == heap1[x])
  }

  lemma UntouchedSize(heap: Heap, heap': Heap, used: set<nat>, bm: seq<nat>)
    requires Untouched(heap, heap', used, bm)
    ensures |heap'| == |heap|
  {
  }

  /** Allocate a cluster and hang it, zeroed, behind a directory's last one. */
  method ExtendChain(fs: FileSystem, dir: Directory, last: nat, ghost id: Id)
    returns (r: Result<nat>, ghost heap1: Heap)
    requires InvBut(fs, id) && DirIs(fs.g, fs.nodes, dir, id) && MetaOk(fs.g, fs.nodes, dir, id)
    requires last == fs.nodes[id].ext[|fs.nodes[id].ext| - 1]
    modifies fs`clock, fs`scratch, fs`disk, fs`fat, fs`heap, fs`used, fs`free
    ensures fs.Valid() && |fs.heap| == |old(fs.heap)|
    ensures r.Err? ==> r.error in {Device, NoSpace}
    ensures r == Err(NoSpace) ==> InvBut(fs, id) && fs.used == old(fs.used) && fs.heap == old(fs.heap)
    ensures r.Ok? ==>
      ChainExtended(fs.g, fs.bm, fs.nodes, id, r.value, fs.fat, old(fs.used), fs.used, old(fs.heap), heap1, fs.heap)
    ensures Honest(fs.faulty, old(fs.clock), fs.clock, r == Err(Device))
    ensures r == Err(NoSpace) ==> Full(fs.g, fs.used)
  {
    hide Failures;
    hide FileSystem.Valid;
    hide OwnOk;
    hide TreeBut;
    hide TreeRecords;
    hide Contents;
    hide MetaOk;
    hide DirSlots;
    hide Untouched;
    hide DirsStay;
    hide Geometry.BytesPerCluster;
    ButLoose(fs, id);
    ExtendReady(fs, dir, id);
    ghost var heap0, fat0, used0, nodes, ext := fs.heap, fs.fat, fs.used, fs.nodes, fs.nodes[id].ext;
    heap1 := fs.heap;
    var taken := TakeCluster(fs, last + 1);
    UntouchedSize(heap0, fs.heap, used0, fs.bm);
    if taken.Err? { return taken, heap1; }
    var c := taken.value;
    heap1 := fs.heap;
    assert HeapShape(fs.g, heap1) && |fs.fat| == fs.g.clusterCount + 2 by { fs.Basics(); }
    ButKept(fs.g, fat0, used0, fs.bm, nodes, heap0, heap1, id);
    KeptStays(fs.g, heap0, heap1, nodes);
    SlotsKept(fs.g, fat0, used0, fs.bm, nodes, heap0, heap1, id);
    ExtendOwn(fs.g, fs.fat, fs.used, fs.bm, nodes, id, c);
    var linked := fs.SetFat(last, c);
    if linked.Err? { return Err(linked.error), heap1; }
    ScannableOn(fs, ext);
    assert c != last;
    var marked := MarkTail(fs, last, ext);
    if marked.Err? { return Err(marked.error), heap1; }
    assert HeapShape(fs.g, fs.heap) && |fs.fat| == fs.g.clusterCount + 2 by { fs.Basics(); }
    return Ok(c), heap1;
  }

  /** What a growth by cluster `c` has made of the volume. */
  ghost predicate DirGrown(g: Geometry, bm: seq<nat>, nodes: Owners, id: Id, c: nat, fat: seq<u32>, used0: set<nat>,
                           used: set<nat>, heap0: Heap, heap: Heap) {
    && id in nodes && 2 <= c < g.clusterCount + 2 && c !in used0 && used == used0 + {c}
    && OwnOk(g, fat, used, bm, Extended(g, nodes, id, c))
    && TreeBut(g, heap, Extended(g, nodes, id, c), id)
    && Contents(heap, Extended(g, nodes, id, c)) == Contents(heap0, nodes)
    && DirsStay(heap0, nodes, heap, Extended(g, nodes, id, c))
    && Scannable(g, heap0, nodes[id].ext) && Scannable(g, heap, nodes[id].ext + [c])
    && DirSlots(heap, nodes[id].ext + [c]) ==
         Roomier(DirSlots(heap0, nodes[id].ext), g.bytesPerSector / 32, g.BytesPerCluster() / 32)
  }

  lemma GrowthDone(g: Geometry, bm: seq<nat>, nodes: Owners, id: Id, c: nat, fat: seq<u32>, used0: set<nat>,
                   used: set<nat>, heap0: Heap, heap1: Heap, heap3: Heap, heap4: Heap)
    requires ChainExtended(g, bm, nodes, id, c, fat, used0, used, heap0, heap1, heap3)
    requires ParentRewritten(g, heap3, heap4, nodes, id) && HeapShape(g, heap4) && Apart(nodes)
    requires nodes[id].isDir && nodes[id].linked && nodes[id].valid == |nodes[id].ext| * g.BytesPerCluster()
    requires (|nodes[id].ext| + 1) * g.BytesPerCluster() <= U64_MAX
    requires id == Root || (id.Child? && id.dir != id && id.dir in nodes && nodes[id.dir].isDir
                            && InHeap(g, nodes[id.dir].ext) && nodes[id].count >= 2
                            && id.at + nodes[id].count <= |DirSlots(heap1, nodes[id.dir].ext)|)
    requires |DirSlots(heap1, nodes[id].ext)| >= g.bytesPerSector / 32
    ensures DirGrown(g, bm, nodes, id, c, fat, used0, used, heap0, heap4)
  {
    hide OwnOk;
    hide TreeBut;
    hide TreeRecords;
    hide Contents;
    hide ParentRewritten;
    hide DirSlots;
    hide SameSets;
    hide Roomier;
    hide Enlarged;
    hide DirsStay;
    hide Geometry.BytesPerCluster;
    ScannableGeometry(g, heap0, nodes[id].ext);
    EnlargedSlots(g, heap1, heap3, heap4, nodes, id, c);
    RoomierSame(DirSlots(heap1, nodes[id].ext), g.bytesPerSector / 32, g.BytesPerCluster() / 32);
    EnlargedDone(g, heap1, heap3, heap4, nodes, id, c);
    ButRecords(g, heap1, nodes, id);
    EnlargedTree(g, heap1, heap4, nodes, id, c);
    EnlargedContents(g, heap1, heap4, nodes, id, c);
    EnlargedStays(g, heap1, heap4, nodes, id, c);
    DirsStayTrans(heap0, nodes, heap1, nodes, heap4, Extended(g, nodes, id, c));
  }

  lemma LengthRecorded(g: Geometry, heap: Heap, heap': Heap, nodes: Owners, id: Id, info: StreamInfo)
    requires id in nodes && id.Child? && id.dir in nodes && nodes[id.dir].isDir && id.dir != id
    requires InHeap(g, nodes[id.dir].ext)
    requires nodes[id].count >= 2 && First(nodes[id].ext) <= U32_MAX && HeapShape(g, heap)
    requires info.entryCount == nodes[id].count && info.firstCluster == First(nodes[id].ext) && !info.noFatChain
    requires info.dataLength == info.validLength == Grown(g, nodes[id])
    requires Rewritten(heap, heap', nodes[id.dir].ext, id.at, info)
    ensures ParentRewritten(g, heap, heap', nodes, id)
  {
    hide PatchedSet;
    hide SlotsOf;
    hide Grown;
  }

  /** The record-keeping part of a growth: the directory's new length. */
  method RecordLength(fs: FileSystem, dir: Directory, length: nat, ghost id: Id) returns (r: Result<()>)
    requires fs.Valid() && MetaOk(fs.g, fs.nodes, dir, id) && id.Child? && id in fs.nodes && length <= U64_MAX
    requires fs.nodes[id].isDir && dir.firstCluster == First(fs.nodes[id].ext) <= U32_MAX
    requires length == Grown(fs.g, fs.nodes[id])
    requires id.dir in fs.nodes && fs.nodes[id.dir].isDir && id.dir != id
    requires var dext := fs.nodes[id.dir].ext;
             && InHeap(fs.g, dext) && Distinct(dext)
             && (forall i :: 0 <= i < |dext| ==> dext[i] < |fs.heap| && dext[i] !in fs.bm)
             && id.at + fs.nodes[id].count <= |DirSlots(fs.heap, dext)|
    modifies fs`clock, fs`scratch, fs`disk, fs`heap
    ensures fs.Valid()
    ensures r.Err? ==> r.error == Device
    ensures r.Ok? ==> ParentRewritten(fs.g, old(fs.heap), fs.heap, fs.nodes, id) && HeapShape(fs.g, fs.heap)
    ensures Honest(fs.faulty, old(fs.clock), fs.clock, r == Err(Device))
  {
    hide FileSystem.Valid;
    hide DirSlots;
    hide LocAt;
    hide Rewritten;
    hide ParentRewritten;
    hide Grown;
    assert HeapShape(fs.g, fs.heap) by { fs.Basics(); }
    if dir.primary.None? || dir.stream.None? { return Err(Corrupt); }
    var info := StreamInfo(dir.primary.value, dir.stream.value, dir.entryLocs, dir.entryCount,
                           dir.firstCluster, length, length, false);
    ghost var torn, heap := false, fs.heap;
    r, torn := UpdateStream(fs, info, fs.nodes[id.dir].ext, id.at);
    assert HeapShape(fs.g, fs.heap) by { fs.Basics(); }
    if r.Ok? { LengthRecorded(fs.g, heap, fs.heap, fs.nodes, id, info); }
  }

  /** Length zero stands for the root, and only for it. */
  lemma RootLength(g: Geometry, nodes: Owners, dir: Directory, id: Id)
    requires DirIs(g, nodes, dir, id) && g.BytesPerCluster() > 0
    ensures dir.dataLength == 0 <==> id == Root
  {
    MulMonotone(1, |nodes[id].ext|, g.BytesPerCluster());
  }

  lemma ChainShapes(g: Geometry, bm: seq<nat>, nodes: Owners, id: Id, c: nat, fat: seq<u32>, used0: set<nat>,
                    used: set<nat>, heap0: Heap, heap1: Heap, heap3: Heap)
    requires ChainExtended(g, bm, nodes, id, c, fat, used0, used, heap0, heap1, heap3)
    ensures HeapShape(g, heap1) && HeapShape(g, heap3)
  {
    hide OwnOk;
    hide TreeBut;
    hide Contents;
    hide DirSlots;
  }

  lemma RootParent(g: Geometry, heap: Heap, nodes: Owners, id: Id)
    requires id == Root && id in nodes
    ensures ParentRewritten(g, heap, heap, nodes, id)
  {
  }

  /** The number of slots of an extent does not depend on their contents. */
  lemma SameCount(g: Geometry, heap: Heap, heap': Heap, ext: seq<nat>)
    requires g.WellFormed() && HeapShape(g, heap) && HeapShape(g, heap') && InHeap(g, ext)
    ensures (forall i :: 0 <= i < |ext| ==> ext[i] < |heap| && ext[i] < |heap'|)
    ensures |DirSlots(heap, ext)| == |DirSlots(heap', ext)|
  {
    SlotCount(g, heap, ext);
    SlotCount(g, heap', ext);
  }

  /** Grow a directory by one zeroed cluster that its readers can reach.  When
      the volume is full nothing has changed. */
  method Extend(fs: FileSystem, dir: Directory, last: nat, ghost id: Id) returns (r: Result<nat>, dir': Directory)
    requires InvBut(fs, id) && DirIs(fs.g, fs.nodes, dir, id) && MetaOk(fs.g, fs.nodes, dir, id)
    requires last == fs.nodes[id].ext[|fs.nodes[id].ext| - 1]
    modifies fs`clock, fs`scratch, fs`disk, fs`fat, fs`heap, fs`used, fs`free, fs`nodes
    ensures fs.Valid()
    ensures r.Err? ==> r.error in {Device, NoSpace} && fs.nodes == old(fs.nodes)
    ensures r == Err(NoSpace) ==> InvBut(fs, id) && fs.used == old(fs.used) && fs.heap == old(fs.heap)
    ensures r.Ok? ==>
      && DirGrown(fs.g, fs.bm, old(fs.nodes), id, r.value, fs.fat, old(fs.used), fs.used, old(fs.heap), fs.heap)
      && fs.nodes == Extended(fs.g, old(fs.nodes), id, r.value)
      && DirIs(fs.g, fs.nodes, dir', id) && MetaOk(fs.g, fs.nodes, dir', id)
    ensures Honest(fs.faulty, old(fs.clock), fs.clock, r == Err(Device))
    ensures r == Err(NoSpace) ==> Full(fs.g, fs.used)
  {
    hide Failures;
    hide FileSystem.Valid;
    hide OwnOk;
    hide TreeBut;
    hide TreeRecords;
    hide Contents;
    hide DirSlots;
    hide ParentRewritten;
    hide ChainExtended;
    hide DirGrown;
    hide Geometry.BytesPerCluster;
    hide LocatedAt;
    ButLoose(fs, id);
    ExtendReady(fs, dir, id);
    fs.Basics();
    dir' := dir;
    ghost var heap0, used0, nodes, ext := fs.heap, fs.used, fs.nodes, fs.nodes[id].ext;
    ghost var heap1;
    r, heap1 := ExtendChain(fs, dir, last, id);
    if r.Err? { return; }
    ghost var heap3 := fs.heap;
    ChainShapes(fs.g, fs.bm, nodes, id, r.value, fs.fat, used0, fs.used, heap0, heap1, heap3);
    RootLength(fs.g, nodes, dir, id);
    NextMultiple(|ext|, fs.g.BytesPerCluster());
    SameCount(fs.g, heap0, heap1, ext);
    if id.Child? {
      SameCount(fs.g, heap0, heap1, nodes[id.dir].ext);
      SameCount(fs.g, heap0, heap3, nodes[id.dir].ext);
    }
    if dir.dataLength != 0 {
      if dir.dataLength + fs.g.BytesPerCluster() > U64_MAX { return Err(NoSpace), dir'; }
      dir' := dir.(dataLength := dir.dataLength + fs.g.BytesPerCluster());
      var recorded := RecordLength(fs, dir, dir'.dataLength, id);
      if recorded.Err? { return Err(recorded.error), dir'; }
    } else {
      RootParent(fs.g, heap3, nodes, id);
    }
    GrowthDone(fs.g, fs.bm, nodes, id, r.value, fs.fat, used0, fs.used, heap0, heap1, heap3, fs.heap);
    fs.nodes := Extended(fs.g, nodes, id, r.value);
  }

  // ----- the finder -----------------------------------------------------------------------------

  ghost function SetOf(grown: seq<nat>): set<nat> {
    set c | c in grown
  }

  /** What finding room has done to the volume so far: directory `id` has been
      given the clusters `grown`, and nothing else has changed its meaning. */
  ghost predicate Making(g: Geometry, nodes0: Owners, nodes: Owners, id: Id, grown: seq<nat>, used0: set<nat>,
                         used: set<nat>, heap0: Heap, heap: Heap) {
    && id in nodes0 && id in nodes
    && nodes == nodes0[id := nodes0[id].(ext := nodes0[id].ext + grown,
                                         valid := nodes0[id].valid + |grown| * g.BytesPerCluster())]
    && used == used0 + SetOf(grown)
    && (forall c :: c in grown ==> c !in used0)
    && Contents(heap, nodes) == Contents(heap0, nodes0)
    && Scannable(g, heap0, nodes0[id].ext) && Scannable(g, heap, nodes[id].ext)
    && SameSets(DirSlots(heap0, nodes0[id].ext), DirSlots(heap, nodes[id].ext))
    && DirsStay(heap0, nodes0, heap, nodes)
  }

  lemma SameSetsTrans(a: seq<Slot>, b: seq<Slot>, c: seq<Slot>)
    requires SameSets(a, b) && SameSets(b, c)
    ensures SameSets(a, c)
  {
  }

  lemma MakingStarts(g: Geometry, nodes: Owners, id: Id, used: set<nat>, heap: Heap)
    requires id in nodes && Scannable(g, heap, nodes[id].ext) && DirsStay(heap, nodes, heap, nodes)
    ensures Making(g, nodes, nodes, id, [], used, used, heap, heap)
  {
    hide DirsStay;
    assert nodes[id].ext + [] == nodes[id].ext;
    assert nodes == nodes[id := nodes[id]];
  }

  lemma MakingMore(g: Geometry, bm: seq<nat>, nodes0: Owners, nodes: Owners, id: Id, grown: seq<nat>, c: nat,
                   fat: seq<u32>, used0: set<nat>, used: set<nat>, used': set<nat>, heap0: Heap, heap: Heap,
                   heap': Heap)
    requires Making(g, nodes0, nodes, id, grown, used0, used, heap0, heap)
    requires DirGrown(g, bm, nodes, id, c, fat, used, used', heap, heap')
    ensures Making(g, nodes0, Extended(g, nodes, id, c), id, grown + [c], used0, used', heap0, heap')
  {
    hide OwnOk;
    hide TreeBut;
    hide Contents;
    hide DirSlots;
    hide SameSets;
    hide DirsStay;
    hide Geometry.BytesPerCluster;
    NextMultiple(|grown|, g.BytesPerCluster());
    assert nodes0[id].ext + grown + [c] == nodes0[id].ext + (grown + [c]);
    RoomierSame(DirSlots(heap, nodes[id].ext), g.bytesPerSector / 32, g.BytesPerCluster() / 32);
    SameSetsTrans(DirSlots(heap0, nodes0[id].ext), DirSlots(heap, nodes[id].ext), DirSlots(heap', nodes[id].ext + [c]));
    DirsStayTrans(heap0, nodes0, heap, nodes, heap', Extended(g, nodes, id, c));
    assert SetOf(grown + [c]) == SetOf(grown) + {c};
  }

  /** The places of the run, continued from the front of the new cluster. */
  method FillLocators(locs0: seq<EntryLocator>, run: nat, needed: nat, lba: nat) returns (locs: seq<EntryLocator>)
    requires |locs0| == 19 && run + needed <= 19
    ensures |locs| == 19 && locs[..run] == locs0[..run]
    ensures forall i :: 0 <= i < needed ==> locs[run + i] == EntryLocator(lba, 32 * i)
  {
    locs := locs0;
    for index := 0 to needed
      invariant |locs| == 19 && locs[..run] == locs0[..run]
      invariant forall i :: 0 <= i < index ==> locs[run + i] == EntryLocator(lba, 32 * i)
    {
      locs := locs[run + index := EntryLocator(lba, index * 32)];
    }
  }

  /** Locators in the places of an extent are located there. */
  lemma PlacesLocated(g: Geometry, heap: Heap, ext: seq<nat>, k: nat, locs: seq<EntryLocator>, n: nat)
    requires Scannable(g, heap, ext) && LocsFrom(Places(g, heap, ext), k, locs, n)
    ensures LocatedAt(g, ext, k, locs, n)
  {
    hide LocAt;
    SlotCount(g, heap, ext);
  }

  lemma GrownLocated(fs: FileSystem, ext: seq<nat>, c: nat, slots: nat, run: nat, needed: nat, locs0: seq<EntryLocator>,
                     locs: seq<EntryLocator>, heap: Heap)
    requires fs.Valid() && Scannable(fs.g, heap, ext) && Scannable(fs.g, fs.heap, ext + [c])
    requires slots == |DirSlots(heap, ext)|
    requires run <= slots && LocsFrom(Places(fs.g, heap, ext), slots - run, locs0, run)
    requires run + needed <= 19 && 32 * needed <= fs.g.bytesPerSector && |locs| == 19 && locs[..run] == locs0[..run]
    requires 2 <= c < fs.g.clusterCount + 2
    requires forall i :: 0 <= i < needed ==> locs[run + i] == EntryLocator(HeapLba(fs.g, c, 0), 32 * i)
    ensures LocatedAt(fs.g, ext + [c], slots - run, locs, run + needed)
  {
    hide FileSystem.Valid;
    hide Geometry.BytesPerCluster;
    hide LocAt;
    var ext', k := ext + [c], slots - run;
    SlotCount(fs.g, heap, ext);
    OneSector(fs.g);
    NextMultiple(|ext|, fs.g.BytesPerCluster());
    BytesPositive(fs.g);
    SectorRoom(fs.g, 0);
    forall i | 0 <= i < run + needed
      ensures 32 * (k + i) < |ext'| * fs.g.BytesPerCluster() && locs[i] == LocAt(fs.g, ext', k + i)
    {
      if i < run {
        assert locs[i] == locs[..run][i] == locs0[..run][i] == LocAt(fs.g, ext, k + i);
        SamePlace(fs.g, ext, c, k + i);
      } else {
        LocHere(fs.g, ext', |ext|, 0, slots, i - run);
        assert locs[i] == locs[run + (i - run)];
      }
    }
  }

  lemma SamePlace(g: Geometry, ext: seq<nat>, c: nat, k: nat)
    requires g.WellFormed() && g.clusterCount + 2 <= U32_MAX && InHeap(g, ext) && InHeap(g, ext + [c])
    requires 32 * k < |ext| * g.BytesPerCluster() && 32 * k < |ext + [c]| * g.BytesPerCluster()
    ensures LocAt(g, ext, k) == LocAt(g, ext + [c], k)
  {
    SlotCluster(g, ext, k);
  }

  /** Continue a run that reaches the end of the old clusters `ext` in the new
      cluster, if what it lacks fits in one sector. */
  method CrossOver(fs: FileSystem, c: nat, run: nat, wanted: nat, locs: seq<EntryLocator>, ghost ext: seq<nat>,
                   ghost heap: Heap)
    returns (r: Result<Option<seq<EntryLocator>>>)
    requires fs.Valid() && 2 <= c < fs.g.clusterCount + 2 && run < wanted <= 19
    requires Scannable(fs.g, heap, ext) && Scannable(fs.g, fs.heap, ext + [c])
    requires fs.g.bytesPerSector / 32 <= |DirSlots(heap, ext)|
    requires RunAt(DirSlots(heap, ext), |DirSlots(heap, ext)|, run) && run <= |DirSlots(heap, ext)|
    requires LocsFrom(Places(fs.g, heap, ext), |DirSlots(heap, ext)| - run, locs, run)
    requires DirSlots(fs.heap, ext + [c]) ==
             Roomier(DirSlots(heap, ext), fs.g.bytesPerSector / 32, fs.g.BytesPerCluster() / 32)
    ensures r.Ok? && (r.value.Some? <==> run != 0 && wanted - run <= fs.g.bytesPerSector / 32)
    ensures r.value.Some? ==>
      LocatedAt(fs.g, ext + [c], |DirSlots(heap, ext)| - run, r.value.value, wanted)
  {
    hide FileSystem.Valid;
    hide DirSlots;
    hide RunAt;
    hide LocsFrom;
    hide Places;
    hide Room;
    hide Roomier;
    hide ZeroTail;
    hide LocAt;
    hide LocatedAt;
    hide Geometry.BytesPerCluster;
    hide Geometry.WellFormed;
    ghost var slots, more := DirSlots(heap, ext), fs.g.BytesPerCluster() / 32;
    var size: nat := fs.g.bytesPerSector;
    SectorSlotsCount(fs);
    if run != 0 {
      var base := fs.g.ClusterLba(c);
      NewAddress(fs, c);
      if base.None? { return Err(Corrupt); }
      var needed := wanted - run;
      if needed <= size / 32 {
        LocsBound(Places(fs.g, heap, ext), |slots| - run, locs, run);
        var filled := FillLocators(locs, run, needed, base.value);
        GrownLocated(fs, ext, c, |slots|, run, needed, locs, filled, heap);
        return Ok(Some(filled));
      }
    }
    return Ok(None);
  }

  /** Grow a directory without room, and continue the run at its end in the new
      cluster if the first sector of that makes it long enough. */
  method Lengthen(fs: FileSystem, dir: Directory, last: nat, run: nat, locs: seq<EntryLocator>, wanted: nat,
                  ghost id: Id, ghost n: nat)
    returns (r: Result<Option<seq<EntryLocator>>>, dir': Directory, ghost c: nat)
    requires InvBut(fs, id) && DirIs(fs.g, fs.nodes, dir, id) && MetaOk(fs.g, fs.nodes, dir, id) && wanted <= 19
    requires id in fs.nodes
    requires LookedThrough(fs.g, fs.heap, fs.nodes[id].ext, wanted, false, last, run, locs, n)
    modifies fs`clock, fs`scratch, fs`disk, fs`fat, fs`heap, fs`used, fs`free, fs`nodes
    ensures fs.Valid()
    ensures r.Err? ==> r.error in {Device, NoSpace}
    ensures r == Err(NoSpace) ==>
      InvBut(fs, id) && fs.nodes == old(fs.nodes) && fs.used == old(fs.used) && fs.heap == old(fs.heap)
    ensures r.Ok? ==>
      && InvBut(fs, id) && DirIs(fs.g, fs.nodes, dir', id) && MetaOk(fs.g, fs.nodes, dir', id)
      && DirGrown(fs.g, fs.bm, old(fs.nodes), id, c, fs.fat, old(fs.used), fs.used, old(fs.heap), fs.heap)
      && fs.nodes == Extended(fs.g, old(fs.nodes), id, c) && id in fs.nodes
      && Scannable(fs.g, fs.heap, fs.nodes[id].ext)
      && var slots := old(DirSlots(fs.heap, fs.nodes[id].ext));
         && DirSlots(fs.heap, fs.nodes[id].ext) ==
              Roomier(slots, fs.g.bytesPerSector / 32, fs.g.BytesPerCluster() / 32)
         && (r.value.Some? <==> Crosses(slots, wanted, fs.g.bytesPerSector / 32))
         && (r.value.Some? ==> LocatedAt(fs.g, fs.nodes[id].ext, |slots| - EndRun(slots), r.value.value, wanted))
    ensures Honest(fs.faulty, old(fs.clock), fs.clock, r == Err(Device))
    ensures r == Err(NoSpace) ==> Full(fs.g, fs.used)
  {
    hide FileSystem.Valid;
    hide OwnOk;
    hide TreeBut;
    hide TreeRecords;
    hide Contents;
    hide DirSlots;
    hide RunAt;
    hide NoRunIn;
    hide LocsFrom;
    hide Places;
    hide SameSets;
    hide LocatedAt;
    hide Roomier;
    hide LocAt;
    hide MetaOk;
    hide DirIs;
    hide DirGrown;
    hide Extended;
    hide DirsStay;
    hide Geometry.BytesPerCluster;
    hide Geometry.WellFormed;
    ghost var nodes, heap, used, ext := fs.nodes, fs.heap, fs.used, fs.nodes[id].ext;
    c := 0;
    ButLoose(fs, id);
    ExtendReady(fs, dir, id);
    RunMissing(DirSlots(heap, ext), wanted, run);
    RunBound(DirSlots(heap, ext), n, run);
    var added;
    added, dir' := Extend(fs, dir, last, id);
    if added.Err? { return Err(added.error), dir', c; }
    c := added.value;
    GrownFacts(fs.g, fs.bm, nodes, id, c, fs.fat, used, fs.used, heap, fs.heap);
    r := CrossOver(fs, added.value, run, wanted, locs, ext, heap);
  }

  /** The directory has so many vacant slots in a row. */
  ghost predicate HasVacancy(heap: Heap, nodes: Owners, id: Id, wanted: nat) {
    id in nodes && Reads(heap, nodes[id].ext) && exists j: nat :: Vacant(DirSlots(heap, nodes[id].ext), j, wanted)
  }

  /** They start at slot `k`. */
  ghost predicate VacantAt(heap: Heap, nodes: Owners, id: Id, k: nat, wanted: nat) {
    id in nodes && Reads(heap, nodes[id].ext) && Vacant(DirSlots(heap, nodes[id].ext), k, wanted)
  }

  lemma VacantLess(heap: Heap, nodes: Owners, id: Id, k: nat, n: nat, wanted: nat)
    requires VacantAt(heap, nodes, id, k, n) && wanted <= n
    ensures HasVacancy(heap, nodes, id, wanted)
  {
    hide DirSlots;
    assert Vacant(DirSlots(heap, nodes[id].ext), k, wanted);
  }

  /** Slot `k` starts the first of them. */
  ghost predicate FillsVacancy(heap: Heap, nodes: Owners, id: Id, wanted: nat, k: nat) {
    id in nodes && Reads(heap, nodes[id].ext) && FirstVacant(DirSlots(heap, nodes[id].ext), k, wanted)
  }

  lemma VacancyFound(g: Geometry, heap0: Heap, nodes0: Owners, used0: set<nat>, heap: Heap, nodes: Owners,
                     used: set<nat>, id: Id, wanted: nat, grown: seq<nat>, k: nat, done: bool)
    requires AsFound(g, heap0, nodes0, heap, nodes, id, wanted, |grown|, k, done)
    requires Making(g, nodes0, nodes, id, grown, used0, used, heap0, heap)
    ensures HasVacancy(heap0, nodes0, id, wanted) ==>
      && done && grown == [] && used == used0 && nodes == nodes0 && DirSlots(heap, nodes[id].ext) ==
           DirSlots(heap0, nodes0[id].ext) && FillsVacancy(heap0, nodes0, id, wanted, k)
  {
    hide DirSlots;
    hide Find;
    hide Vacant;
    hide Roomier;
    hide DirsStay;
    hide SameSets;
    hide Contents;
    hide Scannable;
    hide Geometry.BytesPerCluster;
    if HasVacancy(heap0, nodes0, id, wanted) {
      var slots := DirSlots(heap0, nodes0[id].ext);
      var j: nat :| Vacant(slots, j, wanted);
      VacantTaken(slots, wanted, g.bytesPerSector / 32, g.BytesPerCluster() / 32, j);
      assert nodes0[id].ext + [] == nodes0[id].ext;
    }
  }

  /** Find room for an entry set of `wanted` slots.  What is found, and how often
      the directory grows for it, is what `Find` says of its slots; every entry
      set of the directory stays where it is.  Only a full volume lacks room, and
      not even that where so many slots in a row are vacant: the first such place
      is taken. */
  method FindFreeEntries(fs: FileSystem, directory: Directory, wanted: nat, ghost id: Id)
    returns (r: Result<seq<EntryLocator>>, ghost k: nat, ghost grown: seq<nat>)
    requires InvBut(fs, id) && DirIs(fs.g, fs.nodes, directory, id) && MetaOk(fs.g, fs.nodes, directory, id)
    requires 3 <= wanted <= 19
    modifies fs`clock, fs`scratch, fs`disk, fs`fat, fs`heap, fs`used, fs`free, fs`nodes
    ensures fs.Valid() && |grown| <= 2
    ensures r.Err? ==> r.error in {Device, NoSpace}
    ensures r.Ok? || r == Err(NoSpace) ==>
      && InvBut(fs, id)
      && Making(fs.g, old(fs.nodes), fs.nodes, id, grown, old(fs.used), fs.used, old(fs.heap), fs.heap)
      && AsFound(fs.g, old(fs.heap), old(fs.nodes), fs.heap, fs.nodes, id, wanted, |grown|, k, r.Ok?)
    ensures r.Ok? ==> LocatedAt(fs.g, fs.nodes[id].ext, k, r.value, wanted)
    ensures Honest(fs.faulty, old(fs.clock), fs.clock, r == Err(Device))
    ensures r != Err(Device) && old(HasVacancy(fs.heap, fs.nodes, id, wanted)) ==>
      && r.Ok? && grown == [] && fs.used == old(fs.used) && fs.nodes == old(fs.nodes)
      && old(FillsVacancy(fs.heap, fs.nodes, id, wanted, k))
    ensures r == Err(NoSpace) ==> Full(fs.g, fs.used)
  {
    hide HasVacancy;
    hide FillsVacancy;
    hide Failures;
    hide FileSystem.Valid;
    hide OwnOk;
    hide TreeBut;
    hide TreeRecords;
    hide DirSlots;
    hide LookedThrough;
    hide LocatedAt;
    hide Roomier;
    hide LocAt;
    hide MetaOk;
    hide DirIs;
    hide DirGrown;
    hide Extended;
    hide Making;
    hide Searching;
    hide AsFound;
    hide Geometry.BytesPerCluster;
    hide Geometry.WellFormed;
    k, grown := 0, [];
    ghost var heap0, nodes0, used0 := fs.heap, fs.nodes, fs.used;
    var size: nat := fs.g.bytesPerSector;
    var dir := directory;
    SearchStarts(fs, dir, wanted, id);
    while true
      invariant Honest(fs.faulty, old(fs.clock), fs.clock, false)
      invariant InvBut(fs, id) && DirIs(fs.g, fs.nodes, dir, id) && MetaOk(fs.g, fs.nodes, dir, id) && |grown| <= 1
      invariant Searching(fs.g, heap0, nodes0, used0, fs.heap, fs.nodes, fs.used, id, wanted, grown)
      decreases 2 - |grown|
    {
      ghost var nodes, heap, used := fs.nodes, fs.heap, fs.used;
      ButLoose(fs, id);
      var found, last, run, locs, n := FindRun(fs, dir, wanted, id);
      if found.Err? { return Err(found.error), k, grown; }
      if found.value {
        SearchFound(fs.g, heap0, nodes0, used0, heap, nodes, used, id, wanted, grown, last, run, locs, n);
        VacancyFound(fs.g, heap0, nodes0, used0, heap, nodes, used, id, wanted, grown, n - run, true);
        return Ok(locs), n - run, grown;
      }
      SearchMissed(fs.g, heap0, nodes0, used0, heap, nodes, used, id, wanted, grown, last, run, locs, n);
      VacancyFound(fs.g, heap0, nodes0, used0, heap, nodes, used, id, wanted, grown, 0, false);
      ghost var c;
      var crossed;
      crossed, dir, c := Lengthen(fs, dir, last, run, locs, wanted, id, n);
      if crossed.Err? { return Err(crossed.error), k, grown; }
      SearchOn(fs.g, fs.bm, heap0, nodes0, used0, heap, nodes, used, fs.heap, fs.fat, fs.used, id, wanted, grown, c);
      if crossed.value.Some? { return Ok(crossed.value.value), n - run, grown + [c]; }
      grown := grown + [c];
    }
  }

  /** The directory has grown so often, to the end or not, and what was found is
      what `Find` says. */
  ghost predicate AsFound(g: Geometry, heap0: Heap, nodes0: Owners, heap: Heap, nodes: Owners, id: Id, wanted: nat,
                          growths: nat, k: nat, done: bool) {
    && id in nodes0 && id in nodes && Reads(heap0, nodes0[id].ext) && Reads(heap, nodes[id].ext) && 0 < wanted
    && var slots, marked, more := DirSlots(heap0, nodes0[id].ext), g.bytesPerSector / 32, g.BytesPerCluster() / 32;
       && Sizes(marked, more) && marked <= |slots|
       && DirSlots(heap, nodes[id].ext) == Roomed(slots, marked, more, growths)
       && (if done then Find(slots, wanted, marked, more) == Finding(growths, k)
           else growths < Find(slots, wanted, marked, more).growths)
  }

  /** Where the search for room stands before a round. */
  ghost predicate Searching(g: Geometry, heap0: Heap, nodes0: Owners, used0: set<nat>, heap: Heap, nodes: Owners,
                            used: set<nat>, id: Id, wanted: nat, grown: seq<nat>) {
    && Making(g, nodes0, nodes, id, grown, used0, used, heap0, heap) && |grown| <= 1 && 0 < wanted <= 19
    && var slots, marked, more := DirSlots(heap0, nodes0[id].ext), g.bytesPerSector / 32, g.BytesPerCluster() / 32;
       && Sizes(marked, more) && marked <= |slots|
       && DirSlots(heap, nodes[id].ext) == Roomed(slots, marked, more, |grown|)
       && (grown != [] ==> !HoldsRun(slots, wanted) && !Crosses(slots, wanted, marked))
  }

  lemma SearchStarts(fs: FileSystem, dir: Directory, wanted: nat, id: Id)
    requires InvBut(fs, id) && DirIs(fs.g, fs.nodes, dir, id) && MetaOk(fs.g, fs.nodes, dir, id) && 0 < wanted <= 19
    ensures Searching(fs.g, fs.heap, fs.nodes, fs.used, fs.heap, fs.nodes, fs.used, id, wanted, [])
  {
    hide FileSystem.Valid;
    hide OwnOk;
    hide TreeBut;
    hide TreeRecords;
    hide DirSlots;
    hide MetaOk;
    hide DirIs;
    hide DirsStay;
    hide Geometry.BytesPerCluster;
    ButLoose(fs, id);
    ExtendReady(fs, dir, id);
    SameStays(fs.g, fs.heap, fs.nodes);
    MakingStarts(fs.g, fs.nodes, id, fs.used, fs.heap);
    SectorSlotsCount(fs);
  }

  lemma SearchFound(g: Geometry, heap0: Heap, nodes0: Owners, used0: set<nat>, heap: Heap, nodes: Owners,
                    used: set<nat>, id: Id, wanted: nat, grown: seq<nat>, last: nat, run: nat, locs: seq<EntryLocator>,
                    n: nat)
    requires Searching(g, heap0, nodes0, used0, heap, nodes, used, id, wanted, grown)
    requires id in nodes && LookedThrough(g, heap, nodes[id].ext, wanted, true, last, run, locs, n)
    ensures run <= n && LocatedAt(g, nodes[id].ext, n - run, locs, wanted)
    ensures AsFound(g, heap0, nodes0, heap, nodes, id, wanted, |grown|, n - run, true)
    ensures Making(g, nodes0, nodes, id, grown, used0, used, heap0, heap)
  {
    hide DirSlots;
    hide Contents;
    hide SameSets;
    hide DirsStay;
    hide RunAt;
    hide NoRunIn;
    hide LocsFrom;
    hide LocatedAt;
    hide Places;
    hide LocAt;
    hide Find;
    hide HoldsRun;
    hide Crosses;
    hide Geometry.BytesPerCluster;
    var slots := DirSlots(heap, nodes[id].ext);
    RunBound(slots, n, run);
    RunFoundFirst(slots, wanted, n);
    FindHere(DirSlots(heap0, nodes0[id].ext), wanted, g.bytesPerSector / 32, g.BytesPerCluster() / 32, |grown|);
    PlacesLocated(g, heap, nodes[id].ext, n - run, locs, run);
  }

  lemma SearchMissed(g: Geometry, heap0: Heap, nodes0: Owners, used0: set<nat>, heap: Heap, nodes: Owners,
                     used: set<nat>, id: Id, wanted: nat, grown: seq<nat>, last: nat, run: nat, locs: seq<EntryLocator>,
                     n: nat)
    requires Searching(g, heap0, nodes0, used0, heap, nodes, used, id, wanted, grown)
    requires id in nodes && LookedThrough(g, heap, nodes[id].ext, wanted, false, last, run, locs, n)
    ensures AsFound(g, heap0, nodes0, heap, nodes, id, wanted, |grown|, 0, false) && Reads(heap, nodes[id].ext)
    ensures Making(g, nodes0, nodes, id, grown, used0, used, heap0, heap)
    ensures run == EndRun(DirSlots(heap, nodes[id].ext)) && n == |DirSlots(heap, nodes[id].ext)| && run <= n
    ensures !HoldsRun(DirSlots(heap, nodes[id].ext), wanted)
  {
    hide DirSlots;
    hide Contents;
    hide SameSets;
    hide DirsStay;
    hide RunAt;
    hide NoRunIn;
    hide LocsFrom;
    hide Places;
    hide LocAt;
    hide Find;
    hide HoldsRun;
    hide Crosses;
    hide Roomier;
    hide Geometry.BytesPerCluster;
    RunMissing(DirSlots(heap, nodes[id].ext), wanted, run);
    RunBound(DirSlots(heap, nodes[id].ext), n, run);
    FindFurther(DirSlots(heap0, nodes0[id].ext), wanted, g.bytesPerSector / 32, g.BytesPerCluster() / 32, |grown|);
  }

  /** The directory has grown by cluster `c`: either the room is found, or the
      search goes on, for the last time. */
  lemma SearchOn(g: Geometry, bm: seq<nat>, heap0: Heap, nodes0: Owners, used0: set<nat>, heap: Heap, nodes: Owners,
                 used: set<nat>, heap': Heap, fat': seq<u32>, used': set<nat>, id: Id, wanted: nat, grown: seq<nat>,
                 c: nat)
    requires Searching(g, heap0, nodes0, used0, heap, nodes, used, id, wanted, grown)
    requires id in nodes && Reads(heap, nodes[id].ext) && !HoldsRun(DirSlots(heap, nodes[id].ext), wanted)
    requires DirGrown(g, bm, nodes, id, c, fat', used, used', heap, heap')
    ensures var slots, nodes' := DirSlots(heap, nodes[id].ext), Extended(g, nodes, id, c);
            && Making(g, nodes0, nodes', id, grown + [c], used0, used', heap0, heap')
            && if Crosses(slots, wanted, g.bytesPerSector / 32)
               then AsFound(g, heap0, nodes0, heap', nodes', id, wanted, |grown| + 1, |slots| - EndRun(slots), true)
               else grown == [] && Searching(g, heap0, nodes0, used0, heap', nodes', used', id, wanted, grown + [c])
  {
    hide OwnOk;
    hide TreeBut;
    hide DirSlots;
    hide Contents;
    hide SameSets;
    hide DirsStay;
    hide Find;
    hide HoldsRun;
    hide Crosses;
    hide Roomier;
    hide Geometry.BytesPerCluster;
    var slots0, marked, more := DirSlots(heap0, nodes0[id].ext), g.bytesPerSector / 32, g.BytesPerCluster() / 32;
    MakingMore(g, bm, nodes0, nodes, id, grown, c, fat', used0, used, used', heap0, heap, heap');
    FindFurther(slots0, wanted, marked, more, |grown|);
    RoomedTwice(slots0, marked, more);
    if Crosses(DirSlots(heap, nodes[id].ext), wanted, marked) { FindAcross(slots0, wanted, marked, more, |grown|); }
  }

  /** A directory grows by as many clusters as are taken. */
  lemma GrownTook(g: Geometry, nodes0: Owners, nodes: Owners, id: Id, grown: seq<nat>, used0: set<nat>, used: set<nat>,
                  heap0: Heap, heap: Heap)
    requires Making(g, nodes0, nodes, id, grown, used0, used, heap0, heap)
    ensures Took(used0, used, |grown|)
  {
    hide Contents;
    hide DirSlots;
    hide SameSets;
    hide DirsStay;
    SetTook(used0, grown);
  }

  lemma {:induction false} SetTook(used0: set<nat>, grown: seq<nat>)
    ensures Took(used0, used0 + SetOf(grown), |grown|)
  {
    if grown == [] {
      assert used0 + SetOf(grown) == used0;
      TookNone(used0);
    } else {
      var n := |grown| - 1;
      SetTook(used0, grown[..n]);
      TookMore(used0, used0 + SetOf(grown[..n]), n, grown[n]);
      assert grown == grown[..n] + [grown[n]];
      assert used0 + SetOf(grown) == used0 + SetOf(grown[..n]) + {grown[n]};
    }
  }

  /** The directory has no room for so many slots as it is. */
  ghost predicate Roomless(heap: Heap, nodes: Owners, d: Id, wanted: nat) {
    d in nodes && Reads(heap, nodes[d].ext) && !HoldsRun(DirSlots(heap, nodes[d].ext), wanted)
  }

  /** What decides whether a refused creation leaves unused slots before others:
      it leaves none if the directory had the room, no unused slot before its
      last sector, or no cluster to grow by. */
  ghost predicate Gapless(g: Geometry, heap: Heap, nodes: Owners, used: set<nat>, d: Id, wanted: nat) {
    && d in nodes && Reads(heap, nodes[d].ext)
    && var slots := DirSlots(heap, nodes[d].ext);
       HoldsRun(slots, wanted) || NoneBefore(slots, g.bytesPerSector / 32) || Full(g, used)
  }

  /** That is exactly so, whether the room was found or not. */
  lemma GapExactly(g: Geometry, heap0: Heap, nodes0: Owners, used0: set<nat>, heap: Heap, nodes: Owners, used: set<nat>,
                   id: Id, wanted: nat, grown: seq<nat>, k: nat, done: bool)
    requires AsFound(g, heap0, nodes0, heap, nodes, id, wanted, |grown|, k, done) && TreeBut(g, heap, nodes, id)
    requires Making(g, nodes0, nodes, id, grown, used0, used, heap0, heap) && nodes[id].isDir
    requires ZeroTail(DirSlots(heap0, nodes0[id].ext)) && 3 <= wanted <= 19
    requires !done ==> Full(g, used)
    ensures TreeOk(g, heap, nodes) <==> Gapless(g, heap0, nodes0, used0, id, wanted)
  {
    hide DirSlots;
    hide SameSets;
    hide DirsStay;
    hide Contents;
    hide TreeBut;
    hide TreeOk;
    hide ZeroTail;
    hide Roomed;
    hide HoldsRun;
    hide NoneBefore;
    hide Crosses;
    hide Geometry.BytesPerCluster;
    hide Geometry.WellFormed;
    var slots, marked, more := DirSlots(heap0, nodes0[id].ext), g.bytesPerSector / 32, g.BytesPerCluster() / 32;
    TailDecides(g, heap, nodes, id);
    FindFits(slots, wanted, marked, more);
    FindGap(slots, wanted, marked, more, |grown|);
    GrownNotFull(g, nodes0, nodes, id, grown, used0, used, heap0, heap);
    if !done && |grown| == 1 { TwiceGrown(slots, wanted, marked, more); }
  }

  lemma TailDecides(g: Geometry, heap: Heap, nodes: Owners, id: Id)
    requires TreeBut(g, heap, nodes, id) && id in nodes && nodes[id].isDir && Reads(heap, nodes[id].ext)
    ensures TreeOk(g, heap, nodes) <==> ZeroTail(DirSlots(heap, nodes[id].ext))
  {
    hide DirRecords;
    hide ZeroTail;
    hide SlotsOf;
    if TreeOk(g, heap, nodes) {
      assert DirOk(nodes, id, SlotsOf(Flat(heap, nodes[id].ext)), g.BytesPerCluster());
    }
    if ZeroTail(DirSlots(heap, nodes[id].ext)) { WholeTree(g, heap, nodes, id); }
  }

  /** A directory grows by clusters that were free. */
  lemma GrownNotFull(g: Geometry, nodes0: Owners, nodes: Owners, id: Id, grown: seq<nat>, used0: set<nat>,
                     used: set<nat>, heap0: Heap, heap: Heap)
    requires Making(g, nodes0, nodes, id, grown, used0, used, heap0, heap)
    ensures Full(g, used0) ==> grown == []
    ensures grown == [] ==> used == used0
  {
    hide DirSlots;
    hide SameSets;
    hide DirsStay;
    hide Contents;
    hide Geometry.BytesPerCluster;
    hide Geometry.WellFormed;
    if grown != [] {
      var c := grown[0];
      assert nodes[id].ext[|nodes0[id].ext|] == c && c !in used0;
    } else {
      assert SetOf(grown) == {};
    }
  }

  lemma GrownFacts(g: Geometry, bm: seq<nat>, nodes: Owners, id: Id, c: nat, fat: seq<u32>, used0: set<nat>,
                   used: set<nat>, heap0: Heap, heap: Heap)
    requires DirGrown(g, bm, nodes, id, c, fat, used0, used, heap0, heap)
    ensures id in nodes && 2 <= c < g.clusterCount + 2 && id in Extended(g, nodes, id, c)
    ensures Extended(g, nodes, id, c)[id].ext == nodes[id].ext + [c]
    ensures Extended(g, nodes, id, c)[id].isDir == nodes[id].isDir
    ensures OwnOk(g, fat, used, bm, Extended(g, nodes, id, c)) && TreeBut(g, heap, Extended(g, nodes, id, c), id)
    ensures Scannable(g, heap0, nodes[id].ext) && Scannable(g, heap, nodes[id].ext + [c])
    ensures DirSlots(heap, nodes[id].ext + [c]) ==
      Roomier(DirSlots(heap0, nodes[id].ext), g.bytesPerSector / 32, g.BytesPerCluster() / 32)
  {
    hide OwnOk;
    hide TreeBut;
    hide Contents;
    hide Roomier;
  }

  lemma NewAddress(fs: FileSystem, c: nat)
    requires fs.Valid() && 2 <= c < fs.g.clusterCount + 2
    ensures fs.g.WellFormed() && fs.g.ClusterLba(c) == Some(HeapLba(fs.g, c, 0))
  {
    fs.Basics();
  }

  lemma SectorSlotsCount(fs: FileSystem)
    requires fs.Valid()
    ensures Sizes(fs.g.bytesPerSector / 32, fs.g.BytesPerCluster() / 32)
    ensures fs.g.bytesPerSector / 32 * 32 == fs.g.bytesPerSector
  {
    hide FileSystem.Valid;
    fs.Basics();
    SectorSizes(fs.g);
  }

  lemma SectorSizes(g: Geometry)
    requires g.WellFormed()
    ensures Sizes(g.bytesPerSector / 32, g.BytesPerCluster() / 32) && g.bytesPerSector / 32 * 32 == g.bytesPerSector
  {
    var q: nat, n: nat := g.bytesPerSector / 512, g.sectorsPerCluster;
    assert g.bytesPerSector == 512 * q;
    Multiple512(q, n);
    MulMonotone(1, n, q);
  }

  lemma Multiple512(q: nat, n: nat)
    ensures 512 * q * n == 512 * (q * n) && 512 * (q * n) / 32 == 16 * (q * n) && 16 * (q * n) % 16 == 0
  {
  }
}
