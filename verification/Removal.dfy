/** Removing files and empty directories: retiring the entry set, and releasing
    the clusters -- all of them for a FAT-linked entry, only the first one for a
    contiguous entry. */
module Removal {
  import opened Words
  import opened Errors
  import opened Geometry
  import opened Views
  import opened Volume
  import opened Extents
  import opened EntrySets
  import opened Files
  import opened Tree
  import opened SlotIo
  import opened Meaning
  import opened Commits
  import opened Truncation
  import opened Listings
  import opened Standing
  import opened Upcase
  import opened Scanning
  import opened Directories
  import opened Names
  import opened Paths
  import opened Resolution
  import opened Vacancies
  import opened Reserving
  import opened Creation
  import opened Appending
  import opened Sessions

  // ----- retiring an entry set ---------------------------------------------------------

  /** `slots` with the in-use bits of slots `k` to `k + n` cleared. */
  function RetiredUpTo(slots: seq<Slot>, k: nat, n: nat): (s: seq<Slot>)
    requires k + n <= |slots|
    ensures |s| == |slots|
    ensures forall i :: 0 <= i < |s| ==> s[i] == if k <= i < k + n then Retired(slots[i]) else slots[i]
  {
    seq(|slots|, i requires 0 <= i < |slots| => if k <= i < k + n then Retired(slots[i]) else slots[i])
  }

  lemma RetiredStep(slots: seq<Slot>, k: nat, n: nat)
    requires k + n < |slots|
    ensures RetiredUpTo(slots, k, n)[k + n] == slots[k + n]
    ensures RetiredUpTo(slots, k, n)[k + n := Retired(slots[k + n])] == RetiredUpTo(slots, k, n + 1)
  {
  }

  lemma RetiredWhole(slots: seq<Slot>, k: nat, n: nat)
    requires k + n <= |slots|
    ensures RetiredUpTo(slots, k, 0) == slots
    ensures RetiredUpTo(slots, k, n) == Window(slots, k, RetiredSet(slots[k..k + n]))
  {
    WindowAt(slots, k, RetiredSet(slots[k..k + n]));
  }

  /** Clear the in-use bit of every slot of an entry set. */
  method RetireEntrySet(fs: FileSystem, locs: seq<EntryLocator>, count: nat, ghost ext: seq<nat>, ghost k: nat)
    returns (r: Result<()>)
    requires fs.Valid() && InHeap(fs.g, ext) && Distinct(ext) && LocatedAt(fs.g, ext, k, locs, count)
    requires k + count <= |DirSlots(fs.heap, ext)|
    requires forall i :: 0 <= i < |ext| ==> ext[i] !in fs.bm
    modifies fs`clock, fs`scratch, fs`disk, fs`heap
    ensures fs.Valid() && |fs.heap| == |old(fs.heap)|
    ensures r.Err? ==> r.error == Device
    ensures r.Ok? ==>
      DirSlots(fs.heap, ext) == Window(old(DirSlots(fs.heap, ext)), k,
                                       RetiredSet(old(DirSlots(fs.heap, ext))[k..k + count]))
    ensures forall c :: 0 <= c < |fs.heap| && c !in ext ==> fs.heap[c] == old(fs.heap)[c]
    ensures Honest(fs.faulty, old(fs.clock), fs.clock, r == Err(Device))
  {
    hide FileSystem.Valid;
    hide SlotsOf;
    hide LocAt;
    hide Retired;
    hide RetiredSet;
    hide RetiredUpTo;
    hide Window;
    hide Flat;
    hide Geometry.WellFormed;
    fs.Basics();
    ghost var slots := DirSlots(fs.heap, ext);
    RetiredWhole(slots, k, count);
    for i := 0 to count
      invariant Honest(fs.faulty, old(fs.clock), fs.clock, false)
      invariant fs.Valid() && |fs.heap| == |old(fs.heap)| && (forall j :: 0 <= j < |ext| ==> ext[j] < |fs.heap|)
      invariant DirSlots(fs.heap, ext) == RetiredUpTo(slots, k, i)
      invariant forall c :: 0 <= c < |fs.heap| && c !in ext ==> fs.heap[c] == old(fs.heap)[c]
    {
      RetiredStep(slots, k, i);
      var slot := LoadSlot(fs, locs[i], ext, k + i);
      if slot.Err? { return Err(slot.error); }
      var ok := StoreSlot(fs, locs[i], Retired(slot.value), ext, k + i);
      if !ok { return Err(Device); }
    }
    return Ok(());
  }

  // ----- the tree with one child less ---------------------------------------------------

  lemma RetireRecords(nodes: Owners, d: Id, slots: seq<Slot>, cb: nat, k: nat)
    requires DirOk(nodes, d, slots, cb) && Child(d, k) in nodes
    ensures k + nodes[Child(d, k)].count <= |slots|
    ensures var w := nodes[Child(d, k)].count;
            DirOk(nodes - {Child(d, k)}, d, Window(slots, k, RetiredSet(slots[k..k + w])), cb)
  {
    hide Says;
    hide Window;
    hide RetiredSet;
    hide RecordOk;
    var n := nodes[Child(d, k)];
    var w, nodes' := n.count, nodes - {Child(d, k)};
    assert RecordOk(n, slots, k, cb);
    RecordInUse(n, slots, k, cb);
    var win := slots[k..k + w];
    var slots' := Window(slots, k, RetiredSet(win));
    WindowAt(slots, k, RetiredSet(win));
    RetiredTypes(slots, k, w);
    RetiredTail(slots, k, RetiredSet(win));
    forall j: nat | Child(d, j) in nodes'
      ensures j < |slots'| && RecordOk(nodes'[Child(d, j)], slots', j, cb)
    {
      OtherRecord(nodes, d, slots, cb, k, RetiredSet(win), j);
    }
    forall j | 0 <= j < |slots'|
      ensures slots'[j][0] == 0x85 <==> Child(d, j) in nodes'
    {
      if k < j < k + w { RecordPrimary(n, slots, k, cb, j); }
    }
  }

  lemma RetiredTail(slots: seq<Slot>, k: nat, win: seq<Slot>)
    requires ZeroTail(slots) && k + |win| <= |slots| && forall i :: 0 <= i < |win| ==> win[i][0] != 0
    requires forall i :: k <= i < k + |win| ==> slots[i][0] != 0
    ensures ZeroTail(Window(slots, k, win))
  {
    hide Window;
    WindowAt(slots, k, win);
    var slots' := Window(slots, k, win);
    forall i, j | 0 <= i < j < |slots'| && slots'[i][0] == 0
      ensures slots'[j][0] == 0
    {
      assert slots'[i] == slots[i];
      assert slots[j][0] == 0;
    }
  }

  /** Inside a record only the first slot is a primary. */
  lemma RecordPrimary(n: Node, slots: seq<Slot>, k: nat, cb: nat, j: nat)
    requires RecordOk(n, slots, k, cb) && k < j < k + n.count
    ensures slots[j][0] != 0x85
  {
    var win := slots[k..k + n.count];
    SetTypes(win);
    assert win[j - k] == slots[j];
  }

  /** Retired slots are free, but not unused. */
  lemma RetiredTypes(slots: seq<Slot>, k: nat, w: nat)
    requires k + w <= |slots| && forall i :: k <= i < k + w ==> !Spare(slots[i])
    ensures var win := RetiredSet(slots[k..k + w]); forall i :: 0 <= i < w ==> 0 < win[i][0] < 0x80
  {
    var win := RetiredSet(slots[k..k + w]);
    forall i | 0 <= i < w
      ensures 0 < win[i][0] < 0x80
    {
      assert win[i] == Retired(slots[k + i]);
    }
  }

  lemma RetireTree(g: Geometry, heap: Heap, heap': Heap, nodes: Owners, id: Id)
    requires TreeOk(g, heap, nodes) && HeapShape(g, heap') && Apart(nodes) && |heap'| == |heap|
    requires id.Child? && id in nodes && id.dir in nodes && nodes[id.dir].isDir && id.dir != id
    requires InHeap(g, nodes[id.dir].ext) && id.at + nodes[id].count <= |DirSlots(heap, nodes[id.dir].ext)|
    requires DirSlots(heap', nodes[id.dir].ext) == Window(DirSlots(heap, nodes[id.dir].ext), id.at,
               RetiredSet(DirSlots(heap, nodes[id.dir].ext)[id.at..id.at + nodes[id].count]))
    requires forall c :: 0 <= c < |heap'| && c !in nodes[id.dir].ext ==> heap'[c] == heap[c]
    ensures TreeOk(g, heap', nodes - {id})
  {
    hide Says;
    hide SlotsOf;
    hide RetiredSet;
    hide Window;
    hide Geometry.BytesPerCluster;
    var nodes', cb := nodes - {id}, g.BytesPerCluster();
    assert Child(id.dir, id.at) == id;
    assert DirOk(nodes, id.dir, DirSlots(heap, nodes[id.dir].ext), cb);
    RetireRecords(nodes, id.dir, DirSlots(heap, nodes[id.dir].ext), cb, id.at);
    forall e | e in nodes' && nodes'[e].isDir
      ensures InHeap(g, nodes'[e].ext) && DirOk(nodes', e, SlotsOf(Flat(heap', nodes'[e].ext)), cb)
    {
      assert DirOk(nodes, e, DirSlots(heap, nodes[e].ext), cb);
      if e != id.dir {
        ApartExtents(nodes, e, id.dir);
        FlatFrame(heap, heap', nodes[e].ext);
        SameChildren(nodes, nodes', e, DirSlots(heap, nodes[e].ext), cb);
      }
    }
  }

  /** Dropping an owner that has no children. */
  lemma DropOwn(g: Geometry, fat: seq<u32>, used: set<nat>, bm: seq<nat>, nodes: Owners, id: Id)
    requires OwnOk(g, fat, used, bm, nodes) && id.Child? && forall j: nat :: Child(id, j) !in nodes
    ensures OwnOk(g, fat, used, bm, nodes - {id})
  {
    hide NodeOk;
    var nodes' := nodes - {id};
    forall d, j: nat | Child(d, j) in nodes'
      ensures d in nodes' && nodes'[d].isDir
    {
      assert Child(d, j) in nodes;
    }
  }

  /** The meaning of the volume without an owner. */
  lemma DropContents(g: Geometry, heap: Heap, heap': Heap, nodes: Owners, id: Id)
    requires Apart(nodes) && |heap'| == |heap| && id.Child? && id in nodes && id.dir in nodes && nodes[id.dir].isDir
    requires id.dir != id
    requires forall c :: 0 <= c < |heap'| && c !in nodes[id.dir].ext ==> heap'[c] == heap[c]
    ensures Contents(heap', nodes - {id}) == Contents(heap, nodes) - {id}
  {
    hide Content;
    forall f | IsFile(nodes, f)
      ensures Content(heap', nodes[f]) == Content(heap, nodes[f])
    {
      ApartExtents(nodes, f, id.dir);
      ContentFrame(heap, heap', nodes[f]);
    }
    assert Contents(heap', nodes - {id}).Keys == (Contents(heap, nodes) - {id}).Keys;
  }

  // ----- releasing the clusters ----------------------------------------------------------

  /** The clusters a removal gives back. */
  ghost function Released(ext: seq<nat>, linked: bool): set<nat> {
    if linked then SetOf(ext) else if ext == [] then {} else {ext[0]}
  }

  /** A removal gives back everything exactly when the entry is FAT-linked or has
      at most one cluster. */
  lemma ReleasesAllExactly(ext: seq<nat>, linked: bool)
    requires Distinct(ext)
    ensures Released(ext, linked) == SetOf(ext) <==> linked || |ext| <= 1
    ensures Released(ext, linked) <= SetOf(ext)
  {
    if !linked && |ext| > 1 {
      assert ext[1] in SetOf(ext) && ext[1] != ext[0];
    } else if !linked && |ext| == 1 {
      assert SetOf(ext) == {ext[0]};
    }
  }

  /** The smallest entry that loses a cluster: a contiguous run of two. */
  lemma TwoClustersLeak()
    ensures Contiguous([5, 6]) && Distinct([5, 6])
    ensures Released([5, 6], false) == {5} && SetOf([5, 6]) == {5, 6}
  {
    assert [5, 6][0] in SetOf([5, 6]) && [5, 6][1] in SetOf([5, 6]);
  }

  /** What has been given back after `n` rounds. */
  ghost function Gone(ext: seq<nat>, linked: bool, n: nat): set<nat>
    requires n <= |ext|
  {
    Released(ext[..n], linked)
  }

  lemma GoneStep(ext: seq<nat>, linked: bool, i: nat, used: set<nat>)
    requires i < |ext|
    ensures used - Gone(ext, linked, i) - {if linked then ext[i] else ext[0]} == used - Gone(ext, linked, i + 1)
  {
    assert ext[..i + 1] == ext[..i] + [ext[i]];
    assert ext[..i + 1][0] == ext[0] && (i > 0 ==> ext[..i][0] == ext[0]);
  }

  lemma GoneEnds(ext: seq<nat>, linked: bool, used: set<nat>)
    ensures used - Gone(ext, linked, 0) == used
    ensures used - Gone(ext, linked, |ext|) == used - Released(ext, linked)
  {
    assert ext[..|ext|] == ext;
    assert ext[..0] == [];
    assert SetOf(ext[..0]) == {};
  }

  /** Release the clusters of a removed entry: along a FAT chain every cluster, of
      a contiguous run the first one again and again. */
  method ReleaseEntryClusters(fs: FileSystem, firstCluster: nat, dataLength: nat, noFatChain: bool, ghost ext: seq<nat>,
                              ghost nodes: Owners) returns (r: Result<()>)
    requires fs.Valid() && OwnOk(fs.g, fs.fat, fs.used, fs.bm, nodes)
    requires InHeap(fs.g, ext) && Distinct(ext) && firstCluster == First(ext)
    requires dataLength == |ext| * fs.g.BytesPerCluster()
    requires noFatChain || Links(fs.fat, ext)
    requires forall other, i, j :: other in nodes && 0 <= i < |ext| && 0 <= j < |nodes[other].ext| ==>
      nodes[other].ext[j] != ext[i]
    modifies fs`clock, fs`scratch, fs`disk, fs`fat, fs`heap, fs`used, fs`free
    ensures fs.Valid() && |fs.heap| == |old(fs.heap)|
    ensures r.Err? ==> r.error == Device
    ensures r.Ok? ==> OwnOk(fs.g, fs.fat, fs.used, fs.bm, nodes) && fs.used == old(fs.used) - Released(ext, !noFatChain)
    ensures forall d :: 0 <= d < |fs.heap| && d !in fs.bm ==> fs.heap[d] == old(fs.heap)[d]
    ensures Honest(fs.faulty, old(fs.clock), fs.clock, r == Err(Device))
  {
    hide FileSystem.Valid;
    hide OwnOk;
    hide Gone;
    hide Released;
    hide Geometry.BytesPerCluster;
    fs.Basics();
    var clusterBytes := fs.g.BytesPerCluster();
    KeepCount(dataLength, |ext|, clusterBytes);
    ghost var used := fs.used;
    GoneEnds(ext, !noFatChain, used);
    if firstCluster < 2 || dataLength == 0 { return Ok(()); }
    var clusters := DivCeil(dataLength, clusterBytes);
    var cluster := firstCluster;
    for index := 0 to clusters
      invariant Honest(fs.faulty, old(fs.clock), fs.clock, false)
      invariant fs.Valid() && OwnOk(fs.g, fs.fat, fs.used, fs.bm, nodes) && |fs.fat| == fs.g.clusterCount + 2
      invariant |fs.heap| == |old(fs.heap)| && clusters == |ext|
      invariant index < |ext| ==> cluster == if noFatChain then ext[0] else ext[index]
      invariant fs.used == used - Gone(ext, !noFatChain, index)
      invariant noFatChain || forall j :: index <= j && j + 1 < |ext| ==> fs.fat[ext[j]] == ext[j + 1]
      invariant forall d :: 0 <= d < |fs.heap| && d !in fs.bm ==> fs.heap[d] == old(fs.heap)[d]
    {
      var next := None;
      if !noFatChain && index + 1 != clusters {
        var link := fs.NextCluster(cluster);
        if link.Err? { return Err(link.error); }
        assert link.value == ext[index + 1];
        next := Some(link.value);
      }
      r := FreeCluster(fs, cluster, nodes);
      if r.Err? { return; }
      GoneStep(ext, !noFatChain, index, used);
      if next.Some? {
        if !fs.g.InRange(next.value) { return Err(Corrupt); }
        cluster := next.value;
      }
    }
    return Ok(());
  }

  // ----- removing ------------------------------------------------------------------------

  /** Every child of a directory shows in its listing. */
  lemma ChildShows(nodes: Owners, d: Id, slots: seq<Slot>, locs: seq<EntryLocator>, cb: nat, j: nat)
    requires DirOk(nodes, d, slots, cb) && Stored(slots) && |slots| == |locs| && Child(d, j) in nodes
    ensures Listing(slots, locs) != []
  {
    hide FileSet;
    hide Decode;
    hide Says;
    assert RecordOk(nodes[Child(d, j)], slots, j, cb);
    RecordsSplit(slots, locs, 0, j, |slots|);
    assert RecordsIn(slots, locs, j, |slots|) != [];
  }

  /** A directory that lists nothing has no children. */
  lemma NoChildren(fs: FileSystem, id: Id)
    requires Inv(fs) && id in fs.nodes && fs.nodes[id].isDir && Listed(fs.g, fs.heap, fs.nodes, id)
    requires ListHere(fs.g, fs.heap, fs.nodes, id) == []
    ensures forall j: nat :: Child(id, j) !in fs.nodes
  {
    hide FileSystem.Valid;
    hide OwnOk;
    hide TreeOk;
    InvListed(fs, id);
    forall j: nat ensures Child(id, j) !in fs.nodes {
      if Child(id, j) in fs.nodes {
        ChildShows(fs.nodes, id, DirSlots(fs.heap, fs.nodes[id].ext), Places(fs.g, fs.heap, fs.nodes[id].ext),
                   fs.g.BytesPerCluster(), j);
      }
    }
  }

  /** Files have no children. */
  lemma FileChildren(g: Geometry, fat: seq<u32>, used: set<nat>, bm: seq<nat>, nodes: Owners, id: Id)
    requires OwnOk(g, fat, used, bm, nodes) && id in nodes && !nodes[id].isDir
    ensures forall j: nat :: Child(id, j) !in nodes
  {
  }

  /** Retire the entry set of a childless owner. */
  method RetireChild(fs: FileSystem, e: DirectoryEntry, ghost id: Id) returns (r: Result<()>)
    requires Inv(fs) && EntryFor(fs.g, fs.heap, fs.nodes, e, id) && EntryTells(fs.g, fs.nodes, e, id)
    requires forall j: nat :: Child(id, j) !in fs.nodes
    modifies fs`clock, fs`scratch, fs`disk, fs`heap, fs`nodes
    ensures fs.Valid()
    ensures r.Err? ==> r.error == Device
    ensures r.Ok? ==>
      && Inv(fs) && fs.nodes == old(fs.nodes) - {id}
      && Contents(fs.heap, fs.nodes) == old(Contents(fs.heap, fs.nodes)) - {id}
      && old(Listed(fs.g, fs.heap, fs.nodes, id.dir)) && Listed(fs.g, fs.heap, fs.nodes, id.dir)
      && OneMore(ListHere(fs.g, fs.heap, fs.nodes, id.dir), old(ListHere(fs.g, fs.heap, fs.nodes, id.dir)), e)
      && DirsGain(fs.heap, fs.nodes, old(fs.heap), old(fs.nodes), id.dir, id.at, NameUtf16(e))
      && VacantAt(fs.heap, fs.nodes, id.dir, id.at, old(fs.nodes)[id].count)
    ensures Honest(fs.faulty, old(fs.clock), fs.clock, r == Err(Device))
  {
    hide FileSystem.Valid;
    hide OwnOk;
    hide TreeOk;
    hide Contents;
    hide DirSlots;
    hide RetiredSet;
    hide Window;
    hide LocatedAt;
    hide RecordAt;
    hide Listed;
    hide OneMore;
    hide Vacant;
    hide DirsGain;
    ghost var heap, nodes, dext, count := fs.heap, fs.nodes, fs.nodes[id.dir].ext, fs.nodes[id].count;
    RetireReady(fs, id);
    assert Listed(fs.g, heap, nodes, id.dir);
    r := RetireEntrySet(fs, e.entryLocs, e.entryCount, dext, id.at);
    if r.Ok? {
      assert HeapShape(fs.g, fs.heap) by { fs.Basics(); }
      RetireTree(fs.g, heap, fs.heap, nodes, id);
      DropOwn(fs.g, fs.fat, fs.used, fs.bm, nodes, id);
      DropContents(fs.g, heap, fs.heap, nodes, id);
      fs.nodes := nodes - {id};
      RetiredListing(fs, heap, nodes, e, id);
      RetiredGain(fs.g, heap, fs.heap, nodes, e, id);
      RetiredVacant(DirSlots(heap, dext), id.at, count);
    }
  }

  /** The slots of a retired set are vacant. */
  lemma RetiredVacant(slots: seq<Slot>, k: nat, n: nat)
    requires k + n <= |slots|
    ensures Vacant(Window(slots, k, RetiredSet(slots[k..k + n])), k, n)
  {
    hide Window;
    hide RetiredSet;
    hide Retired;
    RetiredWhole(slots, k, n);
  }

  lemma VacantStill(g: Geometry, heap0: Heap, heap: Heap, nodes: Owners, d: Id, k: nat, n: nat)
    requires DirsKept(heap0, heap, nodes) && Listed(g, heap0, nodes, d) && VacantAt(heap0, nodes, d, k, n)
    ensures VacantAt(heap, nodes, d, k, n)
  {
    hide Scannable;
    hide Stored;
    hide DirSlots;
    hide Vacant;
    KeptSlots(heap0, heap, nodes, d);
  }

  lemma RetiredGain(g: Geometry, heap0: Heap, heap: Heap, nodes: Owners, e: DirectoryEntry, id: Id)
    requires TreeOk(g, heap0, nodes) && Apart(nodes) && EntryFor(g, heap0, nodes, e, id) && id.dir != id
    requires |heap| == |heap0|
    requires id.dir in nodes && nodes[id.dir].isDir && Reads(heap0, nodes[id.dir].ext)
    requires id.at + nodes[id].count <= |DirSlots(heap0, nodes[id.dir].ext)|
    requires DirSlots(heap, nodes[id.dir].ext) == Window(DirSlots(heap0, nodes[id.dir].ext), id.at,
               RetiredSet(DirSlots(heap0, nodes[id.dir].ext)[id.at..id.at + nodes[id].count]))
    requires forall c :: 0 <= c < |heap0| && c !in nodes[id.dir].ext ==> heap[c] == heap0[c]
    ensures DirsGain(heap, nodes - {id}, heap0, nodes, id.dir, id.at, NameUtf16(e))
  {
    hide TreeOk;
    hide TreeRecords;
    hide SlotsOf;
    hide Stored;
    hide FileSet;
    hide Decode;
    hide Says;
    hide Window;
    hide RetiredSet;
    hide DirsGain;
    hide Scannable;
    OkRecords(g, heap0, nodes);
    RecordHere(g, heap0, nodes, id);
    var slots := DirSlots(heap0, nodes[id.dir].ext);
    SaysOpens(nodes[id], slots, id.at, g.BytesPerCluster());
    SetRetired(g, heap0, heap, nodes, nodes - {id}, id.dir, id.at);
    RecordName(slots, PlacesIn(g, heap0, nodes, id.dir), id.at);
  }

  lemma RetireReady(fs: FileSystem, id: Id)
    requires Inv(fs) && id in fs.nodes && id.Child?
    ensures id.dir in fs.nodes && fs.nodes[id.dir].isDir && id.dir != id && Apart(fs.nodes) && HeapShape(fs.g, fs.heap)
    ensures InHeap(fs.g, fs.nodes[id.dir].ext) && Distinct(fs.nodes[id.dir].ext)
    ensures forall i :: 0 <= i < |fs.nodes[id.dir].ext| ==>
      fs.nodes[id.dir].ext[i] < |fs.heap| && fs.nodes[id.dir].ext[i] !in fs.bm
    ensures id.at + fs.nodes[id].count <= |DirSlots(fs.heap, fs.nodes[id.dir].ext)|
  {
    hide FileSystem.Valid;
    hide Says;
    fs.Basics();
    ChildParent(fs.g, fs.fat, fs.used, fs.bm, fs.nodes, id);
    DirectoryExtent(fs.g, fs.fat, fs.used, fs.bm, fs.nodes, id.dir);
    OkRecords(fs.g, fs.heap, fs.nodes);
    RecordHere(fs.g, fs.heap, fs.nodes, id);
  }

  lemma RetiredListing(fs: FileSystem, heap: Heap, nodes: Owners, e: DirectoryEntry, id: Id)
    requires Inv(fs) && id.Child? && id in nodes && fs.nodes == nodes - {id} && id.dir in nodes && id.dir != id
    requires nodes[id.dir].isDir
    requires EntryFor(fs.g, heap, nodes, e, id) && nodes[id].count == e.entryCount
    requires TreeOk(fs.g, heap, nodes)
    requires id.at + nodes[id].count <= |DirSlots(heap, nodes[id.dir].ext)|
    requires DirSlots(fs.heap, nodes[id.dir].ext) == Window(DirSlots(heap, nodes[id.dir].ext), id.at,
               RetiredSet(DirSlots(heap, nodes[id.dir].ext)[id.at..id.at + nodes[id].count]))
    ensures Listed(fs.g, fs.heap, fs.nodes, id.dir) && Listed(fs.g, heap, nodes, id.dir)
    ensures OneMore(ListHere(fs.g, fs.heap, fs.nodes, id.dir), ListHere(fs.g, heap, nodes, id.dir), e)
  {
    hide FileSystem.Valid;
    hide OwnOk;
    hide SlotsOf;
    hide Decode;
    hide FileSet;
    hide Says;
    hide LocAt;
    hide OneMore;
    hide RecordsIn;
    hide Window;
    hide RetiredSet;
    InvListed(fs, id.dir);
    var ext := nodes[id.dir].ext;
    PlacesPrefix(fs.g, heap, fs.heap, ext, ext);
    PlacesPrefix(fs.g, fs.heap, heap, ext, ext);
    var slots, locs := DirSlots(heap, ext), Places(fs.g, heap, ext);
    assert Child(id.dir, id.at) == id;
    assert DirOk(nodes, id.dir, slots, fs.g.BytesPerCluster());
    assert RecordOk(nodes[id], slots, id.at, fs.g.BytesPerCluster());
    WindowLength(nodes[id], slots, id.at, fs.g.BytesPerCluster());
    RetireList(slots, locs, id.at);
    OneMoreAt(RecordsIn(slots, locs, 0, id.at), RecordsIn(slots, locs, id.at + nodes[id].count, |slots|), e);
  }

  /** What a removal has done. */
  ghost predicate Removed(fs: FileSystem, nodes0: Owners, heap0: Heap, used0: set<nat>, id: Id)
    reads fs
  {
    && id in nodes0 && id.Child? && fs.nodes == nodes0 - {id}
    && Contents(fs.heap, fs.nodes) == Contents(heap0, nodes0) - {id}
    && fs.used == used0 - Released(nodes0[id].ext, nodes0[id].linked)
    && Listed(fs.g, heap0, nodes0, id.dir) && Listed(fs.g, fs.heap, fs.nodes, id.dir)
    && (exists e :: EntryFor(fs.g, heap0, nodes0, e, id)
          && OneMore(ListHere(fs.g, fs.heap, fs.nodes, id.dir), ListHere(fs.g, heap0, nodes0, id.dir), e))
  }

  /** What a removal does not give back stays marked as used, and belongs to
      nobody any more. */
  lemma Orphaned(fs: FileSystem, nodes0: Owners, heap0: Heap, used0: set<nat>, fat0: seq<u32>, id: Id, c: nat)
    requires Removed(fs, nodes0, heap0, used0, id) && OwnOk(fs.g, fat0, used0, fs.bm, nodes0)
    requires c in nodes0[id].ext
    ensures c in Released(nodes0[id].ext, nodes0[id].linked) <==> c !in fs.used
    ensures forall other :: other in fs.nodes ==> c !in fs.nodes[other].ext
  {
    hide Contents;
    hide Listed;
    hide ListHere;
    hide EntryFor;
    hide OneMore;
    hide Rooted;
    assert NodeOk(fs.g, fat0, used0, nodes0[id]);
    forall other | other in fs.nodes
      ensures c !in fs.nodes[other].ext
    {
      ApartExtents(nodes0, other, id);
    }
  }

  /** After the clusters of a dropped owner have been released, the tree and the
      meaning are as before the release. */
  lemma ReleaseKeeps(fs: FileSystem, heap: Heap, id: Id)
    requires fs.Valid() && OwnOk(fs.g, fs.fat, fs.used, fs.bm, fs.nodes) && TreeOk(fs.g, heap, fs.nodes)
    requires |fs.heap| == |heap| && forall d :: 0 <= d < |fs.heap| && d !in fs.bm ==> fs.heap[d] == heap[d]
    requires id.Child? && Listed(fs.g, heap, fs.nodes, id.dir)
    ensures Inv(fs) && Contents(fs.heap, fs.nodes) == Contents(heap, fs.nodes)
    ensures Listed(fs.g, fs.heap, fs.nodes, id.dir)
    ensures ListHere(fs.g, fs.heap, fs.nodes, id.dir) == ListHere(fs.g, heap, fs.nodes, id.dir)
    ensures DirsKept(heap, fs.heap, fs.nodes)
  {
    hide FileSystem.Valid;
    hide Contents;
    hide SlotsOf;
    hide DirsKept;
    fs.Basics();
    BitmapNotDirectory(fs.g, fs.fat, fs.used, fs.bm, fs.nodes);
    OutsideBitmapAll(fs.g, fs.fat, fs.used, fs.bm, fs.nodes);
    KeptTree(fs.g, heap, fs.heap, fs.nodes, BitmapFile);
    KeptContents(heap, fs.heap, fs.nodes, BitmapFile);
    OthersKeepDirs(heap, fs.heap, fs.nodes, BitmapFile);
    var ext := fs.nodes[id.dir].ext;
    InvListed(fs, id.dir);
    FlatFrame(heap, fs.heap, ext);
    PlacesPrefix(fs.g, heap, fs.heap, ext, ext);
    PlacesPrefix(fs.g, fs.heap, heap, ext, ext);
  }

  /** The visitor that stops at once. */
  predicate Never(e: DirectoryEntry) { false }

  lemma FirstOfListing(fs: FileSystem, id: Id, first: seq<DirectoryEntry>)
    requires Listed(fs.g, fs.heap, fs.nodes, id)
    requires first == Visit(ListOf(fs.g, fs.heap, fs.nodes[id].ext), Never)
    ensures first == [] <==> ListHere(fs.g, fs.heap, fs.nodes, id) == []
  {
  }

  /** What removing relies on to know about the entry's clusters. */
  lemma EntryClusters(fs: FileSystem, e: DirectoryEntry, id: Id)
    requires Inv(fs) && EntryFor(fs.g, fs.heap, fs.nodes, e, id) && EntryTells(fs.g, fs.nodes, e, id)
    ensures id.Child? && id in fs.nodes && e.entryCount == fs.nodes[id].count && e.isDirectory == fs.nodes[id].isDir
    ensures e.isDirectory ==> Listed(fs.g, fs.heap, fs.nodes, id)
    ensures Listed(fs.g, fs.heap, fs.nodes, id.dir)
    ensures var ext := fs.nodes[id].ext;
            && InHeap(fs.g, ext) && Distinct(ext) && e.firstCluster == First(ext)
            && e.dataLength == |ext| * fs.g.BytesPerCluster()
            && e.noFatChain == !fs.nodes[id].linked && (e.noFatChain || Links(fs.fat, ext))
            && forall other, i, j ::
                 other in fs.nodes && other != id && 0 <= i < |ext| && 0 <= j < |fs.nodes[other].ext| ==>
                   fs.nodes[other].ext[j] != ext[i]
  {
    hide FileSystem.Valid;
    hide TreeOk;
    assert NodeOk(fs.g, fs.fat, fs.used, fs.nodes[id]);
    if e.isDirectory { InvListed(fs, id); }
  }

  lemma RemovedDone(fs: FileSystem, nodes0: Owners, heap0: Heap, used0: set<nat>, heap1: Heap, e: DirectoryEntry,
                    id: Id)
    requires id in nodes0 && id.Child? && fs.nodes == nodes0 - {id} && EntryFor(fs.g, heap0, nodes0, e, id)
    requires Contents(heap1, fs.nodes) == Contents(heap0, nodes0) - {id}
    requires Contents(fs.heap, fs.nodes) == Contents(heap1, fs.nodes)
    requires fs.used == used0 - Released(nodes0[id].ext, nodes0[id].linked)
    requires Listed(fs.g, heap0, nodes0, id.dir) && Listed(fs.g, heap1, fs.nodes, id.dir)
    requires Listed(fs.g, fs.heap, fs.nodes, id.dir)
    requires OneMore(ListHere(fs.g, heap1, fs.nodes, id.dir), ListHere(fs.g, heap0, nodes0, id.dir), e)
    requires ListHere(fs.g, fs.heap, fs.nodes, id.dir) == ListHere(fs.g, heap1, fs.nodes, id.dir)
    ensures Removed(fs, nodes0, heap0, used0, id)
  {
    hide Contents;
    hide Listed;
    hide ListHere;
    hide OneMore;
    hide EntryFor;
    hide Released;
  }

  /** After a removal every path to anywhere else leads there still, the root's
      descriptors are where they were, and, if no two names of any directory
      matched, the path to what was removed leads nowhere, no path leads anywhere
      new, and names still do not match. */
  ghost predicate Unreached(fs: FileSystem, heap0: Heap, nodes0: Owners, table: seq<byte>, id: Id)
    reads fs
  {
    && Listed(fs.g, heap0, nodes0, Root) && Listed(fs.g, fs.heap, fs.nodes, Root)
    && RootStands(heap0, nodes0, fs.heap, fs.nodes)
    && (forall names :: Resolve(fs.g, heap0, nodes0, fs.upcaseValid, table, Root, names).Ok? ==>
          var to := Resolve(fs.g, heap0, nodes0, fs.upcaseValid, table, Root, names);
          if to.value != id then Resolve(fs.g, fs.heap, fs.nodes, fs.upcaseValid, table, Root, names) == to
          else NamesDistinct(fs.g, heap0, nodes0, fs.upcaseValid, table) ==>
                 Resolve(fs.g, fs.heap, fs.nodes, fs.upcaseValid, table, Root, names).Err?)
    && NamesKept(fs.g, heap0, nodes0, fs.heap, fs.nodes, fs.upcaseValid, table)
    && (NamesDistinct(fs.g, heap0, nodes0, fs.upcaseValid, table) ==>
          forall names :: Resolve(fs.g, fs.heap, fs.nodes, fs.upcaseValid, table, Root, names).Ok? ==>
            Resolve(fs.g, heap0, nodes0, fs.upcaseValid, table, Root, names)
              == Resolve(fs.g, fs.heap, fs.nodes, fs.upcaseValid, table, Root, names))
  }

  lemma RemovedPaths(fs: FileSystem, heap0: Heap, nodes0: Owners, table: seq<byte>, id: Id, name: seq<u16>)
    requires Inv(fs) && id.Child? && AllListed(fs.g, heap0, nodes0) && Inhabited(heap0, nodes0)
    requires fs.nodes == nodes0 - {id} && Foldable(fs.upcaseValid, table, name)
    requires (forall j: nat :: Child(id, j) !in nodes0) && Listed(fs.g, heap0, nodes0, Root)
    requires DirsGain(fs.heap, fs.nodes, heap0, nodes0, id.dir, id.at, name)
    ensures Unreached(fs, heap0, nodes0, table, id)
  {
    hide Foldable;
    hide FileSystem.Valid;
    hide OwnOk;
    hide TreeOk;
    hide Listed;
    hide Resolve;
    hide AllListed;
    hide Inhabited;
    hide DirsGain;
    hide NamesDistinct;
    hide NamesProper;
    hide RootStands;
    assert Child(id.dir, id.at) == id;
    InvAllListed(fs);
    RootListed(fs);
    RemovedRoot(fs, heap0, nodes0, id, name);
    var g, valid := fs.g, fs.upcaseValid;
    assert Departed(g, heap0, nodes0, fs.heap, fs.nodes, id.dir, id.at, name);
    forall names | Resolve(g, heap0, nodes0, valid, table, Root, names).Ok?
      ensures var to := Resolve(g, heap0, nodes0, valid, table, Root, names);
              if to.value != id then Resolve(g, fs.heap, fs.nodes, valid, table, Root, names) == to
              else NamesDistinct(g, heap0, nodes0, valid, table) ==>
                Resolve(g, fs.heap, fs.nodes, valid, table, Root, names).Err?
    {
      ResolveWithout(g, heap0, nodes0, fs.heap, fs.nodes, valid, table, id.dir, id.at, name, Root, names);
    }
    if NamesDistinct(g, heap0, nodes0, valid, table) {
      forall names | Resolve(g, fs.heap, fs.nodes, valid, table, Root, names).Ok?
        ensures Resolve(g, heap0, nodes0, valid, table, Root, names)
             == Resolve(g, fs.heap, fs.nodes, valid, table, Root, names)
      {
        ResolveBefore(g, heap0, nodes0, fs.heap, fs.nodes, valid, table, id.dir, id.at, name, Root, names);
      }
    }
    NamesDepart(g, heap0, nodes0, fs.heap, fs.nodes, valid, table, id.dir, id.at, name);
  }

  lemma RemovedRoot(fs: FileSystem, heap0: Heap, nodes0: Owners, id: Id, name: seq<u16>)
    requires id.Child? && fs.nodes == nodes0 - {id} && DirsGain(fs.heap, fs.nodes, heap0, nodes0, id.dir, id.at, name)
    requires Listed(fs.g, heap0, nodes0, Root) && Listed(fs.g, fs.heap, fs.nodes, Root)
    ensures RootStands(heap0, nodes0, fs.heap, fs.nodes)
  {
    hide Listed;
    hide DirsGain;
    hide RootStands;
    hide SlotsOf;
    ListedReads(fs.g, heap0, nodes0, Root);
    ListedReads(fs.g, fs.heap, fs.nodes, Root);
    RootLength(fs.g, heap0, fs.heap, nodes0, fs.nodes);
    LosesRoot(heap0, nodes0, fs.heap, fs.nodes, id.dir, id.at, name);
  }

  /** The same clusters hold as many slots. */
  lemma RootLength(g: Geometry, heap0: Heap, heap: Heap, nodes0: Owners, nodes: Owners)
    requires Listed(g, heap0, nodes0, Root) && Listed(g, heap, nodes, Root) && nodes[Root] == nodes0[Root]
    requires Reads(heap0, nodes0[Root].ext) && Reads(heap, nodes[Root].ext)
    ensures |DirSlots(heap, nodes[Root].ext)| == |DirSlots(heap0, nodes0[Root].ext)|
  {
    hide Stored;
    FlatLength(heap0, nodes0[Root].ext, g.BytesPerCluster());
    FlatLength(heap, nodes[Root].ext, g.BytesPerCluster());
  }

  /** Handles on other files are still at rest after a removal. */
  lemma HandleOutlives(fs: FileSystem, file: File, nodes0: Owners, fat0: seq<u32>, id: Id)
    requires Inv(fs) && AtRest(fs.g, nodes0, fat0, file) && fs.nodes == nodes0 - {id} && file.id != id
    ensures Holds(fs, file)
  {
    hide FileSystem.Valid;
    hide OwnOk;
    hide TreeOk;
    hide LocatedAt;
    assert file.id in fs.nodes;
    ChildParent(fs.g, fs.fat, fs.used, fs.bm, fs.nodes, file.id);
    RestoreHolds(fs, file, fat0);
  }

  /** Whether the entry is a directory that lists anything. */
  method ListsAnything(fs: FileSystem, e: DirectoryEntry, ghost id: Id) returns (r: Result<bool>)
    requires Inv(fs) && EntryFor(fs.g, fs.heap, fs.nodes, e, id) && EntryTells(fs.g, fs.nodes, e, id)
    requires e.isDirectory ==> DirectoryOf(e).Some? && DirIs(fs.g, fs.nodes, DirectoryOf(e).value, id)
    modifies fs`clock, fs`scratch
    ensures Inv(fs) && (r.Err? ==> r.error == Device)
    ensures r == Ok(true) ==> Listed(fs.g, fs.heap, fs.nodes, id) && ListHere(fs.g, fs.heap, fs.nodes, id) != []
    ensures r == Ok(false) ==> forall j: nat :: Child(id, j) !in fs.nodes
    ensures Honest(fs.faulty, old(fs.clock), fs.clock, r == Err(Device))
  {
    hide FileSystem.Valid;
    hide OwnOk;
    hide TreeOk;
    hide TreeRecords;
    hide EntryFor;
    hide EntryTells;
    hide Listed;
    hide DirIs;
    EntryClusters(fs, e, id);
    var dir := DirectoryOf(e);
    if dir.None? {
      FileChildren(fs.g, fs.fat, fs.used, fs.bm, fs.nodes, id);
      return Ok(false);
    }
    BarelyBut(fs, id);
    SeenWhole(fs, id);
    var first := ListDirectory(fs, dir.value, Never, id);
    if first.Err? { return Err(first.error); }
    FirstOfListing(fs, id, first.value);
    if |first.value| > 0 { return Ok(true); }
    NoChildren(fs, id);
    return Ok(false);
  }

  /** Remove a file or an empty directory: its record leaves the listing, its
      bytes leave the meaning, nothing else changes, and its clusters are given
      back as `Released` says.  The slots of its set are vacant then.  A directory
      that lists anything is refused. */
  method Remove(fs: FileSystem, names: seq<seq<Scalar>>, parser: EntrySet) returns (r: Result<()>, ghost id: Id)
    requires Inv(fs) && TableReady(fs) && |parser.entry.entryLocs| == 19 && parser.secondaryLeft == 0
    modifies fs`clock, fs`scratch, fs`disk, fs`fat, fs`heap, fs`used, fs`free, fs`nodes, parser
    ensures fs.Valid() && old(Listed(fs.g, fs.heap, fs.nodes, Root)) && UpcaseFile in old(fs.nodes)
    ensures var to := old(Resolve(fs.g, fs.heap, fs.nodes, fs.upcaseValid, Table(fs), Root, names));
      && (r.Ok? ==>
            && to == Ok(id) && Inv(fs) && TableReady(fs)
            && Removed(fs, old(fs.nodes), old(fs.heap), old(fs.used), id)
            && fs.nodes == old(fs.nodes) - {id} && (forall j: nat :: Child(id, j) !in old(fs.nodes))
            && VacantAt(fs.heap, fs.nodes, id.dir, id.at, old(fs.nodes)[id].count)
            && Table(fs) == old(Table(fs)) && Unreached(fs, old(fs.heap), old(fs.nodes), old(Table(fs)), id))
      && (r.Err? && r.error != Device ==>
            || to == Err(r.error)
            || (to == Ok(id) && r.error == DirectoryNotEmpty && old(Listed(fs.g, fs.heap, fs.nodes, id))
                && old(ListHere(fs.g, fs.heap, fs.nodes, id)) != []))
    ensures r.Err? && r.error != Device ==>
      Inv(fs) && fs.nodes == old(fs.nodes) && fs.heap == old(fs.heap) && fs.used == old(fs.used)
    ensures r != Err(Device) ==> |parser.entry.entryLocs| == 19 && parser.secondaryLeft == 0
    ensures Honest(fs.faulty, old(fs.clock), fs.clock, r == Err(Device))
  {
    hide Failures;
    hide FileSystem.Valid;
    hide OwnOk;
    hide TreeOk;
    hide TreeRecords;
    hide Foldable;
    hide Contents;
    hide Content;
    hide Resolve;
    hide EntryFor;
    hide EntryTells;
    hide Listed;
    hide DirIs;
    hide VacantAt;
    hide Removed;
    hide Unreached;
    hide DirsGain;
    hide DirsKept;
    UpcaseNotDirectory(fs.g, fs.fat, fs.used, fs.bm, fs.nodes);
    RootListed(fs);
    InvAllListed(fs);
    InvInhabited(fs.g, fs.heap, fs.nodes);
    ghost var nodes0, heap0, used0, table := fs.nodes, fs.heap, fs.used, Table(fs);
    var entry;
    entry, id := Lookup(fs, names, parser);
    if entry.Err? { return Err(entry.error), id; }
    var e := entry.value;
    EntryClusters(fs, e, id);
    var occupied := ListsAnything(fs, e, id);
    if occupied.Err? { return Err(occupied.error), id; }
    if occupied.value { return Err(DirectoryNotEmpty), id; }
    r := RetireChild(fs, e, id);
    if r.Err? { return; }
    ghost var heap1 := fs.heap;
    r := ReleaseEntryClusters(fs, e.firstCluster, e.dataLength, e.noFatChain, nodes0[id].ext, fs.nodes);
    if r.Err? { return; }
    ReleaseKeeps(fs, heap1, id);
    VacantStill(fs.g, heap1, fs.heap, fs.nodes, id.dir, id.at, nodes0[id].count);
    RemovedDone(fs, nodes0, heap0, used0, heap1, e, id);
    LossGoesOn(heap1, fs.heap, fs.nodes, heap0, nodes0, id.dir, id.at, NameUtf16(e));
    EntryFolds(fs.g, heap0, nodes0, fs.upcaseValid, table, names, e, id);
    RemovedPaths(fs, heap0, nodes0, table, id, NameUtf16(e));
    TableUnmoved(heap0, nodes0, fs.heap, fs.nodes, id);
  }

  /** In an intact directory readers see all records. */
  lemma SeenWhole(fs: FileSystem, id: Id)
    requires Inv(fs) && Listed(fs.g, fs.heap, fs.nodes, id)
    ensures SeenOf(fs.g, fs.heap, fs.nodes[id].ext) == ListOf(fs.g, fs.heap, fs.nodes[id].ext)
  {
    hide FileSystem.Valid;
    hide OwnOk;
    hide TreeOk;
    hide Scannable;
    hide Stored;
    hide ZeroTail;
    hide DirSlots;
    DirTail(fs, id);
    SeenIsAll(fs.g, fs.heap, fs.nodes[id].ext);
  }

  /** A name that a path has led to folds. */
  lemma {:induction false} ReachedFolds(g: Geometry, heap: Heap, nodes: Owners, valid: bool, table: seq<byte>, e: Id,
                                        names: seq<seq<Scalar>>, d: Id, k: nat)
    requires Listed(g, heap, nodes, e) && Listed(g, heap, nodes, d)
    requires Resolve(g, heap, nodes, valid, table, e, names) == Ok(Child(d, k))
    ensures k < |SlotsIn(g, heap, nodes, d)| && SetAt(SlotsIn(g, heap, nodes, d), k)
    ensures Foldable(valid, table, NameAt(SlotsIn(g, heap, nodes, d), k))
    decreases |names|
  {
    hide Listed;
    hide Encoded;
    hide SlotNamed;
    hide SlotsIn;
    hide PlacesIn;
    hide SetAt;
    hide NameAt;
    hide Stored;
    hide Folded;
    var units := Encoded(names[0]).value;
    var slots := SlotsIn(g, heap, nodes, e);
    var m := SlotNamed(valid, table, slots, PlacesIn(g, heap, nodes, e), 0, units).value.value;
    if |names| == 1 {
      FoundMatches(valid, table, slots, PlacesIn(g, heap, nodes, e), 0, units);
      MatchedFolds(valid, table, NameAt(slots, m), units, 0);
    } else {
      ReachedFolds(g, heap, nodes, valid, table, Child(e, m), names[1..], d, k);
    }
  }

  lemma EntryFolds(g: Geometry, heap: Heap, nodes: Owners, valid: bool, table: seq<byte>, names: seq<seq<Scalar>>,
                   e: DirectoryEntry, id: Id)
    requires Listed(g, heap, nodes, Root) && Resolve(g, heap, nodes, valid, table, Root, names) == Ok(id)
    requires EntryFor(g, heap, nodes, e, id)
    ensures Foldable(valid, table, NameUtf16(e))
  {
    hide Listed;
    hide Resolve;
    hide SlotsIn;
    hide PlacesIn;
    hide Foldable;
    hide FileSet;
    hide Decode;
    hide NameIn;
    ReachedFolds(g, heap, nodes, valid, table, Root, names, id.dir, id.at);
    RecordName(SlotsIn(g, heap, nodes, id.dir), PlacesIn(g, heap, nodes, id.dir), id.at);
  }

  lemma TableUnmoved(heap0: Heap, nodes0: Owners, heap: Heap, nodes: Owners, id: Id)
    requires UpcaseFile in nodes0 && !nodes0[UpcaseFile].isDir && UpcaseFile in nodes && !nodes[UpcaseFile].isDir
    requires id != UpcaseFile
    requires Contents(heap, nodes) == Contents(heap0, nodes0) - {id}
    ensures Content(heap, nodes[UpcaseFile]) == Content(heap0, nodes0[UpcaseFile])
  {
    hide Content;
    assert UpcaseFile in Contents(heap0, nodes0) && UpcaseFile in Contents(heap, nodes);
    assert Contents(heap, nodes)[UpcaseFile] == Contents(heap0, nodes0)[UpcaseFile];
  }
}
