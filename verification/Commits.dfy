/** Committing a handle to its directory entry. */
module Commits {
  import opened Words
  import opened Errors
  import opened Geometry
  import opened Views
  import opened Volume
  import opened Extents
  import opened EntrySets
  import opened EntryCodec
  import opened Files
  import opened Tree
  import opened SlotIo
  import opened Growth
  import opened Meaning
  import opened Listings
  import opened Standing

  // ----- committing a handle to its directory entry ------------------------------------------

  /** What a handle will have recorded once it is committed. */
  ghost function Recorded(s: FileState, ext: seq<nat>, count: nat): Node {
    Node(ext, !s.noFatChain, s.validLength, false, count)
  }

  lemma CommitOwn(g: Geometry, fat: seq<u32>, used: set<nat>, bm: seq<nat>, nodes: Owners, id: Id, s: FileState,
                  ext: seq<nat>, count: nat)
    requires |fat| == g.clusterCount + 2 && OwnOk(g, fat, used, bm, nodes)
    requires Ahead(used, nodes, id, s, ext) && Shape(g, fat, s, ext)
    ensures OwnOk(g, fat, used, bm, nodes[id := Recorded(s, ext, count)])
    ensures Apart(nodes[id := Recorded(s, ext, count)])
  {
    NotOwnDirectory(id);
    assert Child(id.dir, id.at) in nodes;
    OwnReplace(g, fat, used, bm, nodes, id, Recorded(s, ext, count));
  }

  /** The patched record says what the handle says. */
  lemma PatchedSays(n: Node, n': Node, win: seq<Slot>, cb: nat, noFatChain: bool, valid: u64, first: u32, length: u64)
    requires Says(n, win, cb) && n'.count == n.count && n'.isDir == n.isDir
    requires n'.linked == !noFatChain && n'.valid == valid <= length == |n'.ext| * cb && first == First(n'.ext)
    requires length != 0 ==> first >= 2
    ensures Says(n', PatchedSet(win, noFatChain, valid, first, length), cb)
    ensures forall i :: 0 <= i < |win| ==> PatchedSet(win, noFatChain, valid, first, length)[i][0] == win[i][0]
  {
    PatchedIsFileSet(win, noFatChain, valid, first, length);
    PatchStreamReads(win[1], noFatChain, valid, first, length);
    SealedStores(win[1 := PatchStream(win[1], noFatChain, valid, first, length)]);
    FlagBits(noFatChain);
  }

  /** The directory tree after one child's record was patched in place. */
  lemma CommitTree(g: Geometry, heap: Heap, heap': Heap, nodes: Owners, d: Id, at: nat, n: Node, win: seq<Slot>)
    requires TreeOk(g, heap, nodes) && HeapShape(g, heap') && Apart(nodes[Child(d, at) := n])
    requires d in nodes && nodes[d].isDir && Child(d, at) in nodes && !nodes[Child(d, at)].isDir && !n.isDir
    requires n.count == nodes[Child(d, at)].count == |win|
    requires InHeap(g, nodes[d].ext) && at + |win| <= |DirSlots(heap, nodes[d].ext)|
    requires DirSlots(heap', nodes[d].ext) == Window(DirSlots(heap, nodes[d].ext), at, win)
    requires Says(n, win, g.BytesPerCluster())
    requires forall i :: 0 <= i < |win| ==> win[i][0] == DirSlots(heap, nodes[d].ext)[at + i][0]
    requires forall c :: 0 <= c < |heap| && c !in nodes[d].ext ==> heap'[c] == heap[c]
    ensures TreeOk(g, heap', nodes[Child(d, at) := n])
  {
    hide Says;
    hide SlotsOf;
    var nodes', cb := nodes[Child(d, at) := n], g.BytesPerCluster();
    forall e | e in nodes' && nodes'[e].isDir
      ensures InHeap(g, nodes'[e].ext) && DirOk(nodes', e, SlotsOf(Flat(heap', nodes'[e].ext)), cb)
    {
      assert e in nodes && nodes[e].isDir && nodes'[e] == nodes[e];
      if e == d {
        assert DirOk(nodes, d, DirSlots(heap, nodes[d].ext), cb);
        DirRewrite(nodes, d, DirSlots(heap, nodes[d].ext), cb, at, n, win);
      } else {
        ApartExtents(nodes', e, d);
        FlatFrame(heap, heap', nodes[e].ext);
        SameChildren(nodes, nodes', e, DirSlots(heap, nodes[e].ext), cb);
      }
    }
  }

  /** A directory's clusters are usable and outside the bitmap. */
  lemma DirectoryExtent(g: Geometry, fat: seq<u32>, used: set<nat>, bm: seq<nat>, nodes: Owners, d: Id)
    requires OwnOk(g, fat, used, bm, nodes) && d in nodes && nodes[d].isDir
    ensures InHeap(g, nodes[d].ext) && Distinct(nodes[d].ext)
    ensures forall i :: 0 <= i < |nodes[d].ext| ==> nodes[d].ext[i] !in bm
  {
    assert NodeOk(g, fat, used, nodes[d]);
    ApartExtents(nodes, d, BitmapFile);
  }

  /** A child hangs in a directory other than itself. */
  lemma ChildParent(g: Geometry, fat: seq<u32>, used: set<nat>, bm: seq<nat>, nodes: Owners, id: Id)
    requires OwnOk(g, fat, used, bm, nodes) && id in nodes && id.Child?
    ensures id.dir in nodes && nodes[id.dir].isDir && id.dir != id && Apart(nodes)
  {
    NotOwnDirectory(id);
    assert Child(id.dir, id.at) in nodes;
  }

  /** The record of a child, found in its directory. */
  lemma RecordHere(g: Geometry, heap: Heap, nodes: Owners, id: Id)
    requires TreeRecords(g, heap, nodes) && id in nodes && id.Child? && id.dir in nodes && nodes[id.dir].isDir
    ensures InHeap(g, nodes[id.dir].ext) && HeapShape(g, heap)
    ensures id.at + nodes[id].count <= |DirSlots(heap, nodes[id.dir].ext)|
    ensures Says(nodes[id], DirSlots(heap, nodes[id.dir].ext)[id.at..id.at + nodes[id].count], g.BytesPerCluster())
  {
    hide Says;
    hide SlotsOf;
    assert Child(id.dir, id.at) in nodes;
    var slots := DirSlots(heap, nodes[id.dir].ext);
    assert DirRecords(nodes, id.dir, slots, g.BytesPerCluster());
    assert RecordOk(nodes[id], slots, id.at, g.BytesPerCluster());
  }

  /** The contents after a commit: the committed file has its new bytes. */
  lemma CommitContents(g: Geometry, heap: Heap, heap': Heap, nodes: Owners, d: Id, id: Id, n: Node)
    requires Apart(nodes[id := n]) && |heap'| == |heap| && d in nodes && d != id && nodes[d].isDir && !n.isDir
    requires id != BitmapFile
    requires forall c :: 0 <= c < |heap| && c !in nodes[d].ext ==> heap'[c] == heap[c]
    ensures Contents(heap', nodes[id := n]) == Contents(heap, nodes)[id := Content(heap, n)]
  {
    hide Content;
    hide Apart;
    var nodes' := nodes[id := n];
    forall f | IsFile(nodes', f)
      ensures Content(heap', nodes'[f]) == Content(heap, nodes'[f])
    {
      ApartExtents(nodes', f, d);
      ContentFrame(heap, heap', nodes'[f]);
    }
    assert Contents(heap', nodes').Keys == Contents(heap, nodes)[id := Content(heap, n)].Keys;
  }

  /** The owners once the handle's state is the recorded one. */
  ghost function Committed(nodes: Owners, file: File): Owners
    reads file
  {
    nodes[file.id := Recorded(file.State(), file.ext, file.entryCount)]
  }

  /** Make the handle's state the recorded one.  On success the volume means the
      same except that the file now has the handle's bytes; a failure leaves the
      record intact unless its first write had already gone through (`torn`). */
  method Commit(fs: FileSystem, file: File) returns (r: Result<()>, ghost torn: bool)
    requires fs.Valid() && TreeOk(fs.g, fs.heap, fs.nodes)
    requires Placed(fs.g, fs.nodes, file) && IsFile(fs.nodes, file.id)
    requires Shape(fs.g, fs.fat, file.State(), file.ext)
    requires OwnOk(fs.g, fs.fat, fs.used, fs.bm, Committed(fs.nodes, file))
    modifies fs`clock, fs`scratch, fs`disk, fs`heap, fs`nodes
    ensures fs.Valid()
    ensures r.Err? ==> r.error == Device && fs.nodes == old(fs.nodes)
    ensures r.Err? && !torn ==> fs.heap == old(fs.heap)
    ensures file.firstCluster <= U32_MAX && file.dataLength <= U64_MAX && file.validLength <= U64_MAX
    ensures r.Err? && torn ==>
      file.id.Child? && file.id.dir in fs.nodes
      && Torn(old(fs.heap), fs.heap, fs.nodes[file.id.dir].ext, file.id.at, InfoOf(file))
    ensures r.Ok? ==>
      && fs.nodes == Committed(old(fs.nodes), file)
      && Inv(fs) && Holds(fs, file)
      && Contents(fs.heap, fs.nodes) == old(Contents(fs.heap, fs.nodes))[file.id :=
           old(Content(fs.heap, Recorded(file.State(), file.ext, file.entryCount)))]
      && DirsStay(old(fs.heap), old(fs.nodes), fs.heap, fs.nodes)
    ensures Honest(fs.faulty, old(fs.clock), fs.clock, r == Err(Device))
  {
    hide FileSystem.Valid;
    hide OwnOk;
    hide TreeOk;
    hide Contents;
    hide Content;
    hide Shape;
    hide Ready;
    hide Rewritten;
    hide Torn;
    hide DirsStay;
    hide LocAt;
    hide SlotsOf;
    ghost var heap, nodes, id, s, ext := fs.heap, fs.nodes, file.id, file.State(), file.ext;
    CommitReady(fs, file);
    var info := InfoOf(file);
    r, torn := UpdateStream(fs, info, nodes[id.dir].ext, id.at);
    if r.Ok? {
      CommitDone(fs, heap, id, s, ext, info);
      fs.nodes := Committed(nodes, file);
    }
  }

  /** Everything a commit relies on, as values. */
  ghost predicate Ready(g: Geometry, fat: seq<u32>, used: set<nat>, bm: seq<nat>, nodes: Owners, heap: Heap, id: Id,
                        s: FileState, ext: seq<nat>, info: StreamInfo) {
    && TreeOk(g, heap, nodes) && IsFile(nodes, id) && id.Child?
    && OwnOk(g, fat, used, bm, nodes[id := Recorded(s, ext, info.entryCount)])
    && info.entryCount == nodes[id].count
    && Tells(Recorded(s, ext, info.entryCount), info, g.BytesPerCluster())
  }

  lemma CommitReady(fs: FileSystem, file: File)
    requires fs.Valid() && TreeOk(fs.g, fs.heap, fs.nodes)
    requires Placed(fs.g, fs.nodes, file) && IsFile(fs.nodes, file.id)
    requires Shape(fs.g, fs.fat, file.State(), file.ext)
    requires OwnOk(fs.g, fs.fat, fs.used, fs.bm, Committed(fs.nodes, file))
    ensures |fs.fat| == fs.g.clusterCount + 2
    ensures file.firstCluster <= U32_MAX && file.dataLength <= U64_MAX && file.validLength <= U64_MAX
    ensures Ready(fs.g, fs.fat, fs.used, fs.bm, fs.nodes, fs.heap, file.id, file.State(), file.ext, InfoOf(file))
    ensures file.id.Child? && file.id.dir in fs.nodes && file.id.dir != file.id
    ensures var dext := fs.nodes[file.id.dir].ext;
            && Distinct(dext) && Located(fs.g, dext, file.id.at, InfoOf(file)) && InHeap(fs.g, dext)
            && (forall i :: 0 <= i < |dext| ==> dext[i] < |fs.heap| && dext[i] !in fs.bm)
            && file.id.at + file.entryCount <= |DirSlots(fs.heap, dext)|
  {
    hide Says;
    hide SlotsOf;
    var nodes' := Committed(fs.nodes, file);
    ChildParent(fs.g, fs.fat, fs.used, fs.bm, nodes', file.id);
    DirectoryExtent(fs.g, fs.fat, fs.used, fs.bm, nodes', file.id.dir);
    OkRecords(fs.g, fs.heap, fs.nodes);
    RecordHere(fs.g, fs.heap, fs.nodes, file.id);
    HandleBounds(fs, file);
    fs.Basics();
  }

  lemma CommitDone(fs: FileSystem, heap: Heap, id: Id, s: FileState, ext: seq<nat>, info: StreamInfo)
    requires fs.Valid() && Ready(fs.g, fs.fat, fs.used, fs.bm, fs.nodes, heap, id, s, ext, info)
    requires id.Child? && id.dir in fs.nodes
    requires Rewritten(heap, fs.heap, fs.nodes[id.dir].ext, id.at, info)
    ensures var nodes' := fs.nodes[id := Recorded(s, ext, info.entryCount)];
            && OwnOk(fs.g, fs.fat, fs.used, fs.bm, nodes') && TreeOk(fs.g, fs.heap, nodes')
            && Contents(fs.heap, nodes') ==
                 Contents(heap, fs.nodes)[id := Content(heap, Recorded(s, ext, info.entryCount))]
            && DirsStay(heap, fs.nodes, fs.heap, nodes')
  {
    hide FileSystem.Valid;
    hide OwnOk;
    hide TreeOk;
    hide TreeRecords;
    hide Says;
    hide SlotsOf;
    hide PatchedSet;
    hide DirsStay;
    var n := Recorded(s, ext, info.entryCount);
    var nodes' := fs.nodes[id := n];
    var win := DirSlots(heap, fs.nodes[id.dir].ext)[id.at..id.at + info.entryCount];
    assert HeapShape(fs.g, fs.heap) by { fs.Basics(); }
    ChildParent(fs.g, fs.fat, fs.used, fs.bm, nodes', id);
    OkRecords(fs.g, heap, fs.nodes);
    RecordHere(fs.g, heap, fs.nodes, id);
    CommitRecord(fs.g, heap, fs.heap, fs.nodes, id, n, info, win);
    CommitContents(fs.g, heap, fs.heap, fs.nodes, id.dir, id, n);
    RewrittenStays(fs.g, heap, fs.heap, fs.nodes, nodes', id, info);
    SameDirsStay(heap, fs.nodes, fs.heap, fs.nodes, nodes');
  }

  lemma SameDirsStay(heap0: Heap, nodes0: Owners, heap: Heap, nodes: Owners, nodes': Owners)
    requires DirsStay(heap0, nodes0, heap, nodes)
    requires forall d :: d in nodes && nodes[d].isDir ==> d in nodes' && nodes'[d] == nodes[d]
    ensures DirsStay(heap0, nodes0, heap, nodes')
  {
    hide Stays;
    hide DirSlots;
    forall d | d in nodes0 && nodes0[d].isDir
      ensures DirStays(heap0, nodes0, heap, nodes', d)
    {
      assert DirStays(heap0, nodes0, heap, nodes, d);
    }
  }

  /** A record's stream fields rewritten: every directory stands. */
  lemma RewrittenStays(g: Geometry, heap: Heap, heap': Heap, nodes: Owners, nodes': Owners, id: Id, info: StreamInfo)
    requires TreeOk(g, heap, nodes) && id.Child? && id in nodes && id.dir in nodes && nodes[id.dir].isDir
    requires Apart(nodes') && forall d :: d in nodes && nodes[d].isDir ==> d in nodes' && nodes'[d] == nodes[d]
    requires Rewritten(heap, heap', nodes[id.dir].ext, id.at, info) && info.entryCount == nodes[id].count
    requires info.validLength <= info.dataLength && (info.dataLength != 0 ==> info.firstCluster >= 2)
    ensures DirsStay(heap, nodes, heap', nodes)
  {
    hide TreeOk;
    hide TreeRecords;
    hide SlotsOf;
    hide PatchedSet;
    hide Says;
    hide Stays;
    hide Stored;
    hide FileSet;
    forall d | d in nodes && nodes[d].isDir
      ensures DirStays(heap, nodes, heap', nodes, d)
    {
      TreeStored(g, heap, nodes, d);
      var slots := DirSlots(heap, nodes[d].ext);
      if d == id.dir {
        OkRecords(g, heap, nodes);
        RecordHere(g, heap, nodes, id);
        SaysOpens(nodes[id], slots, id.at, g.BytesPerCluster());
        StaysPatched(slots, id.at, info.entryCount, info.noFatChain, info.validLength, info.firstCluster,
                     info.dataLength);
      } else {
        ApartExtents(nodes', d, id.dir);
        FlatFrame(heap, heap', nodes[d].ext);
        StaysRefl(slots);
      }
    }
  }

  lemma SaysOpens(n: Node, slots: seq<Slot>, k: nat, cb: nat)
    requires k + n.count <= |slots| && Says(n, slots[k..k + n.count], cb)
    ensures 3 <= n.count && k < |slots| && slots[k][0] == 0x85 && SetLength(slots[k]) == n.count
  {
    assert slots[k..k + n.count][0] == slots[k];
  }

  /** The stream fields say what the owner is. */
  ghost predicate Tells(n: Node, info: StreamInfo, cb: nat) {
    && n.linked == !info.noFatChain && !n.isDir && n.count == info.entryCount
    && n.valid == info.validLength <= info.dataLength == |n.ext| * cb
    && info.firstCluster == First(n.ext) && (info.dataLength != 0 ==> info.firstCluster >= 2)
  }

  lemma WindowTypes(slots: seq<Slot>, at: nat, win: seq<Slot>, patched: seq<Slot>)
    requires at + |win| <= |slots| && win == slots[at..at + |win|] && |patched| == |win|
    requires forall i :: 0 <= i < |win| ==> patched[i][0] == win[i][0]
    ensures forall i :: 0 <= i < |patched| ==> patched[i][0] == slots[at + i][0]
  {
    assert forall i :: 0 <= i < |win| ==> win[i] == slots[at + i];
  }

  lemma CommitRecord(g: Geometry, heap: Heap, heap': Heap, nodes: Owners, id: Id, n: Node, info: StreamInfo,
                     win: seq<Slot>)
    requires TreeOk(g, heap, nodes) && HeapShape(g, heap') && Apart(nodes[id := n]) && |heap'| == |heap|
    requires id in nodes && id.Child? && id.dir in nodes && nodes[id.dir].isDir && !nodes[id].isDir
    requires Tells(n, info, g.BytesPerCluster()) && n.count == nodes[id].count
    requires InHeap(g, nodes[id.dir].ext) && id.at + |win| <= |DirSlots(heap, nodes[id.dir].ext)| && 2 <= |win|
    requires win == DirSlots(heap, nodes[id.dir].ext)[id.at..id.at + |win|] && Says(nodes[id], win, g.BytesPerCluster())
    requires DirSlots(heap', nodes[id.dir].ext) == Window(DirSlots(heap, nodes[id.dir].ext), id.at,
               PatchedSet(win, info.noFatChain, info.validLength, info.firstCluster, info.dataLength))
    requires forall c :: 0 <= c < |heap'| && c !in nodes[id.dir].ext ==> heap'[c] == heap[c]
    ensures TreeOk(g, heap', nodes[id := n])
  {
    hide Geometry.BytesPerCluster;
    hide TreeOk;
    hide SlotsOf;
    hide PatchedSet;
    hide Says;
    var slots, cb := DirSlots(heap, nodes[id.dir].ext), g.BytesPerCluster();
    var patched := PatchedSet(win, info.noFatChain, info.validLength, info.firstCluster, info.dataLength);
    SaysLength(nodes[id], win, cb);
    PatchedSays(nodes[id], n, win, cb, info.noFatChain, info.validLength, info.firstCluster, info.dataLength);
    WindowTypes(slots, id.at, win, patched);
    CommitTree(g, heap, heap', nodes, id.dir, id.at, n, patched);
  }

  lemma HandleBounds(fs: FileSystem, file: File)
    requires fs.Valid() && Shape(fs.g, fs.fat, file.State(), file.ext)
    ensures file.firstCluster <= U32_MAX && file.dataLength <= U64_MAX && file.validLength <= U64_MAX
    ensures file.dataLength != 0 ==> file.firstCluster >= 2
    ensures file.validLength <= file.dataLength
    ensures file.firstCluster == First(file.ext) && file.dataLength == |file.ext| * fs.g.BytesPerCluster()
  {
    fs.Basics();
  }
}
