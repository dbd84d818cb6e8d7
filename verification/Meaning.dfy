/** What a volume means: a map from files to byte strings; what a handle at rest
    agrees on with it; and which writes leave the meaning alone. */
module Meaning {
  import opened Words
  import opened Geometry
  import opened Views
  import opened Volume
  import opened Extents
  import opened EntrySets
  import opened Files
  import opened Tree
  import opened SlotIo
  import opened Growth

  /** The volume invariant. */
  ghost predicate Inv(fs: FileSystem)
    reads fs
  {
    && fs.Valid()
    && OwnOk(fs.g, fs.fat, fs.used, fs.bm, fs.nodes)
    && TreeOk(fs.g, fs.heap, fs.nodes)
  }

  /** The volume invariant, except for such gaps. */
  ghost predicate InvBut(fs: FileSystem, me: Id)
    reads fs
  {
    fs.Valid() && OwnOk(fs.g, fs.fat, fs.used, fs.bm, fs.nodes) && TreeBut(fs.g, fs.heap, fs.nodes, me)
  }

  /** The volume invariant, wherever unused slots are. */
  ghost predicate InvLoose(fs: FileSystem)
    reads fs
  {
    fs.Valid() && OwnOk(fs.g, fs.fat, fs.used, fs.bm, fs.nodes) && TreeRecords(fs.g, fs.heap, fs.nodes)
  }

  lemma BarelyBut(fs: FileSystem, me: Id)
    requires Inv(fs)
    ensures InvBut(fs, me) && InvLoose(fs)
  {
    hide FileSystem.Valid;
    hide OwnOk;
    hide TreeOk;
    hide TreeBut;
    hide TreeRecords;
    ButTree(fs.g, fs.heap, fs.nodes, me);
    OkRecords(fs.g, fs.heap, fs.nodes);
  }

  lemma ButLoose(fs: FileSystem, me: Id)
    requires InvBut(fs, me)
    ensures InvLoose(fs)
  {
    hide FileSystem.Valid;
    hide OwnOk;
    hide TreeBut;
    hide TreeRecords;
    ButRecords(fs.g, fs.heap, fs.nodes, me);
  }

  // ----- meaning --------------------------------------------------------------------------

  /** What a reader of the owner sees. */
  ghost function Content(heap: Heap, n: Node): seq<byte> {
    if forall i :: 0 <= i < |n.ext| ==> n.ext[i] < |heap| then
      var bytes := Flat(heap, n.ext);
      if n.valid <= |bytes| then bytes[..n.valid] else bytes
    else []
  }

  ghost predicate IsFile(nodes: Owners, id: Id) {
    id in nodes && !nodes[id].isDir && id != BitmapFile
  }

  /** The meaning of a volume: every file's bytes. */
  ghost function Contents(heap: Heap, nodes: Owners): map<Id, seq<byte>> {
    map id | id in nodes && IsFile(nodes, id) :: Content(heap, nodes[id])
  }

  lemma ContentFrame(heap: Heap, heap': Heap, n: Node)
    requires |heap'| == |heap|
    requires forall i :: 0 <= i < |n.ext| && n.ext[i] < |heap| ==> heap'[n.ext[i]] == heap[n.ext[i]]
    ensures Content(heap', n) == Content(heap, n)
  {
    if forall i :: 0 <= i < |n.ext| ==> n.ext[i] < |heap| {
      FlatFrame(heap, heap', n.ext);
    }
  }

  // ----- handles at rest ------------------------------------------------------------------

  function InfoOf(file: File): StreamInfo
    requires file.firstCluster <= U32_MAX && file.dataLength <= U64_MAX && file.validLength <= U64_MAX
    reads file
  {
    StreamInfo(file.primary, file.stream, file.entryLocs, file.entryCount,
               file.firstCluster, file.dataLength, file.validLength, file.noFatChain)
  }

  /** The handle's entry set is where its owner's record is. */
  ghost predicate Placed(g: Geometry, nodes: Owners, file: File) {
    && file.id.Child? && file.id.dir in nodes && file.id in nodes && file.entryCount == nodes[file.id].count
    && 2 <= file.entryCount
    && LocatedAt(g, nodes[file.id.dir].ext, file.id.at, file.entryLocs, file.entryCount)
    && file.primary == file.entryLocs[0] && file.stream == file.entryLocs[1]
  }

  /** A handle that agrees with what the volume records about its file. */
  ghost predicate Holds(fs: FileSystem, file: File)
    requires fs.Valid()
    reads fs, file
  {
    && Placed(fs.g, fs.nodes, file)
    && Shape(fs.g, fs.fat, file.State(), file.ext)
    && IsFile(fs.nodes, file.id)
    && fs.nodes[file.id].ext == file.ext
    && fs.nodes[file.id].linked == !file.noFatChain
    && fs.nodes[file.id].valid == file.validLength
  }
  // ----- what appending leaves alone ------------------------------------------------------------

  /** Owners other than `me` and the bitmap keep their bytes. */
  ghost predicate OthersKept(heap: Heap, heap': Heap, nodes: Owners, me: Id) {
    && |heap'| == |heap|
    && forall id, i ::
         id in nodes && id != me && id != BitmapFile && 0 <= i < |nodes[id].ext| && nodes[id].ext[i] < |heap| ==>
           heap'[nodes[id].ext[i]] == heap[nodes[id].ext[i]]
  }

  /** Every directory keeps its bytes. */
  ghost predicate DirsKept(heap: Heap, heap': Heap, nodes: Owners) {
    && |heap'| == |heap|
    && forall d, i :: d in nodes && nodes[d].isDir && 0 <= i < |nodes[d].ext| && nodes[d].ext[i] < |heap|
         ==> heap'[nodes[d].ext[i]] == heap[nodes[d].ext[i]]
  }

  lemma OthersKeepDirs(heap: Heap, heap': Heap, nodes: Owners, me: Id)
    requires OthersKept(heap, heap', nodes, me)
    requires me in nodes ==> !nodes[me].isDir
    requires BitmapFile in nodes ==> !nodes[BitmapFile].isDir
    ensures DirsKept(heap, heap', nodes)
  {
  }

  lemma DirsKeptTrans(a: seq<seq<byte>>, b: seq<seq<byte>>, c: seq<seq<byte>>, nodes: Owners)
    requires DirsKept(a, b, nodes) && DirsKept(b, c, nodes)
    ensures DirsKept(a, c, nodes)
  {
  }

  /** A directory that keeps its bytes keeps its slots. */
  lemma KeptSlots(heap: Heap, heap': Heap, nodes: Owners, d: Id)
    requires DirsKept(heap, heap', nodes) && d in nodes && nodes[d].isDir
    requires forall i :: 0 <= i < |nodes[d].ext| ==> nodes[d].ext[i] < |heap|
    ensures DirSlots(heap', nodes[d].ext) == DirSlots(heap, nodes[d].ext)
  {
    hide SlotsOf;
    FlatFrame(heap, heap', nodes[d].ext);
  }

  lemma KeptTree(g: Geometry, heap: Heap, heap': Heap, nodes: Owners, me: Id)
    requires TreeOk(g, heap, nodes) && HeapShape(g, heap') && OthersKept(heap, heap', nodes, me)
    requires me in nodes ==> !nodes[me].isDir
    requires BitmapFile in nodes ==> !nodes[BitmapFile].isDir
    ensures TreeOk(g, heap', nodes)
  {
    TreeFrame(g, heap, heap', nodes);
  }

  lemma BitmapNotDirectory(g: Geometry, fat: seq<u32>, used: set<nat>, bm: seq<nat>, nodes: Owners)
    requires OwnOk(g, fat, used, bm, nodes)
    ensures BitmapFile in nodes && !nodes[BitmapFile].isDir
  {
  }

  lemma SaysLength(n: Node, win: seq<Slot>, cb: nat)
    requires Says(n, win, cb)
    ensures 2 <= |win| == n.count
  {
  }

  lemma KeptContents(heap: Heap, heap': Heap, nodes: Owners, me: Id)
    requires OthersKept(heap, heap', nodes, me)
    requires IsFile(nodes, me) ==> Content(heap', nodes[me]) == Content(heap, nodes[me])
    ensures Contents(heap', nodes) == Contents(heap, nodes)
  {
    forall id | IsFile(nodes, id)
      ensures Content(heap', nodes[id]) == Content(heap, nodes[id])
    {
      if id != me { ContentFrame(heap, heap', nodes[id]); }
    }
  }

  lemma UntouchedKeeps(g: Geometry, fat: seq<u32>, used: set<nat>, bm: seq<nat>, nodes: Owners, heap: Heap, heap': Heap,
                       me: Id)
    requires OwnOk(g, fat, used, bm, nodes) && Untouched(heap, heap', used, bm)
    ensures OthersKept(heap, heap', nodes, BitmapFile)
    ensures OthersKept(heap, heap', nodes, me)
  {
    forall id, i | id in nodes && id != BitmapFile && 0 <= i < |nodes[id].ext| && nodes[id].ext[i] < |heap|
      ensures heap'[nodes[id].ext[i]] == heap[nodes[id].ext[i]]
    {
      assert NodeOk(g, fat, used, nodes[id]);
      var c := nodes[id].ext[i];
      assert nodes[BitmapFile].ext == bm;
      assert c !in bm;
    }
  }

  lemma ElsewhereKeeps(heap: Heap, heap': Heap, used: set<nat>, nodes: Owners, id: Id, s: FileState, ext: seq<nat>)
    requires Ahead(used, nodes, id, s, ext) && |heap'| == |heap|
    requires forall c :: 0 <= c < |heap| && c !in ext ==> heap'[c] == heap[c]
    ensures OthersKept(heap, heap', nodes, id)
  {
    forall other, i | other in nodes && other != id && other != BitmapFile
                      && 0 <= i < |nodes[other].ext| && nodes[other].ext[i] < |heap|
      ensures heap'[nodes[other].ext[i]] == heap[nodes[other].ext[i]]
    {
      var c := nodes[other].ext[i];
      assert c !in ext;
    }
  }

  /** The recorded content of a file is a prefix of a longer handle's bytes. */
  lemma RecordedPrefix(g: Geometry, heap: Heap, n: Node, ext: seq<nat>)
    requires HeapShape(g, heap) && InHeap(g, ext) && n.ext <= ext && n.valid <= |n.ext| * g.BytesPerCluster()
    ensures n.valid <= |Flat(heap, ext)| && Content(heap, n) == Flat(heap, ext)[..n.valid]
  {
    var cb := g.BytesPerCluster();
    FlatPrefix(heap, ext, cb, |n.ext|);
    assert ext[..|n.ext|] == n.ext;
    FlatLength(heap, n.ext, cb);
    assert Flat(heap, ext)[..|n.ext| * cb][..n.valid] == Flat(heap, ext)[..n.valid];
  }

  /** A handle at rest is not ahead of its record. */
  lemma HoldsAhead(fs: FileSystem, file: File)
    requires Inv(fs) && Holds(fs, file)
    ensures Ahead(fs.used, fs.nodes, file.id, file.State(), file.ext)
    ensures file.id in fs.nodes && file.validLength <= |BytesOf(fs, file)|
    ensures Content(fs.heap, fs.nodes[file.id]) == BytesOf(fs, file)[..file.validLength]
  {
    assert NodeOk(fs.g, fs.fat, fs.used, fs.nodes[file.id]);
    ShapeBytes(fs, file);
    RecordedPrefix(fs.g, fs.heap, fs.nodes[file.id], file.ext);
  }
}
