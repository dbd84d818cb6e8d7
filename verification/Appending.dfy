/** Appending: growth, filling, and the commit, with the device failing anywhere. */
module Appending {
  import opened Words
  import opened Errors
  import opened Geometry
  import opened Views
  import opened Volume
  import opened Extents
  import opened EntryCodec
  import opened Files
  import opened Tree
  import opened SlotIo
  import opened Growth
  import opened Meaning
  import opened Standing
  import opened Commits

  // ----- growing to a length ----------------------------------------------------------------

  /** Add clusters until `end` bytes fit. */
  method GrowTo(fs: FileSystem, file: File, end: nat) returns (r: Result<()>)
    requires fs.Valid() && OwnOk(fs.g, fs.fat, fs.used, fs.bm, fs.nodes)
    requires Shape(fs.g, fs.fat, file.State(), file.ext) && file.cachedIndex.None?
    requires Ahead(fs.used, fs.nodes, file.id, file.State(), file.ext)
    modifies fs`clock, fs`scratch, fs`disk, fs`fat, fs`heap, fs`used, fs`free
    modifies file`firstCluster, file`noFatChain, file`dataLength, file`ext
    ensures fs.Valid() && OwnOk(fs.g, fs.fat, fs.used, fs.bm, fs.nodes)
    ensures Untouched(old(fs.heap), fs.heap, old(fs.used), fs.bm) && old(fs.used) <= fs.used
    ensures r.Err? ==> r.error in {Device, NoSpace}
    ensures r.Ok? ==>
      && Shape(fs.g, fs.fat, file.State(), file.ext)
      && Ahead(fs.used, fs.nodes, file.id, file.State(), file.ext)
      && Gained(old(file.ext), file.ext, old(fs.used), fs.used)
      && GrownFrom(fs.g, old(fs.fat), old(fs.used), old(file.ext), old(file.noFatChain), fs.fat, file.ext,
                  file.noFatChain)
      && end <= file.dataLength
    ensures Honest(fs.faulty, old(fs.clock), fs.clock, r == Err(Device))
    ensures r == Err(NoSpace) ==>
      old(file.dataLength) < end && Short(fs.g, old(fs.used), fs.used, end - old(file.dataLength))
    ensures r.Ok? ==>
      TookFor(fs.g, old(fs.used), fs.used, if end > old(file.dataLength) then end - old(file.dataLength) else 0)
  {
    hide FileSystem.Valid;
    hide OwnOk;
    hide Ahead;
    hide Shape;
    hide Untouched;
    hide Geometry.BytesPerCluster;
    hide GrownFrom;
    hide Growing;
    hide Gained;
    hide TookFor;
    hide Short;
    hide Full;
    assert |fs.fat| == fs.g.clusterCount + 2 && fs.g.BytesPerCluster() > 0 by { fs.Basics(); }
    assert Untouched(fs.heap, fs.heap, fs.used, fs.bm) by { UntouchedRefl(fs.heap, fs.used, fs.bm); }
    ghost var ext0, used0, length0 := file.ext, fs.used, file.dataLength;
    ghost var fat0, contiguous0 := fs.fat, file.noFatChain;
    ExtentLength(fs, file);
    GrownFromRefl(fs.g, fat0, used0, ext0, contiguous0);
    GrowingStarts(fs.g, ext0, used0, length0, end);
    while file.dataLength < end
      invariant Honest(fs.faulty, old(fs.clock), fs.clock, false)
      invariant fs.Valid() && OwnOk(fs.g, fs.fat, fs.used, fs.bm, fs.nodes)
      invariant |fs.fat| == fs.g.clusterCount + 2 && Shape(fs.g, fs.fat, file.State(), file.ext)
      invariant Ahead(fs.used, fs.nodes, file.id, file.State(), file.ext)
      invariant Untouched(old(fs.heap), fs.heap, used0, fs.bm) && used0 <= fs.used
      invariant GrownFrom(fs.g, fat0, used0, ext0, contiguous0, fs.fat, file.ext, file.noFatChain)
      invariant Growing(fs.g, ext0, used0, length0, end, file.ext, fs.used, file.dataLength)
      decreases end - file.dataLength
    {
      ghost var heap, used, ext, length := fs.heap, fs.used, file.ext, file.dataLength;
      ghost var fat, contiguous := fs.fat, file.noFatChain;
      r := GrowOne(fs, file);
      assert |fs.fat| == fs.g.clusterCount + 2 by { fs.Basics(); }
      UntouchedTrans(old(fs.heap), heap, fs.heap, used0, used, fs.bm);
      if r == Err(NoSpace) { GrowingStops(fs.g, ext0, used0, length0, end, ext, used, length); }
      if r.Err? { return r; }
      ghost var c :| c !in used && file.ext == ext + [c] && fs.used == used + {c}
        && file.dataLength == length + fs.g.BytesPerCluster();
      GrowingSpan(fs.g, ext0, used0, length0, end, ext, used, length);
      GrownFromMore(fs.g, fat0, used0, ext0, contiguous0, fat, used, ext, contiguous, fs.fat, file.noFatChain, c);
      GrowingMore(fs.g, ext0, used0, length0, end, ext, used, length, c);
    }
    GrowingStops(fs.g, ext0, used0, length0, end, file.ext, fs.used, file.dataLength);
    return Ok(());
  }

  /** Clusters added to a file of `length0` bytes, each of them needed for `end`. */
  ghost predicate Growing(g: Geometry, ext0: seq<nat>, used0: set<nat>, length0: nat, end: nat, ext: seq<nat>,
                          used: set<nat>, length: nat) {
    && Gained(ext0, ext, used0, used) && Took(used0, used, |ext| - |ext0|)
    && length0 == |ext0| * g.BytesPerCluster() && length == |ext| * g.BytesPerCluster()
    && (|ext| == |ext0| || (|ext| - 1) * g.BytesPerCluster() < end)
    && Within(used0, used, ext)
  }

  /** Nothing else has come into use. */
  ghost predicate Within(used0: set<nat>, used: set<nat>, ext: seq<nat>) {
    forall c :: c in used ==> c in used0 || c in ext
  }

  lemma WithinMore(used0: set<nat>, used: set<nat>, ext: seq<nat>, c: nat)
    requires Within(used0, used, ext)
    ensures Within(used0, used + {c}, ext + [c])
  {
  }

  lemma GrowingSpan(g: Geometry, ext0: seq<nat>, used0: set<nat>, length0: nat, end: nat, ext: seq<nat>,
                    used: set<nat>, length: nat)
    requires Growing(g, ext0, used0, length0, end, ext, used, length)
    ensures Gained(ext0, ext, used0, used) && forall c :: c in used ==> c in used0 || c in ext
  {
    hide Gained;
  }

  lemma GrowingStarts(g: Geometry, ext: seq<nat>, used: set<nat>, length: nat, end: nat)
    requires length == |ext| * g.BytesPerCluster()
    ensures Growing(g, ext, used, length, end, ext, used, length)
  {
    TookNone(used);
  }

  lemma GrowingMore(g: Geometry, ext0: seq<nat>, used0: set<nat>, length0: nat, end: nat, ext: seq<nat>,
                    used: set<nat>, length: nat, c: nat)
    requires Growing(g, ext0, used0, length0, end, ext, used, length) && c !in used && length < end
    ensures Growing(g, ext0, used0, length0, end, ext + [c], used + {c}, length + g.BytesPerCluster())
  {
    hide Geometry.BytesPerCluster;
    hide Took;
    hide Within;
    WithinMore(used0, used, ext, c);
    GainedMore(ext0, ext, used0, used, c);
    TookMore(used0, used, |ext| - |ext0|, c);
  }

  lemma GrowingStops(g: Geometry, ext0: seq<nat>, used0: set<nat>, length0: nat, end: nat, ext: seq<nat>,
                     used: set<nat>, length: nat)
    requires Growing(g, ext0, used0, length0, end, ext, used, length)
    ensures Gained(ext0, ext, used0, used)
    ensures TookFor(g, used0, used, if end > length0 then end - length0 else 0)
    ensures length < end && Full(g, used) ==> length0 < end && Short(g, used0, used, end - length0)
  {
    hide Geometry.BytesPerCluster;
    hide Full;
    hide TookFor;
    hide Short;
    var bytes := if end > length0 then end - length0 else 0;
    TookBytes(g, used0, used, |ext0|, |ext|, end, bytes);
    if length < end { MulMonotone(|ext0|, |ext|, g.BytesPerCluster()); }
  }

  lemma ExtentLength(fs: FileSystem, file: File)
    requires |fs.fat| == fs.g.clusterCount + 2 && Shape(fs.g, fs.fat, file.State(), file.ext)
    ensures file.dataLength == |file.ext| * fs.g.BytesPerCluster()
  {
  }

  lemma UntouchedRefl(heap: Heap, used: set<nat>, bm: seq<nat>)
    ensures Untouched(heap, heap, used, bm)
  {
  }

  lemma AppendedBytes(before: seq<byte>, bytes: seq<byte>, p: nat, input: seq<byte>)
    requires p + |input| <= |before| && Overwritten(bytes, before, p, input, |input|)
    ensures |bytes| == |before| && bytes[..p + |input|] == before[..p] + input
  {
    if |input| > 0 {
      assert input[..|input|] == input;
    }
  }

  lemma PrefixKept(before: seq<byte>, bytes: seq<byte>, p: nat, input: seq<byte>, n: nat)
    requires p <= |before| && Overwritten(bytes, before, p, input, n)
    ensures |bytes| == |before| && bytes[..p] == before[..p]
  {
  }

  /** Phase one: clusters for `end` bytes.  Whatever happens, the recorded
      volume is intact and means the same. */
  method Reserve(fs: FileSystem, file: File, end: nat) returns (r: Result<()>)
    requires Inv(fs) && Shape(fs.g, fs.fat, file.State(), file.ext) && file.cachedIndex.None?
    requires Ahead(fs.used, fs.nodes, file.id, file.State(), file.ext)
    modifies fs`clock, fs`scratch, fs`disk, fs`fat, fs`heap, fs`used, fs`free
    modifies file`firstCluster, file`noFatChain, file`dataLength, file`ext
    ensures Inv(fs) && Contents(fs.heap, fs.nodes) == old(Contents(fs.heap, fs.nodes)) && old(fs.used) <= fs.used
    ensures DirsKept(old(fs.heap), fs.heap, fs.nodes)
    ensures r.Err? ==> r.error in {Device, NoSpace}
    ensures r.Ok? ==>
      && Shape(fs.g, fs.fat, file.State(), file.ext)
      && Ahead(fs.used, fs.nodes, file.id, file.State(), file.ext)
      && Gained(old(file.ext), file.ext, old(fs.used), fs.used)
      && GrownFrom(fs.g, old(fs.fat), old(fs.used), old(file.ext), old(file.noFatChain), fs.fat, file.ext,
                  file.noFatChain)
      && end <= file.dataLength
    ensures Honest(fs.faulty, old(fs.clock), fs.clock, r == Err(Device))
    ensures r == Err(NoSpace) ==>
      old(file.dataLength) < end && Short(fs.g, old(fs.used), fs.used, end - old(file.dataLength))
    ensures r.Ok? ==>
      TookFor(fs.g, old(fs.used), fs.used, if end > old(file.dataLength) then end - old(file.dataLength) else 0)
  {
    hide FileSystem.Valid;
    hide OwnOk;
    hide TreeOk;
    hide Contents;
    hide Ahead;
    hide Shape;
    hide DirsKept;
    hide GrownFrom;
    hide TookFor;
    hide Short;
    ghost var heap, used, fat, nodes := fs.heap, fs.used, fs.fat, fs.nodes;
    BitmapNotDirectory(fs.g, fs.fat, fs.used, fs.bm, nodes);
    r := GrowTo(fs, file, end);
    assert HeapShape(fs.g, fs.heap) by { fs.Basics(); }
    UntouchedKeeps(fs.g, fat, used, fs.bm, nodes, heap, fs.heap, BitmapFile);
    KeptTree(fs.g, heap, fs.heap, nodes, BitmapFile);
    KeptContents(heap, fs.heap, nodes, BitmapFile);
    OthersKeepDirs(heap, fs.heap, nodes, BitmapFile);
  }

  /** Phase two: the input behind the valid bytes. */
  method Fill(fs: FileSystem, file: File, input: seq<byte>, end: nat) returns (r: Result<nat>)
    requires Inv(fs) && Shape(fs.g, fs.fat, file.State(), file.ext)
    requires Ahead(fs.used, fs.nodes, file.id, file.State(), file.ext)
    requires file.validLength == fs.nodes[file.id].valid
    requires end == file.validLength + |input| <= file.dataLength
    modifies fs`clock, fs`scratch, fs`disk, fs`heap
    modifies file`position, file`validLength, file`cachedIndex, file`cachedCluster
    ensures Inv(fs) && Contents(fs.heap, fs.nodes) == old(Contents(fs.heap, fs.nodes))
    ensures DirsKept(old(fs.heap), fs.heap, fs.nodes)
    ensures r.Err? ==> r.error == Device
    ensures r.Ok? ==>
      && r.value == |input|
      && Shape(fs.g, fs.fat, file.State(), file.ext)
      && Ahead(fs.used, fs.nodes, file.id, file.State(), file.ext)
      && file.validLength == end == file.position && end <= |BytesOf(fs, file)|
      && BytesOf(fs, file)[..end] == old(Content(fs.heap, fs.nodes[file.id])) + input
    ensures Honest(fs.faulty, old(fs.clock), fs.clock, r == Err(Device))
  {
    hide Failures;
    hide FileSystem.Valid;
    hide OwnOk;
    hide TreeOk;
    hide Contents;
    hide Ahead;
    hide Shape;
    hide DirsKept;
    ghost var heap, nodes, id, p, ext := fs.heap, fs.nodes, file.id, file.validLength, file.ext;
    ghost var state, before := file.State(), BytesOf(fs, file);
    FillReady(fs, file, |input|);
    file.position := file.validLength;
    file.validLength := end;
    r := Write(fs, file, input);
    ghost var bytes := BytesOf(fs, file);
    PrefixKept(before, bytes, p, input, file.position - p);
    FillKept(fs, heap, state, id, ext, before, bytes, p);
    if r.Ok? {
      AppendedBytes(before, bytes, p, input);
      AheadSame(fs.used, nodes, id, state, file.State(), ext);
    }
  }

  lemma AheadSame(used: set<nat>, nodes: Owners, id: Id, s: FileState, s': FileState, ext: seq<nat>)
    requires Ahead(used, nodes, id, s, ext) && s'.noFatChain == s.noFatChain
    ensures Ahead(used, nodes, id, s', ext)
  {
  }

  lemma FillReady(fs: FileSystem, file: File, n: nat)
    requires Inv(fs) && Shape(fs.g, fs.fat, file.State(), file.ext)
    requires Ahead(fs.used, fs.nodes, file.id, file.State(), file.ext)
    requires file.validLength == fs.nodes[file.id].valid && file.validLength + n <= file.dataLength
    ensures file.validLength + n <= |BytesOf(fs, file)|
    ensures Content(fs.heap, fs.nodes[file.id]) == BytesOf(fs, file)[..file.validLength]
    ensures forall i :: 0 <= i < |file.ext| ==> file.ext[i] !in fs.bm
    ensures |fs.fat| == fs.g.clusterCount + 2 && HeapShape(fs.g, fs.heap) && InHeap(fs.g, file.ext)
    ensures Shape(fs.g, fs.fat, file.State().(position := file.validLength, validLength := file.validLength + n),
                  file.ext)
  {
    var node := fs.nodes[file.id];
    assert NodeOk(fs.g, fs.fat, fs.used, node);
    RecordedPrefix(fs.g, fs.heap, node, file.ext);
    ShapeBytes(fs, file);
    forall i | 0 <= i < |file.ext| ensures file.ext[i] !in fs.bm {
      NotInBitmapOf(fs, file.id, file.State(), file.ext, i);
    }
  }

  /** A write that kept the recorded prefix of a handle's bytes and touched only
      the handle's clusters leaves the recorded volume intact. */
  lemma FillKept(fs: FileSystem, heap: Heap, s: FileState, id: Id, ext: seq<nat>, before: seq<byte>, bytes: seq<byte>,
                 p: nat)
    requires fs.Valid() && OwnOk(fs.g, fs.fat, fs.used, fs.bm, fs.nodes) && TreeOk(fs.g, heap, fs.nodes)
    requires Ahead(fs.used, fs.nodes, id, s, ext) && InHeap(fs.g, ext) && HeapShape(fs.g, heap)
    requires before == Flat(heap, ext) && bytes == Flat(fs.heap, ext) && p == fs.nodes[id].valid
    requires p <= |before| == |bytes| && bytes[..p] == before[..p]
    requires forall c :: 0 <= c < |fs.heap| && c !in ext ==> fs.heap[c] == heap[c]
    ensures TreeOk(fs.g, fs.heap, fs.nodes)
    ensures Contents(fs.heap, fs.nodes) == Contents(heap, fs.nodes)
    ensures DirsKept(heap, fs.heap, fs.nodes)
  {
    hide FileSystem.Valid;
    hide TreeOk;
    hide Contents;
    hide DirsKept;
    fs.Basics();
    var n := fs.nodes[id];
    assert NodeOk(fs.g, fs.fat, fs.used, n);
    RecordedPrefix(fs.g, heap, n, ext);
    RecordedPrefix(fs.g, fs.heap, n, ext);
    ElsewhereKeeps(heap, fs.heap, fs.used, fs.nodes, id, s, ext);
    KeptTree(fs.g, heap, fs.heap, fs.nodes, id);
    KeptContents(heap, fs.heap, fs.nodes, id);
    OthersKeepDirs(heap, fs.heap, fs.nodes, id);
  }

  // ----- append ---------------------------------------------------------------------------------

  /** The record of a handle that is still ahead: it agrees with the handle the
      volume last committed. */
  lemma RestoreHolds(fs: FileSystem, file: File, fat0: seq<u32>)
    requires fs.Valid() && OwnOk(fs.g, fs.fat, fs.used, fs.bm, fs.nodes)
    requires Placed(fs.g, fs.nodes, file) && IsFile(fs.nodes, file.id)
    requires fs.nodes[file.id] == Node(file.ext, !file.noFatChain, file.validLength, false, file.entryCount)
    requires |fat0| == fs.g.clusterCount + 2 && Shape(fs.g, fat0, file.State(), file.ext)
    ensures Holds(fs, file)
  {
    assert NodeOk(fs.g, fs.fat, fs.used, fs.nodes[file.id]);
    fs.Basics();
  }

  lemma HoldsParts(fs: FileSystem, file: File)
    requires Inv(fs) && Holds(fs, file)
    ensures Placed(fs.g, fs.nodes, file) && IsFile(fs.nodes, file.id)
    ensures |fs.fat| == fs.g.clusterCount + 2 && Shape(fs.g, fs.fat, file.State(), file.ext)
    ensures Shape(fs.g, fs.fat, file.State().(cachedIndex := None), file.ext)
    ensures Ahead(fs.used, fs.nodes, file.id, file.State(), file.ext)
    ensures Ahead(fs.used, fs.nodes, file.id, file.State().(cachedIndex := None), file.ext)
    ensures fs.nodes[file.id] == Node(file.ext, !file.noFatChain, file.validLength, false, file.entryCount)
  {
    HoldsAhead(fs, file);
  }

  lemma AppendedContent(heap: Heap, s: FileState, ext: seq<nat>, count: nat, bytes: seq<byte>)
    requires (forall i :: 0 <= i < |ext| ==> ext[i] < |heap|) && bytes == Flat(heap, ext) && s.validLength <= |bytes|
    ensures Content(heap, Recorded(s, ext, count)) == bytes[..s.validLength]
  {
  }

  lemma EmptyAppend(fs: FileSystem, file: File)
    requires Inv(fs) && Holds(fs, file)
    ensures file.id in fs.nodes
    ensures Contents(fs.heap, fs.nodes) ==
            Contents(fs.heap, fs.nodes)[file.id := Content(fs.heap, fs.nodes[file.id]) + []]
  {
    hide FileSystem.Valid;
    hide OwnOk;
    hide TreeOk;
    hide Shape;
    hide Placed;
    hide Content;
    ContentsNoop(fs.heap, fs.nodes, file.id);
  }

  lemma ContentsNoop(heap: Heap, nodes: Owners, id: Id)
    requires IsFile(nodes, id)
    ensures Contents(heap, nodes) == Contents(heap, nodes)[id := Content(heap, nodes[id]) + []]
  {
    hide Content;
    var c := Content(heap, nodes[id]);
    assert c + [] == c && id in Contents(heap, nodes);
  }

  lemma ContentsAt(heap: Heap, heap': Heap, nodes: Owners, id: Id)
    requires IsFile(nodes, id) && Contents(heap, nodes) == Contents(heap', nodes)
    ensures Content(heap, nodes[id]) == Content(heap', nodes[id])
  {
    hide Content;
    assert id in Contents(heap, nodes) && id in Contents(heap', nodes);
    assert Contents(heap, nodes)[id] == Contents(heap', nodes)[id];
  }

  /** Once filled, the handle would record its old bytes and the new ones. */
  lemma FilledContent(fs: FileSystem, file: File)
    requires fs.Valid() && Shape(fs.g, fs.fat, file.State(), file.ext)
    ensures |fs.fat| == fs.g.clusterCount + 2 && file.validLength <= |BytesOf(fs, file)|
    ensures Content(fs.heap, Recorded(file.State(), file.ext, file.entryCount)) == BytesOf(fs, file)[..file.validLength]
  {
    ShapeBytes(fs, file);
    fs.Basics();
    AppendedContent(fs.heap, file.State(), file.ext, file.entryCount, BytesOf(fs, file));
  }

  lemma AheadExtends(used: set<nat>, nodes: Owners, id: Id, s: FileState, ext: seq<nat>)
    requires Ahead(used, nodes, id, s, ext)
    ensures nodes[id].ext <= ext
  {
  }

  lemma RecordedLength(fs: FileSystem, file: File)
    requires fs.Valid() && |fs.fat| == fs.g.clusterCount + 2 && Shape(fs.g, fs.fat, file.State(), file.ext)
    ensures |Content(fs.heap, Recorded(file.State(), file.ext, file.entryCount))| == file.validLength
  {
    hide FileSystem.Valid;
    hide Content;
    FilledContent(fs, file);
  }

  /** On the volume, the record of `id` has been given the stream fields `info`
      under its old checksum; every other slot of every directory is as before. */
  ghost predicate TornSlots(heap: Heap, heap': Heap, nodes: Owners, id: Id, info: StreamInfo) {
    && id.Child? && id.dir in nodes && nodes[id.dir].isDir && |heap'| == |heap|
    && (forall d, i :: d in nodes && nodes[d].isDir && 0 <= i < |nodes[d].ext| ==> nodes[d].ext[i] < |heap|)
    && id.at + 1 < |DirSlots(heap, nodes[id.dir].ext)|
    && DirSlots(heap', nodes[id.dir].ext) ==
         DirSlots(heap, nodes[id.dir].ext)[id.at + 1 := PatchStream(DirSlots(heap, nodes[id.dir].ext)[id.at + 1],
           info.noFatChain, info.validLength, info.firstCluster, info.dataLength)]
    && forall d :: d in nodes && nodes[d].isDir && d != id.dir ==>
         DirSlots(heap', nodes[d].ext) == DirSlots(heap, nodes[d].ext)
  }

  /** The stream fields are those of the owner `n`. */
  ghost predicate Tells(g: Geometry, info: StreamInfo, n: Node) {
    && info.noFatChain == !n.linked && info.validLength == n.valid
    && info.firstCluster == First(n.ext) && info.dataLength == |n.ext| * g.BytesPerCluster()
  }

  /** The first write of a commit of `id` went through, and no more of it did: the
      record tells of the grown file `n`, which holds `content` in clusters that
      nobody else has, under the checksum of the old record. */
  ghost predicate TornRecord(g: Geometry, fat: seq<u32>, used: set<nat>, bm: seq<nat>, heap: Heap, heap': Heap,
                             nodes: Owners, id: Id, content: seq<byte>) {
    exists n: Node, info: StreamInfo ::
      && Tells(g, info, n) && TornSlots(heap, heap', nodes, id, info)
      && OwnOk(g, fat, used, bm, nodes[id := n]) && id in nodes && nodes[id].ext <= n.ext
      && !n.isDir && n.count == nodes[id].count && n.valid == |content| && Content(heap', n) == content
  }

  lemma DirectoryInHeap(g: Geometry, heap: Heap, nodes: Owners, d: Id)
    requires TreeOk(g, heap, nodes) && d in nodes && nodes[d].isDir
    ensures forall i :: 0 <= i < |nodes[d].ext| ==> nodes[d].ext[i] < |heap|
  {
  }

  lemma TornDirs(g: Geometry, nodes: Owners, heap0: Heap, heap: Heap, heap': Heap, id: Id, info: StreamInfo)
    requires Apart(nodes) && TreeOk(g, heap, nodes) && DirsKept(heap0, heap, nodes)
    requires id.Child? && id.dir in nodes && nodes[id.dir].isDir && Torn(heap, heap', nodes[id.dir].ext, id.at, info)
    ensures TornSlots(heap0, heap', nodes, id, info)
  {
    hide TreeOk;
    hide SlotsOf;
    hide PatchStream;
    hide DirsKept;
    hide Flat;
    KeptSize(heap0, heap, nodes);
    forall d | d in nodes && nodes[d].isDir
      ensures forall i :: 0 <= i < |nodes[d].ext| ==> nodes[d].ext[i] < |heap|
      ensures DirSlots(heap, nodes[d].ext) == DirSlots(heap0, nodes[d].ext)
      ensures d != id.dir ==> DirSlots(heap', nodes[d].ext) == DirSlots(heap, nodes[d].ext)
    {
      DirectoryInHeap(g, heap, nodes, d);
      KeptSlots(heap0, heap, nodes, d);
      if d != id.dir {
        ApartExtents(nodes, d, id.dir);
        FlatFrame(heap, heap', nodes[d].ext);
      }
    }
  }

  lemma KeptSize(heap: Heap, heap': Heap, nodes: Owners)
    requires DirsKept(heap, heap', nodes)
    ensures |heap'| == |heap|
  {
  }

  lemma TornContents(nodes: Owners, heap: Heap, heap': Heap, d: Id)
    requires Apart(nodes) && d in nodes && nodes[d].isDir && |heap'| == |heap|
    requires forall c :: 0 <= c < |heap| && c !in nodes[d].ext ==> heap'[c] == heap[c]
    ensures Contents(heap', nodes) == Contents(heap, nodes)
  {
    hide Content;
    forall f | IsFile(nodes, f)
      ensures Content(heap', nodes[f]) == Content(heap, nodes[f])
    {
      ApartExtents(nodes, f, d);
      ContentFrame(heap, heap', nodes[f]);
    }
  }

  lemma TornDone(g: Geometry, fat: seq<u32>, used: set<nat>, bm: seq<nat>, nodes: Owners, heap0: Heap, heap: Heap,
                 heap': Heap, id: Id, info: StreamInfo, n: Node)
    requires OwnOk(g, fat, used, bm, nodes) && TreeOk(g, heap, nodes) && DirsKept(heap0, heap, nodes)
    requires id.Child? && id in nodes && id.dir in nodes && Torn(heap, heap', nodes[id.dir].ext, id.at, info)
    requires OwnOk(g, fat, used, bm, nodes[id := n]) && Tells(g, info, n) && nodes[id].ext <= n.ext
    requires !n.isDir && n.count == nodes[id].count && n.valid == |Content(heap, n)|
    ensures TornRecord(g, fat, used, bm, heap0, heap', nodes, id, Content(heap, n))
    ensures Contents(heap', nodes) == Contents(heap, nodes)
  {
    hide OwnOk;
    hide TreeOk;
    hide TornSlots;
    hide DirsKept;
    hide DirSlots;
    hide Contents;
    hide Content;
    ChildParent(g, fat, used, bm, nodes, id);
    NotOwnDirectory(id);
    TornDirs(g, nodes, heap0, heap, heap', id, info);
    TornContents(nodes, heap, heap', id.dir);
    TornContent(g, fat, used, bm, nodes, heap, heap', id, info, n);
    assert Tells(g, info, n) && TornSlots(heap0, heap', nodes, id, info);
  }

  lemma TornContent(g: Geometry, fat: seq<u32>, used: set<nat>, bm: seq<nat>, nodes: Owners, heap: Heap, heap': Heap,
                    id: Id, info: StreamInfo, n: Node)
    requires OwnOk(g, fat, used, bm, nodes[id := n]) && id.Child? && id.dir in nodes && id.dir != id
    requires Torn(heap, heap', nodes[id.dir].ext, id.at, info)
    ensures Content(heap', n) == Content(heap, n)
  {
    hide Content;
    hide DirSlots;
    ApartExtents(nodes[id := n], id, id.dir);
    ContentFrame(heap, heap', n);
  }

  /** Phase three: commit, or put the handle back as it was. */
  method Conclude(fs: FileSystem, file: File, original: FileState, ghost ext0: seq<nat>, ghost fat0: seq<u32>,
                  ghost heap0: Heap) returns (r: Result<()>, ghost torn: bool)
    requires Inv(fs) && Placed(fs.g, fs.nodes, file) && IsFile(fs.nodes, file.id)
    requires DirsKept(heap0, fs.heap, fs.nodes) && TreeOk(fs.g, heap0, fs.nodes)
    requires Shape(fs.g, fs.fat, file.State(), file.ext) && Ahead(fs.used, fs.nodes, file.id, file.State(), file.ext)
    requires fs.nodes[file.id] == Node(ext0, !original.noFatChain, original.validLength, false, file.entryCount)
    requires |fat0| == fs.g.clusterCount + 2 && Shape(fs.g, fat0, original, ext0)
    modifies fs`clock, fs`scratch, fs`disk, fs`heap, fs`nodes, file
    ensures fs.Valid()
    ensures r.Ok? ==>
      && fs.nodes == Committed(old(fs.nodes), file) && Inv(fs) && Holds(fs, file)
      && file.State() == old(file.State()) && file.ext == old(file.ext)
      && Contents(fs.heap, fs.nodes) == old(Contents(fs.heap, fs.nodes))[file.id :=
           old(Content(fs.heap, Recorded(file.State(), file.ext, file.entryCount)))]
    ensures r.Err? ==>
      && r.error == Device && file.State() == original && file.ext == ext0 && fs.nodes == old(fs.nodes)
      && Contents(fs.heap, fs.nodes) == old(Contents(fs.heap, fs.nodes))
    ensures r.Err? && !torn ==> Inv(fs) && Holds(fs, file)
    ensures r.Ok? || !torn ==> DirsStay(heap0, old(fs.nodes), fs.heap, fs.nodes)
    ensures r.Err? && torn ==>
      TornRecord(fs.g, fs.fat, fs.used, fs.bm, heap0, fs.heap, fs.nodes, file.id,
                 old(Content(fs.heap, Recorded(file.State(), file.ext, file.entryCount))))
    ensures Honest(fs.faulty, old(fs.clock), fs.clock, r == Err(Device))
  {
    hide FileSystem.Valid;
    hide OwnOk;
    hide TreeOk;
    hide TreeRecords;
    hide Contents;
    hide Content;
    hide Ahead;
    hide Shape;
    hide LocAt;
    hide DirsKept;
    hide Torn;
    hide TornRecord;
    hide DirsStay;
    hide Placed;
    assert |fs.fat| == fs.g.clusterCount + 2 by { fs.Basics(); }
    ghost var heap, nodes, n := fs.heap, fs.nodes, Recorded(file.State(), file.ext, file.entryCount);
    assert |Content(heap, n)| == n.valid by { RecordedLength(fs, file); }
    OkRecords(fs.g, heap0, nodes);
    KeptStays(fs.g, heap0, heap, nodes);
    CommitOwn(fs.g, fs.fat, fs.used, fs.bm, fs.nodes, file.id, file.State(), file.ext, file.entryCount);
    r, torn := Commit(fs, file);
    if r.Err? {
      if torn {
        HandleBounds(fs, file);
        AheadExtends(fs.used, fs.nodes, file.id, file.State(), file.ext);
        TornDone(fs.g, fs.fat, fs.used, fs.bm, fs.nodes, heap0, heap, fs.heap, file.id, InfoOf(file), n);
      }
      file.Restore(original, ext0);
      if !torn { RestoreHolds(fs, file, fat0); }
    } else {
      DirsStayTrans(heap0, nodes, heap, nodes, fs.heap, fs.nodes);
    }
  }

  /** Phases one and two: the clusters and the bytes, or the handle as it was.
      Whatever happens, the recorded volume is intact and means the same. */
  method Prepare(fs: FileSystem, file: File, input: seq<byte>, end: nat) returns (r: Result<nat>)
    requires Inv(fs) && Holds(fs, file) && end == file.validLength + |input|
    modifies fs`clock, fs`scratch, fs`disk, fs`fat, fs`heap, fs`used, fs`free, file
    ensures Inv(fs) && Placed(fs.g, fs.nodes, file) && IsFile(fs.nodes, file.id) && old(fs.used) <= fs.used
    ensures Contents(fs.heap, fs.nodes) == old(Contents(fs.heap, fs.nodes)) && DirsKept(old(fs.heap), fs.heap, fs.nodes)
    ensures r.Err? ==>
      && r.error in {Device, NoSpace} && file.State() == old(file.State()) && file.ext == old(file.ext)
      && Holds(fs, file)
    ensures r.Ok? ==>
      && r.value == |input| && file.validLength == end == file.position
      && Shape(fs.g, fs.fat, file.State(), file.ext) && Ahead(fs.used, fs.nodes, file.id, file.State(), file.ext)
      && Content(fs.heap, Recorded(file.State(), file.ext, file.entryCount))
           == old(Content(fs.heap, fs.nodes[file.id])) + input
    ensures r.Ok? ==>
      GrownFrom(fs.g, old(fs.fat), old(fs.used), old(file.ext), old(file.noFatChain), fs.fat, file.ext,
           file.noFatChain)
    ensures Honest(fs.faulty, old(fs.clock), fs.clock, r == Err(Device))
    ensures r == Err(NoSpace) ==> Short(fs.g, old(fs.used), fs.used, |input|)
    ensures r.Ok? ==> TookFor(fs.g, old(fs.used), fs.used, |input|)
  {
    hide Failures;
    hide FileSystem.Valid;
    hide OwnOk;
    hide TreeOk;
    hide Contents;
    hide Content;
    hide Ahead;
    hide Shape;
    hide LocAt;
    hide BytesOf;
    hide DirsKept;
    hide Placed;
    hide IsFile;
    hide Gained;
    hide Recorded;
    hide GrownFrom;
    hide TookFor;
    hide Short;
    HoldsParts(fs, file);
    var original := file.State();
    ghost var ext0, fat0, heap0, id := file.ext, fs.fat, fs.heap, file.id;
    file.cachedIndex := None;
    ghost var used0, length := fs.used, file.dataLength;
    assert file.validLength <= length by { ValidWithin(fs, file); }
    var reserved := Reserve(fs, file, end);
    TookWithin(fs.g, used0, fs.used, if end > length then end - length else 0, |input|);
    if reserved.Err? {
      file.Restore(original, ext0);
      RestoreHolds(fs, file, fat0);
      return Err(reserved.error);
    }
    ContentsAt(heap0, fs.heap, fs.nodes, id);
    ghost var heap1 := fs.heap;
    r := Fill(fs, file, input, end);
    DirsKeptTrans(heap0, heap1, fs.heap, fs.nodes);
    if r.Err? || r.value != |input| {
      file.Restore(original, ext0);
      RestoreHolds(fs, file, fat0);
      return r;
    }
    FilledContent(fs, file);
  }

  lemma ValidWithin(fs: FileSystem, file: File)
    requires |fs.fat| == fs.g.clusterCount + 2 && Shape(fs.g, fs.fat, file.State(), file.ext)
    ensures file.validLength <= file.dataLength
  {
  }

  lemma TookWithin(g: Geometry, used0: set<nat>, used: set<nat>, m: nat, n: nat)
    requires m <= n
    ensures TookFor(g, used0, used, m) ==> TookFor(g, used0, used, n)
    ensures Short(g, used0, used, m) ==> Short(g, used0, used, n)
  {
    hide Full;
    hide Geometry.BytesPerCluster;
  }

  /** Append.  On success the volume means the same except that the file has
      grown by exactly the input.  On failure the handle is as before and every
      file has its old bytes; either the volume is intact, with at most some free
      clusters lost, or the device failed inside the update of the directory
      entry, whose record then claims the new length under its old checksum.  No
      more clusters are taken than the input needs, each the one behind the last
      if that is free, and space is lacking only if the free ones would not hold
      it. */
  method Append(fs: FileSystem, file: File, input: seq<byte>) returns (r: Result<nat>, ghost torn: bool)
    requires Inv(fs) && Holds(fs, file)
    modifies fs`clock, fs`scratch, fs`disk, fs`fat, fs`heap, fs`used, fs`free, fs`nodes, file
    ensures fs.Valid() && old(fs.used) <= fs.used
    ensures r.Ok? ==>
      && r.value == |input| && Inv(fs) && Holds(fs, file)
      && Contents(fs.heap, fs.nodes) ==
           old(Contents(fs.heap, fs.nodes))[file.id := old(Content(fs.heap, fs.nodes[file.id])) + input]
      && (if input == [] then fs.nodes == old(fs.nodes) else fs.nodes == Committed(old(fs.nodes), file))
      && file.position == (if input == [] then old(file.position) else file.validLength)
    ensures r.Err? ==>
      && r.error in {Device, NoSpace}
      && file.State() == old(file.State()) && file.ext == old(file.ext)
      && fs.nodes == old(fs.nodes)
    ensures r.Err? && !torn ==>
      && Inv(fs) && Holds(fs, file)
      && Contents(fs.heap, fs.nodes) == old(Contents(fs.heap, fs.nodes))
    ensures r.Ok? || !torn ==> DirsStay(old(fs.heap), old(fs.nodes), fs.heap, fs.nodes)
    ensures r.Err? && torn ==>
      && r.error == Device && input != []
      && Contents(fs.heap, fs.nodes) == old(Contents(fs.heap, fs.nodes))
      && TornRecord(fs.g, fs.fat, fs.used, fs.bm, old(fs.heap), fs.heap, fs.nodes, file.id,
                    old(Content(fs.heap, fs.nodes[file.id])) + input)
    ensures r.Ok? ==>
      GrownFrom(fs.g, old(fs.fat), old(fs.used), old(file.ext), old(file.noFatChain), fs.fat, file.ext,
           file.noFatChain)
    ensures Honest(fs.faulty, old(fs.clock), fs.clock, r == Err(Device))
    ensures r == Err(NoSpace) ==>
      || Short(fs.g, old(fs.used), fs.used, |input|)
      || (fs.used == old(fs.used) && old(file.validLength) + |input| > U64_MAX)
    ensures r.Ok? ==> TookFor(fs.g, old(fs.used), fs.used, |input|)
  {
    hide FileSystem.Valid;
    hide OwnOk;
    hide TreeOk;
    hide TreeRecords;
    hide Contents;
    hide Content;
    hide Ahead;
    hide Shape;
    hide LocAt;
    hide BytesOf;
    hide DirsKept;
    hide Torn;
    hide TornRecord;
    hide DirsStay;
    hide Placed;
    hide IsFile;
    hide Gained;
    hide GrownFrom;
    hide Short;
    torn := false;
    OkRecords(fs.g, fs.heap, fs.nodes);
    SameStays(fs.g, fs.heap, fs.nodes);
    if |input| == 0 {
      EmptyAppend(fs, file);
      GrownFromRefl(fs.g, fs.fat, fs.used, file.ext, file.noFatChain);
      return Ok(0), torn;
    }
    HoldsParts(fs, file);
    var original := file.State();
    ghost var ext0, fat0, heap0 := file.ext, fs.fat, fs.heap;
    var end := file.validLength + |input|;
    if end > U64_MAX { return Err(NoSpace), torn; }
    r := Prepare(fs, file, input, end);
    OkRecords(fs.g, heap0, fs.nodes);
    KeptStays(fs.g, heap0, fs.heap, fs.nodes);
    if r.Err? { return r, torn; }
    var committed;
    committed, torn := Conclude(fs, file, original, ext0, fat0, heap0);
    if committed.Err? { return Err(committed.error), torn; }
  }
}
