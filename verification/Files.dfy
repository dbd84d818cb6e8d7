/** Detached file handles: the cached cursor, sequential reads and in-place
    writes, over contiguous and FAT-linked extents. */
module Files {
  import opened Words
  import opened Errors
  import opened Geometry
  import opened Views
  import opened Volume
  import opened Extents
  import opened EntrySets

  /** The plain fields of a handle. */
  datatype FileState = FileState(
    firstCluster: nat, dataLength: nat, validLength: nat, position: nat, noFatChain: bool,
    cachedIndex: Option<nat>, cachedCluster: nat)

  class File {
    const primary: EntryLocator
    const stream: EntryLocator
    const entryLocs: seq<EntryLocator>
    const entryCount: nat
    var firstCluster: nat
    var dataLength: nat
    var validLength: nat
    var position: nat
    var noFatChain: bool
    var cachedIndex: Option<nat>
    var cachedCluster: nat

    /** The clusters that hold the bytes, and the owner they belong to. */
    ghost var ext: seq<nat>
    ghost const id: Id

    constructor (primary: EntryLocator, stream: EntryLocator, entryLocs: seq<EntryLocator>, entryCount: nat,
                 firstCluster: nat, dataLength: nat, validLength: nat, noFatChain: bool,
                 ghost id: Id, ghost ext: seq<nat>)
      ensures this.primary == primary && this.stream == stream && this.entryLocs == entryLocs
      ensures this.entryCount == entryCount && this.id == id && this.ext == ext
      ensures State() == FileState(firstCluster, dataLength, validLength, 0, noFatChain, None, 0)
    {
      this.primary, this.stream, this.entryLocs, this.entryCount := primary, stream, entryLocs, entryCount;
      this.firstCluster, this.dataLength, this.validLength := firstCluster, dataLength, validLength;
      this.noFatChain, this.id, this.ext := noFatChain, id, ext;
      position, cachedIndex, cachedCluster := 0, None, 0;
    }

    function State(): FileState
      reads this
    {
      FileState(firstCluster, dataLength, validLength, position, noFatChain, cachedIndex, cachedCluster)
    }

    method Restore(s: FileState, ghost clusters: seq<nat>)
      modifies this
      ensures State() == s && ext == clusters
    {
      firstCluster, dataLength, validLength, position := s.firstCluster, s.dataLength, s.validLength, s.position;
      noFatChain, cachedIndex, cachedCluster := s.noFatChain, s.cachedIndex, s.cachedCluster;
      ext := clusters;
    }
  }

  // ----- the cluster behind a byte position ---------------------------------------------

  /** The cluster at index `wanted` of a file: by addition for a contiguous
      extent, by walking the FAT from the first cluster otherwise. */
  ghost function ClusterOf(g: Geometry, fat: seq<u32>, first: nat, noFatChain: bool, wanted: nat): Option<nat>
    requires |fat| == g.clusterCount + 2
  {
    if wanted >= g.clusterCount then None
    else if noFatChain then if 2 <= first + wanted < g.clusterCount + 2 then Some(first + wanted) else None
    else if 2 <= first < g.clusterCount + 2 then Walk(g, fat, first, wanted)
    else None
  }

  /** A cached cursor denotes the cluster a walk from the first one reaches. */
  ghost predicate CursorOk(g: Geometry, fat: seq<u32>, s: FileState)
    requires |fat| == g.clusterCount + 2
  {
    s.cachedIndex.Some? ==>
      && 2 <= s.cachedCluster < g.clusterCount + 2
      && ClusterOf(g, fat, s.firstCluster, s.noFatChain, s.cachedIndex.value) == Some(s.cachedCluster)
  }

  /** The extent of a handle: right clusters, right lengths, right linkage. */
  ghost predicate Shape(g: Geometry, fat: seq<u32>, s: FileState, ext: seq<nat>)
    requires |fat| == g.clusterCount + 2
  {
    && InHeap(g, ext) && Distinct(ext) && |ext| <= g.clusterCount
    && s.dataLength == |ext| * g.BytesPerCluster()
    && s.firstCluster == (if ext == [] then 0 else ext[0])
    && (if s.noFatChain then Contiguous(ext) else Links(fat, ext))
    && s.validLength <= s.dataLength <= U64_MAX
    && (s.cachedIndex.Some? ==>
          !s.noFatChain && s.cachedIndex.value < |ext| && s.cachedCluster == ext[s.cachedIndex.value])
  }

  lemma ShapeCursor(g: Geometry, fat: seq<u32>, s: FileState, ext: seq<nat>)
    requires |fat| == g.clusterCount + 2 && Shape(g, fat, s, ext)
    ensures CursorOk(g, fat, s)
  {
    if s.cachedIndex.Some? {
      WalkFollowsLinks(g, fat, ext, s.cachedIndex.value);
    }
  }

  lemma ShapeCluster(g: Geometry, fat: seq<u32>, s: FileState, ext: seq<nat>, wanted: nat)
    requires |fat| == g.clusterCount + 2 && Shape(g, fat, s, ext) && wanted < |ext|
    ensures ClusterOf(g, fat, s.firstCluster, s.noFatChain, wanted) == Some(ext[wanted])
  {
    if !s.noFatChain {
      WalkFollowsLinks(g, fat, ext, wanted);
    }
  }

  /** Resolve a cluster index, starting from the cached cursor when it is not
      past the goal: the answer is the one a fresh walk gives. */
  method FileClusterAt(fs: FileSystem, file: File, wanted: nat) returns (r: Result<nat>)
    requires fs.Valid() && CursorOk(fs.g, fs.fat, file.State())
    modifies fs`clock, fs`scratch, file`cachedIndex, file`cachedCluster
    ensures fs.Valid() && CursorOk(fs.g, fs.fat, file.State())
    ensures r.Ok? ==> ClusterOf(fs.g, fs.fat, file.firstCluster, file.noFatChain, wanted) == Some(r.value)
    ensures r.Err? && r.error != Device ==>
      ClusterOf(fs.g, fs.fat, file.firstCluster, file.noFatChain, wanted) == None
    ensures r.Err? || file.noFatChain ==> file.State() == old(file.State())
    ensures r.Ok? && !file.noFatChain ==>
      file.State() == old(file.State()).(cachedIndex := Some(wanted), cachedCluster := r.value)
    ensures Honest(fs.faulty, old(fs.clock), fs.clock, r == Err(Device))
  {
    hide FileSystem.Valid;
    fs.Basics();
    var clusterCount: nat := fs.g.clusterCount;
    if wanted >= clusterCount { return Err(Corrupt); }
    if file.noFatChain {
      var sum := file.firstCluster + wanted;
      return if sum <= U32_MAX && fs.g.InRange(sum) then Ok(sum) else Err(Corrupt);
    }
    var index, cluster := 0, file.firstCluster;
    if file.cachedIndex.Some? && file.cachedIndex.value <= wanted {
      index, cluster := file.cachedIndex.value, file.cachedCluster;
    }
    if !fs.g.InRange(cluster) { return Err(Corrupt); }
    r := WalkOn(fs, file.firstCluster, index, cluster, wanted);
    if r.Ok? {
      file.cachedIndex := Some(wanted);
      file.cachedCluster := r.value;
    }
  }

  /** Continue a walk that has reached `cluster` at index `from`. */
  method WalkOn(fs: FileSystem, ghost first: nat, from: nat, start: nat, wanted: nat) returns (r: Result<nat>)
    requires fs.Valid() && from <= wanted && fs.g.InRange(start)
    requires Walk(fs.g, fs.fat, first, from) == Some(start)
    modifies fs`clock, fs`scratch
    ensures fs.Valid()
    ensures r.Ok? ==> fs.g.InRange(r.value) && Walk(fs.g, fs.fat, first, wanted) == Some(r.value)
    ensures r.Err? && r.error != Device ==> Walk(fs.g, fs.fat, first, wanted) == None
    ensures Honest(fs.faulty, old(fs.clock), fs.clock, r == Err(Device))
  {
    hide Failures;
    hide FileSystem.Valid;
    fs.Basics();
    var index, cluster := from, start;
    while index < wanted
      invariant Honest(fs.faulty, old(fs.clock), fs.clock, false)
      invariant fs.Valid() && index <= wanted && fs.g.InRange(cluster)
      invariant Walk(fs.g, fs.fat, first, index) == Some(cluster)
    {
      var next := NextInChain(fs, cluster);
      if next.Err? {
        if next.error != Device && Walk(fs.g, fs.fat, first, wanted).Some? {
          WalkPrefix(fs.g, fs.fat, first, wanted, index + 1);
        }
        return Err(next.error);
      }
      cluster := next.value;
      index := index + 1;
    }
    return Ok(cluster);
  }

  /** The next cluster of a file's chain, which has to be in the heap. */
  method NextInChain(fs: FileSystem, previous: nat) returns (r: Result<nat>)
    requires fs.Valid() && fs.g.InRange(previous)
    modifies fs`clock, fs`scratch
    ensures fs.Valid()
    ensures r.Ok? ==> fs.g.InRange(r.value) && r.value == fs.fat[previous]
    ensures r.Err? ==> r.error == Device || (r.error == FileChainInvalid && !fs.g.InRange(fs.fat[previous]))
    ensures Honest(fs.faulty, old(fs.clock), fs.clock, r == Err(Device))
  {
    var next := fs.NextCluster(previous);
    if next.Err? { return Err(next.error); }
    if !fs.g.InRange(next.value) { return Err(FileChainInvalid); }
    return Ok(next.value);
  }

  // ----- reading ----------------------------------------------------------------------------

  /** Bytes a sequential transfer of up to `n` bytes can move. */
  function Transfer(s: FileState, n: nat): nat {
    if s.position >= s.validLength then 0 else Min(n, s.validLength - s.position)
  }

  /** Sector `s` of cluster `c`, at address `lba`, holds byte `position` of the
      extent at `offset`. */
  ghost predicate Under(g: Geometry, ext: seq<nat>, position: nat, lba: nat, offset: nat, i: nat, s: nat) {
    var cb, size := g.BytesPerCluster(), g.bytesPerSector;
    && g.WellFormed() && i < |ext| && 2 <= ext[i] < g.clusterCount + 2
    && s < g.sectorsPerCluster && offset < size && lba == HeapLba(g, ext[i], s)
    && 0 <= s * size && s * size + size <= cb && 0 <= i * cb
    && position == i * cb + (s * size + offset)
  }

  lemma UnderAt(g: Geometry, ext: seq<nat>, position: nat)
    requires g.WellFormed() && g.clusterCount + 2 <= U32_MAX && InHeap(g, ext) && position < |ext| * g.BytesPerCluster()
    ensures g.BytesPerCluster() > 0
    ensures var cb, size := g.BytesPerCluster(), g.bytesPerSector;
            && 0 <= position / cb < |ext| && g.ClusterLba(ext[position / cb]).Some? && 0 <= position % cb
            && 0 <= position % cb / size
            && Under(g, ext, position, g.ClusterLba(ext[position / cb]).value + position % cb / size,
                     position % cb % size, position / cb, position % cb / size)
  {
    BytesPositive(g);
    var cb, size := g.BytesPerCluster(), g.bytesPerSector;
    Position(position, cb, |ext|);
    WithinSector(position % cb, size, g.sectorsPerCluster);
    SectorFits(position % cb / size, g.sectorsPerCluster, size);
    ChunkInside(position / cb, |ext|, cb);
  }

  lemma UnderOffset(g: Geometry, ext: seq<nat>, position: nat, lba: nat, offset: nat, i: nat, s: nat)
    requires Under(g, ext, position, lba, offset, i, s)
    ensures offset < g.bytesPerSector && i < |ext| && 2 <= ext[i] < g.clusterCount + 2
  {
  }

  /** Find the sector under the file position. */
  method LocatePosition(fs: FileSystem, file: File) returns (r: Result<(nat, nat)>, ghost i: nat, ghost s: nat)
    requires fs.Valid() && Shape(fs.g, fs.fat, file.State(), file.ext)
    requires file.position < file.dataLength
    modifies fs`clock, fs`scratch, file`cachedIndex, file`cachedCluster
    ensures fs.Valid() && Shape(fs.g, fs.fat, file.State(), file.ext)
    ensures r.Ok? ==> Under(fs.g, file.ext, file.position, r.value.0, r.value.1, i, s)
    ensures r.Err? ==> r.error == Device
    ensures Honest(fs.faulty, old(fs.clock), fs.clock, r == Err(Device))
  {
    hide FileSystem.Valid;
    hide Geometry.WellFormed;
    hide Under;
    fs.Basics();
    i, s := 0, 0;
    var sectorSize: nat, clusterBytes := fs.g.bytesPerSector, fs.g.BytesPerCluster();
    var offset := file.position;
    UnderAt(fs.g, file.ext, offset);
    var clusterIndex := offset / clusterBytes;
    ShapeCluster(fs.g, fs.fat, file.State(), file.ext, clusterIndex);
    ShapeCursor(fs.g, fs.fat, file.State(), file.ext);
    var cluster := FileClusterAt(fs, file, clusterIndex);
    if cluster.Err? { return Err(cluster.error), i, s; }
    var within := offset % clusterBytes;
    var base := fs.g.ClusterLba(cluster.value);
    if base.None? { return Err(Corrupt), i, s; }
    return Ok((base.value + within / sectorSize, within % sectorSize)), clusterIndex, within / sectorSize;
  }

  lemma ShapeFits(g: Geometry, heap: Heap, ext: seq<nat>)
    requires InHeap(g, ext) && HeapShape(g, heap)
    ensures Fits(heap, ext, g.BytesPerCluster())
    ensures |Flat(heap, ext)| == |ext| * g.BytesPerCluster()
  {
    FlatLength(heap, ext, g.BytesPerCluster());
  }

  /** The sector under a position holds the extent's bytes from there on. */
  lemma UnderReads(fs: FileSystem, ext: seq<nat>, position: nat, lba: nat, offset: nat, i: nat, s: nat, count: nat)
    requires fs.Valid() && InHeap(fs.g, ext) && Under(fs.g, ext, position, lba, offset, i, s)
    requires offset + count <= fs.g.bytesPerSector
    ensures lba < |fs.disk| && |fs.disk[lba]| == fs.g.bytesPerSector
    ensures fs.disk[lba] == SectorOf(fs.heap[ext[i]], s, fs.g.bytesPerSector)
    ensures Fits(fs.heap, ext, fs.g.BytesPerCluster())
    ensures position + count <= |Flat(fs.heap, ext)|
    ensures fs.disk[lba][offset..offset + count] == Flat(fs.heap, ext)[position..position + count]
  {
    var size, cb := fs.g.bytesPerSector, fs.g.BytesPerCluster();
    ShapeFits(fs.g, fs.heap, ext);
    HeapAddress(fs.g, ext[i], s);
    assert SectorTied(fs.g, fs.disk, fs.heap, ext[i], s);
    SliceOfSector(fs.heap[ext[i]], s, size, offset, count);
    FlatSlice(fs.heap, ext, cb, i, s * size + offset, count);
  }

  /** Moving the position keeps the shape of a handle. */
  lemma ShapeAnywhere(g: Geometry, fat: seq<u32>, s: FileState, s': FileState, ext: seq<nat>)
    requires |fat| == g.clusterCount + 2 && Shape(g, fat, s, ext) && s' == s.(position := s'.position)
    ensures Shape(g, fat, s', ext)
    ensures InHeap(g, ext) && Distinct(ext) && s.validLength <= s.dataLength == |ext| * g.BytesPerCluster()
  {
  }

  /** All the bytes of a handle's clusters. */
  ghost function BytesOf(fs: FileSystem, file: File): seq<byte>
    requires fs.Valid() && Shape(fs.g, fs.fat, file.State(), file.ext)
    reads fs, file
  {
    Flat(fs.heap, file.ext)
  }

  lemma ShapeBytes(fs: FileSystem, file: File)
    requires fs.Valid() && Shape(fs.g, fs.fat, file.State(), file.ext)
    ensures file.validLength <= file.dataLength == |BytesOf(fs, file)|
  {
    ShapeFits(fs.g, fs.heap, file.ext);
  }

  /** Read what one sector holds from the position on, at most `limit` bytes. */
  method ReadChunk(fs: FileSystem, file: File, limit: nat) returns (r: Result<seq<byte>>)
    requires fs.Valid() && Shape(fs.g, fs.fat, file.State(), file.ext)
    requires 0 < limit && file.position + limit <= file.validLength
    modifies fs`clock, fs`scratch, file`cachedIndex, file`cachedCluster, file`position
    ensures fs.Valid() && Shape(fs.g, fs.fat, file.State(), file.ext)
    ensures r.Err? ==> r.error == Device && file.position == old(file.position)
    ensures r.Ok? ==>
      var p, bytes := old(file.position), BytesOf(fs, file);
      && 0 < |r.value| <= limit && file.position == p + |r.value| <= |bytes| && r.value == bytes[p..p + |r.value|]
    ensures Honest(fs.faulty, old(fs.clock), fs.clock, r == Err(Device))
  {
    hide Failures;
    hide FileSystem.Valid;
    hide Under;
    hide Shape;
    fs.Basics();
    ShapeAnywhere(fs.g, fs.fat, file.State(), file.State(), file.ext);
    var place, i, s := LocatePosition(fs, file);
    if place.Err? { return Err(place.error); }
    var (lba, sectorOffset) := place.value;
    UnderOffset(fs.g, file.ext, file.position, lba, sectorOffset, i, s);
    var count := Min(fs.g.bytesPerSector - sectorOffset, limit);
    UnderReads(fs, file.ext, file.position, lba, sectorOffset, i, s, count);
    var ok := fs.ReadSector(lba);
    if !ok { return Err(Device); }
    ghost var before := file.State();
    file.position := file.position + count;
    ShapeAnywhere(fs.g, fs.fat, before, file.State(), file.ext);
    return Ok(fs.scratch[sectorOffset..sectorOffset + count]);
  }

  /** Read sequentially into a buffer of `length` bytes: exactly the file's bytes
      from the position on. */
  method Read(fs: FileSystem, file: File, length: nat) returns (r: Result<seq<byte>>)
    requires fs.Valid() && Shape(fs.g, fs.fat, file.State(), file.ext)
    modifies fs`clock, fs`scratch, file`cachedIndex, file`cachedCluster, file`position
    ensures fs.Valid() && Shape(fs.g, fs.fat, file.State(), file.ext)
    ensures 0 <= file.position - old(file.position) <= Transfer(old(file.State()), length)
    ensures r.Err? ==> r.error == Device
    ensures r.Ok? ==>
      var n, p := Transfer(old(file.State()), length), old(file.position);
      && file.position == p + n
      && (if n == 0 then r.value == [] else p + n <= |BytesOf(fs, file)| && r.value == BytesOf(fs, file)[p..p + n])
    ensures Honest(fs.faulty, old(fs.clock), fs.clock, r == Err(Device))
  {
    hide Failures;
    hide FileSystem.Valid;
    hide Shape;
    if file.position >= file.validLength || length == 0 { return Ok([]); }
    var wanted := Min(length, file.validLength - file.position);
    assert |fs.fat| == fs.g.clusterCount + 2 by { fs.Basics(); }
    ghost var p, bytes := file.position, BytesOf(fs, file);
    assert p + wanted <= |bytes| by { fs.Basics(); ShapeBytes(fs, file); }
    var out := [];
    while |out| < wanted
      invariant Honest(fs.faulty, old(fs.clock), fs.clock, false)
      invariant fs.Valid() && |fs.fat| == fs.g.clusterCount + 2 && Shape(fs.g, fs.fat, file.State(), file.ext)
      invariant |out| <= wanted && file.position == p + |out|
      invariant out == bytes[p..p + |out|]
    {
      var chunk := ReadChunk(fs, file, wanted - |out|);
      if chunk.Err? { return Err(chunk.error); }
      SliceMore(bytes, p, |out|, |chunk.value|);
      out := out + chunk.value;
    }
    return Ok(out);
  }

  lemma SliceMore(bytes: seq<byte>, p: nat, a: nat, b: nat)
    requires p + a + b <= |bytes|
    ensures bytes[p..p + a] + bytes[p + a..p + a + b] == bytes[p..p + a + b]
  {
  }

  // ----- writing in place -----------------------------------------------------------------------

  /** Rewriting part of the sector under a position rewrites that part of the
      extent's bytes. */
  lemma UnderWrites(fs: FileSystem, ext: seq<nat>, position: nat, lba: nat, offset: nat, i: nat, s: nat,
                    data: seq<byte>)
    requires fs.Valid() && InHeap(fs.g, ext) && Distinct(ext) && Under(fs.g, ext, position, lba, offset, i, s)
    requires offset + |data| <= fs.g.bytesPerSector
    ensures lba == HeapLba(fs.g, ext[i], s) && lba < |fs.disk| && s < fs.g.sectorsPerCluster
    ensures 0 <= s * fs.g.bytesPerSector && s * fs.g.bytesPerSector + fs.g.bytesPerSector <= |fs.heap[ext[i]]|
    ensures |fs.disk[lba]| == fs.g.bytesPerSector
    ensures Fits(fs.heap, ext, fs.g.BytesPerCluster())
    ensures position + |data| <= |Flat(fs.heap, ext)|
    ensures var sector := Splice(fs.disk[lba], offset, data);
            var heap' := fs.heap[ext[i] := Splice(fs.heap[ext[i]], s * fs.g.bytesPerSector, sector)];
            Flat(heap', ext) == Splice(Flat(fs.heap, ext), position, data)
  {
    hide FileSystem.Valid;
    UnderReads(fs, ext, position, lba, offset, i, s, |data|);
    FlatPutSector(fs.heap, ext, fs.g.BytesPerCluster(), i, s, fs.g.bytesPerSector, offset, data);
  }

  lemma FlatPutSector(heap: Heap, ext: seq<nat>, cb: nat, i: nat, s: nat, size: nat, offset: nat, data: seq<byte>)
    requires Fits(heap, ext, cb) && Distinct(ext) && i < |ext|
    requires 0 <= s * size && s * size + size <= cb && offset + |data| <= size
    ensures 0 <= i * cb && i * cb + (s * size + offset) + |data| <= |Flat(heap, ext)|
    ensures var sector := Splice(SectorOf(heap[ext[i]], s, size), offset, data);
            var heap' := heap[ext[i] := Splice(heap[ext[i]], s * size, sector)];
            Flat(heap', ext) == Splice(Flat(heap, ext), i * cb + (s * size + offset), data)
  {
    SpliceWindow(heap[ext[i]], s * size, size, offset, data);
    FlatPut(heap, ext, cb, i, s * size + offset, data);
  }

  lemma WholeSplice(a: seq<byte>, b: seq<byte>, data: seq<byte>)
    requires |a| == |b| == |data|
    ensures Splice(a, 0, data) == data == Splice(b, 0, data)
  {
  }

  /** Prepare in the scratch buffer the sector under the position with the front
      of `data` written into it; a whole sector need not be read first. */
  method StageChunk(fs: FileSystem, file: File, data: seq<byte>)
    returns (r: Result<nat>, lba: nat, ghost offset: nat, ghost i: nat, ghost s: nat)
    requires fs.Valid() && Shape(fs.g, fs.fat, file.State(), file.ext)
    requires 0 < |data| && file.position + |data| <= file.validLength
    modifies fs`clock, fs`scratch, file`cachedIndex, file`cachedCluster
    ensures fs.Valid() && Shape(fs.g, fs.fat, file.State(), file.ext)
    ensures r.Err? ==> r.error == Device
    ensures r.Ok? ==>
      && 0 < r.value <= |data| && Under(fs.g, file.ext, file.position, lba, offset, i, s)
      && lba < |fs.disk| && offset + r.value <= |fs.disk[lba]| == fs.g.bytesPerSector
      && fs.scratch == Splice(fs.disk[lba], offset, data[..r.value])
    ensures Honest(fs.faulty, old(fs.clock), fs.clock, r == Err(Device))
  {
    hide Failures;
    hide FileSystem.Valid;
    hide Under;
    hide Shape;
    assert |fs.fat| == fs.g.clusterCount + 2 && |fs.scratch| == fs.g.bytesPerSector by { fs.Basics(); }
    assert InHeap(fs.g, file.ext) && file.validLength <= file.dataLength by {
      ShapeAnywhere(fs.g, fs.fat, file.State(), file.State(), file.ext);
    }
    lba, offset, i, s := 0, 0, 0, 0;
    var sectorSize: nat := fs.g.bytesPerSector;
    var place, i', s' := LocatePosition(fs, file);
    if place.Err? { return Err(place.error), lba, offset, i, s; }
    var sectorOffset := place.value.1;
    lba, offset, i, s := place.value.0, sectorOffset, i', s';
    UnderOffset(fs.g, file.ext, file.position, lba, sectorOffset, i, s);
    var count := Min(sectorSize - sectorOffset, |data|);
    UnderReads(fs, file.ext, file.position, lba, sectorOffset, i, s, count);
    assert |fs.scratch| == sectorSize by { fs.Basics(); }
    if sectorOffset != 0 || count != sectorSize {
      var ok := fs.ReadSector(lba);
      if !ok { return Err(Device), lba, offset, i, s; }
    } else {
      WholeSplice(fs.scratch, fs.disk[lba], data[..count]);
    }
    fs.FillScratch(sectorOffset, data[..count]);
    r := Ok(count);
  }

  /** Write what fits into the sector under the position; a failed transfer
      leaves media and position alone. */
  method WriteChunk(fs: FileSystem, file: File, data: seq<byte>) returns (r: Result<nat>)
    requires fs.Valid() && Shape(fs.g, fs.fat, file.State(), file.ext)
    requires 0 < |data| && file.position + |data| <= file.validLength
    requires forall i :: 0 <= i < |file.ext| ==> file.ext[i] !in fs.bm
    modifies fs`clock, fs`scratch, fs`disk, fs`heap, file`cachedIndex, file`cachedCluster, file`position
    ensures fs.Valid() && Shape(fs.g, fs.fat, file.State(), file.ext)
    ensures |fs.heap| == |old(fs.heap)|
    ensures r.Err? ==> r.error == Device && file.position == old(file.position)
    ensures r.Err? ==> fs.heap == old(fs.heap) && BytesOf(fs, file) == old(BytesOf(fs, file))
    ensures r.Ok? ==>
      && 0 < r.value <= |data| && file.position == old(file.position) + r.value <= |old(BytesOf(fs, file))|
      && BytesOf(fs, file) == Splice(old(BytesOf(fs, file)), old(file.position), data[..r.value])
    ensures forall c :: 0 <= c < |fs.heap| && c !in file.ext ==> fs.heap[c] == old(fs.heap)[c]
    ensures Honest(fs.faulty, old(fs.clock), fs.clock, r == Err(Device))
  {
    hide Failures;
    hide FileSystem.Valid;
    hide Under;
    hide Shape;
    assert |fs.fat| == fs.g.clusterCount + 2 by { fs.Basics(); }
    var staged, lba, offset, i, s := StageChunk(fs, file, data);
    if staged.Err? { return staged; }
    var count := staged.value;
    assert InHeap(fs.g, file.ext) && Distinct(file.ext) by {
      ShapeAnywhere(fs.g, fs.fat, file.State(), file.State(), file.ext);
    }
    UnderWrites(fs, file.ext, file.position, lba, offset, i, s, data[..count]);
    assert i < |file.ext| && 2 <= file.ext[i] < fs.g.clusterCount + 2 by {
      UnderOffset(fs.g, file.ext, file.position, lba, offset, i, s);
    }
    var ok := fs.WriteHeapSector(lba, file.ext[i], s);
    if !ok { return Err(Device); }
    ghost var before := file.State();
    file.position := file.position + count;
    ShapeAnywhere(fs.g, fs.fat, before, file.State(), file.ext);
    return Ok(count);
  }

  /** The bytes `before` with the first `n` bytes of `input` written at `p`. */
  ghost predicate Overwritten(bytes: seq<byte>, before: seq<byte>, p: nat, input: seq<byte>, n: nat) {
    && n <= |input|
    && (if n == 0 then bytes == before
        else p + n <= |before| && bytes == Splice(before, p, input[..n]))
  }

  lemma OverwrittenNone(bytes: seq<byte>, p: nat, input: seq<byte>)
    ensures Overwritten(bytes, bytes, p, input, 0)
  {
  }

  lemma OverwrittenMore(before: seq<byte>, bytes: seq<byte>, bytes': seq<byte>, p: nat, input: seq<byte>, done: nat,
                        n: nat)
    requires Overwritten(bytes, before, p, input, done) && done + n <= |input| && n > 0 && p + done + n <= |bytes|
    requires bytes' == Splice(bytes, p + done, input[done..done + n])
    ensures Overwritten(bytes', before, p, input, done + n)
  {
    var chunk := input[done..done + n];
    if done > 0 {
      SpliceAgain(before, p, input[..done], chunk);
    }
    assert input[..done] + chunk == input[..done + n];
  }

  /** Write in place: overwrites the file's bytes from the position on and
      touches no cluster outside the file.  How far the position moved is how
      much was written, also when the device fails on the way. */
  method Write(fs: FileSystem, file: File, input: seq<byte>) returns (r: Result<nat>)
    requires fs.Valid() && Shape(fs.g, fs.fat, file.State(), file.ext)
    requires forall i :: 0 <= i < |file.ext| ==> file.ext[i] !in fs.bm
    modifies fs`clock, fs`scratch, fs`disk, fs`heap, file`cachedIndex, file`cachedCluster, file`position
    ensures fs.Valid() && Shape(fs.g, fs.fat, file.State(), file.ext)
    ensures |fs.heap| == |old(fs.heap)|
    ensures forall c :: 0 <= c < |fs.heap| && c !in file.ext ==> fs.heap[c] == old(fs.heap)[c]
    ensures 0 <= file.position - old(file.position) <= Transfer(old(file.State()), |input|)
    ensures Overwritten(BytesOf(fs, file), old(BytesOf(fs, file)), old(file.position), input,
                        file.position - old(file.position))
    ensures r.Err? ==> r.error == Device
    ensures r.Ok? ==> r.value == Transfer(old(file.State()), |input|) == file.position - old(file.position)
    ensures Honest(fs.faulty, old(fs.clock), fs.clock, r == Err(Device))
  {
    hide Failures;
    hide FileSystem.Valid;
    hide Overwritten;
    hide BytesOf;
    hide Shape;
    OverwrittenNone(BytesOf(fs, file), file.position, input);
    if file.position >= file.validLength || |input| == 0 { return Ok(0); }
    var wanted := Min(|input|, file.validLength - file.position);
    assert |fs.fat| == fs.g.clusterCount + 2 by { fs.Basics(); }
    ghost var p, before := file.position, BytesOf(fs, file);
    var done := 0;
    while done < wanted
      invariant Honest(fs.faulty, old(fs.clock), fs.clock, false)
      invariant fs.Valid() && |fs.fat| == fs.g.clusterCount + 2 && Shape(fs.g, fs.fat, file.State(), file.ext)
      invariant done <= wanted && file.position == p + done && |fs.heap| == |old(fs.heap)|
      invariant Overwritten(BytesOf(fs, file), before, p, input, done)
      invariant forall c :: 0 <= c < |fs.heap| && c !in file.ext ==> fs.heap[c] == old(fs.heap)[c]
    {
      ghost var bytes := BytesOf(fs, file);
      var chunk := WriteChunk(fs, file, input[done..wanted]);
      if chunk.Err? { return chunk; }
      SliceOfSlice(input, done, wanted, 0, chunk.value);
      OverwrittenMore(before, bytes, BytesOf(fs, file), p, input, done, chunk.value);
      done := done + chunk.value;
    }
    return Ok(done);
  }
}
