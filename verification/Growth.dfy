/** Growing a file: allocating clusters one at a time, turning a contiguous
    extent into a FAT chain when the next cluster is not adjacent, and doing so
    without disturbing what the volume has recorded. */
module Growth {
  import opened Words
  import opened Errors
  import opened Geometry
  import opened Views
  import opened Volume
  import opened Files
  import opened Tree

  /** What growth leaves alone: the bytes of every cluster that was in use and
      is not part of the bitmap. */
  ghost predicate Untouched(heap: Heap, heap': Heap, used: set<nat>, bm: seq<nat>) {
    && |heap'| == |heap|
    && forall c :: c in used && c !in bm && c < |heap| ==> heap'[c] == heap[c]
  }

  /** A handle that may be ahead of its owner's record: the recorded clusters
      are a prefix of the handle's, and nobody else has any of them. */
  ghost predicate Ahead(used: set<nat>, nodes: Owners, id: Id, s: FileState, ext: seq<nat>) {
    && id in nodes && id.Child? && !nodes[id].isDir
    && nodes[id].ext <= ext
    && (s.noFatChain ==> !nodes[id].linked)
    && (forall i :: 0 <= i < |ext| ==> ext[i] in used)
    && (forall other, i, j :: other in nodes && other != id && 0 <= i < |nodes[other].ext| && 0 <= j < |ext|
          ==> nodes[other].ext[i] != ext[j])
  }

  lemma DistinctFits(g: Geometry, ext: seq<nat>)
    requires InHeap(g, ext) && Distinct(ext)
    ensures |ext| <= g.clusterCount
  {
    var s := ElementsOf(ext);
    SetInRange(s, g.clusterCount);
  }

  lemma {:induction false} ElementsOf(ext: seq<nat>) returns (s: set<nat>)
    requires Distinct(ext)
    ensures |s| == |ext| && forall c :: c in s <==> c in ext
  {
    if ext == [] {
      s := {};
    } else {
      var front := ext[..|ext| - 1];
      var t := ElementsOf(front);
      s := t + {ext[|ext| - 1]};
      assert ext == front + [ext[|ext| - 1]];
      assert ext[|ext| - 1] !in front;
    }
  }

  /** The FAT slot of a handle's cluster carries no other owner's link, nor a
      recorded link of this one unless it is an inner link. */
  lemma AheadIsLoose(used: set<nat>, nodes: Owners, id: Id, s: FileState, ext: seq<nat>, k: nat)
    requires Ahead(used, nodes, id, s, ext) && Distinct(ext) && k < |ext|
    requires s.noFatChain || k == |ext| - 1
    ensures Loose(nodes, ext[k])
  {
    forall other, i | other in nodes && nodes[other].linked && 0 <= i < |nodes[other].ext|
                      && (i + 1 < |nodes[other].ext| || nodes[other].isDir)
      ensures nodes[other].ext[i] != ext[k]
    {
      if other == id {
        assert nodes[id].ext[i] == ext[i];
        assert i < k;
      }
    }
  }

  /** Set a FAT slot that carries no internal link of the given owners. */
  method LinkUp(fs: FileSystem, c: nat, v: u32, ghost nodes: Owners) returns (r: Result<()>)
    requires fs.Valid() && OwnOk(fs.g, fs.fat, fs.used, fs.bm, nodes) && Loose(nodes, c)
    requires 2 <= c < fs.g.clusterCount + 2 && c !in fs.bm
    modifies fs`clock, fs`scratch, fs`disk, fs`fat
    ensures fs.Valid() && OwnOk(fs.g, fs.fat, fs.used, fs.bm, nodes)
    ensures r == Ok(()) || r == Err(Device)
    ensures fs.fat == if r.Ok? then old(fs.fat)[c := v] else old(fs.fat)
    ensures Honest(fs.faulty, old(fs.clock), fs.clock, r == Err(Device))
  {
    hide FileSystem.Valid;
    hide OwnOk;
    fs.Basics();
    OwnSetFat(fs.g, fs.fat, fs.used, fs.bm, nodes, c, v);
    r := fs.SetFat(c, v);
  }

  /** Write the FAT links of a contiguous extent. */
  method Materialise(fs: FileSystem, file: File, clusters: nat) returns (r: Result<()>)
    requires fs.Valid() && OwnOk(fs.g, fs.fat, fs.used, fs.bm, fs.nodes)
    requires Shape(fs.g, fs.fat, file.State(), file.ext) && file.noFatChain && file.cachedIndex.None?
    requires Ahead(fs.used, fs.nodes, file.id, file.State(), file.ext)
    requires clusters == |file.ext| > 0
    modifies fs`clock, fs`scratch, fs`disk, fs`fat
    ensures fs.Valid() && OwnOk(fs.g, fs.fat, fs.used, fs.bm, fs.nodes)
    ensures r == Ok(()) || r == Err(Device)
    ensures |fs.fat| == |old(fs.fat)|
    ensures r.Ok? ==> Links(fs.fat, file.ext)
    ensures forall c :: 0 <= c < |fs.fat| && c !in file.ext ==> fs.fat[c] == old(fs.fat)[c]
    ensures Honest(fs.faulty, old(fs.clock), fs.clock, r == Err(Device))
  {
    hide FileSystem.Valid;
    hide OwnOk;
    assert |fs.fat| == fs.g.clusterCount + 2 <= 0xffff_fff7 by { fs.Basics(); }
    ghost var ext := file.ext;
    for index := 0 to clusters - 1
      invariant Honest(fs.faulty, old(fs.clock), fs.clock, false)
      invariant fs.Valid() && OwnOk(fs.g, fs.fat, fs.used, fs.bm, fs.nodes)
      invariant |fs.fat| == |old(fs.fat)|
      invariant forall i :: 0 <= i < index ==> fs.fat[ext[i]] == ext[i + 1]
      invariant forall c :: 0 <= c < |fs.fat| && c !in ext ==> fs.fat[c] == old(fs.fat)[c]
    {
      var cluster := file.firstCluster + index;
      assert cluster == ext[index] && cluster + 1 == ext[index + 1];
      AheadIsLoose(fs.used, fs.nodes, file.id, file.State(), ext, index);
      NotInBitmapOf(fs, file.id, file.State(), ext, index);
      r := LinkUp(fs, cluster, cluster + 1, fs.nodes);
      if r.Err? { return r; }
    }
    return Ok(());
  }

  lemma NotInBitmapOf(fs: FileSystem, id: Id, s: FileState, ext: seq<nat>, k: nat)
    requires OwnOk(fs.g, fs.fat, fs.used, fs.bm, fs.nodes)
    requires Ahead(fs.used, fs.nodes, id, s, ext) && k < |ext|
    ensures ext[k] !in fs.bm
  {
    assert BitmapFile in fs.nodes && fs.nodes[BitmapFile].ext == fs.bm;
  }

  /** The last cluster of the file, by addition or through the chain. */
  method LastCluster(fs: FileSystem, file: File) returns (r: Result<nat>)
    requires fs.Valid() && Shape(fs.g, fs.fat, file.State(), file.ext) && file.ext != []
    modifies fs`clock, fs`scratch
    ensures fs.Valid()
    ensures r.Ok? ==> r.value == file.ext[|file.ext| - 1]
    ensures r.Err? ==> r.error == Device
    ensures Honest(fs.faulty, old(fs.clock), fs.clock, r == Err(Device))
  {
    hide FileSystem.Valid;
    hide Geometry.WellFormed;
    hide Geometry.BytesPerCluster;
    fs.Basics();
    var clusterBytes := fs.g.BytesPerCluster();
    ghost var n := |file.ext|;
    LastIndex(n, clusterBytes);
    if file.noFatChain {
      var last := file.firstCluster + (file.dataLength / clusterBytes - 1);
      return if last <= U32_MAX then Ok(last) else Err(NoSpace);
    }
    var lastIndex := (file.dataLength - 1) / clusterBytes;
    WalkFollowsLinks(fs.g, fs.fat, file.ext, n - 1);
    var last := fs.ClusterAt(file.firstCluster, lastIndex);
    return if last.Ok? then Ok(last.value) else Err(last.error);
  }

  lemma LastIndex(n: nat, cb: nat)
    requires n > 0 && cb > 0
    ensures n * cb > 0 && n * cb / cb == n && (n * cb - 1) / cb == n - 1
  {
    assert n * cb == (n - 1) * cb + cb;
    MulMonotone(0, n - 1, cb);
    DivModUnique(n * cb, cb, n, 0);
    DivModUnique(n * cb - 1, cb, n - 1, cb - 1);
  }

  lemma LengthFits(n: nat, cb: nat)
    requires n <= 0x1_0000_0000 && cb <= 0x200_0000
    ensures n * cb <= U64_MAX
  {
    MulMonotone(n, 0x1_0000_0000, cb);
  }

  /** A handle's shape does not depend on FAT slots outside its extent. */
  lemma ShapeFrame(g: Geometry, fat: seq<u32>, fat': seq<u32>, s: FileState, ext: seq<nat>)
    requires |fat| == |fat'| == g.clusterCount + 2 && Shape(g, fat, s, ext)
    requires s.noFatChain || Links(fat', ext)
    ensures Shape(g, fat', s, ext)
  {
  }

  lemma LinksFrame(fat: seq<u32>, c: nat, v: u32, ext: seq<nat>)
    requires Links(fat, ext) && c < |fat| && c !in ext
    ensures Links(fat[c := v], ext)
  {
  }

  lemma LinksExtend(fat: seq<u32>, ext: seq<nat>, c: nat)
    requires Links(fat, ext) && Distinct(ext) && ext != [] && ext[|ext| - 1] < |fat| && c < 0x1_0000_0000
    ensures Links(fat[ext[|ext| - 1] := c], ext + [c])
  {
  }

  /** The handle after one more cluster. */
  ghost function Longer(g: Geometry, s: FileState, new_: nat, noFatChain: bool): FileState {
    s.(firstCluster := if s.firstCluster == 0 then new_ else s.firstCluster,
       dataLength := s.dataLength + g.BytesPerCluster(), noFatChain := noFatChain)
  }

  lemma ShapeExtend(g: Geometry, fat: seq<u32>, s: FileState, ext: seq<nat>, c: nat, noFatChain: bool)
    requires g.WellFormed() && g.clusterCount + 2 <= U32_MAX && |fat| == g.clusterCount + 2
    requires Shape(g, fat, s, ext)
    requires s.cachedIndex.None? && 2 <= c < g.clusterCount + 2 && c !in ext
    requires if noFatChain then Contiguous(ext + [c]) else Links(fat, ext + [c])
    ensures Shape(g, fat, Longer(g, s, c, noFatChain), ext + [c])
  {
    hide Geometry.WellFormed;
    hide Geometry.BytesPerCluster;
    var ext', cb := ext + [c], g.BytesPerCluster();
    ClusterBound(g);
    DistinctFits(g, ext');
    LengthFits(|ext'|, cb);
    NextMultiple(|ext|, cb);
  }

  lemma ClusterBound(g: Geometry)
    requires g.WellFormed()
    ensures g.BytesPerCluster() <= 0x200_0000
  {
  }

  lemma NextMultiple(n: nat, cb: nat)
    ensures (n + 1) * cb == n * cb + cb
  {
  }

  lemma AheadExtend(used: set<nat>, nodes: Owners, id: Id, s: FileState, s': FileState, ext: seq<nat>, used': set<nat>,
                    c: nat)
    requires Ahead(used, nodes, id, s, ext) && used' == used + {c}
    requires s'.noFatChain ==> s.noFatChain
    requires forall other, i :: other in nodes && 0 <= i < |nodes[other].ext| ==> nodes[other].ext[i] != c
    ensures Ahead(used', nodes, id, s', ext + [c])
  {
  }

  lemma BitmapIsUsed(fs: FileSystem)
    requires OwnOk(fs.g, fs.fat, fs.used, fs.bm, fs.nodes)
    ensures forall c :: c in fs.bm ==> c in fs.used
  {
    assert NodeOk(fs.g, fs.fat, fs.used, fs.nodes[BitmapFile]);
  }

  /** Take a free cluster; everything recorded stays as it is. */
  method TakeCluster(fs: FileSystem, preferred: nat) returns (r: Result<nat>)
    requires fs.Valid() && OwnOk(fs.g, fs.fat, fs.used, fs.bm, fs.nodes)
    modifies fs`clock, fs`scratch, fs`disk, fs`fat, fs`heap, fs`used, fs`free
    ensures fs.Valid() && OwnOk(fs.g, fs.fat, fs.used, fs.bm, fs.nodes)
    ensures Untouched(old(fs.heap), fs.heap, old(fs.used), fs.bm) && old(fs.used) <= fs.used
    ensures r.Err? ==> r.error in {Device, NoSpace} && fs.fat == old(fs.fat)
    ensures r == Err(NoSpace) ==> fs.used == old(fs.used) && fs.heap == old(fs.heap)
    ensures r.Ok? ==>
      && 2 <= r.value < fs.g.clusterCount + 2 && r.value !in old(fs.used) && fs.used == old(fs.used) + {r.value}
      && r.value < |old(fs.fat)| && fs.fat == old(fs.fat)[r.value := EOC] && r.value !in fs.bm
      && fs.heap[r.value] == Zeros(fs.g.BytesPerCluster())
      && (forall other, i :: other in fs.nodes && 0 <= i < |fs.nodes[other].ext| ==> fs.nodes[other].ext[i] != r.value)
    ensures r.Ok? && 2 <= preferred < fs.g.clusterCount + 2 && preferred !in old(fs.used) ==> r.value == preferred
    ensures Honest(fs.faulty, old(fs.clock), fs.clock, r == Err(Device))
    ensures r == Err(NoSpace) ==> Full(fs.g, fs.used)
  {
    hide FileSystem.Valid;
    hide OwnOk;
    assert |fs.fat| == fs.g.clusterCount + 2 && |fs.heap| == fs.g.clusterCount + 2 by { fs.Basics(); }
    BitmapIsUsed(fs);
    ghost var fat, used := fs.fat, fs.used;
    r := fs.AllocateClusterPreferred(preferred);
    assert |fs.heap| == fs.g.clusterCount + 2 by { fs.Basics(); }
    if r.Ok? {
      OwnAllocate(fs.g, fat, used, fs.bm, fs.nodes, r.value, EOC);
      FreeIsLoose(fs.g, fat, used, fs.bm, fs.nodes, r.value);
    } else {
      OwnMoreUsed(fs.g, fat, used, fs.used, fs.bm, fs.nodes);
    }
  }

  /** Link a new cluster behind the last one, writing the links of a contiguous
      extent first. */
  method LinkNew(fs: FileSystem, file: File, last: nat, new_: nat) returns (r: Result<()>)
    requires fs.Valid() && OwnOk(fs.g, fs.fat, fs.used, fs.bm, fs.nodes)
    requires Shape(fs.g, fs.fat, file.State(), file.ext) && file.cachedIndex.None?
    requires Ahead(fs.used, fs.nodes, file.id, file.State(), file.ext)
    requires file.ext != [] && last == file.ext[|file.ext| - 1] && 2 <= new_ < fs.g.clusterCount + 2
    modifies fs`clock, fs`scratch, fs`disk, fs`fat, file`noFatChain
    ensures fs.Valid() && OwnOk(fs.g, fs.fat, fs.used, fs.bm, fs.nodes)
    ensures r.Err? ==> r.error == Device
    ensures |fs.fat| == |old(fs.fat)|
    ensures forall c :: 0 <= c < |fs.fat| && c !in file.ext ==> fs.fat[c] == old(fs.fat)[c]
    ensures r.Ok? ==> !file.noFatChain && Links(fs.fat, file.ext) && Links(fs.fat, file.ext + [new_])
    ensures Honest(fs.faulty, old(fs.clock), fs.clock, r == Err(Device))
  {
    hide Failures;
    hide FileSystem.Valid;
    hide OwnOk;
    hide Ahead;
    hide Links;
    hide Geometry.WellFormed;
    hide Geometry.BytesPerCluster;
    fs.Basics();
    ghost var ext, state := file.ext, file.State();
    if file.noFatChain {
      var clusterBytes := fs.g.BytesPerCluster();
      LastIndex(|ext|, clusterBytes);
      r := Materialise(fs, file, file.dataLength / clusterBytes);
      if r.Err? { return r; }
      file.noFatChain := false;
    }
    AheadIsLoose(fs.used, fs.nodes, file.id, state, ext, |ext| - 1);
    assert last !in fs.bm by { NotInBitmapOf(fs, file.id, state, ext, |ext| - 1); }
    LinksExtend(fs.fat, ext, new_);
    ghost var fat := fs.fat;
    r := LinkUp(fs, last, new_, fs.nodes);
    if r.Ok? { LinksLast(fat, ext, new_); }
  }

  lemma LinksLast(fat: seq<u32>, ext: seq<nat>, v: nat)
    requires Links(fat, ext) && Distinct(ext) && ext != [] && ext[|ext| - 1] < |fat| && v < 0x1_0000_0000
    ensures Links(fat[ext[|ext| - 1] := v], ext)
  {
  }

  /** Hang a new cluster behind the last one: by adjacency while the extent is
      and stays contiguous, by a FAT link otherwise. */
  method Hang(fs: FileSystem, file: File, last: Option<nat>, preferred: nat, new_: nat) returns (r: Result<()>)
    requires fs.Valid() && OwnOk(fs.g, fs.fat, fs.used, fs.bm, fs.nodes)
    requires Shape(fs.g, fs.fat, file.State(), file.ext) && file.cachedIndex.None?
    requires Ahead(fs.used, fs.nodes, file.id, file.State(), file.ext)
    requires last == (if file.ext == [] then None else Some(file.ext[|file.ext| - 1]))
    requires file.ext != [] ==> preferred == last.value + 1
    requires 2 <= new_ < fs.g.clusterCount + 2 && new_ !in file.ext
    modifies fs`clock, fs`scratch, fs`disk, fs`fat, file`firstCluster, file`noFatChain, file`dataLength, file`ext
    ensures fs.Valid() && OwnOk(fs.g, fs.fat, fs.used, fs.bm, fs.nodes)
    ensures r.Err? ==> r.error == Device
    ensures r.Ok? ==>
      && file.ext == old(file.ext) + [new_]
      && Shape(fs.g, fs.fat, file.State(), file.ext)
      && file.State() == Longer(fs.g, old(file.State()), new_, file.noFatChain)
      && (file.noFatChain <==> old(file.noFatChain) && (old(file.ext) == [] || new_ == preferred))
    ensures |fs.fat| == |old(fs.fat)|
    ensures forall c :: 0 <= c < |fs.fat| && c !in old(file.ext) ==> fs.fat[c] == old(fs.fat)[c]
    ensures Honest(fs.faulty, old(fs.clock), fs.clock, r == Err(Device))
  {
    hide Failures;
    hide FileSystem.Valid;
    hide OwnOk;
    hide Ahead;
    hide Geometry.WellFormed;
    hide Geometry.BytesPerCluster;
    assert fs.g.WellFormed() && fs.g.clusterCount + 2 <= 0xffff_fff7 && |fs.fat| == fs.g.clusterCount + 2 by {
      fs.Basics();
    }
    ghost var ext, state := file.ext, file.State();
    ghost var fat := fs.fat;
    var clusterBytes := fs.g.BytesPerCluster();
    if file.firstCluster == 0 {
      file.firstCluster := new_;
    } else if file.noFatChain && new_ == preferred {
      // A contiguous extent stays one.
    } else {
      r := LinkNew(fs, file, last.value, new_);
      if r.Err? { return r; }
    }
    file.dataLength := file.dataLength + clusterBytes;
    file.ext := ext + [new_];
    ShapeFrame(fs.g, fat, fs.fat, state, ext);
    ShapeExtend(fs.g, fs.fat, state, ext, new_, file.noFatChain);
    return Ok(());
  }

  lemma AheadMoreUsed(used: set<nat>, used': set<nat>, nodes: Owners, id: Id, s: FileState, ext: seq<nat>)
    requires Ahead(used, nodes, id, s, ext) && used <= used'
    ensures Ahead(used', nodes, id, s, ext)
  {
  }

  lemma UntouchedTrans(h0: Heap, h1: Heap, h2: Heap, u0: set<nat>, u1: set<nat>, bm: seq<nat>)
    requires Untouched(h0, h1, u0, bm) && Untouched(h1, h2, u1, bm) && u0 <= u1
    ensures Untouched(h0, h2, u0, bm)
  {
  }

  /** The clusters a growing handle has gained were free before. */
  ghost predicate Gained(ext0: seq<nat>, ext: seq<nat>, used0: set<nat>, used: set<nat>) {
    && used0 <= used && ext0 <= ext
    && forall i :: |ext0| <= i < |ext| ==> ext[i] !in used0
  }

  lemma GainedMore(ext0: seq<nat>, ext: seq<nat>, used0: set<nat>, used: set<nat>, c: nat)
    requires Gained(ext0, ext, used0, used) && c !in used
    ensures Gained(ext0, ext + [c], used0, used + {c})
  {
  }

  /** Nothing has been given back, and at most `n` clusters have been taken. */
  ghost predicate Took(used0: set<nat>, used: set<nat>, n: nat) {
    used0 <= used && |used - used0| <= n
  }

  lemma TookNone(used: set<nat>)
    ensures Took(used, used, 0)
  {
    assert used - used == {};
  }

  lemma TookMore(used0: set<nat>, used: set<nat>, n: nat, c: nat)
    requires Took(used0, used, n)
    ensures Took(used0, used + {c}, n + 1)
  {
    assert (used + {c}) - used0 == (used - used0) + ({c} - used0);
    assert |{c} - used0| <= |{c}| by { SubsetSize({c} - used0, {c}); }
  }

  lemma TookWiden(used0: set<nat>, used: set<nat>, m: nat, n: nat)
    requires Took(used0, used, m) && m <= n
    ensures Took(used0, used, n)
  {
  }

  lemma {:induction false} SubsetSize(a: set<nat>, b: set<nat>)
    requires a <= b
    ensures |a| <= |b|
    decreases |a|
  {
    if a != {} {
      var c :| c in a;
      SubsetSize(a - {c}, b - {c});
    }
  }

  lemma TookTrans(used0: set<nat>, used1: set<nat>, used2: set<nat>, m: nat, n: nat)
    requires Took(used0, used1, m) && Took(used1, used2, n)
    ensures Took(used0, used2, m + n)
  {
    assert used2 - used0 == (used1 - used0) + (used2 - used1);
  }

  /** The clusters taken hold `bytes` bytes, without one to spare. */
  ghost predicate TookFor(g: Geometry, used0: set<nat>, used: set<nat>, bytes: nat) {
    used0 <= used && (used == used0 || (|used - used0| - 1) * g.BytesPerCluster() < bytes)
  }

  /** All clusters are taken, and those that were free would not have held `bytes`
      bytes. */
  ghost predicate Short(g: Geometry, used0: set<nat>, used: set<nat>, bytes: nat) {
    Full(g, used) && used0 <= used && |used - used0| * g.BytesPerCluster() < bytes
  }

  /** From clusters to bytes, for a file that has grown by so many. */
  lemma TookBytes(g: Geometry, used0: set<nat>, used: set<nat>, n0: nat, n: nat, end: nat, bytes: nat)
    requires n0 <= n && Took(used0, used, n - n0) && end <= n0 * g.BytesPerCluster() + bytes
    ensures n == n0 || (n - 1) * g.BytesPerCluster() < end ==> TookFor(g, used0, used, bytes)
    ensures n * g.BytesPerCluster() < end && Full(g, used) ==> Short(g, used0, used, bytes)
  {
    hide Full;
    hide Geometry.BytesPerCluster;
    var cb, k := g.BytesPerCluster(), |used - used0|;
    assert k == 0 ==> used == used0;
    if n * cb < end { MulMonotone(k, n - n0, cb); Difference(n, n0, cb); }
    if k > 0 && (n - 1) * cb < end { MulMonotone(k - 1, n - 1 - n0, cb); Difference(n - 1, n0, cb); }
  }

  lemma Difference(a: nat, b: nat, cb: nat)
    requires b <= a
    ensures (a - b) * cb == a * cb - b * cb
  {
  }

  /** Of the clusters in use before, only the file's own have new FAT words. */
  ghost predicate Elsewhere(fat0: seq<u32>, fat: seq<u32>, used0: set<nat>, ext0: seq<nat>) {
    && |fat| == |fat0|
    && forall c :: 0 <= c < |fat| && c in used0 && c !in ext0 ==> fat[c] == fat0[c]
  }

  /** Cluster `i` of the file is the one behind its predecessor, if that was free. */
  ghost predicate NextIfFree(g: Geometry, used0: set<nat>, ext: seq<nat>, i: nat)
    requires 0 < i < |ext|
  {
    var next := ext[i - 1] + 1;
    next < g.clusterCount + 2 && next !in used0 && next !in ext[..i] ==> ext[i] == next
  }

  /** A file has grown: its chain ends at the new last cluster, each new cluster is
      the next one where that was free, and a contiguous file stays contiguous
      exactly if all are. */
  ghost predicate GrownFrom(g: Geometry, fat0: seq<u32>, used0: set<nat>, ext0: seq<nat>, contiguous0: bool,
                           fat: seq<u32>, ext: seq<nat>, contiguous: bool) {
    && ext0 <= ext && Elsewhere(fat0, fat, used0, ext0)
    && (if ext == ext0 then fat == fat0 && contiguous == contiguous0
        else ext[|ext| - 1] < |fat| && fat[ext[|ext| - 1]] == EOC)
    && (forall i :: |ext0| <= i < |ext| && 0 < i ==> NextIfFree(g, used0, ext, i))
    && (contiguous <==> contiguous0 && forall i :: |ext0| <= i < |ext| && 0 < i ==> ext[i] == ext[i - 1] + 1)
  }

  lemma GrownFromRefl(g: Geometry, fat: seq<u32>, used: set<nat>, ext: seq<nat>, contiguous: bool)
    ensures GrownFrom(g, fat, used, ext, contiguous, fat, ext, contiguous)
  {
  }

  /** One more cluster, behind those the file has gained so far. */
  lemma GrownFromMore(g: Geometry, fat0: seq<u32>, used0: set<nat>, ext0: seq<nat>, contiguous0: bool, fat1: seq<u32>,
                     used1: set<nat>, ext1: seq<nat>, contiguous1: bool, fat2: seq<u32>, contiguous2: bool, c: nat)
    requires GrownFrom(g, fat0, used0, ext0, contiguous0, fat1, ext1, contiguous1)
    requires GrownFrom(g, fat1, used1, ext1, contiguous1, fat2, ext1 + [c], contiguous2)
    requires Gained(ext0, ext1, used0, used1) && forall d :: d in used1 ==> d in used0 || d in ext1
    ensures GrownFrom(g, fat0, used0, ext0, contiguous0, fat2, ext1 + [c], contiguous2)
  {
    var ext2, n := ext1 + [c], |ext1|;
    assert forall i :: 0 <= i < n ==> ext2[i] == ext1[i];
    forall i | |ext0| <= i <= n && 0 < i
      ensures NextIfFree(g, used0, ext2, i)
    {
      assert ext2[..i] == ext1[..i];
      if i < n { assert NextIfFree(g, used0, ext1, i); } else { assert NextIfFree(g, used1, ext2, i); }
    }
  }

  lemma GrownFromOne(g: Geometry, fat0: seq<u32>, used0: set<nat>, ext0: seq<nat>, contiguous0: bool, fat: seq<u32>,
                    c: nat, contiguous: bool)
    requires |fat| == |fat0| && c < |fat| && c !in used0 && c !in ext0 && fat[c] == EOC
    requires forall d :: 0 <= d < |fat| && d !in ext0 && d != c ==> fat[d] == fat0[d]
    requires ext0 != [] ==> var next := ext0[|ext0| - 1] + 1; next < g.clusterCount + 2 && next !in used0 ==> c == next
    requires contiguous <==> contiguous0 && (ext0 == [] || c == ext0[|ext0| - 1] + 1)
    ensures GrownFrom(g, fat0, used0, ext0, contiguous0, fat, ext0 + [c], contiguous)
  {
  }

  lemma FreshOutside(used: set<nat>, nodes: Owners, id: Id, s: FileState, ext: seq<nat>, c: nat)
    requires Ahead(used, nodes, id, s, ext) && c !in used
    ensures c !in ext
  {
  }

  /** Add one cluster: the one behind the last if that is free. */
  method GrowOne(fs: FileSystem, file: File) returns (r: Result<()>)
    requires fs.Valid() && OwnOk(fs.g, fs.fat, fs.used, fs.bm, fs.nodes)
    requires Shape(fs.g, fs.fat, file.State(), file.ext) && file.cachedIndex.None?
    requires Ahead(fs.used, fs.nodes, file.id, file.State(), file.ext)
    modifies fs`clock, fs`scratch, fs`disk, fs`fat, fs`heap, fs`used, fs`free
    modifies file`firstCluster, file`noFatChain, file`dataLength, file`ext
    ensures fs.Valid() && OwnOk(fs.g, fs.fat, fs.used, fs.bm, fs.nodes)
    ensures Untouched(old(fs.heap), fs.heap, old(fs.used), fs.bm) && old(fs.used) <= fs.used
    ensures r.Err? ==> r.error in {Device, NoSpace}
    ensures r == Err(NoSpace) ==> fs.used == old(fs.used) && fs.heap == old(fs.heap)
    ensures r.Ok? ==>
      && (exists c :: c !in old(fs.used) && file.ext == old(file.ext) + [c] && fs.used == old(fs.used) + {c}
            && file.State() == Longer(fs.g, old(file.State()), c, file.noFatChain))
      && GrownFrom(fs.g, old(fs.fat), old(fs.used), old(file.ext), old(file.noFatChain), fs.fat, file.ext,
                  file.noFatChain)
      && Shape(fs.g, fs.fat, file.State(), file.ext)
      && Ahead(fs.used, fs.nodes, file.id, file.State(), file.ext)
    ensures Honest(fs.faulty, old(fs.clock), fs.clock, r == Err(Device))
    ensures r == Err(NoSpace) ==> Full(fs.g, fs.used)
  {
    hide Failures;
    hide Links;
    hide Contiguous;
    hide GrownFrom;
    hide FileSystem.Valid;
    hide OwnOk;
    hide Ahead;
    assert |fs.fat| == fs.g.clusterCount + 2 <= 0xffff_fff7 by { fs.Basics(); }
    ghost var ext, state, used := file.ext, file.State(), fs.used;
    var last: Option<nat> := None;
    if file.firstCluster != 0 {
      var found := LastCluster(fs, file);
      if found.Err? { return Err(found.error); }
      last := Some(found.value);
    }
    assert last == if ext == [] then None else Some(ext[|ext| - 1]);
    var preferred := if last.Some? then last.value + 1 else 2;
    ghost var fat0 := fs.fat;
    var taken := TakeCluster(fs, preferred);
    if taken.Err? { return Err(taken.error); }
    var c := taken.value;
    FreshOutside(used, fs.nodes, file.id, state, ext, c);
    if !file.noFatChain { LinksFrame(fat0, c, EOC, ext); }
    ShapeFrame(fs.g, fat0, fs.fat, state, ext);
    AheadMoreUsed(used, fs.used, fs.nodes, file.id, state, ext);
    r := Hang(fs, file, last, preferred, c);
    if r.Ok? {
      AheadExtend(used, fs.nodes, file.id, state, file.State(), ext, fs.used, c);
      GrownFromOne(fs.g, fat0, used, ext, state.noFatChain, fs.fat, c, file.noFatChain);
    }
  }
}
