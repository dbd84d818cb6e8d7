/** Truncating a file and giving its clusters back. */
module Truncation {
  import opened Words
  import opened Errors
  import opened Geometry
  import opened Views
  import opened Volume
  import opened Extents
  import opened Files
  import opened Tree
  import opened SlotIo
  import opened Growth
  import opened Meaning
  import opened Standing
  import opened Commits
  import opened Appending

  // ----- truncate -----------------------------------------------------------------------------

  /** The owners once the file has been cut to its first `keep` clusters. */
  ghost function Cut(nodes: Owners, id: Id, keep: nat, len: nat): Owners
    requires id in nodes && keep <= |nodes[id].ext|
  {
    nodes[id := nodes[id].(ext := nodes[id].ext[..keep], valid := len)]
  }

  lemma CutOwn(g: Geometry, fat: seq<u32>, used: set<nat>, bm: seq<nat>, nodes: Owners, id: Id, keep: nat, len: nat)
    requires OwnOk(g, fat, used, bm, nodes) && IsFile(nodes, id) && id.Child? && keep <= |nodes[id].ext|
    requires len <= keep * g.BytesPerCluster()
    ensures OwnOk(g, fat, used, bm, Cut(nodes, id, keep, len))
    ensures var cut := Cut(nodes, id, keep, len);
            Apart(cut) && id in cut && !cut[id].isDir && cut[id].ext == nodes[id].ext[..keep]
    ensures forall other, i, j :: other in Cut(nodes, id, keep, len) && keep <= i < |nodes[id].ext|
              && 0 <= j < |Cut(nodes, id, keep, len)[other].ext|
              ==> Cut(nodes, id, keep, len)[other].ext[j] != nodes[id].ext[i]
  {
    hide NodeOk;
    hide Geometry.BytesPerCluster;
    var n := nodes[id].(ext := nodes[id].ext[..keep], valid := len);
    CutNode(g, fat, used, nodes[id], keep, len);
    NotOwnDirectory(id);
    assert Child(id.dir, id.at) in nodes;
    CutApart(nodes, id, keep, len);
    OwnReplace(g, fat, used, bm, nodes, id, n);
  }

  lemma CutNode(g: Geometry, fat: seq<u32>, used: set<nat>, n: Node, keep: nat, len: nat)
    requires NodeOk(g, fat, used, n) && !n.isDir && keep <= |n.ext| && len <= keep * g.BytesPerCluster()
    ensures NodeOk(g, fat, used, n.(ext := n.ext[..keep], valid := len)) && Distinct(n.ext)
  {
  }

  /** What is cut off belongs to nobody else. */
  lemma CutApart(nodes: Owners, id: Id, keep: nat, len: nat)
    requires Apart(nodes) && id in nodes && keep <= |nodes[id].ext| && Distinct(nodes[id].ext)
    ensures forall other, i, j :: other in nodes && other != id && 0 <= i < |nodes[other].ext| && 0 <= j < keep
              ==> nodes[other].ext[i] != nodes[id].ext[..keep][j]
    ensures forall other, i, j :: other in Cut(nodes, id, keep, len) && keep <= i < |nodes[id].ext|
              && 0 <= j < |Cut(nodes, id, keep, len)[other].ext|
              ==> Cut(nodes, id, keep, len)[other].ext[j] != nodes[id].ext[i]
  {
  }

  /** Nothing but the bitmap's own bytes has changed. */
  ghost predicate OnlyBitmap(heap0: Heap, heap: Heap, bm: seq<nat>) {
    |heap| == |heap0| && forall d :: 0 <= d < |heap| && d !in bm ==> heap[d] == heap0[d]
  }

  lemma OnlyBitmapRefl(heap: Heap, bm: seq<nat>)
    ensures OnlyBitmap(heap, heap, bm)
  {
  }

  lemma OnlyBitmapTrans(heap0: Heap, heap1: Heap, heap2: Heap, bm: seq<nat>)
    requires OnlyBitmap(heap0, heap1, bm) && OnlyBitmap(heap1, heap2, bm)
    ensures OnlyBitmap(heap0, heap2, bm)
  {
  }

  /** Unlink one cluster that no owner has, and mark it free. */
  method FreeCluster(fs: FileSystem, c: nat, ghost nodes: Owners) returns (r: Result<()>)
    requires fs.Valid() && OwnOk(fs.g, fs.fat, fs.used, fs.bm, nodes) && 2 <= c < fs.g.clusterCount + 2
    requires forall other, j :: other in nodes && 0 <= j < |nodes[other].ext| ==> nodes[other].ext[j] != c
    modifies fs`clock, fs`scratch, fs`disk, fs`fat, fs`heap, fs`used, fs`free
    ensures fs.Valid() && |fs.heap| == |old(fs.heap)| && |fs.fat| == |old(fs.fat)| == fs.g.clusterCount + 2
    ensures r.Err? ==> r.error == Device
    ensures r.Ok? ==>
      && OwnOk(fs.g, fs.fat, fs.used, fs.bm, nodes)
      && fs.used == old(fs.used) - {c} && fs.fat == old(fs.fat)[c := 0]
    ensures OnlyBitmap(old(fs.heap), fs.heap, fs.bm)
    ensures Honest(fs.faulty, old(fs.clock), fs.clock, r == Err(Device))
  {
    hide FileSystem.Valid;
    hide OwnOk;
    fs.Basics();
    LooseOutside(nodes, c);
    BitmapOwned(fs.g, fs.fat, fs.used, fs.bm, nodes, c);
    OwnSetFat(fs.g, fs.fat, fs.used, fs.bm, nodes, c, 0);
    r := fs.SetFat(c, 0);
    if r.Err? { return; }
    ghost var used := fs.used;
    r := fs.SetBitmap(c, false);
    fs.Basics();
    if r.Ok? { OwnWithout(fs.g, fs.fat, used, fs.bm, nodes, c); }
  }

  lemma LooseOutside(nodes: Owners, c: nat)
    requires forall other, j :: other in nodes && 0 <= j < |nodes[other].ext| ==> nodes[other].ext[j] != c
    ensures Loose(nodes, c)
  {
  }

  lemma BitmapOwned(g: Geometry, fat: seq<u32>, used: set<nat>, bm: seq<nat>, nodes: Owners, c: nat)
    requires OwnOk(g, fat, used, bm, nodes)
    requires forall other, j :: other in nodes && 0 <= j < |nodes[other].ext| ==> nodes[other].ext[j] != c
    ensures c !in bm
  {
    assert nodes[BitmapFile].ext == bm;
  }

  lemma OwnWithout(g: Geometry, fat: seq<u32>, used: set<nat>, bm: seq<nat>, nodes: Owners, c: nat)
    requires OwnOk(g, fat, used, bm, nodes)
    requires forall other, j :: other in nodes && 0 <= j < |nodes[other].ext| ==> nodes[other].ext[j] != c
    ensures OwnOk(g, fat, used - {c}, bm, nodes)
  {
    forall id, i | id in nodes && 0 <= i < |nodes[id].ext|
      ensures nodes[id].ext[i] in used - {c}
    {
      assert NodeOk(g, fat, used, nodes[id]);
    }
    OwnRelease(g, fat, used, used - {c}, bm, nodes);
  }

  /** The clusters of an extent from index `from` on, before index `to`. */
  ghost function Clusters(ext: seq<nat>, from: nat, to: nat): set<nat>
    requires from <= to <= |ext|
  {
    set i | from <= i < to :: ext[i]
  }

  lemma ClustersMore(ext: seq<nat>, from: nat, i: nat, used: set<nat>)
    requires from <= i < |ext|
    ensures used - Clusters(ext, from, i) - {ext[i]} == used - Clusters(ext, from, i + 1)
  {
    assert Clusters(ext, from, i + 1) == Clusters(ext, from, i) + {ext[i]};
  }

  /** Nobody has the clusters of the extent from index `from` on. */
  ghost predicate Unowned(nodes: Owners, ext: seq<nat>, from: nat) {
    forall other, i, j :: other in nodes && from <= i < |ext| && 0 <= j < |nodes[other].ext| ==>
      nodes[other].ext[j] != ext[i]
  }

  lemma UnownedAt(nodes: Owners, ext: seq<nat>, from: nat, i: nat)
    requires Unowned(nodes, ext, from) && from <= i < |ext|
    ensures forall other, j :: other in nodes && 0 <= j < |nodes[other].ext| ==> nodes[other].ext[j] != ext[i]
  {
  }

  /** Free cluster `i` of an extent, and say which one is next. */
  method FreeNext(fs: FileSystem, noFatChain: bool, cluster: nat, ghost ext: seq<nat>, ghost i: nat,
                  ghost nodes: Owners)
    returns (r: Result<nat>)
    requires fs.Valid() && OwnOk(fs.g, fs.fat, fs.used, fs.bm, nodes)
    requires InHeap(fs.g, ext) && Distinct(ext) && i < |ext| && cluster == ext[i]
    requires GoesOn(fs.fat, ext, i, noFatChain)
    requires forall other, j :: other in nodes && 0 <= j < |nodes[other].ext| ==> nodes[other].ext[j] != ext[i]
    modifies fs`clock, fs`scratch, fs`disk, fs`fat, fs`heap, fs`used, fs`free
    ensures fs.Valid() && OnlyBitmap(old(fs.heap), fs.heap, fs.bm) && |fs.heap| == |old(fs.heap)|
    ensures r.Err? ==> r.error == Device
    ensures Honest(fs.faulty, old(fs.clock), fs.clock, r.Err?)
    ensures r.Ok? ==>
      && OwnOk(fs.g, fs.fat, fs.used, fs.bm, nodes) && fs.used == old(fs.used) - {ext[i]}
      && GoesOn(fs.fat, ext, i + 1, noFatChain) && (i + 1 < |ext| ==> r.value == ext[i + 1])
      && ext[i] < |old(fs.fat)| && fs.fat == old(fs.fat)[ext[i] := 0]
  {
    hide FileSystem.Valid;
    hide OwnOk;
    hide Distinct;
    hide GoesOn;
    hide HeapShape;
    hide OnlyBitmap;
    hide Geometry.WellFormed;
    fs.Basics();
    ghost var heap := fs.heap;
    OnlyBitmapRefl(heap, fs.bm);
    TailNext(fs.fat, ext, i, noFatChain);
    var next := cluster + 1;
    if !noFatChain {
      var link := fs.NextCluster(cluster);
      if link.Err? { return Err(link.error); }
      next := link.value;
    }
    var freed := FreeCluster(fs, cluster, nodes);
    if freed.Err? { return Err(freed.error); }
    return Ok(next);
  }

  /** Free the clusters of an extent from index `from` to its end, following the
      FAT ahead of the unlinking. */
  method FreeTail(fs: FileSystem, noFatChain: bool, start: nat, from: nat, to: nat, ghost ext: seq<nat>,
                  ghost nodes: Owners)
    returns (r: Result<()>)
    requires fs.Valid() && OwnOk(fs.g, fs.fat, fs.used, fs.bm, nodes)
    requires InHeap(fs.g, ext) && Distinct(ext) && from < to == |ext| && start == ext[from]
    requires if noFatChain then Contiguous(ext) else Links(fs.fat, ext[from..])
    requires Unowned(nodes, ext, from)
    modifies fs`clock, fs`scratch, fs`disk, fs`fat, fs`heap, fs`used, fs`free
    ensures fs.Valid() && |fs.heap| == |old(fs.heap)|
    ensures r.Err? ==> r.error == Device
    ensures r.Ok? ==>
      && OwnOk(fs.g, fs.fat, fs.used, fs.bm, nodes)
      && fs.used == old(fs.used) - Clusters(ext, from, |ext|)
      && Zeroed(old(fs.fat), fs.fat, ext, from, |ext|)
    ensures OnlyBitmap(old(fs.heap), fs.heap, fs.bm)
    ensures Honest(fs.faulty, old(fs.clock), fs.clock, r == Err(Device))
  {
    hide FileSystem.Valid;
    hide OwnOk;
    hide Zeroed;
    hide Clusters;
    hide Distinct;
    hide Contiguous;
    hide GoesOn;
    hide Links;
    hide HeapShape;
    hide Unowned;
    hide InHeap;
    hide OnlyBitmap;
    hide Geometry.WellFormed;
    fs.Basics();
    var cluster := start;
    ghost var used, heap0, fat0 := fs.used, fs.heap, fs.fat;
    OnlyBitmapRefl(heap0, fs.bm);
    NoClusters(ext, from, used);
    ZeroedNone(fat0, ext, from);
    TailGoesOn(fs.fat, ext, from, noFatChain);
    for i := from to to
      invariant Honest(fs.faulty, old(fs.clock), fs.clock, false)
      invariant fs.Valid() && OwnOk(fs.g, fs.fat, fs.used, fs.bm, nodes)
      invariant |fs.heap| == |heap0|
      invariant i < |ext| ==> cluster == ext[i]
      invariant fs.used == used - Clusters(ext, from, i)
      invariant GoesOn(fs.fat, ext, i, noFatChain)
      invariant OnlyBitmap(heap0, fs.heap, fs.bm)
      invariant Zeroed(fat0, fs.fat, ext, from, i)
    {
      ghost var heap, fat := fs.heap, fs.fat;
      UnownedAt(nodes, ext, from, i);
      var next := FreeNext(fs, noFatChain, cluster, ext, i, nodes);
      OnlyBitmapTrans(heap0, heap, fs.heap, fs.bm);
      if next.Err? { return Err(next.error); }
      ClustersMore(ext, from, i, used);
      ZeroedMore(fat0, fat, ext, from, i);
      cluster := next.value;
    }
    return Ok(());
  }

  /** The FAT words of clusters `from` to `to` of the extent are 0 now, and no other
      word has changed. */
  ghost predicate Zeroed(fat0: seq<u32>, fat: seq<u32>, ext: seq<nat>, from: nat, to: nat) {
    && from <= to <= |ext| && |fat| == |fat0|
    && forall c :: 0 <= c < |fat| ==> fat[c] == if c in ext[from..to] then 0 else fat0[c]
  }

  lemma ZeroedNone(fat: seq<u32>, ext: seq<nat>, from: nat)
    requires from <= |ext|
    ensures Zeroed(fat, fat, ext, from, from)
  {
  }

  lemma ZeroedMore(fat0: seq<u32>, fat: seq<u32>, ext: seq<nat>, from: nat, i: nat)
    requires Zeroed(fat0, fat, ext, from, i) && i < |ext| && ext[i] < |fat|
    ensures Zeroed(fat0, fat[ext[i] := 0], ext, from, i + 1)
  {
    assert ext[from..i + 1] == ext[from..i] + [ext[i]];
  }

  /** The file has been cut to its first `keep` clusters: the chain ends behind
      them, the FAT words of the others are 0, and no other word has changed. */
  ghost predicate Unlinked(fat0: seq<u32>, fat: seq<u32>, ext: seq<nat>, keep: nat) {
    && keep <= |ext| && |fat| == |fat0|
    && forall c :: 0 <= c < |fat| ==>
         fat[c] == if c in ext[keep..] then 0 else if keep > 0 && c == ext[keep - 1] then EOC else fat0[c]
  }

  lemma UnlinkedBy(fat0: seq<u32>, fat: seq<u32>, ext: seq<nat>, keep: nat)
    requires keep <= |ext| && (keep > 0 ==> ext[keep - 1] < |fat0|)
    requires Zeroed(if keep == 0 then fat0 else fat0[ext[keep - 1] := EOC], fat, ext, keep, |ext|)
    ensures Unlinked(fat0, fat, ext, keep)
  {
    assert ext[keep..|ext|] == ext[keep..];
  }

  /** From index `i` on, each cluster leads to the next. */
  ghost predicate GoesOn(fat: seq<u32>, ext: seq<nat>, i: nat, noFatChain: bool) {
    if noFatChain then Contiguous(ext)
    else forall j :: i <= j && j + 1 < |ext| ==> ext[j] < |fat| && fat[ext[j]] == ext[j + 1]
  }

  lemma TailGoesOn(fat: seq<u32>, ext: seq<nat>, from: nat, noFatChain: bool)
    requires from < |ext| && if noFatChain then Contiguous(ext) else Links(fat, ext[from..])
    ensures GoesOn(fat, ext, from, noFatChain)
  {
    if !noFatChain {
      forall j | from <= j && j + 1 < |ext|
        ensures ext[j] < |fat| && fat[ext[j]] == ext[j + 1]
      {
        assert ext[from..][j - from] == ext[j] && ext[from..][j - from + 1] == ext[j + 1];
      }
    }
  }

  /** Unlinking one cluster leaves the rest of the tail alone. */
  lemma TailNext(fat: seq<u32>, ext: seq<nat>, i: nat, noFatChain: bool)
    requires GoesOn(fat, ext, i, noFatChain) && i < |ext| && Distinct(ext) && ext[i] < |fat|
    ensures i + 1 < |ext| ==> ext[i + 1] == if noFatChain then ext[i] + 1 else fat[ext[i]]
    ensures GoesOn(fat[ext[i] := 0], ext, i + 1, noFatChain)
  {
  }

  lemma NoClusters(ext: seq<nat>, from: nat, used: set<nat>)
    requires from <= |ext|
    ensures used - Clusters(ext, from, from) == used
  {
  }

  /** Give back every cluster of the file from index `keep` on and end the rest
      of the chain; the directory entry still tells the old story. */
  method FreeBeyond(fs: FileSystem, file: File, keep: nat, clusters: nat, ghost len: nat) returns (r: Result<()>)
    requires Inv(fs) && Holds(fs, file)
    requires keep < clusters == |file.ext| && len <= keep * fs.g.BytesPerCluster()
    modifies fs`clock, fs`scratch, fs`disk, fs`fat, fs`heap, fs`used, fs`free
    ensures fs.Valid() && |fs.heap| == |old(fs.heap)|
    ensures r.Err? ==> r.error == Device
    ensures r.Ok? ==>
      && OwnOk(fs.g, fs.fat, fs.used, fs.bm, Cut(fs.nodes, file.id, keep, len))
      && fs.used == old(fs.used) - Clusters(file.ext, keep, |file.ext|)
      && Unlinked(old(fs.fat), fs.fat, file.ext, keep)
    ensures forall d :: 0 <= d < |fs.heap| && d !in fs.bm ==> fs.heap[d] == old(fs.heap)[d]
    ensures Honest(fs.faulty, old(fs.clock), fs.clock, r == Err(Device))
  {
    hide Failures;
    hide FileSystem.Valid;
    hide OwnOk;
    hide TreeOk;
    hide Zeroed;
    hide Unlinked;
    hide Clusters;
    hide Ahead;
    hide LocAt;
    hide Shape;
    hide Links;
    hide Contiguous;
    hide Distinct;
    hide Placed;
    hide Cut;
    hide Loose;
    HoldsParts(fs, file);
    ShapeChain(fs, file);
    ghost var fat := fs.fat;
    ghost var ext, id, nodes' := file.ext, file.id, Cut(fs.nodes, file.id, keep, len);
    CutOwn(fs.g, fs.fat, fs.used, fs.bm, fs.nodes, id, keep, len);
    if keep == 0 {
      assert ext[0..] == ext;
      r := FreeTail(fs, file.noFatChain, file.firstCluster, 0, clusters, ext, nodes');
    } else {
      var last, cluster;
      r, last, cluster := CutPoint(fs, file, keep);
      if r.Err? { return; }
      LooseEnd(nodes', id, ext, keep);
      NotInBitmapOf(fs, id, file.State(), ext, keep - 1);
      TailAfterCut(fat, ext, keep, file.noFatChain);
      r := LinkUp(fs, last, EOC, nodes');
      if r.Err? { return; }
      r := FreeTail(fs, file.noFatChain, cluster, keep, clusters, ext, nodes');
    }
    if r.Ok? { UnlinkedBy(fat, fs.fat, ext, keep); }
  }

  /** The clusters behind a handle. */
  lemma ShapeChain(fs: FileSystem, file: File)
    requires fs.Valid() && |fs.fat| == fs.g.clusterCount + 2 && Shape(fs.g, fs.fat, file.State(), file.ext)
    requires file.ext != []
    ensures InHeap(fs.g, file.ext) && Distinct(file.ext) && file.firstCluster == file.ext[0]
    ensures if file.noFatChain then Contiguous(file.ext) else Links(fs.fat, file.ext)
    ensures forall i :: 0 <= i < |file.ext| ==> file.ext[i] < |fs.fat|
    ensures fs.g.clusterCount + 2 <= 0xffff_fff7
  {
    hide FileSystem.Valid;
    fs.Basics();
  }

  /** Ending the kept part leaves the links of the rest alone. */
  lemma TailAfterCut(fat: seq<u32>, ext: seq<nat>, keep: nat, noFatChain: bool)
    requires 0 < keep < |ext| && Distinct(ext) && forall i :: 0 <= i < |ext| ==> ext[i] < |fat|
    requires if noFatChain then Contiguous(ext) else Links(fat, ext)
    ensures if noFatChain then Contiguous(ext) else Links(fat[ext[keep - 1] := EOC], ext[keep..])
  {
    if !noFatChain {
      var tail, fat' := ext[keep..], fat[ext[keep - 1] := EOC];
      forall i | 0 <= i && i + 1 < |tail|
        ensures tail[i] < |fat'| && fat'[tail[i]] == tail[i + 1]
      {
        assert tail[i] == ext[keep + i] && tail[i + 1] == ext[keep + i + 1];
      }
    }
  }

  /** The last cluster to keep and the first one to give back. */
  method CutPoint(fs: FileSystem, file: File, keep: nat) returns (r: Result<()>, last: nat, cluster: nat)
    requires fs.Valid() && Shape(fs.g, fs.fat, file.State(), file.ext) && 0 < keep < |file.ext|
    modifies fs`clock, fs`scratch
    ensures fs.Valid()
    ensures r.Err? ==> r.error == Device
    ensures r.Ok? ==> last == file.ext[keep - 1] && cluster == file.ext[keep]
    ensures Honest(fs.faulty, old(fs.clock), fs.clock, r == Err(Device))
  {
    hide FileSystem.Valid;
    fs.Basics();
    last, cluster := 0, 0;
    if file.noFatChain {
      last := file.firstCluster + keep - 1;
      cluster := last + 1;
      return Ok(()), last, cluster;
    }
    WalkFollowsLinks(fs.g, fs.fat, file.ext, keep - 1);
    var at := fs.ClusterAt(file.firstCluster, keep - 1);
    if at.Err? { return Err(at.error), last, cluster; }
    last := at.value;
    var next := fs.NextCluster(last);
    if next.Err? { return Err(next.error), last, cluster; }
    cluster := next.value;
    assert file.ext[keep - 1 + 1] == file.ext[keep];
    return Ok(()), last, cluster;
  }

  lemma LooseEnd(nodes: Owners, id: Id, ext: seq<nat>, keep: nat)
    requires Apart(nodes) && id in nodes && !nodes[id].isDir && 0 < keep <= |ext| && nodes[id].ext == ext[..keep]
    requires Distinct(ext)
    ensures Loose(nodes, ext[keep - 1])
  {
    assert nodes[id].ext[keep - 1] == ext[keep - 1];
  }

  /** The cut file's bytes are a prefix of the old ones. */
  lemma CutContent(g: Geometry, heap: Heap, heap': Heap, bm: seq<nat>, n: Node, n': Node, keep: nat)
    requires HeapShape(g, heap) && HeapShape(g, heap') && InHeap(g, n.ext) && keep <= |n.ext|
    requires n'.ext == n.ext[..keep] && n'.valid <= n.valid <= |n.ext| * g.BytesPerCluster()
    requires n'.valid <= keep * g.BytesPerCluster()
    requires forall i :: 0 <= i < |n.ext| ==> n.ext[i] !in bm
    requires forall d :: 0 <= d < |heap| && d !in bm ==> heap'[d] == heap[d]
    ensures n'.valid <= |Content(heap, n)| && Content(heap', n') == Content(heap, n)[..n'.valid]
  {
    RecordedPrefix(g, heap, n, n.ext);
    RecordedPrefix(g, heap, n', n.ext);
    FlatFrame(heap, heap', n'.ext);
    var bytes := Flat(heap, n.ext);
    assert bytes[..n.valid][..n'.valid] == bytes[..n'.valid];
  }

  lemma KeepCount(len: nat, n: nat, cb: nat)
    requires cb > 0 && len <= n * cb
    ensures DivCeil(len, cb) <= n && len <= DivCeil(len, cb) * cb && DivCeil(n * cb, cb) == n
    ensures (len == 0 ==> DivCeil(len, cb) == 0) && (n == 0 <==> n * cb == 0)
  {
    CeilCovers(len, cb, n);
    CeilCovers(len, cb, DivCeil(len, cb));
    CeilCovers(n * cb, cb, n);
    CeilCovers(n * cb, cb, DivCeil(n * cb, cb));
    if n > 0 { MulMonotone(1, n, cb); }
  }

  /** Facts about a handle that truncation needs before it frees anything. */
  lemma TruncateReady(fs: FileSystem, file: File, len: nat, keep: nat)
    requires Inv(fs) && Holds(fs, file) && len <= file.validLength && fs.g.BytesPerCluster() > 0
    requires keep == DivCeil(len, fs.g.BytesPerCluster())
    ensures keep <= |file.ext| && len <= keep * fs.g.BytesPerCluster()
    ensures DivCeil(file.dataLength, fs.g.BytesPerCluster()) == |file.ext|
    ensures (file.dataLength == 0 <==> |file.ext| == 0)
    ensures file.id in fs.nodes && OwnOk(fs.g, fs.fat, fs.used, fs.bm, Cut(fs.nodes, file.id, keep, len))
  {
    hide Says;
    assert file.dataLength == |file.ext| * fs.g.BytesPerCluster();
    KeepCount(file.dataLength, |file.ext|, fs.g.BytesPerCluster());
    KeepCount(len, |file.ext|, fs.g.BytesPerCluster());
    CutOwn(fs.g, fs.fat, fs.used, fs.bm, fs.nodes, file.id, keep, len);
  }

  /** The state of the handle after truncation. */
  ghost function Shortened(g: Geometry, s: FileState, keep: nat, clusters: nat, len: nat): FileState {
    var t := s.(validLength := len, position := Min(s.position, len));
    if keep < clusters then
      t.(firstCluster := if keep == 0 then 0 else s.firstCluster, dataLength := keep * g.BytesPerCluster(),
         cachedIndex := None)
    else t
  }

  /** The shortened handle fits the cut extent. */
  lemma ShortenedShape(g: Geometry, fat: seq<u32>, used: set<nat>, fat0: seq<u32>, s0: FileState, ext0: seq<nat>,
                       n': Node, keep: nat, len: nat)
    requires |fat| == |fat0| == g.clusterCount + 2 && Shape(g, fat0, s0, ext0) && NodeOk(g, fat, used, n')
    requires keep <= |ext0| && len <= s0.validLength && len <= keep * g.BytesPerCluster()
    requires n'.ext == ext0[..keep] && n'.linked == !s0.noFatChain
    ensures Shape(g, fat, Shortened(g, s0, keep, |ext0|, len), ext0[..keep])
  {
    hide Geometry.BytesPerCluster;
    if keep == |ext0| { assert ext0[..keep] == ext0; }
    MulMonotone(keep, |ext0|, g.BytesPerCluster());
  }

  /** After the freeing, the recorded volume means what it meant, and the cut
      file's bytes are a prefix of what they were. */
  lemma FreedMeaning(fs: FileSystem, heap0: Heap, nodes: Owners, id: Id, n': Node, keep: nat)
    requires fs.Valid() && TreeOk(fs.g, heap0, nodes) && IsFile(nodes, id)
    requires BitmapFile in nodes && !nodes[BitmapFile].isDir
    requires InHeap(fs.g, nodes[id].ext) && keep <= |nodes[id].ext| && n'.ext == nodes[id].ext[..keep]
    requires n'.valid <= nodes[id].valid <= |nodes[id].ext| * fs.g.BytesPerCluster()
    requires n'.valid <= keep * fs.g.BytesPerCluster()
    requires |fs.heap| == |heap0| && forall d :: 0 <= d < |heap0| && d !in fs.bm ==> fs.heap[d] == heap0[d]
    requires forall other, i :: other in nodes && other != BitmapFile && 0 <= i < |nodes[other].ext|
               ==> nodes[other].ext[i] !in fs.bm
    ensures TreeOk(fs.g, fs.heap, nodes)
    ensures Contents(fs.heap, nodes) == Contents(heap0, nodes)
    ensures n'.valid <= |Content(heap0, nodes[id])|
    ensures Content(fs.heap, n') == Content(heap0, nodes[id])[..n'.valid]
    ensures DirsStay(heap0, nodes, fs.heap, nodes)
  {
    hide FileSystem.Valid;
    hide TreeOk;
    hide TreeRecords;
    hide Contents;
    hide Content;
    hide DirsStay;
    hide Geometry.BytesPerCluster;
    fs.Basics();
    TreeShape(fs.g, heap0, nodes);
    CutContent(fs.g, heap0, fs.heap, fs.bm, nodes[id], n', keep);
    KeptTree(fs.g, heap0, fs.heap, nodes, BitmapFile);
    KeptContents(heap0, fs.heap, nodes, BitmapFile);
    OthersKeepDirs(heap0, fs.heap, nodes, BitmapFile);
    OkRecords(fs.g, heap0, nodes);
    KeptStays(fs.g, heap0, fs.heap, nodes);
  }

  /** The node a shortened handle will record is the cut one. */
  lemma CutRecorded(fs: FileSystem, file: File, s0: FileState, ext0: seq<nat>, fat0: seq<u32>, keep: nat, len: nat)
    requires fs.Valid() && |fat0| == fs.g.clusterCount + 2 && Shape(fs.g, fat0, s0, ext0)
    requires keep <= |ext0| && len <= s0.validLength && len <= keep * fs.g.BytesPerCluster()
    requires file.id in fs.nodes
    requires fs.nodes[file.id] == Node(ext0, !s0.noFatChain, s0.validLength, false, file.entryCount)
    requires OwnOk(fs.g, fs.fat, fs.used, fs.bm, Cut(fs.nodes, file.id, keep, len))
    requires file.State() == Shortened(fs.g, s0, keep, |ext0|, len) && file.ext == ext0[..keep]
    ensures |fs.fat| == fs.g.clusterCount + 2 && Shape(fs.g, fs.fat, file.State(), file.ext)
    ensures Committed(fs.nodes, file) == Cut(fs.nodes, file.id, keep, len)
    ensures InHeap(fs.g, ext0) && s0.validLength <= |ext0| * fs.g.BytesPerCluster()
  {
    hide FileSystem.Valid;
    hide Geometry.BytesPerCluster;
    fs.Basics();
    var nodes' := Cut(fs.nodes, file.id, keep, len);
    assert NodeOk(fs.g, fs.fat, fs.used, nodes'[file.id]);
    ShortenedShape(fs.g, fs.fat, fs.used, fat0, s0, ext0, nodes'[file.id], keep, len);
  }

  lemma TreeShape(g: Geometry, heap: Heap, nodes: Owners)
    requires TreeOk(g, heap, nodes)
    ensures HeapShape(g, heap)
  {
  }

  lemma OutsideBitmapAll(g: Geometry, fat: seq<u32>, used: set<nat>, bm: seq<nat>, nodes: Owners)
    requires OwnOk(g, fat, used, bm, nodes)
    ensures forall other, i :: other in nodes && other != BitmapFile && 0 <= i < |nodes[other].ext| ==>
      nodes[other].ext[i] !in bm
  {
    forall other, i | other in nodes && other != BitmapFile && 0 <= i < |nodes[other].ext|
      ensures nodes[other].ext[i] !in bm
    {
      ApartExtents(nodes, other, BitmapFile);
    }
  }

  /** Free what lies beyond the new length and shorten the handle; the directory
      entry still tells the old story. */
  method CutBack(fs: FileSystem, file: File, keep: nat, clusters: nat, len: nat) returns (r: Result<()>)
    requires Inv(fs) && Holds(fs, file)
    requires keep <= clusters == |file.ext| && len <= keep * fs.g.BytesPerCluster()
    requires OwnOk(fs.g, fs.fat, fs.used, fs.bm, Cut(fs.nodes, file.id, keep, len))
    modifies fs`clock, fs`scratch, fs`disk, fs`fat, fs`heap, fs`used, fs`free, file
    ensures fs.Valid() && |fs.heap| == |old(fs.heap)|
    ensures r.Err? ==> r.error == Device
    ensures r.Ok? ==>
      && OwnOk(fs.g, fs.fat, fs.used, fs.bm, Cut(fs.nodes, file.id, keep, len))
      && fs.used == old(fs.used) - Clusters(old(file.ext), keep, |old(file.ext)|)
      && (if keep < clusters then Unlinked(old(fs.fat), fs.fat, old(file.ext), keep) else fs.fat == old(fs.fat))
      && file.State() == Shortened(fs.g, old(file.State()), keep, clusters, len) && file.ext == old(file.ext)[..keep]
    ensures forall d :: 0 <= d < |fs.heap| && d !in fs.bm ==> fs.heap[d] == old(fs.heap)[d]
    ensures Honest(fs.faulty, old(fs.clock), fs.clock, r == Err(Device))
  {
    hide Failures;
    hide FileSystem.Valid;
    hide OwnOk;
    hide TreeOk;
    hide Unlinked;
    hide Clusters;
    hide LocAt;
    HoldsParts(fs, file);
    ghost var ext0, used0 := file.ext, fs.used;
    var clusterBytes := fs.g.BytesPerCluster();
    if keep < clusters {
      r := FreeBeyond(fs, file, keep, clusters, len);
      if r.Err? { return; }
      if keep == 0 { file.firstCluster := 0; }
      file.dataLength := keep * clusterBytes;
      file.cachedIndex := None;
    } else {
      NothingBeyond(ext0, used0);
    }
    file.ext := ext0[..keep];
    file.validLength := len;
    file.position := Min(file.position, len);
    return Ok(());
  }

  /** The extent has been cut to what `len` bytes need, and exactly the clusters
      beyond have been given back. */
  ghost predicate KeptFirst(g: Geometry, ext0: seq<nat>, ext: seq<nat>, used0: set<nat>, used: set<nat>, len: nat) {
    && g.BytesPerCluster() > 0 && DivCeil(len, g.BytesPerCluster()) <= |ext0|
    && ext == ext0[..DivCeil(len, g.BytesPerCluster())]
    && used == used0 - Clusters(ext0, |ext|, |ext0|)
  }

  /** The chain ends at the last cluster that is kept, the FAT words of the clusters
      given back are 0, and no other word has changed. */
  ghost predicate ChainCut(fat0: seq<u32>, fat: seq<u32>, ext0: seq<nat>, ext: seq<nat>) {
    && |fat| == |fat0| && ext <= ext0 && (forall i :: 0 <= i < |ext0| ==> ext0[i] < |fat|)
    && (ext != [] ==> fat[ext[|ext| - 1]] == 0xffff_ffff)
    && (forall i :: |ext| <= i < |ext0| ==> fat[ext0[i]] == 0)
    && forall c :: 0 <= c < |fat| && c !in ext0[|ext|..] && (ext == [] || c != ext[|ext| - 1]) ==> fat[c] == fat0[c]
  }

  /** Shorten a file: the volume means the same except that the file keeps only
      its first `len` bytes, and exactly the clusters beyond them are free again;
      the chain ends where the file now does. */
  method Truncate(fs: FileSystem, file: File, len: nat) returns (r: Result<()>)
    requires Inv(fs) && Holds(fs, file)
    modifies fs`clock, fs`scratch, fs`disk, fs`fat, fs`heap, fs`used, fs`free, fs`nodes, file
    ensures fs.Valid()
    ensures len > old(file.validLength) ==>
      && r == Err(EndOfFile) && Inv(fs) && Holds(fs, file) && file.State() == old(file.State())
      && file.ext == old(file.ext)
      && fs.heap == old(fs.heap) && fs.nodes == old(fs.nodes) && fs.used == old(fs.used) && fs.fat == old(fs.fat)
    ensures r.Err? ==> r.error in {EndOfFile, Device} && (r.error == EndOfFile ==> len > old(file.validLength))
    ensures r.Ok? ==>
      && Inv(fs) && Holds(fs, file) && fs.nodes == Committed(old(fs.nodes), file)
      && KeptFirst(fs.g, old(file.ext), file.ext, old(fs.used), fs.used, len)
      && file.position == Min(old(file.position), len) && file.noFatChain == old(file.noFatChain)
      && len <= |old(Content(fs.heap, fs.nodes[file.id]))|
      && Contents(fs.heap, fs.nodes) ==
           old(Contents(fs.heap, fs.nodes))[file.id := old(Content(fs.heap, fs.nodes[file.id]))[..len]]
      && DirsStay(old(fs.heap), old(fs.nodes), fs.heap, fs.nodes)
    ensures r.Ok? ==>
      if |file.ext| == |old(file.ext)| then fs.fat == old(fs.fat)
      else ChainCut(old(fs.fat), fs.fat, old(file.ext), file.ext)
    ensures Honest(fs.faulty, old(fs.clock), fs.clock, r == Err(Device))
  {
    hide Failures;
    hide FileSystem.Valid;
    hide OwnOk;
    hide TreeOk;
    hide Contents;
    hide Content;
    hide Shape;
    hide ChainCut;
    hide Unlinked;
    hide Clusters;
    hide LocAt;
    hide DirsStay;
    HoldsParts(fs, file);
    if len > file.validLength { return Err(EndOfFile); }
    fs.Basics();
    var clusterBytes := fs.g.BytesPerCluster();
    var keep := if len == 0 then 0 else DivCeil(len, clusterBytes);
    var clusters := if file.dataLength == 0 then 0 else DivCeil(file.dataLength, clusterBytes);
    TruncateReady(fs, file, len, keep);
    OutsideBitmapAll(fs.g, fs.fat, fs.used, fs.bm, fs.nodes);
    ghost var heap0, fat0, s0, ext0 := fs.heap, fs.fat, file.State(), file.ext;
    r := CutBack(fs, file, keep, clusters, len);
    if r.Err? { return; }
    if keep < clusters { UnlinkedTells(fs.g, fat0, fs.fat, s0, ext0, keep); }
    CutRecorded(fs, file, s0, ext0, fat0, keep, len);
    BitmapNotDirectory(fs.g, fs.fat, fs.used, fs.bm, Cut(fs.nodes, file.id, keep, len));
    FreedMeaning(fs, heap0, fs.nodes, file.id, Recorded(file.State(), file.ext, file.entryCount), keep);
    ghost var torn, heap1, nodes := false, fs.heap, fs.nodes;
    r, torn := Commit(fs, file);
    if r.Ok? { DirsStayTrans(heap0, nodes, heap1, nodes, fs.heap, fs.nodes); }
  }

  lemma UnlinkedTells(g: Geometry, fat0: seq<u32>, fat: seq<u32>, s0: FileState, ext0: seq<nat>, keep: nat)
    requires Unlinked(fat0, fat, ext0, keep) && |fat0| == g.clusterCount + 2 && Shape(g, fat0, s0, ext0)
    ensures ChainCut(fat0, fat, ext0, ext0[..keep])
  {
    if keep > 0 {
      assert ext0[keep - 1] !in ext0[keep..];
    }
    forall i | keep <= i < |ext0|
      ensures ext0[i] in ext0[keep..]
    {
      assert ext0[keep..][i - keep] == ext0[i];
    }
  }

  lemma NothingBeyond(ext: seq<nat>, used: set<nat>)
    ensures used - Clusters(ext, |ext|, |ext|) == used
  {
  }
}
