/** The volume invariant: who owns which cluster, and what the directory slots
    say about every owner. */
module Tree {
  import opened Words
  import opened Geometry
  import opened Views
  import opened Volume
  import opened Extents
  import opened EntrySets

  // ----- ownership -----------------------------------------------------------------------

  /** The FAT chain of a directory ends where its extent does. */
  ghost predicate Ended(fat: seq<u32>, ext: seq<nat>) {
    ext != [] && ext[|ext| - 1] < |fat| && fat[ext[|ext| - 1]] >= EOC_MIN
  }

  ghost predicate NodeOk(g: Geometry, fat: seq<u32>, used: set<nat>, n: Node) {
    && InHeap(g, n.ext) && Distinct(n.ext)
    && (forall i :: 0 <= i < |n.ext| ==> n.ext[i] in used)
    && (if n.linked then Links(fat, n.ext) else Contiguous(n.ext))
    && n.valid <= |n.ext| * g.BytesPerCluster()
    && (n.isDir ==> n.linked && n.valid == |n.ext| * g.BytesPerCluster() && Ended(fat, n.ext))
  }

  /** No cluster has two owners. */
  ghost predicate Apart(nodes: Owners) {
    forall a, b, i, j ::
      a in nodes && b in nodes && a != b && 0 <= i < |nodes[a].ext| && 0 <= j < |nodes[b].ext|
      ==> nodes[a].ext[i] != nodes[b].ext[j]
  }

  /** The fixed owners are there, and every child hangs in a directory. */
  ghost predicate Rooted(g: Geometry, bm: seq<nat>, nodes: Owners) {
    && Root in nodes && nodes[Root].isDir && nodes[Root].ext != [] && nodes[Root].ext[0] == g.rootCluster
    && BitmapFile in nodes && !nodes[BitmapFile].isDir && nodes[BitmapFile].ext == bm && nodes[BitmapFile].linked
    && UpcaseFile in nodes && !nodes[UpcaseFile].isDir && nodes[UpcaseFile].linked
    && (forall d, k: nat :: Child(d, k) in nodes ==> d in nodes && nodes[d].isDir)
  }

  ghost predicate OwnOk(g: Geometry, fat: seq<u32>, used: set<nat>, bm: seq<nat>, nodes: Owners) {
    && Rooted(g, bm, nodes)
    && (forall id :: id in nodes ==> NodeOk(g, fat, used, nodes[id]))
    && Apart(nodes)
  }

  /** Rewriting the FAT slot of `c` breaks no owner's internal link, and no
      directory's end. */
  ghost predicate Loose(nodes: Owners, c: nat) {
    forall id, i :: id in nodes && nodes[id].linked && 0 <= i < |nodes[id].ext|
      && (i + 1 < |nodes[id].ext| || nodes[id].isDir)
      ==> nodes[id].ext[i] != c
  }

  lemma OwnSetFat(g: Geometry, fat: seq<u32>, used: set<nat>, bm: seq<nat>, nodes: Owners, c: nat, v: u32)
    requires OwnOk(g, fat, used, bm, nodes) && Loose(nodes, c) && c < |fat|
    ensures OwnOk(g, fat[c := v], used, bm, nodes)
  {
    forall id | id in nodes
      ensures NodeOk(g, fat[c := v], used, nodes[id])
    {
      assert NodeOk(g, fat, used, nodes[id]);
    }
  }

  lemma OwnAllocate(g: Geometry, fat: seq<u32>, used: set<nat>, bm: seq<nat>, nodes: Owners, c: nat, v: u32)
    requires OwnOk(g, fat, used, bm, nodes) && c !in used && c < |fat|
    ensures OwnOk(g, fat[c := v], used + {c}, bm, nodes) && Loose(nodes, c)
  {
    FreeIsLoose(g, fat, used, bm, nodes, c);
    OwnSetFat(g, fat, used, bm, nodes, c, v);
    OwnMoreUsed(g, fat[c := v], used, used + {c}, bm, nodes);
  }

  lemma FreeIsLoose(g: Geometry, fat: seq<u32>, used: set<nat>, bm: seq<nat>, nodes: Owners, c: nat)
    requires OwnOk(g, fat, used, bm, nodes) && c !in used
    ensures Loose(nodes, c)
    ensures forall id, i :: id in nodes && 0 <= i < |nodes[id].ext| ==> nodes[id].ext[i] != c
  {
    forall id, i | id in nodes && 0 <= i < |nodes[id].ext|
      ensures nodes[id].ext[i] != c
    {
      assert NodeOk(g, fat, used, nodes[id]);
    }
  }

  lemma OwnMoreUsed(g: Geometry, fat: seq<u32>, used: set<nat>, used': set<nat>, bm: seq<nat>, nodes: Owners)
    requires OwnOk(g, fat, used, bm, nodes) && used <= used'
    ensures OwnOk(g, fat, used', bm, nodes)
  {
    forall id | id in nodes
      ensures NodeOk(g, fat, used', nodes[id])
    {
      assert NodeOk(g, fat, used, nodes[id]);
    }
  }

  /** Giving back clusters that no owner has. */
  lemma OwnRelease(g: Geometry, fat: seq<u32>, used: set<nat>, used': set<nat>, bm: seq<nat>, nodes: Owners)
    requires OwnOk(g, fat, used, bm, nodes)
    requires forall id, i :: id in nodes && 0 <= i < |nodes[id].ext| ==> nodes[id].ext[i] in used'
    ensures OwnOk(g, fat, used', bm, nodes)
  {
    forall id | id in nodes
      ensures NodeOk(g, fat, used', nodes[id])
    {
      assert NodeOk(g, fat, used, nodes[id]);
    }
  }

  /** Replacing one owner's record by one whose clusters nobody else has. */
  lemma OwnReplace(g: Geometry, fat: seq<u32>, used: set<nat>, bm: seq<nat>, nodes: Owners, id: Id, n: Node)
    requires OwnOk(g, fat, used, bm, nodes) && NodeOk(g, fat, used, n)
    requires id.Child? && id.dir in nodes && nodes[id.dir].isDir && id.dir != id
    requires id in nodes ==> nodes[id].isDir == n.isDir
    requires forall other, i, j ::
      other in nodes && other != id && 0 <= i < |nodes[other].ext| && 0 <= j < |n.ext| ==>
        nodes[other].ext[i] != n.ext[j]
    ensures OwnOk(g, fat, used, bm, nodes[id := n])
  {
    hide NodeOk;
    hide Apart;
    var nodes' := nodes[id := n];
    ApartReplace(nodes, id, n);
    assert NodeOk(g, fat, used, n);
    forall d, k: nat | Child(d, k) in nodes'
      ensures d in nodes' && nodes'[d].isDir
    {
      if Child(d, k) != id { assert Child(d, k) in nodes; }
    }
  }

  lemma ApartReplace(nodes: Owners, id: Id, n: Node)
    requires Apart(nodes)
    requires forall other, i, j ::
      other in nodes && other != id && 0 <= i < |nodes[other].ext| && 0 <= j < |n.ext| ==>
        nodes[other].ext[i] != n.ext[j]
    ensures Apart(nodes[id := n])
  {
  }

  lemma NotOwnDirectory(id: Id)
    requires id.Child?
    ensures id.dir != id
  {
    assert id.dir < id;
  }

  // ----- slots -----------------------------------------------------------------------------

  /** The 32-byte slots of a directory's bytes. */
  function SlotsOf(bytes: seq<byte>): (s: seq<Slot>)
    ensures |s| == |bytes| / 32
  {
    seq(|bytes| / 32, k requires 0 <= k < |bytes| / 32 => SlotAt(bytes, k))
  }

  function SlotAt(bytes: seq<byte>, k: nat): Slot
    requires k < |bytes| / 32
  {
    bytes[32 * k..32 * k + 32]
  }

  /** `slots` with the window that starts at `k` replaced. */
  function Window(slots: seq<Slot>, k: nat, win: seq<Slot>): (s: seq<Slot>)
    requires k + |win| <= |slots|
    ensures |s| == |slots|
  {
    slots[..k] + win + slots[k + |win|..]
  }

  ghost function First(ext: seq<nat>): nat {
    if ext == [] then 0 else ext[0]
  }

  /** The slots of one entry set describe the owner `n`. */
  ghost predicate Says(n: Node, win: seq<Slot>, cb: nat) {
    && FileSet(win) && |win| == n.count
    && Bit(win[0][4], 4) == n.isDir
    && Bit(win[1][1], 1) == !n.linked
    && Le64(win[1][8..16]) == n.valid
    && Le64(win[1][24..32]) == |n.ext| * cb
    && Le32(win[1][20..24]) == First(n.ext)
  }

  ghost predicate RecordOk(n: Node, slots: seq<Slot>, k: nat, cb: nat) {
    k + n.count <= |slots| && Says(n, slots[k..k + n.count], cb)
  }

  /** Once a slot is unused, so are all later ones. */
  ghost predicate ZeroTail(slots: seq<Slot>) {
    forall i, j :: 0 <= i < j < |slots| && slots[i][0] == 0 ==> slots[j][0] == 0
  }

  /** The slots of directory `d` are the records of its children, in place, and
      no primary slot is anything else. */
  ghost predicate DirRecords(nodes: Owners, d: Id, slots: seq<Slot>, cb: nat) {
    && (forall k :: 0 <= k < |slots| ==> (slots[k][0] == 0x85 <==> Child(d, k) in nodes))
    && (forall k: nat :: Child(d, k) in nodes ==> k < |slots| && RecordOk(nodes[Child(d, k)], slots, k, cb))
  }

  ghost predicate DirOk(nodes: Owners, d: Id, slots: seq<Slot>, cb: nat) {
    ZeroTail(slots) && DirRecords(nodes, d, slots, cb)
  }

  ghost predicate TreeOk(g: Geometry, heap: Heap, nodes: Owners) {
    && HeapShape(g, heap)
    && forall d :: d in nodes && nodes[d].isDir ==>
         && InHeap(g, nodes[d].ext)
         && DirOk(nodes, d, SlotsOf(Flat(heap, nodes[d].ext)), g.BytesPerCluster())
  }

  /** The part of the tree that does not depend on where unused slots are. */
  ghost predicate TreeRecords(g: Geometry, heap: Heap, nodes: Owners) {
    && HeapShape(g, heap)
    && forall d :: d in nodes && nodes[d].isDir ==>
         && InHeap(g, nodes[d].ext)
         && DirRecords(nodes, d, SlotsOf(Flat(heap, nodes[d].ext)), g.BytesPerCluster())
  }

  /** The tree, except that the unused slots of directory `me` may lie between
      others. */
  ghost predicate TreeBut(g: Geometry, heap: Heap, nodes: Owners, me: Id) {
    && HeapShape(g, heap)
    && forall d :: d in nodes && nodes[d].isDir ==>
         && InHeap(g, nodes[d].ext)
         && DirRecords(nodes, d, SlotsOf(Flat(heap, nodes[d].ext)), g.BytesPerCluster())
         && (d != me ==> ZeroTail(SlotsOf(Flat(heap, nodes[d].ext))))
  }

  lemma OkRecords(g: Geometry, heap: Heap, nodes: Owners)
    requires TreeOk(g, heap, nodes)
    ensures TreeRecords(g, heap, nodes)
  {
    hide DirRecords;
    hide SlotsOf;
    hide ZeroTail;
  }

  lemma ButRecords(g: Geometry, heap: Heap, nodes: Owners, me: Id)
    requires TreeBut(g, heap, nodes, me)
    ensures TreeRecords(g, heap, nodes)
  {
    hide DirRecords;
    hide SlotsOf;
    hide ZeroTail;
  }

  lemma WholeTree(g: Geometry, heap: Heap, nodes: Owners, id: Id)
    requires TreeBut(g, heap, nodes, id) && id in nodes && nodes[id].isDir
    requires (forall i :: 0 <= i < |nodes[id].ext| ==> nodes[id].ext[i] < |heap|)
    requires ZeroTail(SlotsOf(Flat(heap, nodes[id].ext)))
    ensures TreeOk(g, heap, nodes)
  {
    hide DirRecords;
    hide SlotsOf;
    hide ZeroTail;
  }

  lemma ButTree(g: Geometry, heap: Heap, nodes: Owners, id: Id)
    requires TreeOk(g, heap, nodes)
    ensures TreeBut(g, heap, nodes, id)
  {
    hide DirRecords;
    hide SlotsOf;
    hide ZeroTail;
  }

  /** Directories do not notice writes outside their clusters. */
  lemma TreeFrame(g: Geometry, heap: Heap, heap': Heap, nodes: Owners)
    requires TreeOk(g, heap, nodes) && HeapShape(g, heap')
    requires forall d, i :: d in nodes && nodes[d].isDir && 0 <= i < |nodes[d].ext| && nodes[d].ext[i] < |heap| ==>
      heap'[nodes[d].ext[i]] == heap[nodes[d].ext[i]]
    ensures TreeOk(g, heap', nodes)
  {
    forall d | d in nodes && nodes[d].isDir
      ensures DirOk(nodes, d, SlotsOf(Flat(heap', nodes[d].ext)), g.BytesPerCluster())
    {
      FlatFrame(heap, heap', nodes[d].ext);
    }
  }

  /** The slots of two records never overlap. */
  lemma RecordsDisjoint(nodes: Owners, d: Id, slots: seq<Slot>, cb: nat, j: nat, k: nat)
    requires DirOk(nodes, d, slots, cb) && Child(d, j) in nodes && 0 <= k < |slots| && slots[k][0] == 0x85 && j < k
    ensures j + nodes[Child(d, j)].count <= k
  {
    var n := nodes[Child(d, j)];
    assert RecordOk(n, slots, j, cb);
    var win := slots[j..j + n.count];
    assert forall i :: 0 <= i < |win| ==> win[i] == slots[j + i];
    assert k == j + (k - j);
  }

  /** A record elsewhere in the directory after the record at `k` was rewritten. */
  lemma OtherRecord(nodes: Owners, d: Id, slots: seq<Slot>, cb: nat, k: nat, win: seq<Slot>, j: nat)
    requires DirOk(nodes, d, slots, cb) && Child(d, k) in nodes && nodes[Child(d, k)].count == |win|
    requires k + |win| <= |slots| && Child(d, j) in nodes && j != k
    ensures j < |slots| && RecordOk(nodes[Child(d, j)], Window(slots, k, win), j, cb)
  {
    hide Says;
    hide ZeroTail;
    var m := nodes[Child(d, j)];
    assert RecordOk(m, slots, j, cb) && RecordOk(nodes[Child(d, k)], slots, k, cb);
    if j < k { RecordsDisjoint(nodes, d, slots, cb, j, k); } else { RecordsDisjoint(nodes, d, slots, cb, k, j); }
    WindowElsewhere(slots, k, win, j, m.count);
  }

  lemma WindowElsewhere(slots: seq<Slot>, k: nat, win: seq<Slot>, j: nat, n: nat)
    requires k + |win| <= |slots| && j + n <= |slots| && (j + n <= k || k + |win| <= j)
    ensures Window(slots, k, win)[j..j + n] == slots[j..j + n]
  {
  }

  /** A child's record may be rewritten in place by another one that keeps every
      slot's type. */
  lemma DirRewrite(nodes: Owners, d: Id, slots: seq<Slot>, cb: nat, k: nat, n: Node, win: seq<Slot>)
    requires DirOk(nodes, d, slots, cb) && Child(d, k) in nodes && n.count == nodes[Child(d, k)].count == |win|
    requires k + |win| <= |slots| && Says(n, win, cb)
    requires forall i :: 0 <= i < |win| ==> win[i][0] == slots[k + i][0]
    ensures DirOk(nodes[Child(d, k) := n], d, Window(slots, k, win), cb)
  {
    hide Says;
    var nodes', slots' := nodes[Child(d, k) := n], Window(slots, k, win);
    assert forall i :: 0 <= i < |slots| ==> slots'[i][0] == slots[i][0];
    forall j: nat | Child(d, j) in nodes'
      ensures j < |slots'| && RecordOk(nodes'[Child(d, j)], slots', j, cb)
    {
      if j == k {
        assert slots'[k..k + |win|] == win;
      } else {
        OtherRecord(nodes, d, slots, cb, k, win, j);
      }
    }
  }

  /** Renaming the owners of other directories' slots does not matter to `d`. */
  lemma SameChildren(nodes: Owners, nodes': Owners, d: Id, slots: seq<Slot>, cb: nat)
    requires DirRecords(nodes, d, slots, cb)
    requires forall k: nat :: Child(d, k) in nodes' <==> Child(d, k) in nodes
    requires forall k: nat :: Child(d, k) in nodes ==> nodes'[Child(d, k)] == nodes[Child(d, k)]
    ensures DirRecords(nodes', d, slots, cb)
  {
  }
}
