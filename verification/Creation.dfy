/** Creating files and directories: writing an entry set into reserved slots,
    and what that does to the directory's listing and to the volume's meaning. */
module Creation {
  import opened Words
  import opened Errors
  import opened Geometry
  import opened Views
  import opened Volume
  import opened Extents
  import opened EntrySets
  import opened EntryCodec
  import opened Files
  import opened Tree
  import opened SlotIo
  import opened Growth
  import opened Meaning
  import opened Commits
  import opened Listings
  import opened Standing
  import opened Upcase
  import opened Scanning
  import opened Directories
  import opened Paths
  import opened Resolution
  import opened Vacancies
  import opened Reserving

  // ----- writing an entry set -----------------------------------------------------------

  /** `slots` with the first `n` slots of `win` written from slot `k` on. */
  function Written(slots: seq<Slot>, k: nat, win: seq<Slot>, n: nat): (s: seq<Slot>)
    requires n <= |win| && k + |win| <= |slots|
    ensures |s| == |slots|
  {
    slots[..k] + win[..n] + slots[k + n..]
  }

  lemma WrittenMore(slots: seq<Slot>, k: nat, win: seq<Slot>, n: nat)
    requires n < |win| && k + |win| <= |slots|
    ensures Written(slots, k, win, n)[k + n := win[n]] == Written(slots, k, win, n + 1)
  {
  }

  lemma WrittenAll(slots: seq<Slot>, k: nat, win: seq<Slot>)
    requires k + |win| <= |slots|
    ensures Written(slots, k, win, 0) == slots
    ensures Written(slots, k, win, |win|) == Window(slots, k, win)
  {
  }

  /** Storing the checksum in the primary slot seals the set. */
  lemma SealInPlace(slots: seq<Slot>, k: nat, win: seq<Slot>)
    requires 0 < |win| && k + |win| <= |slots|
    ensures Window(slots, k, win)[k] == win[0]
    ensures Window(slots, k, win)[k := WithChecksum(win[0], SetSum(win))] == Window(slots, k, Sealed(win))
  {
    hide SetSum;
    hide Splice;
    hide Window;
    WindowFirst(slots, k, win, WithChecksum(win[0], SetSum(win)));
  }

  lemma WindowFirst(slots: seq<Slot>, k: nat, win: seq<Slot>, slot: Slot)
    requires 0 < |win| && k + |win| <= |slots|
    ensures Window(slots, k, win)[k] == win[0]
    ensures Window(slots, k, win)[k := slot] == Window(slots, k, win[0 := slot])
  {
    var a, b := Window(slots, k, win)[k := slot], Window(slots, k, win[0 := slot]);
    forall i | 0 <= i < |slots|
      ensures a[i] == b[i]
    {
    }
  }

  /** One slot of a new set, as the writer lays it out. */
  function SlotFor(contents: NewEntrySet, hash: u16, count: nat, index: nat): Slot
    requires |contents.name| <= 255 && 1 <= count <= 256
  {
    if index == 0 then PrimarySlot(contents, count)
    else if index == 1 then StreamSlot(contents, hash)
    else NameSlot(contents.name, index - 2)
  }

  /** Write a set slot by slot, folding the checksum, then store it. */
  method WriteSlots(fs: FileSystem, locs: seq<EntryLocator>, count: nat, contents: NewEntrySet, hash: u16,
                    ghost ext: seq<nat>, ghost k: nat)
    returns (r: Result<()>)
    requires fs.Valid() && InHeap(fs.g, ext) && Distinct(ext) && LocatedAt(fs.g, ext, k, locs, count)
    requires |contents.name| <= 255 && count == SlotsFor(|contents.name|) && 1 <= count <= 19
    requires k + count <= |DirSlots(fs.heap, ext)|
    requires forall i :: 0 <= i < |ext| ==> ext[i] !in fs.bm
    modifies fs`clock, fs`scratch, fs`disk, fs`heap
    ensures fs.Valid() && |fs.heap| == |old(fs.heap)|
    ensures r.Err? ==> r.error == Device
    ensures r.Ok? ==> DirSlots(fs.heap, ext) == Window(old(DirSlots(fs.heap, ext)), k, BuiltSet(contents, hash))
    ensures forall c :: 0 <= c < |fs.heap| && c !in ext ==> fs.heap[c] == old(fs.heap)[c]
    ensures Honest(fs.faulty, old(fs.clock), fs.clock, r == Err(Device))
  {
    hide Failures;
    hide FileSystem.Valid;
    hide SetSum;
    hide ChecksumStep;
    hide SlotsOf;
    hide LocAt;
    hide Geometry.WellFormed;
    hide PrimarySlot;
    hide StreamSlot;
    hide NameSlot;
    hide Sealed;
    hide Written;
    hide Window;
    hide WithChecksum;
    fs.Basics();
    ghost var slots, win := DirSlots(fs.heap, ext), RawSet(contents, hash);
    var checksum: u16 := 0;
    SetSumNone(win[..0]);
    WrittenAll(slots, k, win);
    for index := 0 to count
      invariant Honest(fs.faulty, old(fs.clock), fs.clock, false)
      invariant fs.Valid() && |fs.heap| == |old(fs.heap)| && (forall i :: 0 <= i < |ext| ==> ext[i] < |fs.heap|)
      invariant DirSlots(fs.heap, ext) == Written(slots, k, win, index) && checksum == SetSum(win[..index])
      invariant forall c :: 0 <= c < |fs.heap| && c !in ext ==> fs.heap[c] == old(fs.heap)[c]
    {
      var entry := SlotFor(contents, hash, count, index);
      assert entry == win[index];
      assert win[..index + 1] == win[..index] + [entry];
      SetSumSnoc(win[..index], entry);
      checksum := FoldSlot(checksum, entry, index == 0);
      WrittenMore(slots, k, win, index);
      var before := LoadSlot(fs, locs[index], ext, k + index);
      if before.Err? { return Err(before.error); }
      var ok := StoreSlot(fs, locs[index], entry, ext, k + index);
      if !ok { return Err(Device); }
      assert |fs.heap| == fs.g.clusterCount + 2 by { fs.Basics(); }
    }
    assert win[..count] == win;
    SealInPlace(slots, k, win);
    var primary := LoadSlot(fs, locs[0], ext, k);
    if primary.Err? { return Err(primary.error); }
    var ok := StoreSlot(fs, locs[0], WithChecksum(primary.value, checksum), ext, k);
    return if ok then Ok(()) else Err(Device);
  }

  /** Bytes 4 and 5 of slot `at` are `hash`. */
  predicate HoldsHash(slots: seq<Slot>, at: nat, hash: u16) {
    at < |slots| && Le16(slots[at][4..6]) == hash
  }

  /** Write a new entry set: nothing is written when the name cannot be hashed. */
  method WriteEntrySet(fs: FileSystem, locs: seq<EntryLocator>, count: nat, contents: NewEntrySet, ghost ext: seq<nat>,
                       ghost k: nat)
    returns (r: Result<()>, ghost hash: u16)
    requires TableOk(fs) && InHeap(fs.g, ext) && Distinct(ext) && LocatedAt(fs.g, ext, k, locs, count)
    requires |contents.name| <= 255
    requires k + count <= |DirSlots(fs.heap, ext)|
    requires forall i :: 0 <= i < |ext| ==> ext[i] !in fs.bm
    modifies fs`clock, fs`scratch, fs`disk, fs`heap
    ensures fs.Valid() && |fs.heap| == |old(fs.heap)|
    ensures r.Ok? ==>
      && 3 <= count <= 19 && count == SlotsFor(|contents.name|)
      && HashOf(fs.upcaseValid, old(Table(fs)), contents.name) == Ok(hash)
      && DirSlots(fs.heap, ext) == Window(old(DirSlots(fs.heap, ext)), k, BuiltSet(contents, hash))
      && HoldsHash(DirSlots(fs.heap, ext), k + 1, hash)
    ensures r.Err? && r.error != Device ==>
      && fs.heap == old(fs.heap)
      && if 3 <= count <= 19 && DivCeil(|contents.name|, 15) + 2 == count
         then HashOf(fs.upcaseValid, old(Table(fs)), contents.name) == Err(r.error)
         else r == Err(Corrupt)
    ensures forall c :: 0 <= c < |fs.heap| && c !in ext ==> fs.heap[c] == old(fs.heap)[c]
    ensures Honest(fs.faulty, old(fs.clock), fs.clock, r == Err(Device))
  {
    hide FileSystem.Valid;
    hide OwnOk;
    hide Content;
    hide SlotsOf;
    hide LocAt;
    hide BuiltSet;
    hide HashOf;
    hide HoldsHash;
    hash := 0;
    assert |fs.heap| == fs.g.clusterCount + 2 by { fs.Basics(); }
    ghost var slots0 := DirSlots(fs.heap, ext);
    if !(3 <= count <= 19) || DivCeil(|contents.name|, 15) + 2 != count { return Err(Corrupt), hash; }
    var nameHash := UpcaseNameHash(fs, contents.name);
    if nameHash.Err? { return Err(nameHash.error), hash; }
    hash := nameHash.value;
    r := WriteSlots(fs, locs, count, contents, nameHash.value, ext, k);
    if r.Ok? {
      assert |fs.heap| == fs.g.clusterCount + 2 by { fs.Basics(); }
      HashPlaced(DirSlots(fs.heap, ext), slots0, k, contents, hash);
    }
  }

  /** In the directory the hash stands in the set's second slot. */
  lemma HashPlaced(slots: seq<Slot>, slots0: seq<Slot>, k: nat, contents: NewEntrySet, hash: u16)
    requires |contents.name| <= 255 && k + SlotsFor(|contents.name|) <= |slots0|
    requires slots == Window(slots0, k, BuiltSet(contents, hash))
    ensures HoldsHash(slots, k + 1, hash)
  {
    BuiltSlots(contents, hash);
    StreamSlotReads(contents, hash);
    assert slots[k + 1] == BuiltSet(contents, hash)[1];
  }

  // ----- the directory with one more entry set ----------------------------------------------

  /** The owner `n` is what the new entry set `contents` says. */
  ghost predicate Announces(g: Geometry, contents: NewEntrySet, n: Node) {
    && 1 <= |contents.name| <= 255 && n.count == SlotsFor(|contents.name|)
    && n.isDir == Bit(contents.attributes % 0x100, 4) && n.linked == !contents.noFatChain
    && n.valid == contents.dataLength == |n.ext| * g.BytesPerCluster() && contents.firstCluster == First(n.ext)
    && (contents.dataLength != 0 ==> contents.firstCluster >= 2)
  }

  lemma BuiltSays(g: Geometry, contents: NewEntrySet, hash: u16, n: Node)
    requires Announces(g, contents, n)
    ensures Says(n, BuiltSet(contents, hash), g.BytesPerCluster())
  {
    hide Geometry.BytesPerCluster;
    BuiltIsFileSet(contents, hash);
    BuiltSlots(contents, hash);
    StreamSlotReads(contents, hash);
    PrimarySlotReads(contents, n.count);
    SealedStores(RawSet(contents, hash));
    FlagBits(contents.noFatChain);
  }

  /** In a set, every slot is in use, and only the first is a primary. */
  lemma SetTypes(win: seq<Slot>)
    requires FileSet(win)
    ensures 3 <= |win| <= 19 && win[0][0] == 0x85
    ensures forall i :: 0 < i < |win| ==> win[i][0] == 0xc0 || win[i][0] == 0xc1
  {
  }

  /** Writing a set into reserved slots gives the directory one more child. */
  lemma InsertRecords(nodes: Owners, d: Id, slots: seq<Slot>, cb: nat, k: nat, n: Node, win: seq<Slot>)
    requires DirRecords(nodes, d, slots, cb) && Room(slots, k, |win|) && Says(n, win, cb)
    ensures Child(d, k) !in nodes
    ensures DirRecords(nodes[Child(d, k) := n], d, Window(slots, k, win), cb)
  {
    hide Says;
    hide FileSet;
    hide RecordOk;
    hide Window;
    var nodes', slots', w := nodes[Child(d, k) := n], Window(slots, k, win), |win|;
    SaysSet(n, win, cb);
    SetTypes(win);
    WindowAt(slots, k, win);
    assert Spare(slots[k]);
    forall j: nat | Child(d, j) in nodes'
      ensures j < |slots'| && RecordOk(nodes'[Child(d, j)], slots', j, cb)
    {
      if j == k {
        RecordPlaced(n, slots, k, win, cb);
      } else {
        RecordClear(nodes[Child(d, j)], slots, j, cb, k, w);
        RecordElsewhere(nodes[Child(d, j)], slots, k, win, j, cb);
      }
    }
  }

  lemma RecordPlaced(n: Node, slots: seq<Slot>, k: nat, win: seq<Slot>, cb: nat)
    requires k + |win| <= |slots| && Says(n, win, cb)
    ensures RecordOk(n, Window(slots, k, win), k, cb)
  {
    hide Says;
    SaysSet(n, win, cb);
    assert Window(slots, k, win)[k..k + |win|] == win;
  }

  lemma RecordElsewhere(n: Node, slots: seq<Slot>, k: nat, win: seq<Slot>, j: nat, cb: nat)
    requires k + |win| <= |slots| && RecordOk(n, slots, j, cb) && (j + n.count <= k || k + |win| <= j)
    ensures RecordOk(n, Window(slots, k, win), j, cb)
  {
    hide Says;
    WindowElsewhere(slots, k, win, j, n.count);
  }

  lemma SaysSet(n: Node, win: seq<Slot>, cb: nat)
    requires Says(n, win, cb)
    ensures FileSet(win) && |win| == n.count
  {
  }

  lemma WindowAt(slots: seq<Slot>, k: nat, win: seq<Slot>)
    requires k + |win| <= |slots|
    ensures forall i :: 0 <= i < |slots| ==>
      Window(slots, k, win)[i] == if k <= i < k + |win| then win[i - k] else slots[i]
  {
  }

  /** A record does not reach into spare slots. */
  lemma RecordClear(n: Node, slots: seq<Slot>, j: nat, cb: nat, k: nat, w: nat)
    requires RecordOk(n, slots, j, cb) && w > 0 && k + w <= |slots| && forall i :: k <= i < k + w ==> Spare(slots[i])
    ensures j + n.count <= k || k + w <= j
  {
    RecordInUse(n, slots, j, cb);
    assert Spare(slots[k]);
    assert j < |slots| && !Spare(slots[j]);
  }

  lemma InsertTail(slots: seq<Slot>, k: nat, win: seq<Slot>)
    requires k + |win| <= |slots| && 0 < |win| && forall i :: 0 <= i < |win| ==> win[i][0] != 0
    ensures ZeroTail(Window(slots, k, win)) <==> Tight(slots, k, |win|)
  {
    hide Window;
    WindowAt(slots, k, win);
    var b, w := Window(slots, k, win), |win|;
    if ZeroTail(b) {
      forall i | 0 <= i < k
        ensures slots[i][0] != 0
      {
        assert b[i] == slots[i] && b[k] == win[0];
      }
      forall i, j | k + w <= i < j < |slots| && slots[i][0] == 0
        ensures slots[j][0] == 0
      {
        assert b[i] == slots[i] && b[j] == slots[j];
      }
    }
  }

  /** A directory whose slots are all unused has no children, and none is
      recorded for an owner that was not there. */
  lemma EmptyDirectory(nodes: Owners, id: Id, slots: seq<Slot>, cb: nat)
    requires forall i :: 0 <= i < |slots| ==> slots[i][0] == 0
    requires forall j: nat :: Child(id, j) !in nodes
    ensures DirOk(nodes, id, slots, cb)
  {
  }

  /** The volume with one more child in directory `d`. */
  ghost predicate Inserted(g: Geometry, heap: Heap, heap': Heap, nodes: Owners, d: Id, k: nat, win: seq<Slot>) {
    && d in nodes && nodes[d].isDir && HeapShape(g, heap) && HeapShape(g, heap') && InHeap(g, nodes[d].ext)
    && k + |win| <= |DirSlots(heap, nodes[d].ext)|
    && DirSlots(heap', nodes[d].ext) == Window(DirSlots(heap, nodes[d].ext), k, win)
    && (forall c :: 0 <= c < |heap| && c !in nodes[d].ext ==> heap'[c] == heap[c])
  }

  lemma InsertTree(g: Geometry, heap: Heap, heap': Heap, nodes: Owners, d: Id, k: nat, n: Node, win: seq<Slot>)
    requires TreeBut(g, heap, nodes, d) && Inserted(g, heap, heap', nodes, d, k, win) && Apart(nodes)
    requires Room(DirSlots(heap, nodes[d].ext), k, |win|) && Says(n, win, g.BytesPerCluster())
    requires forall e, j: nat :: Child(e, j) in nodes ==> e in nodes
    requires n.isDir ==> InHeap(g, n.ext) && (forall i :: 0 <= i < |n.ext| ==> n.ext[i] < |heap'|)
                         && forall i :: 0 <= i < |DirSlots(heap', n.ext)| ==> DirSlots(heap', n.ext)[i][0] == 0
    ensures Child(d, k) !in nodes && TreeBut(g, heap', nodes[Child(d, k) := n], d)
  {
    hide Says;
    hide SlotsOf;
    hide Room;
    hide Geometry.BytesPerCluster;
    var id, cb := Child(d, k), g.BytesPerCluster();
    var nodes' := nodes[id := n];
    assert d != id by { NotOwnDirectory(id); }
    InsertRecords(nodes, d, DirSlots(heap, nodes[d].ext), cb, k, n, win);
    forall e | e in nodes' && nodes'[e].isDir
      ensures InHeap(g, nodes'[e].ext) && DirRecords(nodes', e, SlotsOf(Flat(heap', nodes'[e].ext)), cb)
      ensures e != d ==> ZeroTail(SlotsOf(Flat(heap', nodes'[e].ext)))
    {
      if e == id {
        forall j: nat ensures Child(id, j) !in nodes' {
          NotOwnDirectory(Child(id, j));
        }
        EmptyDirectory(nodes', id, DirSlots(heap', n.ext), cb);
      } else if e != d {
        ApartExtents(nodes, e, d);
        FlatFrame(heap, heap', nodes[e].ext);
        SameChildren(nodes, nodes', e, DirSlots(heap, nodes[e].ext), cb);
      }
    }
  }

  /** The meaning of the volume with one more child. */
  lemma InsertContents(g: Geometry, heap: Heap, heap': Heap, nodes: Owners, d: Id, k: nat, n: Node, win: seq<Slot>)
    requires Inserted(g, heap, heap', nodes, d, k, win) && Apart(nodes) && Child(d, k) !in nodes
    ensures n.isDir ==> Contents(heap', nodes[Child(d, k) := n]) == Contents(heap, nodes)
    ensures !n.isDir && n.ext == [] ==>
      Contents(heap', nodes[Child(d, k) := n]) == Contents(heap, nodes)[Child(d, k) := []]
  {
    hide Content;
    hide Inserted;
    hide Contents;
    var id := Child(d, k);
    forall f | IsFile(nodes, f)
      ensures Content(heap', nodes[f]) == Content(heap, nodes[f])
    {
      InsertElsewhere(g, heap, heap', nodes, d, k, win, f);
    }
    ContentsWith(heap, heap', nodes, id, n);
  }

  lemma InsertElsewhere(g: Geometry, heap: Heap, heap': Heap, nodes: Owners, d: Id, k: nat, win: seq<Slot>, f: Id)
    requires Inserted(g, heap, heap', nodes, d, k, win) && Apart(nodes) && IsFile(nodes, f)
    ensures Content(heap', nodes[f]) == Content(heap, nodes[f])
  {
    hide SlotsOf;
    hide Content;
    ApartExtents(nodes, f, d);
    ContentFrame(heap, heap', nodes[f]);
  }

  /** One more owner, with the bytes of all files kept. */
  lemma ContentsWith(heap: Heap, heap': Heap, nodes: Owners, id: Id, n: Node)
    requires id !in nodes && id != BitmapFile
    requires forall f :: IsFile(nodes, f) ==> Content(heap', nodes[f]) == Content(heap, nodes[f])
    ensures n.isDir ==> Contents(heap', nodes[id := n]) == Contents(heap, nodes)
    ensures !n.isDir && n.ext == [] ==> Contents(heap', nodes[id := n]) == Contents(heap, nodes)[id := []]
  {
    EmptyContent(heap', n);
    hide Content;
    var nodes' := nodes[id := n];
    if n.isDir {
      assert Contents(heap', nodes').Keys == Contents(heap, nodes).Keys;
    } else {
      assert Contents(heap', nodes').Keys == Contents(heap, nodes)[id := []].Keys;
    }
  }

  lemma EmptyContent(heap: Heap, n: Node)
    ensures n.ext == [] ==> Content(heap, n) == []
  {
  }

  // ----- what a listing gains ---------------------------------------------------------------

  /** `list'` is `list` with exactly one more record, `e`. */
  ghost predicate OneMore(list: seq<DirectoryEntry>, list': seq<DirectoryEntry>, e: DirectoryEntry) {
    exists i :: 0 <= i <= |list| && list' == list[..i] + [e] + list[i..]
  }

  lemma OneMoreAt(a: seq<DirectoryEntry>, b: seq<DirectoryEntry>, e: DirectoryEntry)
    ensures OneMore(a + b, a + [e] + b, e)
  {
    assert (a + b)[..|a|] == a && (a + b)[|a|..] == b;
  }

  /** Places do not depend on contents, nor on clusters added behind. */
  lemma PlacesPrefix(g: Geometry, heap: Heap, heap': Heap, ext: seq<nat>, ext': seq<nat>)
    requires Scannable(g, heap, ext) && Scannable(g, heap', ext') && ext <= ext'
    ensures Places(g, heap, ext) <= Places(g, heap', ext')
  {
    hide Geometry.BytesPerCluster;
    SlotCount(g, heap, ext);
    SlotCount(g, heap', ext');
    MulMonotone(|ext|, |ext'|, g.BytesPerCluster());
    forall k | 0 <= k < |DirSlots(heap, ext)|
      ensures Places(g, heap, ext)[k] == Places(g, heap', ext')[k]
    {
      SlotCluster(g, ext, k);
    }
  }

  /** Reserving room and writing a set there adds one record to the listing. */
  lemma ListingGains(g: Geometry, heap0: Heap, heap1: Heap, heap2: Heap, ext0: seq<nat>, ext: seq<nat>, k: nat,
                     win: seq<Slot>)
    requires Scannable(g, heap0, ext0) && Scannable(g, heap1, ext) && Scannable(g, heap2, ext) && ext0 <= ext
    requires Stored(DirSlots(heap0, ext0)) && SameSets(DirSlots(heap0, ext0), DirSlots(heap1, ext))
    requires FileSet(win) && Room(DirSlots(heap1, ext), k, |win|)
    requires DirSlots(heap2, ext) == Window(DirSlots(heap1, ext), k, win)
    ensures Stored(DirSlots(heap2, ext)) && SetAt(DirSlots(heap2, ext), k) && DirSlots(heap2, ext)[k][0] == 0x85
    ensures var e := RecordAt(DirSlots(heap2, ext), Places(g, heap2, ext), k);
            && OneMore(ListOf(g, heap0, ext0), ListOf(g, heap2, ext), e)
            && e == Decode(win, Places(g, heap2, ext)[k..k + |win|])
  {
    hide SlotsOf;
    hide Decode;
    hide FileSet;
    hide LocAt;
    hide RecordsIn;
    hide Stored;
    hide Window;
    SetOpens(win);
    PlacesPrefix(g, heap0, heap1, ext0, ext);
    PlacesPrefix(g, heap1, heap2, ext, ext);
    var slots0, slots, slots' := DirSlots(heap0, ext0), DirSlots(heap1, ext), DirSlots(heap2, ext);
    var locs := Places(g, heap2, ext);
    SameSetsList(slots0, Places(g, heap0, ext0), slots, Places(g, heap1, ext));
    assert Places(g, heap1, ext) == locs;
    InsertList(slots, locs, k, win);
    OneMoreAt(RecordsIn(slots, locs, 0, k), RecordsIn(slots, locs, k + |win|, |slots|),
              Decode(win, locs[k..k + |win|]));
    InsertedRecord(slots, locs, k, win);
  }

  lemma InsertedRecord(slots: seq<Slot>, locs: seq<EntryLocator>, k: nat, win: seq<Slot>)
    requires |slots| == |locs| && k + |win| <= |slots| && FileSet(win)
    ensures var slots' := Window(slots, k, win);
            && SetAt(slots', k) && slots'[k][0] == 0x85 && |win| <= 19
            && RecordAt(slots', locs, k) == Decode(win, locs[k..k + |win|])
  {
    SetOpens(win);
    hide FileSet;
    hide Decode;
    assert Window(slots, k, win)[k] == win[0] && Window(slots, k, win)[k..k + |win|] == win;
  }

  // ----- keeping siblings apart ---------------------------------------------------------------

  /** No two records of a directory have matching names. */
  ghost predicate Unambiguous(valid: bool, table: seq<byte>, list: seq<DirectoryEntry>) {
    forall i, j :: 0 <= i < |list| && 0 <= j < |list| && i != j ==>
      SameName(valid, table, NameUtf16(list[i]), NameUtf16(list[j])) != Ok(true)
  }

  /** No match means that every name compared differs. */
  lemma {:induction false} NoMatchIsMiss(valid: bool, table: seq<byte>, list: seq<DirectoryEntry>, wanted: seq<u16>)
    requires FirstMatch(valid, table, list, wanted) == Ok(None)
    ensures Missed(valid, table, list, wanted)
  {
    hide SameName;
    if list != [] {
      NoMatchIsMiss(valid, table, list[1..], wanted);
      forall i | 0 <= i < |list|
        ensures SameName(valid, table, NameUtf16(list[i]), wanted) == Ok(false)
      {
        if i > 0 { assert list[i] == list[1..][i - 1]; }
      }
    }
  }

  /** Adding a record whose name matched nothing keeps the siblings' names apart,
      whatever their case. */
  lemma StillUnambiguous(valid: bool, table: seq<byte>, list: seq<DirectoryEntry>, list': seq<DirectoryEntry>,
                         e: DirectoryEntry)
    requires Unambiguous(valid, table, list) && OneMore(list, list', e)
    requires FirstMatch(valid, table, list, NameUtf16(e)) == Ok(None)
    ensures Unambiguous(valid, table, list')
  {
    hide SameName;
    hide FirstMatch;
    hide NameUtf16;
    NoMatchIsMiss(valid, table, list, NameUtf16(e));
    var i :| 0 <= i <= |list| && list' == list[..i] + [e] + list[i..];
    InsertedAt(list, i, e);
    forall x, y | 0 <= x < |list'| && 0 <= y < |list'| && x != y
      ensures SameName(valid, table, NameUtf16(list'[x]), NameUtf16(list'[y])) != Ok(true)
    {
      var a, b := if x < i then x else x - 1, if y < i then y else y - 1;
      if x == i {
        NameSymmetric(valid, table, NameUtf16(e), NameUtf16(list[b]));
      } else if y != i {
        assert a != b;
      }
    }
  }

  lemma InsertedAt(list: seq<DirectoryEntry>, i: nat, e: DirectoryEntry)
    requires i <= |list|
    ensures forall x :: 0 <= x <= |list| ==>
      (list[..i] + [e] + list[i..])[x] == if x < i then list[x] else if x == i then e else list[x - 1]
  {
  }

  // ----- creating ---------------------------------------------------------------------------

  const NO_TIME: ExfatTimestamp := ExfatTimestamp(0, 0, 0)

  function NewFileSet(units: seq<u16>): NewEntrySet {
    NewEntrySet(units, 0, 0, 0, true, NO_TIME, NO_TIME, NO_TIME)
  }

  function NewDirectorySet(units: seq<u16>, cluster: u32, length: u64): NewEntrySet {
    NewEntrySet(units, 0x10, cluster, length, false, NO_TIME, NO_TIME, NO_TIME)
  }

  /** Everything writing a new child's entry set relies on. */
  ghost predicate RoomFor(g: Geometry, fat: seq<u32>, used: set<nat>, bm: seq<nat>, nodes: Owners, heap: Heap, d: Id,
                          k: nat, contents: NewEntrySet, n: Node, locs: seq<EntryLocator>, count: nat) {
    && TreeBut(g, heap, nodes, d) && d in nodes && nodes[d].isDir && Announces(g, contents, n) && count == n.count
    && Scannable(g, heap, nodes[d].ext) && Room(DirSlots(heap, nodes[d].ext), k, count)
    && LocatedAt(g, nodes[d].ext, k, locs, count)
    && OwnOk(g, fat, used, bm, nodes)
    && OwnOk(g, fat, used, bm, nodes[Child(d, k) := n])
    && (n.isDir ==> InHeap(g, n.ext) && n.ext != [] && forall i :: 0 <= i < |n.ext| ==>
          n.ext[i] < |heap| && n.ext[i] !in nodes[d].ext && heap[n.ext[i]] == Zeros(g.BytesPerCluster()))
    && (!n.isDir ==> n.ext == [])
  }

  /** What the new child has made of the volume. */
  ghost predicate ChildAdded(g: Geometry, heap: Heap, heap': Heap, nodes: Owners, d: Id, k: nat, contents: NewEntrySet,
                             n: Node, hash: u16) {
    && d in nodes && nodes[d].isDir && Child(d, k) !in nodes
    && |contents.name| <= 255 && TreeBut(g, heap', nodes[Child(d, k) := n], d)
    && Contents(heap', nodes[Child(d, k) := n]) ==
         (if n.isDir then Contents(heap, nodes) else Contents(heap, nodes)[Child(d, k) := []])
    && Scannable(g, heap, nodes[d].ext) && Scannable(g, heap', nodes[d].ext)
    && Room(DirSlots(heap, nodes[d].ext), k, SlotsFor(|contents.name|))
    && DirSlots(heap', nodes[d].ext) == Window(DirSlots(heap, nodes[d].ext), k, BuiltSet(contents, hash))
    && |heap'| == |heap| && (forall c :: 0 <= c < |heap| && c !in nodes[d].ext ==> heap'[c] == heap[c])
  }

  lemma {:induction false} ZeroExtent(g: Geometry, heap: Heap, ext: seq<nat>)
    requires forall i :: 0 <= i < |ext| ==> ext[i] < |heap| && heap[ext[i]] == Zeros(g.BytesPerCluster())
    ensures forall i :: 0 <= i < |Flat(heap, ext)| ==> Flat(heap, ext)[i] == 0
  {
    hide Geometry.BytesPerCluster;
    if ext != [] { ZeroExtent(g, heap, ext[..|ext| - 1]); }
  }

  lemma ZeroDirectory(g: Geometry, heap: Heap, ext: seq<nat>)
    requires forall i :: 0 <= i < |ext| ==> ext[i] < |heap| && heap[ext[i]] == Zeros(g.BytesPerCluster())
    ensures forall i :: 0 <= i < |DirSlots(heap, ext)| ==> DirSlots(heap, ext)[i][0] == 0
  {
    ZeroExtent(g, heap, ext);
  }

  lemma ChildDone(g: Geometry, fat: seq<u32>, used: set<nat>, bm: seq<nat>, nodes: Owners, heap: Heap, heap': Heap,
                  d: Id, k: nat, contents: NewEntrySet, n: Node, hash: u16, locs: seq<EntryLocator>)
    requires RoomFor(g, fat, used, bm, nodes, heap, d, k, contents, n, locs, SlotsFor(|contents.name|))
    requires HeapShape(g, heap')
    requires |contents.name| <= 255 && |heap'| == |heap|
    requires forall i :: 0 <= i < |nodes[d].ext| ==> nodes[d].ext[i] < |heap'|
    requires DirSlots(heap', nodes[d].ext) == Window(DirSlots(heap, nodes[d].ext), k, BuiltSet(contents, hash))
    requires forall c :: 0 <= c < |heap'| && c !in nodes[d].ext ==> heap'[c] == heap[c]
    ensures ChildAdded(g, heap, heap', nodes, d, k, contents, n, hash)
  {
    hide SlotsOf;
    hide Says;
    hide Contents;
    hide TreeBut;
    hide TreeOk;
    hide BuiltSet;
    hide Window;
    hide Announces;
    hide Geometry.BytesPerCluster;
    hide NodeOk;
    var win := BuiltSet(contents, hash);
    BuiltSays(g, contents, hash, n);
    assert |win| == SlotsFor(|contents.name|) by { BuiltCount(contents, hash); }
    if n.isDir { ZeroDirectory(g, heap', n.ext); }
    InsertTree(g, heap, heap', nodes, d, k, n, win);
    InsertContents(g, heap, heap', nodes, d, k, n, win);
  }

  lemma BuiltCount(contents: NewEntrySet, hash: u16)
    requires |contents.name| <= 255
    ensures |BuiltSet(contents, hash)| == SlotsFor(|contents.name|)
  {
  }

  /** Write the entry set of a new child. */
  method AddChild(fs: FileSystem, locs: seq<EntryLocator>, count: nat, contents: NewEntrySet, ghost d: Id, ghost k: nat,
                  ghost n: Node)
    returns (r: Result<()>, ghost hash: u16)
    requires fs.Valid() && TableReady(fs)
    requires RoomFor(fs.g, fs.fat, fs.used, fs.bm, fs.nodes, fs.heap, d, k, contents, n, locs, count)
    modifies fs`clock, fs`scratch, fs`disk, fs`heap, fs`nodes
    ensures fs.Valid() && UpcaseFile in old(fs.nodes)
    ensures r.Ok? ==>
      && InvBut(fs, d) && TableReady(fs) && fs.nodes == old(fs.nodes)[Child(d, k) := n]
      && HashOf(fs.upcaseValid, old(Table(fs)), contents.name) == Ok(hash)
      && ChildAdded(fs.g, old(fs.heap), fs.heap, old(fs.nodes), d, k, contents, n, hash)
    ensures r.Err? && r.error != Device ==>
      && fs.heap == old(fs.heap) && fs.nodes == old(fs.nodes)
      && HashOf(fs.upcaseValid, old(Table(fs)), contents.name) == Err(r.error)
    ensures Honest(fs.faulty, old(fs.clock), fs.clock, r == Err(Device))
  {
    hide FileSystem.Valid;
    hide OwnOk;
    hide TreeOk;
    hide TreeBut;
    hide Content;
    hide DirSlots;
    hide LocAt;
    hide HashOf;
    hide BuiltSet;
    hide Room;
    hide ChildAdded;
    ghost var heap, nodes, ext := fs.heap, fs.nodes, fs.nodes[d].ext;
    AddReady(fs, d, k, contents, n, locs, count);
    r, hash := WriteEntrySet(fs, locs, count, contents, ext, k);
    if r.Ok? {
      assert HeapShape(fs.g, fs.heap) by { fs.Basics(); }
      ChildDone(fs.g, fs.fat, fs.used, fs.bm, nodes, heap, fs.heap, d, k, contents, n, hash, locs);
      AddedTree(fs.g, heap, fs.heap, nodes, d, k, contents, n, hash);
      fs.nodes := nodes[Child(d, k) := n];
    }
  }

  lemma AddReady(fs: FileSystem, d: Id, k: nat, contents: NewEntrySet, n: Node, locs: seq<EntryLocator>, count: nat)
    requires fs.Valid() && RoomFor(fs.g, fs.fat, fs.used, fs.bm, fs.nodes, fs.heap, d, k, contents, n, locs, count)
    ensures InHeap(fs.g, fs.nodes[d].ext) && Distinct(fs.nodes[d].ext)
    ensures forall i :: 0 <= i < |fs.nodes[d].ext| ==> fs.nodes[d].ext[i] < |fs.heap| && fs.nodes[d].ext[i] !in fs.bm
    ensures |contents.name| <= 255 && 3 <= count <= 19 && count == SlotsFor(|contents.name|)
    ensures DivCeil(|contents.name|, 15) + 2 == count
    ensures k + count <= |DirSlots(fs.heap, fs.nodes[d].ext)|
  {
    hide FileSystem.Valid;
    hide TreeBut;
    hide DirSlots;
    hide LocAt;
    fs.Basics();
    DirectoryExtent(fs.g, fs.fat, fs.used, fs.bm, fs.nodes, d);
  }

  lemma AddedTree(g: Geometry, heap: Heap, heap': Heap, nodes: Owners, d: Id, k: nat, contents: NewEntrySet, n: Node,
                  hash: u16)
    requires ChildAdded(g, heap, heap', nodes, d, k, contents, n, hash)
    ensures TreeBut(g, heap', nodes[Child(d, k) := n], d) && Child(d, k) !in nodes
  {
    hide TreeBut;
    hide Contents;
    hide DirSlots;
    hide BuiltSet;
  }

  /** Unused slots then come last exactly if the new set is behind none and
      before none but those. */
  lemma AddedTail(g: Geometry, heap: Heap, heap': Heap, nodes: Owners, d: Id, k: nat, contents: NewEntrySet, n: Node,
                  hash: u16)
    requires ChildAdded(g, heap, heap', nodes, d, k, contents, n, hash) && Announces(g, contents, n)
    ensures TreeOk(g, heap', nodes[Child(d, k) := n]) <==>
      Tight(DirSlots(heap, nodes[d].ext), k, SlotsFor(|contents.name|))
  {
    hide TreeOk;
    hide TreeBut;
    hide Contents;
    hide SlotsOf;
    hide BuiltSet;
    hide Window;
    hide Tight;
    hide FileSet;
    var win := BuiltSet(contents, hash);
    BuiltIsFileSet(contents, hash);
    BuiltCount(contents, hash);
    SetTypes(win);
    NotOwnDirectory(Child(d, k));
    InsertTail(DirSlots(heap, nodes[d].ext), k, win);
    TailDecides(g, heap', nodes[Child(d, k) := n], d);
  }

  /** What creating the child `Child(d, k)` named `units` has done: exactly one
      more record in its directory's listing, and no file's bytes changed. */
  ghost predicate Created(fs: FileSystem, nodes0: Owners, heap0: Heap, used0: set<nat>, d: Id, k: nat, units: seq<u16>,
                          n: Node)
    reads fs
  {
    && Listed(fs.g, heap0, nodes0, d) && Listed(fs.g, fs.heap, fs.nodes, d)
    && Child(d, k) !in nodes0 && Child(d, k) in fs.nodes && fs.nodes[Child(d, k)] == n
    && (forall e :: e in fs.nodes ==> e in nodes0 || e == Child(d, k))
    && used0 <= fs.used && DirsGain(heap0, nodes0, fs.heap, fs.nodes, d, k, units)
    && Contents(fs.heap, fs.nodes)
      == (if n.isDir then Contents(heap0, nodes0) else Contents(heap0, nodes0)[Child(d, k) := []])
    && var slots, places := SlotsIn(fs.g, fs.heap, fs.nodes, d), PlacesIn(fs.g, fs.heap, fs.nodes, d);
       && k < |slots| && slots[k][0] == 0x85
       && NameUtf16(RecordAt(slots, places, k)) == units
       && OneMore(ListHere(fs.g, heap0, nodes0, d), ListHere(fs.g, fs.heap, fs.nodes, d), RecordAt(slots, places, k))
  }

  /** The new set is there under its name, and all else stands. */
  lemma CreatedGain(g: Geometry, heap0: Heap, nodes0: Owners, used0: set<nat>, used1: set<nat>, heap1: Heap, heap: Heap,
                    nodes1: Owners, nodes: Owners, d: Id, k: nat, contents: NewEntrySet, n: Node, hash: u16,
                    grown: seq<nat>)
    requires Apart(nodes) && nodes == nodes1[Child(d, k) := n] && d in nodes0 && nodes0[d].isDir
    requires Making(g, nodes0, nodes1, d, grown, used0, used1, heap0, heap1)
    requires ChildAdded(g, heap1, heap, nodes1, d, k, contents, n, hash) && 1 <= |contents.name|
    requires contents.dataLength != 0 ==> contents.firstCluster >= 2
    ensures DirsGain(heap0, nodes0, heap, nodes, d, k, contents.name)
  {
    hide Contents;
    hide SlotsOf;
    hide FileSet;
    hide SameSets;
    hide Window;
    hide BuiltSet;
    hide DirsStay;
    hide DirsGain;
    hide TreeOk;
    hide NameIn;
    hide Apart;
    var win := BuiltSet(contents, hash);
    BuiltIsFileSet(contents, hash);
    BuiltCount(contents, hash);
    BuiltName(contents, hash, seq(|win|, _ => NOWHERE));
    NameAnywhere(win, seq(|win|, _ => NOWHERE));
    SetAdded(heap0, nodes0, heap1, heap, nodes1, nodes, d, k, win);
  }

  lemma CreatedDone(fs: FileSystem, nodes0: Owners, heap0: Heap, used0: set<nat>, nodes1: Owners, used1: set<nat>,
                    heap1: Heap, d: Id, k: nat, contents: NewEntrySet, n: Node, hash: u16, grown: seq<nat>)
    requires InvBut(fs, d) && fs.nodes == nodes1[Child(d, k) := n] && used0 <= fs.used
    requires Making(fs.g, nodes0, nodes1, d, grown, used0, used1, heap0, heap1)
    requires ChildAdded(fs.g, heap1, fs.heap, nodes1, d, k, contents, n, hash) && Listed(fs.g, heap0, nodes0, d)
    requires Announces(fs.g, contents, n) && d in nodes0 && nodes0[d].isDir
    ensures Created(fs, nodes0, heap0, used0, d, k, contents.name, n)
  {
    hide FileSystem.Valid;
    hide OwnOk;
    hide TreeBut;
    hide TreeRecords;
    hide Contents;
    hide SlotsOf;
    hide LocAt;
    hide Decode;
    hide FileSet;
    hide SameSets;
    hide Room;
    hide OneMore;
    hide Window;
    hide Listing;
    hide BuiltSet;
    hide DirsStay;
    hide DirsGain;
    NotOwnDirectory(Child(d, k));
    ButLoose(fs, d);
    AllApart(fs);
    LooseListed(fs, d);
    BuiltIsFileSet(contents, hash);
    BuiltCount(contents, hash);
    var ext0, ext, win := nodes0[d].ext, nodes1[d].ext, BuiltSet(contents, hash);
    ListingGains(fs.g, heap0, heap1, fs.heap, ext0, ext, k, win);
    BuiltName(contents, hash, Places(fs.g, fs.heap, ext)[k..k + |win|]);
    CreatedGain(fs.g, heap0, nodes0, used0, used1, heap1, fs.heap, nodes1, fs.nodes, d, k, contents, n, hash, grown);
    assert Child(d, k) !in nodes0;
  }

  lemma AllApart(fs: FileSystem)
    requires InvLoose(fs)
    ensures Apart(fs.nodes)
  {
    hide FileSystem.Valid;
    hide TreeRecords;
  }

  /** No file's record has changed, and directories have at most grown. */
  ghost predicate OwnersKept(nodes0: Owners, nodes: Owners) {
    forall e :: e in nodes0 ==>
      && e in nodes && nodes[e].isDir == nodes0[e].isDir
      && if nodes0[e].isDir then nodes0[e].ext <= nodes[e].ext else nodes[e] == nodes0[e]
  }

  lemma OwnersAfter(g: Geometry, nodes0: Owners, nodes1: Owners, d: Id, k: nat, n: Node, grown: seq<nat>,
                    used0: set<nat>, used1: set<nat>, heap0: Heap, heap1: Heap)
    requires Making(g, nodes0, nodes1, d, grown, used0, used1, heap0, heap1) && nodes0[d].isDir
    requires Child(d, k) !in nodes1
    ensures OwnersKept(nodes0, nodes1[Child(d, k) := n])
  {
    hide SameSets;
    hide Contents;
    hide DirSlots;
  }

  /** The owner of a new, empty file. */
  ghost function FileNode(count: nat): Node { Node([], false, 0, false, count) }

  lemma FileRoom(fs: FileSystem, d: Id, k: nat, units: seq<u16>, locs: seq<EntryLocator>)
    requires fs.Valid() && OwnOk(fs.g, fs.fat, fs.used, fs.bm, fs.nodes) && TreeBut(fs.g, fs.heap, fs.nodes, d)
    requires d in fs.nodes && fs.nodes[d].isDir && 1 <= |units| <= 255 && Scannable(fs.g, fs.heap, fs.nodes[d].ext)
    requires Room(DirSlots(fs.heap, fs.nodes[d].ext), k, SlotsFor(|units|))
    requires LocatedAt(fs.g, fs.nodes[d].ext, k, locs, SlotsFor(|units|))
    ensures var n := FileNode(SlotsFor(|units|));
            && RoomFor(fs.g, fs.fat, fs.used, fs.bm, fs.nodes, fs.heap, d, k, NewFileSet(units), n, locs, n.count)
            && Announces(fs.g, NewFileSet(units), n)
  {
    hide FileSystem.Valid;
    hide TreeBut;
    hide DirSlots;
    hide LocAt;
    hide Room;
    SpareChild(fs.g, fs.heap, fs.nodes, d, k, SlotsFor(|units|));
    NotOwnDirectory(Child(d, k));
    assert Bit(0, 4) == false;
    OwnReplace(fs.g, fs.fat, fs.used, fs.bm, fs.nodes, Child(d, k), FileNode(SlotsFor(|units|)));
  }

  /** Reserved slots start no child. */
  lemma SpareChild(g: Geometry, heap: Heap, nodes: Owners, d: Id, k: nat, wanted: nat)
    requires TreeBut(g, heap, nodes, d) && d in nodes && nodes[d].isDir && wanted > 0
    requires (forall i :: 0 <= i < |nodes[d].ext| ==> nodes[d].ext[i] < |heap|)
    requires Room(DirSlots(heap, nodes[d].ext), k, wanted)
    ensures Child(d, k) !in nodes
  {
    hide RecordOk;
    assert DirRecords(nodes, d, DirSlots(heap, nodes[d].ext), g.BytesPerCluster());
    assert Spare(DirSlots(heap, nodes[d].ext)[k]);
  }

  /** A set of this name has been put where `Find` says, in the directory grown as
      far as it says. */
  ghost predicate SetPut(g: Geometry, heap0: Heap, nodes0: Owners, used0: set<nat>, heap: Heap, nodes: Owners, d: Id,
                         units: seq<u16>, k: nat) {
    exists grown: seq<nat>, win: seq<Slot> :: PutBy(g, heap0, nodes0, used0, heap, nodes, d, units, k, grown, win)
  }

  ghost predicate PutBy(g: Geometry, heap0: Heap, nodes0: Owners, used0: set<nat>, heap: Heap, nodes: Owners, d: Id,
                        units: seq<u16>, k: nat, grown: seq<nat>, win: seq<Slot>) {
    && d in nodes0 && d in nodes && Reads(heap0, nodes0[d].ext) && Reads(heap, nodes[d].ext)
    && nodes[d].ext == nodes0[d].ext + grown
    && (forall c :: c in grown ==> c !in used0 && 2 <= c < g.clusterCount + 2)
    && FileSet(win) && 3 <= |win| == SlotsFor(|units|) <= 19 && NameIn(win) == units
    && var slots, marked, more := DirSlots(heap0, nodes0[d].ext), g.bytesPerSector / 32, g.BytesPerCluster() / 32;
       && Sizes(marked, more) && marked <= |slots| && Find(slots, |win|, marked, more) == Finding(|grown|, k)
       && Room(Roomed(slots, marked, more, |grown|), k, |win|)
       && DirSlots(heap, nodes[d].ext) == Window(Roomed(slots, marked, more, |grown|), k, win)
  }

  lemma PutDone(g: Geometry, nodes0: Owners, heap0: Heap, used0: set<nat>, nodes1: Owners, used1: set<nat>, heap1: Heap,
                heap: Heap, d: Id, k: nat, contents: NewEntrySet, n: Node, hash: u16, grown: seq<nat>)
    requires Making(g, nodes0, nodes1, d, grown, used0, used1, heap0, heap1) && Announces(g, contents, n)
    requires AsFound(g, heap0, nodes0, heap1, nodes1, d, SlotsFor(|contents.name|), |grown|, k, true)
    requires ChildAdded(g, heap1, heap, nodes1, d, k, contents, n, hash)
    ensures SetPut(g, heap0, nodes0, used0, heap, nodes1[Child(d, k) := n], d, contents.name, k)
    ensures ZeroTail(DirSlots(heap0, nodes0[d].ext)) ==> TreeOk(g, heap, nodes1[Child(d, k) := n])
  {
    hide TreeOk;
    hide TreeBut;
    hide Contents;
    hide SameSets;
    hide DirsStay;
    hide DirSlots;
    hide BuiltSet;
    hide Window;
    hide Tight;
    hide FileSet;
    hide ZeroTail;
    hide Find;
    hide Roomed;
    hide NameIn;
    hide Geometry.BytesPerCluster;
    hide Geometry.WellFormed;
    var win := BuiltSet(contents, hash);
    BuiltIsFileSet(contents, hash);
    BuiltCount(contents, hash);
    SetTypes(win);
    BuiltName(contents, hash, seq(|win|, _ => NOWHERE));
    NameAnywhere(win, seq(|win|, _ => NOWHERE));
    NotOwnDirectory(Child(d, k));
    GrownClusters(g, nodes0, nodes1, d, grown, used0, used1, heap0, heap1);
    FindFits(DirSlots(heap0, nodes0[d].ext), |win|, g.bytesPerSector / 32, g.BytesPerCluster() / 32);
    AddedTail(g, heap1, heap, nodes1, d, k, contents, n, hash);
    assert PutBy(g, heap0, nodes0, used0, heap, nodes1[Child(d, k) := n], d, contents.name, k, grown, win);
  }

  lemma GrownClusters(g: Geometry, nodes0: Owners, nodes1: Owners, d: Id, grown: seq<nat>, used0: set<nat>,
                      used1: set<nat>, heap0: Heap, heap1: Heap)
    requires Making(g, nodes0, nodes1, d, grown, used0, used1, heap0, heap1)
    ensures nodes1[d].ext == nodes0[d].ext + grown
    ensures forall c :: c in grown ==> c !in used0 && 2 <= c < g.clusterCount + 2
  {
    hide DirSlots;
    hide SameSets;
    hide DirsStay;
    hide Contents;
    hide Geometry.BytesPerCluster;
    hide Geometry.WellFormed;
    forall i | 0 <= i < |grown|
      ensures 2 <= grown[i] < g.clusterCount + 2
    {
      assert nodes1[d].ext[|nodes0[d].ext| + i] == grown[i];
    }
  }

  /** What a refused creation has done: at most made room. */
  ghost predicate OnlyRoom(g: Geometry, heap0: Heap, nodes0: Owners, used0: set<nat>, heap: Heap, nodes: Owners, d: Id,
                           wanted: nat) {
    exists used: set<nat>, grown: seq<nat>, k: nat, done: bool ::
      RoomBy(g, heap0, nodes0, used0, heap, nodes, used, d, wanted, grown, k, done)
  }

  ghost predicate RoomBy(g: Geometry, heap0: Heap, nodes0: Owners, used0: set<nat>, heap: Heap, nodes: Owners,
                         used: set<nat>, d: Id, wanted: nat, grown: seq<nat>, k: nat, done: bool) {
    && Making(g, nodes0, nodes, d, grown, used0, used, heap0, heap) && |grown| <= 2
    && AsFound(g, heap0, nodes0, heap, nodes, d, wanted, |grown|, k, done) && (!done ==> Full(g, used))
  }

  lemma RoomDecides(fs: FileSystem, heap0: Heap, nodes0: Owners, used0: set<nat>, used: set<nat>, d: Id, wanted: nat,
                    grown: seq<nat>, k: nat, done: bool)
    requires InvBut(fs, d) && RoomBy(fs.g, heap0, nodes0, used0, fs.heap, fs.nodes, used, d, wanted, grown, k, done)
    requires 3 <= wanted <= 19 && d in nodes0 && nodes0[d].isDir
    ensures OnlyRoom(fs.g, heap0, nodes0, used0, fs.heap, fs.nodes, d, wanted)
    ensures Reads(heap0, nodes0[d].ext)
    ensures ZeroTail(DirSlots(heap0, nodes0[d].ext)) ==>
      (Inv(fs) <==> Gapless(fs.g, heap0, nodes0, used0, d, wanted))
    ensures Contents(fs.heap, fs.nodes) == Contents(heap0, nodes0)
  {
    hide FileSystem.Valid;
    hide OwnOk;
    hide TreeOk;
    hide TreeBut;
    hide AsFound;
    hide Making;
    hide Gapless;
    hide Contents;
    hide DirSlots;
    hide ZeroTail;
    MakingExtent(fs.g, nodes0, fs.nodes, d, grown, used0, used, heap0, fs.heap);
    FoundReads(fs.g, heap0, nodes0, fs.heap, fs.nodes, d, wanted, |grown|, k, done);
    if ZeroTail(DirSlots(heap0, nodes0[d].ext)) {
      GapExactly(fs.g, heap0, nodes0, used0, fs.heap, fs.nodes, used, d, wanted, grown, k, done);
    }
  }

  lemma FoundReads(g: Geometry, heap0: Heap, nodes0: Owners, heap: Heap, nodes: Owners, d: Id, wanted: nat,
                   growths: nat, k: nat, done: bool)
    requires AsFound(g, heap0, nodes0, heap, nodes, d, wanted, growths, k, done) && 3 <= wanted <= 19
    ensures Reads(heap0, nodes0[d].ext) && Reads(heap, nodes[d].ext)
    ensures done ==> Room(DirSlots(heap, nodes[d].ext), k, wanted)
  {
    hide DirSlots;
    hide Find;
    hide Roomed;
    hide Room;
    hide ZeroTail;
    FindFits(DirSlots(heap0, nodes0[d].ext), wanted, g.bytesPerSector / 32, g.BytesPerCluster() / 32);
  }

  /** A search that has not come to its end has found no room at first, and can grow
      the directory at most once more. */
  lemma ShortIsRoomless(g: Geometry, heap0: Heap, nodes0: Owners, heap: Heap, nodes: Owners, d: Id, wanted: nat,
                        growths: nat, k: nat)
    requires AsFound(g, heap0, nodes0, heap, nodes, d, wanted, growths, k, false) && 3 <= wanted <= 19
    ensures Roomless(heap0, nodes0, d, wanted) && growths <= 1
  {
    hide DirSlots;
    hide Roomed;
    hide HoldsRun;
    hide Geometry.BytesPerCluster;
    FindFits(DirSlots(heap0, nodes0[d].ext), wanted, g.bytesPerSector / 32, g.BytesPerCluster() / 32);
  }

  lemma RoomParts(g: Geometry, heap0: Heap, nodes0: Owners, used0: set<nat>, heap: Heap, nodes: Owners, used: set<nat>,
                  d: Id, wanted: nat, grown: seq<nat>, k: nat)
    requires RoomBy(g, heap0, nodes0, used0, heap, nodes, used, d, wanted, grown, k, true)
    ensures Making(g, nodes0, nodes, d, grown, used0, used, heap0, heap)
    ensures AsFound(g, heap0, nodes0, heap, nodes, d, wanted, |grown|, k, true) && |grown| <= 2
  {
    hide Making;
    hide AsFound;
  }

  /** An intact directory is intact up to gaps. */
  lemma TailStart(fs: FileSystem, d: Id)
    requires InvBut(fs, d) && d in fs.nodes && fs.nodes[d].isDir
    ensures Listed(fs.g, fs.heap, fs.nodes, d) && UpcaseFile in fs.nodes && !fs.nodes[UpcaseFile].isDir
    ensures Reads(fs.heap, fs.nodes[d].ext)
    ensures Inv(fs) ==> ZeroTail(DirSlots(fs.heap, fs.nodes[d].ext))
  {
    hide FileSystem.Valid;
    hide OwnOk;
    hide TreeOk;
    hide TreeBut;
    hide TreeRecords;
    hide ZeroTail;
    ButLoose(fs, d);
    LooseListed(fs, d);
    UpcaseNotDirectory(fs.g, fs.fat, fs.used, fs.bm, fs.nodes);
    if Inv(fs) { DirTail(fs, d); }
  }

  /** All that writing the new child's set has done since before room was made. */
  lemma ChildPut(fs: FileSystem, nodes0: Owners, heap0: Heap, used0: set<nat>, nodes1: Owners, used1: set<nat>,
                 heap1: Heap, d: Id, k: nat, contents: NewEntrySet, n: Node, hash: u16, grown: seq<nat>)
    requires InvBut(fs, d) && fs.nodes == nodes1[Child(d, k) := n] && used0 <= fs.used
    requires Making(fs.g, nodes0, nodes1, d, grown, used0, used1, heap0, heap1)
    requires AsFound(fs.g, heap0, nodes0, heap1, nodes1, d, SlotsFor(|contents.name|), |grown|, k, true)
    requires ChildAdded(fs.g, heap1, fs.heap, nodes1, d, k, contents, n, hash) && Listed(fs.g, heap0, nodes0, d)
    requires Announces(fs.g, contents, n) && d in nodes0 && nodes0[d].isDir
    ensures Created(fs, nodes0, heap0, used0, d, k, contents.name, n) && OwnersKept(nodes0, fs.nodes)
    ensures SetPut(fs.g, heap0, nodes0, used0, fs.heap, fs.nodes, d, contents.name, k)
    ensures ZeroTail(DirSlots(heap0, nodes0[d].ext)) ==> Inv(fs)
    ensures Child(d, k) !in nodes1 && InvLoose(fs) && d in nodes1
  {
    hide FileSystem.Valid;
    hide OwnOk;
    hide TreeOk;
    hide TreeBut;
    hide TreeRecords;
    hide Making;
    hide AsFound;
    hide ChildAdded;
    hide Created;
    hide SetPut;
    hide Announces;
    hide OwnersKept;
    hide ZeroTail;
    hide DirSlots;
    MakingExtent(fs.g, nodes0, nodes1, d, grown, used0, used1, heap0, heap1);
    CreatedDone(fs, nodes0, heap0, used0, nodes1, used1, heap1, d, k, contents, n, hash, grown);
    PutDone(fs.g, nodes0, heap0, used0, nodes1, used1, heap1, fs.heap, d, k, contents, n, hash, grown);
    AddedTree(fs.g, heap1, fs.heap, nodes1, d, k, contents, n, hash);
    OwnersAfter(fs.g, nodes0, nodes1, d, k, n, grown, used0, used1, heap0, heap1);
    ButLoose(fs, d);
  }

  /** Reserve the slots of a new set.  The room found is what `Find` says; nothing
      else changes its meaning; and a directory is left with a gap exactly if
      `Gapless` does not hold. */
  method ReserveSet(fs: FileSystem, dir: Directory, wanted: nat, ghost d: Id)
    returns (r: Result<seq<EntryLocator>>, ghost k: nat, ghost grown: seq<nat>)
    requires InvBut(fs, d) && TableReady(fs) && DirIs(fs.g, fs.nodes, dir, d) && MetaOk(fs.g, fs.nodes, dir, d)
    requires 3 <= wanted <= 19
    modifies fs`clock, fs`scratch, fs`disk, fs`fat, fs`heap, fs`used, fs`free, fs`nodes
    ensures fs.Valid() && UpcaseFile in old(fs.nodes) && !old(fs.nodes)[UpcaseFile].isDir
    ensures r.Err? ==> r.error in {Device, NoSpace}
    ensures r.Ok? || r == Err(NoSpace) ==>
      && InvBut(fs, d) && TableReady(fs) && Table(fs) == old(Table(fs)) && d in fs.nodes && fs.nodes[d].isDir
      && Contents(fs.heap, fs.nodes) == old(Contents(fs.heap, fs.nodes)) && old(fs.used) <= fs.used
      && Scannable(fs.g, fs.heap, fs.nodes[d].ext)
      && RoomBy(fs.g, old(fs.heap), old(fs.nodes), old(fs.used), fs.heap, fs.nodes, fs.used, d, wanted, grown, k, r.Ok?)
      && OnlyRoom(fs.g, old(fs.heap), old(fs.nodes), old(fs.used), fs.heap, fs.nodes, d, wanted)
      && (old(Inv(fs)) ==> (Inv(fs) <==> Gapless(fs.g, old(fs.heap), old(fs.nodes), old(fs.used), d, wanted)))
    ensures r.Ok? ==>
      LocatedAt(fs.g, fs.nodes[d].ext, k, r.value, wanted) && Room(DirSlots(fs.heap, fs.nodes[d].ext), k, wanted)
    ensures r.Ok? || r == Err(NoSpace) ==> Took(old(fs.used), fs.used, 2)
    ensures r == Err(NoSpace) ==>
      && Full(fs.g, fs.used) && (old(Inv(fs)) ==> Inv(fs)) && Took(old(fs.used), fs.used, 1)
      && Roomless(old(fs.heap), old(fs.nodes), d, wanted)
    ensures r != Err(Device) && old(HasVacancy(fs.heap, fs.nodes, d, wanted)) ==>
      && r.Ok? && grown == [] && fs.used == old(fs.used) && old(FillsVacancy(fs.heap, fs.nodes, d, wanted, k))
    ensures Honest(fs.faulty, old(fs.clock), fs.clock, r == Err(Device))
  {
    hide FileSystem.Valid;
    hide OwnOk;
    hide TreeOk;
    hide TreeBut;
    hide Content;
    hide Contents;
    hide DirSlots;
    hide LocatedAt;
    hide Room;
    hide MetaOk;
    hide SameSets;
    hide AsFound;
    hide Making;
    hide Gapless;
    hide OnlyRoom;
    hide ZeroTail;
    hide Listed;
    hide Full;
    hide Took;
    hide HasVacancy;
    hide FillsVacancy;
    hide Roomless;
    ghost var nodes0, heap0, used0 := fs.nodes, fs.heap, fs.used;
    DirIsDirectory(fs.g, fs.nodes, dir, d);
    TailStart(fs, d);
    r, k, grown := FindFreeEntries(fs, dir, wanted, d);
    if r.Ok? || r == Err(NoSpace) {
      MakingExtent(fs.g, nodes0, fs.nodes, d, grown, used0, fs.used, heap0, fs.heap);
      RoomDecides(fs, heap0, nodes0, used0, fs.used, d, wanted, grown, k, r.Ok?);
      FoundReads(fs.g, heap0, nodes0, fs.heap, fs.nodes, d, wanted, |grown|, k, r.Ok?);
      NewTable(fs, nodes0, heap0, used0, fs.used, d, grown);
    }
    if r.Ok? || r == Err(NoSpace) {
      GrownTook(fs.g, nodes0, fs.nodes, d, grown, used0, fs.used, heap0, fs.heap);
      TookWiden(used0, fs.used, |grown|, 2);
    }
    if r == Err(NoSpace) {
      ShortIsGapless(fs, heap0, nodes0, used0, d, wanted, grown, k);
      ShortIsRoomless(fs.g, heap0, nodes0, fs.heap, fs.nodes, d, wanted, |grown|, k);
      TookWiden(used0, fs.used, |grown|, 1);
    }
  }

  /** The new entry's set is in the first vacant place of its directory. */
  ghost predicate TakesVacancy(heap: Heap, nodes: Owners, d: Id, wanted: nat, id: Id) {
    id.Child? && id.dir == d && FillsVacancy(heap, nodes, d, wanted, id.at)
  }

  /** Create an empty file in a directory: one more record, one more file, and
      nothing else; the handle returned is at rest on it.  The directory may have
      unused slots before others; a refused creation leaves some in an intact one
      exactly if `Gapless` does not hold.  Where slots are vacant no cluster is
      needed. */
  method CreateIn(fs: FileSystem, dir: Directory, units: seq<u16>, ghost d: Id) returns (r: Result<File>)
    requires InvBut(fs, d) && TableReady(fs) && DirIs(fs.g, fs.nodes, dir, d) && MetaOk(fs.g, fs.nodes, dir, d)
    requires 1 <= |units| <= 255
    modifies fs`clock, fs`scratch, fs`disk, fs`fat, fs`heap, fs`used, fs`free, fs`nodes
    ensures fs.Valid() && UpcaseFile in old(fs.nodes)
    ensures r.Ok? ==>
      && InvBut(fs, d) && TableReady(fs) && fresh(r.value) && Holds(fs, r.value) && r.value.position == 0
      && r.value.id.Child? && r.value.id.dir == d
      && Created(fs, old(fs.nodes), old(fs.heap), old(fs.used), d, r.value.id.at, units, FileNode(SlotsFor(|units|)))
      && SetPut(fs.g, old(fs.heap), old(fs.nodes), old(fs.used), fs.heap, fs.nodes, d, units, r.value.id.at)
      && OwnersKept(old(fs.nodes), fs.nodes)
      && HashOf(fs.upcaseValid, old(Table(fs)), units).Ok?
    ensures r.Ok? && old(Inv(fs)) ==> Inv(fs)
    ensures r.Err? && r.error != Device ==>
      && InvBut(fs, d) && Contents(fs.heap, fs.nodes) == old(Contents(fs.heap, fs.nodes))
      && OnlyRoom(fs.g, old(fs.heap), old(fs.nodes), old(fs.used), fs.heap, fs.nodes, d, SlotsFor(|units|))
    ensures r.Err? && r.error != Device && old(Inv(fs)) ==>
      (Inv(fs) <==> Gapless(fs.g, old(fs.heap), old(fs.nodes), old(fs.used), d, SlotsFor(|units|)))
    ensures r.Err? && r.error !in {Device, NoSpace} ==> HashOf(fs.upcaseValid, old(Table(fs)), units) == Err(r.error)
    ensures Honest(fs.faulty, old(fs.clock), fs.clock, r == Err(Device))
    ensures r == Err(NoSpace) ==> Full(fs.g, fs.used)
    ensures r == Err(NoSpace) ==>
      && (old(Inv(fs)) ==> Inv(fs)) && Took(old(fs.used), fs.used, 1)
      && Roomless(old(fs.heap), old(fs.nodes), d, SlotsFor(|units|))
    ensures r != Err(Device) ==> Took(old(fs.used), fs.used, 2)
    ensures r != Err(Device) && old(HasVacancy(fs.heap, fs.nodes, d, SlotsFor(|units|))) ==>
      r != Err(NoSpace) && fs.used == old(fs.used)
    ensures r.Ok? && old(HasVacancy(fs.heap, fs.nodes, d, SlotsFor(|units|))) ==>
      TakesVacancy(old(fs.heap), old(fs.nodes), d, SlotsFor(|units|), r.value.id)
  {
    hide Failures;
    hide FileSystem.Valid;
    hide OwnOk;
    hide TreeOk;
    hide TreeBut;
    hide Content;
    hide Contents;
    hide DirSlots;
    hide LocAt;
    hide HashOf;
    hide Room;
    hide MetaOk;
    hide Created;
    hide ChildAdded;
    hide Announces;
    hide SameSets;
    hide OwnersKept;
    hide AsFound;
    hide Gapless;
    hide SetPut;
    hide OnlyRoom;
    hide ZeroTail;
    hide Making;
    hide RoomBy;
    hide Took;
    hide HasVacancy;
    hide FillsVacancy;
    hide Roomless;
    ghost var nodes0, heap0, used0 := fs.nodes, fs.heap, fs.used;
    DirIsDirectory(fs.g, fs.nodes, dir, d);
    TailStart(fs, d);
    var names := DivCeil(|units|, 15);
    var entries := 2 + names;
    NameSlots(|units|);
    var reserved, k, grown := ReserveSet(fs, dir, entries, d);
    if reserved.Err? { return Err(reserved.error); }
    RoomParts(fs.g, heap0, nodes0, used0, fs.heap, fs.nodes, fs.used, d, entries, grown, k);
    var locs := reserved.value;
    FileRoom(fs, d, k, units, locs);
    ghost var nodes1, heap1, used1, n := fs.nodes, fs.heap, fs.used, FileNode(entries);
    var written, hash := AddChild(fs, locs, entries, NewFileSet(units), d, k, n);
    if written.Err? { return Err(written.error); }
    ChildPut(fs, nodes0, heap0, used0, nodes1, used1, heap1, d, k, NewFileSet(units), n, hash, grown);
    var file := new File(locs[0], locs[1], locs, entries, 0, 0, 0, true, Child(d, k), []);
    NewHolds(fs, file, d, k, nodes1);
    return Ok(file);
  }

  /** A directory that lacks room even for one growth has no gap. */
  lemma ShortIsGapless(fs: FileSystem, heap0: Heap, nodes0: Owners, used0: set<nat>, d: Id, wanted: nat,
                       grown: seq<nat>, k: nat)
    requires RoomBy(fs.g, heap0, nodes0, used0, fs.heap, fs.nodes, fs.used, d, wanted, grown, k, false)
    requires 3 <= wanted <= 19 && d in nodes0
    ensures Reads(heap0, nodes0[d].ext)
    ensures ZeroTail(DirSlots(heap0, nodes0[d].ext)) ==> Gapless(fs.g, heap0, nodes0, used0, d, wanted)
  {
    hide Making;
    hide DirSlots;
    hide Roomed;
    hide Find;
    hide ZeroTail;
    hide NoneBefore;
    hide HoldsRun;
    hide Geometry.BytesPerCluster;
    hide Full;
    var slots, marked, more := DirSlots(heap0, nodes0[d].ext), fs.g.bytesPerSector / 32, fs.g.BytesPerCluster() / 32;
    GrownNotFull(fs.g, nodes0, fs.nodes, d, grown, used0, fs.used, heap0, fs.heap);
    FindFits(slots, wanted, marked, more);
    if ZeroTail(slots) && |grown| == 1 { TwiceGrown(slots, wanted, marked, more); }
  }

  lemma NameSlots(n: nat)
    requires 1 <= n <= 255
    ensures 3 <= 2 + DivCeil(n, 15) <= 19 && 2 + DivCeil(n, 15) == SlotsFor(n)
  {
  }

  lemma UpcaseNotDirectory(g: Geometry, fat: seq<u32>, used: set<nat>, bm: seq<nat>, nodes: Owners)
    requires OwnOk(g, fat, used, bm, nodes)
    ensures UpcaseFile in nodes && !nodes[UpcaseFile].isDir
  {
  }

  lemma NewHolds(fs: FileSystem, file: File, d: Id, k: nat, nodes1: Owners)
    requires InvLoose(fs) && file.id == Child(d, k) && d in nodes1
    requires file.id in fs.nodes && fs.nodes[file.id] == FileNode(file.entryCount)
    requires fs.nodes == nodes1[file.id := fs.nodes[file.id]]
    requires file.State() == FileState(0, 0, 0, 0, true, None, 0) && file.ext == []
    requires LocatedAt(fs.g, nodes1[d].ext, k, file.entryLocs, file.entryCount) && 2 <= file.entryCount
    requires file.primary == file.entryLocs[0] && file.stream == file.entryLocs[1]
    ensures Holds(fs, file)
  {
    hide FileSystem.Valid;
    hide TreeRecords;
    fs.Basics();
    NotOwnDirectory(file.id);
    ChildParent(fs.g, fs.fat, fs.used, fs.bm, fs.nodes, file.id);
  }

  /** The owner of a new, empty directory. */
  ghost function DirectoryOwner(g: Geometry, c: nat, count: nat): Node {
    Node([c], true, g.BytesPerCluster(), true, count)
  }

  lemma DirectoryRoom(fs: FileSystem, d: Id, k: nat, units: seq<u16>, locs: seq<EntryLocator>, c: nat)
    requires fs.Valid() && OwnOk(fs.g, fs.fat, fs.used, fs.bm, fs.nodes) && TreeBut(fs.g, fs.heap, fs.nodes, d)
    requires d in fs.nodes && fs.nodes[d].isDir && 1 <= |units| <= 255 && Scannable(fs.g, fs.heap, fs.nodes[d].ext)
    requires Room(DirSlots(fs.heap, fs.nodes[d].ext), k, SlotsFor(|units|))
    requires LocatedAt(fs.g, fs.nodes[d].ext, k, locs, SlotsFor(|units|))
    requires 2 <= c < fs.g.clusterCount + 2 && c in fs.used && |fs.fat| == fs.g.clusterCount + 2 && fs.fat[c] >= EOC_MIN
    requires c < |fs.heap| && fs.heap[c] == Zeros(fs.g.BytesPerCluster())
    requires forall other, i :: other in fs.nodes && 0 <= i < |fs.nodes[other].ext| ==> fs.nodes[other].ext[i] != c
    ensures c <= U32_MAX && fs.g.BytesPerCluster() <= U64_MAX
    ensures var n := DirectoryOwner(fs.g, c, SlotsFor(|units|));
            && RoomFor(fs.g, fs.fat, fs.used, fs.bm, fs.nodes, fs.heap, d, k,
                       NewDirectorySet(units, c, fs.g.BytesPerCluster()), n, locs, n.count)
            && Announces(fs.g, NewDirectorySet(units, c, fs.g.BytesPerCluster()), n)
  {
    hide FileSystem.Valid;
    hide TreeBut;
    hide DirSlots;
    hide LocAt;
    hide Room;
    hide Geometry.BytesPerCluster;
    hide LocatedAt;
    hide OwnOk;
    hide Announces;
    fs.Basics();
    ClusterBound(fs.g);
    SpareChild(fs.g, fs.heap, fs.nodes, d, k, SlotsFor(|units|));
    DirectoryAnnounced(fs.g, units, c);
    DirectoryOwned(fs.g, fs.fat, fs.used, fs.bm, fs.nodes, d, k, c, SlotsFor(|units|));
    assert c !in fs.nodes[d].ext;
  }

  lemma DirectoryAnnounced(g: Geometry, units: seq<u16>, c: nat)
    requires 1 <= |units| <= 255 && 2 <= c <= U32_MAX && g.BytesPerCluster() <= U64_MAX
    ensures Announces(g, NewDirectorySet(units, c, g.BytesPerCluster()), DirectoryOwner(g, c, SlotsFor(|units|)))
  {
    hide Geometry.BytesPerCluster;
    assert Bit(0x10, 4);
  }

  lemma DirectoryNodeOk(g: Geometry, fat: seq<u32>, used: set<nat>, c: nat, count: nat)
    requires 2 <= c < g.clusterCount + 2 == |fat| && c in used && fat[c] >= EOC_MIN
    ensures NodeOk(g, fat, used, DirectoryOwner(g, c, count))
  {
    hide Geometry.BytesPerCluster;
  }

  lemma DirectoryOwned(g: Geometry, fat: seq<u32>, used: set<nat>, bm: seq<nat>, nodes: Owners, d: Id, k: nat, c: nat,
                       count: nat)
    requires OwnOk(g, fat, used, bm, nodes) && d in nodes && nodes[d].isDir && Child(d, k) !in nodes
    requires 2 <= c < g.clusterCount + 2 == |fat| && c in used && fat[c] >= EOC_MIN
    requires forall other, i :: other in nodes && 0 <= i < |nodes[other].ext| ==> nodes[other].ext[i] != c
    ensures OwnOk(g, fat, used, bm, nodes[Child(d, k) := DirectoryOwner(g, c, count)])
  {
    hide OwnOk;
    hide NodeOk;
    NotOwnDirectory(Child(d, k));
    DirectoryNodeOk(g, fat, used, c, count);
    OwnReplace(g, fat, used, bm, nodes, Child(d, k), DirectoryOwner(g, c, count));
  }

  /** What was made room for stays reserved while a cluster is taken. */
  lemma MakingKept(g: Geometry, nodes0: Owners, nodes: Owners, id: Id, grown: seq<nat>, used0: set<nat>, used: set<nat>,
                   heap0: Heap, heap: Heap, heap': Heap)
    requires Making(g, nodes0, nodes, id, grown, used0, used, heap0, heap) && HeapShape(g, heap')
    requires Contents(heap', nodes) == Contents(heap, nodes)
    requires |heap'| == |heap| && (forall i :: 0 <= i < |nodes[id].ext| ==> nodes[id].ext[i] < |heap|)
    requires Flat(heap', nodes[id].ext) == Flat(heap, nodes[id].ext) && DirsKept(heap, heap', nodes)
    ensures Making(g, nodes0, nodes, id, grown, used0, used, heap0, heap')
  {
    hide DirsStay;
    hide DirsKept;
    StandsOn(heap0, nodes0, heap, nodes, heap');
    hide SlotsOf;
    hide SameSets;
    hide Contents;
  }

  lemma MakingExtent(g: Geometry, nodes0: Owners, nodes: Owners, id: Id, grown: seq<nat>, used0: set<nat>,
                     used: set<nat>, heap0: Heap, heap: Heap)
    requires Making(g, nodes0, nodes, id, grown, used0, used, heap0, heap)
    ensures id in nodes && id in nodes0 && nodes[id].isDir == nodes0[id].isDir && used0 <= used
    ensures Scannable(g, heap, nodes[id].ext) && forall i :: 0 <= i < |nodes[id].ext| ==> nodes[id].ext[i] < |heap|
    ensures Contents(heap, nodes) == Contents(heap0, nodes0)
  {
    hide Contents;
    hide SameSets;
  }

  /** A directory without children lists nothing. */
  lemma EmptyListing(fs: FileSystem, id: Id)
    requires InvLoose(fs) && id in fs.nodes && fs.nodes[id].isDir && forall j: nat :: Child(id, j) !in fs.nodes
    ensures Listed(fs.g, fs.heap, fs.nodes, id) && ListHere(fs.g, fs.heap, fs.nodes, id) == []
  {
    hide FileSystem.Valid;
    hide OwnOk;
    hide TreeRecords;
    hide RecordOk;
    LooseListed(fs, id);
    NoRecords(DirSlots(fs.heap, fs.nodes[id].ext), Places(fs.g, fs.heap, fs.nodes[id].ext), 0,
              |DirSlots(fs.heap, fs.nodes[id].ext)|);
  }

  /** Taking a cluster for the new directory leaves the room made for its set. */
  lemma ClusterTaken(fs: FileSystem, nodes0: Owners, heap0: Heap, used0: set<nat>, fat1: seq<u32>, used1: set<nat>,
                     heap1: Heap, d: Id, grown: seq<nat>)
    requires fs.Valid() && OwnOk(fs.g, fat1, used1, fs.bm, fs.nodes) && Untouched(heap1, fs.heap, used1, fs.bm)
    requires TreeBut(fs.g, heap1, fs.nodes, d) && d in fs.nodes && fs.nodes[d].isDir
    requires Making(fs.g, nodes0, fs.nodes, d, grown, used0, used1, heap0, heap1)
    requires UpcaseFile in nodes0 && !nodes0[UpcaseFile].isDir && d in nodes0 && nodes0[d].isDir
    requires fs.upcaseValid ==>
          && nodes0[UpcaseFile].ext != [] && nodes0[UpcaseFile].ext[0] == fs.upcase.firstCluster
          && nodes0[UpcaseFile].valid == fs.upcase.byteLength
    ensures forall i :: 0 <= i < |fs.nodes[d].ext| ==> fs.nodes[d].ext[i] < |heap1| == |fs.heap|
    ensures TreeBut(fs.g, fs.heap, fs.nodes, d) && Scannable(fs.g, fs.heap, fs.nodes[d].ext)
    ensures Making(fs.g, nodes0, fs.nodes, d, grown, used0, used1, heap0, fs.heap)
    ensures DirSlots(fs.heap, fs.nodes[d].ext) == DirSlots(heap1, fs.nodes[d].ext)
    ensures TableReady(fs) && Table(fs) == Content(heap0, nodes0[UpcaseFile])
    ensures Contents(fs.heap, fs.nodes) == Contents(heap0, nodes0)
  {
    hide FileSystem.Valid;
    hide OwnOk;
    hide TreeBut;
    hide Making;
    hide Untouched;
    hide Content;
    hide Contents;
    hide DirSlots;
    fs.Basics();
    MakingExtent(fs.g, nodes0, fs.nodes, d, grown, used0, used1, heap0, heap1);
    ButKept(fs.g, fat1, used1, fs.bm, fs.nodes, heap1, fs.heap, d);
    DirectoryFlat(fs.g, fat1, used1, fs.bm, fs.nodes, heap1, fs.heap, d);
    MakingKept(fs.g, nodes0, fs.nodes, d, grown, used0, used1, heap0, heap1, fs.heap);
    SameSlots(heap1, fs.heap, fs.nodes[d].ext);
    NewTable(fs, nodes0, heap0, used0, used1, d, grown);
    MakingExtent(fs.g, nodes0, fs.nodes, d, grown, used0, used1, heap0, fs.heap);
    ScannableGeometry(fs.g, heap1, fs.nodes[d].ext);
    ScannableOn(fs, fs.nodes[d].ext);
  }

  /** Reserve the slots for a new directory's set, then a cluster for itself. */
  method ReserveDirectory(fs: FileSystem, dir: Directory, wanted: nat, ghost d: Id)
    returns (r: Result<seq<EntryLocator>>, c: nat, ghost k: nat, ghost grown: seq<nat>, ghost used1: set<nat>)
    requires InvBut(fs, d) && TableReady(fs) && DirIs(fs.g, fs.nodes, dir, d) && MetaOk(fs.g, fs.nodes, dir, d)
    requires 3 <= wanted <= 19
    modifies fs`clock, fs`scratch, fs`disk, fs`fat, fs`heap, fs`used, fs`free, fs`nodes
    ensures fs.Valid() && UpcaseFile in old(fs.nodes) && (r.Err? ==> r.error in {Device, NoSpace})
    ensures r.Ok? || r == Err(NoSpace) ==>
      && InvBut(fs, d) && TableReady(fs) && Table(fs) == old(Table(fs))
      && Contents(fs.heap, fs.nodes) == old(Contents(fs.heap, fs.nodes))
      && OnlyRoom(fs.g, old(fs.heap), old(fs.nodes), old(fs.used), fs.heap, fs.nodes, d, wanted)
      && (old(Inv(fs)) ==> (Inv(fs) <==> Gapless(fs.g, old(fs.heap), old(fs.nodes), old(fs.used), d, wanted)))
    ensures r.Ok? ==>
      && d in fs.nodes && fs.nodes[d].isDir && Scannable(fs.g, fs.heap, fs.nodes[d].ext)
      && Making(fs.g, old(fs.nodes), fs.nodes, d, grown, old(fs.used), used1, old(fs.heap), fs.heap)
      && AsFound(fs.g, old(fs.heap), old(fs.nodes), fs.heap, fs.nodes, d, wanted, |grown|, k, true)
      && Room(DirSlots(fs.heap, fs.nodes[d].ext), k, wanted)
      && LocatedAt(fs.g, fs.nodes[d].ext, k, r.value, wanted)
    ensures r.Ok? ==>
      && |fs.fat| == fs.g.clusterCount + 2 && 2 <= c < fs.g.clusterCount + 2 && c in fs.used && fs.fat[c] >= EOC_MIN
      && c < |fs.heap| && fs.heap[c] == Zeros(fs.g.BytesPerCluster()) && old(fs.used) <= fs.used && c !in old(fs.used)
      && forall other, i :: other in fs.nodes && 0 <= i < |fs.nodes[other].ext| ==> fs.nodes[other].ext[i] != c
    ensures r == Err(NoSpace) ==> Full(fs.g, fs.used)
    ensures r.Ok? || r == Err(NoSpace) ==> Took(old(fs.used), fs.used, 3)
    ensures Honest(fs.faulty, old(fs.clock), fs.clock, r == Err(Device))
  {
    hide Failures;
    hide FileSystem.Valid;
    hide OwnOk;
    hide TreeOk;
    hide TreeBut;
    hide Content;
    hide Contents;
    hide DirSlots;
    hide LocatedAt;
    hide Room;
    hide MetaOk;
    hide SameSets;
    hide AsFound;
    hide Making;
    hide RoomBy;
    hide Gapless;
    hide OnlyRoom;
    hide ZeroTail;
    hide Listed;
    hide Full;
    hide Took;
    hide Roomless;
    hide Untouched;
    hide Geometry.BytesPerCluster;
    c, used1 := 0, fs.used;
    ghost var nodes0, heap0, used0 := fs.nodes, fs.heap, fs.used;
    DirIsDirectory(fs.g, fs.nodes, dir, d);
    TailStart(fs, d);
    r, k, grown := ReserveSet(fs, dir, wanted, d);
    if r == Err(NoSpace) { TookWiden(used0, fs.used, 2, 3); }
    if r.Err? { return; }
    TookWiden(used0, fs.used, 2, 3);
    RoomParts(fs.g, heap0, nodes0, used0, fs.heap, fs.nodes, fs.used, d, wanted, grown, k);
    used1 := fs.used;
    ghost var heap1, fat1 := fs.heap, fs.fat;
    var taken := TakeCluster(fs, 2);
    if taken.Err? { return Err(taken.error), c, k, grown, used1; }
    assert HeapShape(fs.g, fs.heap) && |fs.fat| == fs.g.clusterCount + 2 by { fs.Basics(); }
    c := taken.value;
    TookMore(used0, used1, 2, c);
    assert c < |fs.heap| by { fs.Basics(); }
    ClusterTaken(fs, nodes0, heap0, used0, fat1, used1, heap1, d, grown);
    RoomStill(fs.g, heap0, nodes0, used0, heap1, fs.heap, fs.nodes, used1, d, wanted, grown, k);
    RoomDecides(fs, heap0, nodes0, used0, used1, d, wanted, grown, k, true);
  }

  /** Create an empty directory in a directory: one more record, no file's bytes
      changed, and the new directory lists nothing.  A refusal leaves unused slots
      before others in an intact directory exactly if `Gapless` does not hold. */
  method CreateDirectoryIn(fs: FileSystem, dir: Directory, units: seq<u16>, ghost d: Id)
    returns (r: Result<Directory>, ghost k: nat)
    requires InvBut(fs, d) && TableReady(fs) && DirIs(fs.g, fs.nodes, dir, d) && MetaOk(fs.g, fs.nodes, dir, d)
    requires 1 <= |units| <= 255
    modifies fs`clock, fs`scratch, fs`disk, fs`fat, fs`heap, fs`used, fs`free, fs`nodes
    ensures fs.Valid() && UpcaseFile in old(fs.nodes)
    ensures r.Ok? ==>
      && InvBut(fs, d) && TableReady(fs) && Child(d, k) in fs.nodes && fs.nodes[Child(d, k)].isDir
      && Created(fs, old(fs.nodes), old(fs.heap), old(fs.used), d, k, units, fs.nodes[Child(d, k)])
      && SetPut(fs.g, old(fs.heap), old(fs.nodes), old(fs.used), fs.heap, fs.nodes, d, units, k)
      && OwnersKept(old(fs.nodes), fs.nodes)
      && Listed(fs.g, fs.heap, fs.nodes, Child(d, k)) && ListHere(fs.g, fs.heap, fs.nodes, Child(d, k)) == []
      && DirIs(fs.g, fs.nodes, r.value, Child(d, k)) && MetaOk(fs.g, fs.nodes, r.value, Child(d, k))
      && HashOf(fs.upcaseValid, old(Table(fs)), units).Ok?
    ensures r.Ok? ==>
      fs.nodes[Child(d, k)].ext != [] && forall c :: c in fs.nodes[Child(d, k)].ext ==> c !in old(fs.used)
    ensures r.Ok? && old(Inv(fs)) ==> Inv(fs)
    ensures r.Err? && r.error != Device ==>
      && InvBut(fs, d) && Contents(fs.heap, fs.nodes) == old(Contents(fs.heap, fs.nodes))
      && OnlyRoom(fs.g, old(fs.heap), old(fs.nodes), old(fs.used), fs.heap, fs.nodes, d, SlotsFor(|units|))
    ensures r.Err? && r.error != Device && old(Inv(fs)) ==>
      (Inv(fs) <==> Gapless(fs.g, old(fs.heap), old(fs.nodes), old(fs.used), d, SlotsFor(|units|)))
    ensures r.Err? && r.error !in {Device, NoSpace} ==> HashOf(fs.upcaseValid, old(Table(fs)), units) == Err(r.error)
    ensures Honest(fs.faulty, old(fs.clock), fs.clock, r == Err(Device))
    ensures r == Err(NoSpace) ==> Full(fs.g, fs.used)
    ensures r != Err(Device) ==> Took(old(fs.used), fs.used, 3)
  {
    hide Failures;
    hide FileSystem.Valid;
    hide OwnOk;
    hide TreeOk;
    hide TreeBut;
    hide Took;
    hide Content;
    hide Contents;
    hide DirSlots;
    hide LocAt;
    hide HashOf;
    hide Room;
    hide MetaOk;
    hide DirIs;
    hide Created;
    hide ChildAdded;
    hide Announces;
    hide RoomFor;
    hide SameSets;
    hide Making;
    hide Untouched;
    hide OwnersKept;
    hide Geometry.BytesPerCluster;
    hide AsFound;
    hide Gapless;
    hide SetPut;
    hide OnlyRoom;
    hide InvLoose;
    hide Apart;
    hide Distinct;
    hide Listed;
    hide ListHere;
    hide ZeroTail;
    hide Says;
    hide RoomBy;
    k := 0;
    ghost var nodes0, heap0, used0 := fs.nodes, fs.heap, fs.used;
    DirIsDirectory(fs.g, fs.nodes, dir, d);
    TailStart(fs, d);
    var entries := 2 + DivCeil(|units|, 15);
    NameSlots(|units|);
    ghost var grown, used1;
    var reserved, c;
    reserved, c, k, grown, used1 := ReserveDirectory(fs, dir, entries, d);
    if reserved.Err? { return Err(reserved.error), k; }
    var locs := reserved.value;
    ghost var nodes1 := fs.nodes;
    ChildrenRooted(fs.g, fs.fat, fs.used, fs.bm, nodes1);
    DirectoryRoom(fs, d, k, units, locs, c);
    ghost var heap2, n := fs.heap, DirectoryOwner(fs.g, c, entries);
    var clusterBytes := fs.g.BytesPerCluster();
    var contents := NewDirectorySet(units, c, clusterBytes);
    var written, hash := AddChild(fs, locs, entries, contents, d, k, n);
    if written.Err? { return Err(written.error), k; }
    var made := Directory(c, clusterBytes, false, Some(locs[0]), Some(locs[1]), locs, entries);
    DirectoryPut(fs, nodes0, heap0, used0, nodes1, used1, heap2, d, k, contents, n, hash, grown, made);
    return Ok(made), k;
  }

  /** What was found stands while a cluster is taken. */
  lemma RoomStill(g: Geometry, heap0: Heap, nodes0: Owners, used0: set<nat>, heap: Heap, heap': Heap, nodes: Owners,
                  used: set<nat>, d: Id, wanted: nat, grown: seq<nat>, k: nat)
    requires AsFound(g, heap0, nodes0, heap, nodes, d, wanted, |grown|, k, true) && |grown| <= 2
    requires Making(g, nodes0, nodes, d, grown, used0, used, heap0, heap') && Reads(heap', nodes[d].ext)
    requires DirSlots(heap', nodes[d].ext) == DirSlots(heap, nodes[d].ext)
    ensures AsFound(g, heap0, nodes0, heap', nodes, d, wanted, |grown|, k, true)
    ensures RoomBy(g, heap0, nodes0, used0, heap', nodes, used, d, wanted, grown, k, true)
  {
    hide DirSlots;
    hide Find;
    hide Roomed;
    hide Making;
  }

  /** All that making the new directory has done since before room was made. */
  lemma DirectoryPut(fs: FileSystem, nodes0: Owners, heap0: Heap, used0: set<nat>, nodes1: Owners, used1: set<nat>,
                     heap1: Heap, d: Id, k: nat, contents: NewEntrySet, n: Node, hash: u16, grown: seq<nat>,
                     made: Directory)
    requires InvBut(fs, d) && fs.nodes == nodes1[Child(d, k) := n] && used0 <= fs.used
    requires Making(fs.g, nodes0, nodes1, d, grown, used0, used1, heap0, heap1)
    requires AsFound(fs.g, heap0, nodes0, heap1, nodes1, d, SlotsFor(|contents.name|), |grown|, k, true)
    requires ChildAdded(fs.g, heap1, fs.heap, nodes1, d, k, contents, n, hash) && Listed(fs.g, heap0, nodes0, d)
    requires Announces(fs.g, contents, n) && d in nodes0 && nodes0[d].isDir
    requires forall e, j: nat :: Child(e, j) in nodes1 ==> e in nodes1
    requires n == DirectoryOwner(fs.g, made.firstCluster, made.entryCount)
    requires made.dataLength == fs.g.BytesPerCluster() && !made.noFatChain && 2 <= made.entryCount
    requires d in nodes1 && LocatedAt(fs.g, nodes1[d].ext, k, made.entryLocs, made.entryCount)
    requires made.primary == Some(made.entryLocs[0]) && made.stream == Some(made.entryLocs[1])
    ensures Created(fs, nodes0, heap0, used0, d, k, contents.name, n) && OwnersKept(nodes0, fs.nodes)
    ensures SetPut(fs.g, heap0, nodes0, used0, fs.heap, fs.nodes, d, contents.name, k)
    ensures ZeroTail(DirSlots(heap0, nodes0[d].ext)) ==> Inv(fs)
    ensures Listed(fs.g, fs.heap, fs.nodes, Child(d, k)) && ListHere(fs.g, fs.heap, fs.nodes, Child(d, k)) == []
    ensures DirIs(fs.g, fs.nodes, made, Child(d, k)) && MetaOk(fs.g, fs.nodes, made, Child(d, k))
  {
    hide InvBut;
    hide Making;
    hide AsFound;
    hide ChildAdded;
    hide Created;
    hide SetPut;
    hide Announces;
    hide OwnersKept;
    hide ZeroTail;
    hide DirSlots;
    hide Listed;
    hide ListHere;
    hide DirIs;
    hide MetaOk;
    hide InvLoose;
    hide LocatedAt;
    ChildPut(fs, nodes0, heap0, used0, nodes1, used1, heap1, d, k, contents, n, hash, grown);
    NewDirectory(fs, d, k, nodes1, n);
    NewHandle(fs, made, d, k, nodes1, n);
  }

  lemma ChildrenRooted(g: Geometry, fat: seq<u32>, used: set<nat>, bm: seq<nat>, nodes: Owners)
    requires OwnOk(g, fat, used, bm, nodes)
    ensures forall e, j: nat :: Child(e, j) in nodes ==> e in nodes
  {
  }

  lemma DirIsDirectory(g: Geometry, nodes: Owners, dir: Directory, d: Id)
    requires DirIs(g, nodes, dir, d)
    ensures d in nodes && nodes[d].isDir
  {
  }

  lemma SameSlots(heap: Heap, heap': Heap, ext: seq<nat>)
    requires forall i :: 0 <= i < |ext| ==> ext[i] < |heap| && ext[i] < |heap'|
    requires Flat(heap', ext) == Flat(heap, ext)
    ensures DirSlots(heap', ext) == DirSlots(heap, ext)
  {
    hide SlotsOf;
  }

  /** Making room leaves the up-case table alone. */
  lemma NewTable(fs: FileSystem, nodes0: Owners, heap0: Heap, used0: set<nat>, used1: set<nat>, d: Id, grown: seq<nat>)
    requires fs.Valid() && UpcaseFile in nodes0 && !nodes0[UpcaseFile].isDir && d in nodes0 && nodes0[d].isDir
    requires d in fs.nodes
    requires Making(fs.g, nodes0, fs.nodes, d, grown, used0, used1, heap0, fs.heap)
    requires fs.upcaseValid ==>
          && nodes0[UpcaseFile].ext != [] && nodes0[UpcaseFile].ext[0] == fs.upcase.firstCluster
          && nodes0[UpcaseFile].valid == fs.upcase.byteLength
    ensures TableReady(fs) && Table(fs) == Content(heap0, nodes0[UpcaseFile])
  {
    hide FileSystem.Valid;
    hide Content;
    hide SameSets;
    hide DirSlots;
    assert IsFile(nodes0, UpcaseFile) && IsFile(fs.nodes, UpcaseFile);
    assert Contents(heap0, nodes0)[UpcaseFile] == Contents(fs.heap, fs.nodes)[UpcaseFile];
  }

  lemma NewDirectory(fs: FileSystem, d: Id, k: nat, nodes1: Owners, n: Node)
    requires InvLoose(fs) && fs.nodes == nodes1[Child(d, k) := n] && Child(d, k) !in nodes1 && n.isDir
    requires forall e, j: nat :: Child(e, j) in nodes1 ==> e in nodes1
    ensures Listed(fs.g, fs.heap, fs.nodes, Child(d, k)) && ListHere(fs.g, fs.heap, fs.nodes, Child(d, k)) == []
  {
    hide FileSystem.Valid;
    hide OwnOk;
    hide TreeRecords;
    forall j: nat ensures Child(Child(d, k), j) !in fs.nodes {
      NotOwnDirectory(Child(Child(d, k), j));
    }
    EmptyListing(fs, Child(d, k));
  }

  lemma NewHandle(fs: FileSystem, made: Directory, d: Id, k: nat, nodes1: Owners, n: Node)
    requires InvLoose(fs) && fs.nodes == nodes1[Child(d, k) := n] && d in nodes1
    requires n == DirectoryOwner(fs.g, made.firstCluster, made.entryCount)
    requires made.dataLength == fs.g.BytesPerCluster() && !made.noFatChain && 2 <= made.entryCount
    requires LocatedAt(fs.g, nodes1[d].ext, k, made.entryLocs, made.entryCount)
    requires made.primary == Some(made.entryLocs[0]) && made.stream == Some(made.entryLocs[1])
    ensures DirIs(fs.g, fs.nodes, made, Child(d, k)) && MetaOk(fs.g, fs.nodes, made, Child(d, k))
  {
    hide FileSystem.Valid;
    hide OwnOk;
    hide TreeRecords;
    NotOwnDirectory(Child(d, k));
  }
}
