/** Resolving a path from the root, and opening the file it leads to. */
module Paths {
  import opened Words
  import opened Errors
  import opened Geometry
  import opened Views
  import opened Volume
  import opened Extents
  import opened EntrySets
  import opened EntryCodec
  import opened Files
  import opened Tree
  import opened SlotIo
  import opened Growth
  import opened Meaning
  import opened Listings
  import opened Standing
  import opened Upcase
  import opened Scanning
  import opened Directories
  import opened Names

  // ----- a record and its owner ---------------------------------------------------------

  /** Directory `d` can be read as slots, and its sets are well stored. */
  ghost predicate Listed(g: Geometry, heap: Heap, nodes: Owners, d: Id) {
    && d in nodes && nodes[d].isDir && Scannable(g, heap, nodes[d].ext) && Stored(DirSlots(heap, nodes[d].ext))
  }

  /** The slots of a directory, and their places. */
  ghost function SlotsIn(g: Geometry, heap: Heap, nodes: Owners, d: Id): (slots: seq<Slot>)
    requires Listed(g, heap, nodes, d)
    ensures Stored(slots)
  {
    DirSlots(heap, nodes[d].ext)
  }

  ghost function PlacesIn(g: Geometry, heap: Heap, nodes: Owners, d: Id): (locs: seq<EntryLocator>)
    requires Listed(g, heap, nodes, d)
    ensures |locs| == |SlotsIn(g, heap, nodes, d)|
  {
    Places(g, heap, nodes[d].ext)
  }

  /** What a directory lists. */
  ghost function ListHere(g: Geometry, heap: Heap, nodes: Owners, d: Id): seq<DirectoryEntry>
    requires Listed(g, heap, nodes, d)
  {
    ListOf(g, heap, nodes[d].ext)
  }

  /** `e` is the record of the owner `id`. */
  ghost predicate EntryFor(g: Geometry, heap: Heap, nodes: Owners, e: DirectoryEntry, id: Id) {
    && id.Child? && id in nodes && Listed(g, heap, nodes, id.dir)
    && var slots := SlotsIn(g, heap, nodes, id.dir);
       id.at < |slots| && slots[id.at][0] == 0x85 && e == RecordAt(slots, PlacesIn(g, heap, nodes, id.dir), id.at)
  }

  lemma InvListed(fs: FileSystem, d: Id)
    requires Inv(fs) && d in fs.nodes && fs.nodes[d].isDir
    ensures Listed(fs.g, fs.heap, fs.nodes, d)
    ensures DirOk(fs.nodes, d, SlotsIn(fs.g, fs.heap, fs.nodes, d), fs.g.BytesPerCluster())
  {
    hide FileSystem.Valid;
    hide OwnOk;
    hide TreeOk;
    hide TreeRecords;
    hide Listed;
    hide DirOk;
    OkRecords(fs.g, fs.heap, fs.nodes);
    LooseListed(fs, d);
    DirHere(fs.g, fs.heap, fs.nodes, d);
  }

  lemma DirHere(g: Geometry, heap: Heap, nodes: Owners, d: Id)
    requires TreeOk(g, heap, nodes) && d in nodes && nodes[d].isDir && Listed(g, heap, nodes, d)
    ensures DirOk(nodes, d, SlotsIn(g, heap, nodes, d), g.BytesPerCluster())
  {
    hide DirOk;
    hide SlotsOf;
    assert DirOk(nodes, d, SlotsOf(Flat(heap, nodes[d].ext)), g.BytesPerCluster());
  }

  /** Wherever its unused slots are, a directory can be read as slots. */
  lemma LooseListed(fs: FileSystem, d: Id)
    requires InvLoose(fs) && d in fs.nodes && fs.nodes[d].isDir
    ensures Listed(fs.g, fs.heap, fs.nodes, d)
    ensures DirRecords(fs.nodes, d, SlotsIn(fs.g, fs.heap, fs.nodes, d), fs.g.BytesPerCluster())
  {
    hide FileSystem.Valid;
    hide OwnOk;
    hide DirRecords;
    hide Scannable;
    var ext, cb := fs.nodes[d].ext, fs.g.BytesPerCluster();
    ScannableOn(fs, ext);
    assert DirRecords(fs.nodes, d, SlotsOf(Flat(fs.heap, ext)), cb);
    DirStored(fs.nodes, d, DirSlots(fs.heap, ext), cb);
  }

  /** The record of a child tells what the child is and where its set is. */
  ghost predicate EntryTells(g: Geometry, nodes: Owners, e: DirectoryEntry, id: Id) {
    && id.Child? && id in nodes && id.dir in nodes
    && var n := nodes[id];
       && e.isDirectory == n.isDir && e.firstCluster == First(n.ext) && e.dataLength == |n.ext| * g.BytesPerCluster()
       && e.validLength == n.valid && e.noFatChain == !n.linked && e.entryCount == n.count && 2 <= n.count
       && LocatedAt(g, nodes[id.dir].ext, id.at, e.entryLocs, e.entryCount)
       && e.primary == e.entryLocs[0] && e.stream == e.entryLocs[1]
  }

  lemma PlacedAt(g: Geometry, heap: Heap, ext: seq<nat>, k: nat, n: nat, e: DirectoryEntry)
    requires Scannable(g, heap, ext) && k + n <= |DirSlots(heap, ext)| && n <= 19
    requires |e.entryLocs| == 19 && e.entryLocs[..n] == Places(g, heap, ext)[k..k + n]
    ensures LocatedAt(g, ext, k, e.entryLocs, n)
  {
    hide LocAt;
    SlotCount(g, heap, ext);
    forall i | 0 <= i < n
      ensures e.entryLocs[i] == LocAt(g, ext, k + i)
    {
      assert e.entryLocs[i] == e.entryLocs[..n][i] == Places(g, heap, ext)[k..k + n][i];
    }
  }

  lemma EntryForTells(fs: FileSystem, e: DirectoryEntry, id: Id)
    requires Inv(fs) && EntryFor(fs.g, fs.heap, fs.nodes, e, id)
    ensures EntryTells(fs.g, fs.nodes, e, id)
  {
    hide FileSystem.Valid;
    hide OwnOk;
    hide TreeOk;
    hide Scannable;
    hide Geometry.BytesPerCluster;
    hide LocAt;
    hide FileSet;
    hide Decode;
    hide RecordAt;
    hide Says;
    hide Stored;
    hide SlotsOf;
    hide Places;
    InvListed(fs, id.dir);
    var ext, cb := fs.nodes[id.dir].ext, fs.g.BytesPerCluster();
    var slots, locs := SlotsIn(fs.g, fs.heap, fs.nodes, id.dir), PlacesIn(fs.g, fs.heap, fs.nodes, id.dir);
    var n := fs.nodes[id];
    assert Child(id.dir, id.at) == id;
    assert RecordOk(n, slots, id.at, cb);
    WindowLength(n, slots, id.at, cb);
    StoredAt(slots, id.at);
    RecordReads(n, slots, locs, id.at, cb);
    PlacedAt(fs.g, fs.heap, ext, id.at, n.count, e);
  }

  /** What decoding a record gives. */
  lemma RecordReads(n: Node, slots: seq<Slot>, locs: seq<EntryLocator>, k: nat, cb: nat)
    requires RecordOk(n, slots, k, cb) && |locs| == |slots| && k < |slots| && SetAt(slots, k)
    requires SetLength(slots[k]) == n.count && 3 <= n.count <= 19
    ensures var e, at := RecordAt(slots, locs, k), locs[k..k + n.count];
            && e.isDirectory == n.isDir && e.firstCluster == First(n.ext) && e.dataLength == |n.ext| * cb
            && e.validLength == n.valid && e.noFatChain == !n.linked && e.entryCount == n.count
            && |e.entryLocs| == 19 && e.entryLocs[..n.count] == at && e.primary == at[0] && e.stream == at[1]
            && at[0] == e.entryLocs[0] && at[1] == e.entryLocs[1]
  {
    DecodedPlaces(slots[k..k + n.count], locs[k..k + n.count]);
    var e := RecordAt(slots, locs, k);
    assert e.entryLocs[0] == e.entryLocs[..n.count][0] && e.entryLocs[1] == e.entryLocs[..n.count][1];
  }

  lemma WindowLength(n: Node, slots: seq<Slot>, k: nat, cb: nat)
    requires RecordOk(n, slots, k, cb)
    ensures 3 <= n.count <= 19 && k < |slots| && SetLength(slots[k]) == n.count
  {
    assert slots[k..k + n.count][0] == slots[k];
  }

  /** A directory's record describes that directory. */
  lemma EntryIsDirectory(g: Geometry, nodes: Owners, e: DirectoryEntry, id: Id)
    requires EntryTells(g, nodes, e, id) && e.isDirectory && nodes[id].ext != []
    requires nodes[id].linked
    ensures DirectoryOf(e).Some? && DirIs(g, nodes, DirectoryOf(e).value, id)
  {
  }

  // ----- resolution ---------------------------------------------------------------------

  /** Slot number of the first record, from slot `lo` on, with a matching name. */
  ghost function SlotNamed(valid: bool, table: seq<byte>, slots: seq<Slot>, locs: seq<EntryLocator>, lo: nat,
                           wanted: seq<u16>)
    : (r: Result<Option<nat>>)
    requires Stored(slots) && |slots| == |locs| && lo <= |slots|
    ensures r.Ok? && r.value.Some? ==> lo <= r.value.value < |slots| && slots[r.value.value][0] == 0x85
    ensures r.Err? ==> r.error in {UpcaseTableCorrupt, Corrupt}
    decreases |slots| - lo
  {
    if lo == |slots| then Ok(None)
    else if slots[lo][0] != 0x85 then SlotNamed(valid, table, slots, locs, lo + 1, wanted)
    else
      match SameName(valid, table, NameUtf16(RecordAt(slots, locs, lo)), wanted)
      case Err(e) => Err(e)
      case Ok(true) => Ok(Some(lo))
      case Ok(false) => SlotNamed(valid, table, slots, locs, lo + 1, wanted)
  }

  /** The record in that slot is the listing's first match. */
  lemma {:induction false} SlotIsFirstMatch(valid: bool, table: seq<byte>, slots: seq<Slot>, locs: seq<EntryLocator>,
                                            lo: nat, wanted: seq<u16>)
    requires Stored(slots) && |slots| == |locs| && lo <= |slots|
    ensures FirstMatch(valid, table, RecordsIn(slots, locs, lo, |slots|), wanted) ==
      match SlotNamed(valid, table, slots, locs, lo, wanted)
      case Err(e) => Err(e)
      case Ok(None) => Ok(None)
      case Ok(Some(k)) => Ok(Some(RecordAt(slots, locs, k)))
    decreases |slots| - lo
  {
    hide SameName;
    hide FileSet;
    hide Decode;
    if lo < |slots| {
      SlotIsFirstMatch(valid, table, slots, locs, lo + 1, wanted);
      if slots[lo][0] == 0x85 {
        var rest := RecordsIn(slots, locs, lo + 1, |slots|);
        assert RecordsIn(slots, locs, lo, |slots|)[1..] == rest;
      }
    }
  }

  /** Where a path leads from directory `d`, and how it fails. */
  ghost function Resolve(g: Geometry, heap: Heap, nodes: Owners, valid: bool, table: seq<byte>, d: Id,
                         names: seq<seq<Scalar>>): Result<Id>
    requires Listed(g, heap, nodes, d)
    decreases |names|
  {
    if names == [] then Err(PathNotFound)
    else
      match Encoded(names[0])
      case Err(e) => Err(e)
      case Ok(units) =>
        match SlotNamed(valid, table, SlotsIn(g, heap, nodes, d), PlacesIn(g, heap, nodes, d), 0, units)
        case Err(e) => Err(e)
        case Ok(None) => Err(PathNotFound)
        case Ok(Some(k)) =>
          if |names| == 1 then Ok(Child(d, k))
          else if !Listed(g, heap, nodes, Child(d, k)) then Err(NotDirectory)
          else Resolve(g, heap, nodes, valid, table, Child(d, k), names[1..])
  }

  lemma RootListed(fs: FileSystem)
    requires Inv(fs)
    ensures Listed(fs.g, fs.heap, fs.nodes, Root) && DirIs(fs.g, fs.nodes, RootDirectory(fs.g), Root)
  {
    hide FileSystem.Valid;
    hide TreeOk;
    InvListed(fs, Root);
  }

  lemma StoredAt(slots: seq<Slot>, k: nat)
    requires Stored(slots) && k < |slots| && slots[k][0] == 0x85
    ensures SetAt(slots, k)
  {
  }

  /** A child found in a directory's slots is an owner, and its record tells of it. */
  lemma ChildFound(fs: FileSystem, d: Id, k: nat)
    requires Inv(fs) && Listed(fs.g, fs.heap, fs.nodes, d)
    requires k < |SlotsIn(fs.g, fs.heap, fs.nodes, d)| && SlotsIn(fs.g, fs.heap, fs.nodes, d)[k][0] == 0x85
    ensures Child(d, k) in fs.nodes
    ensures var e := RecordAt(SlotsIn(fs.g, fs.heap, fs.nodes, d), PlacesIn(fs.g, fs.heap, fs.nodes, d), k);
            && EntryFor(fs.g, fs.heap, fs.nodes, e, Child(d, k)) && EntryTells(fs.g, fs.nodes, e, Child(d, k))
            && (e.isDirectory <==> Listed(fs.g, fs.heap, fs.nodes, Child(d, k)))
            && (e.isDirectory ==> DirectoryOf(e).Some? && DirIs(fs.g, fs.nodes, DirectoryOf(e).value, Child(d, k)))
  {
    hide FileSystem.Valid;
    hide OwnOk;
    hide TreeOk;
    hide Scannable;
    hide Stored;
    hide RecordOk;
    hide SlotsIn;
    InvListed(fs, d);
    assert SetAt(SlotsIn(fs.g, fs.heap, fs.nodes, d), k) by { StoredAt(SlotsIn(fs.g, fs.heap, fs.nodes, d), k); }
    var e := RecordAt(SlotsIn(fs.g, fs.heap, fs.nodes, d), PlacesIn(fs.g, fs.heap, fs.nodes, d), k);
    EntryForTells(fs, e, Child(d, k));
    if fs.nodes[Child(d, k)].isDir {
      InvListed(fs, Child(d, k));
      DirectoryNode(fs, Child(d, k));
      EntryIsDirectory(fs.g, fs.nodes, e, Child(d, k));
    }
  }

  lemma DirectoryNode(fs: FileSystem, id: Id)
    requires Inv(fs) && id in fs.nodes && fs.nodes[id].isDir
    ensures fs.nodes[id].linked && fs.nodes[id].ext != []
  {
    assert NodeOk(fs.g, fs.fat, fs.used, fs.nodes[id]);
  }

  /** Resolve a path: exactly the entry the volume's directories lead to, and
      exactly the error they lead to otherwise. */
  method Lookup(fs: FileSystem, names: seq<seq<Scalar>>, parser: EntrySet)
    returns (r: Result<DirectoryEntry>, ghost id: Id)
    requires Inv(fs) && TableReady(fs) && |parser.entry.entryLocs| == 19 && parser.secondaryLeft == 0
    modifies fs`clock, fs`scratch, parser
    ensures Inv(fs) && TableReady(fs) && Listed(fs.g, fs.heap, fs.nodes, Root) && |parser.entry.entryLocs| == 19
    ensures r.Err? ==>
      r == Err(Device) || Resolve(fs.g, fs.heap, fs.nodes, fs.upcaseValid, Table(fs), Root, names) == Err(r.error)
    ensures r.Ok? ==>
      && Resolve(fs.g, fs.heap, fs.nodes, fs.upcaseValid, Table(fs), Root, names) == Ok(id)
      && EntryFor(fs.g, fs.heap, fs.nodes, r.value, id) && EntryTells(fs.g, fs.nodes, r.value, id)
      && (r.value.isDirectory ==> DirectoryOf(r.value).Some? && DirIs(fs.g, fs.nodes, DirectoryOf(r.value).value, id))
    ensures r != Err(Device) ==> parser.secondaryLeft == 0
    ensures Honest(fs.faulty, old(fs.clock), fs.clock, r == Err(Device))
  {
    hide Failures;
    hide FileSystem.Valid;
    hide OwnOk;
    hide TreeOk;
    hide Content;
    hide Listed;
    hide DirIs;
    hide EntryFor;
    hide EntryTells;
    hide SameName;
    hide Encoded;
    hide SlotNamed;
    hide SlotsIn;
    hide PlacesIn;
    hide Says;
    hide RecordOk;
    id := Root;
    RootListed(fs);
    if |names| == 0 { return Err(PathNotFound), id; }
    var directory := RootDirectory(fs.g);
    ghost var want := Resolve(fs.g, fs.heap, fs.nodes, fs.upcaseValid, Table(fs), Root, names);
    assert names[0..] == names;
    for i := 0 to |names|
      invariant Honest(fs.faulty, old(fs.clock), fs.clock, false)
      invariant Inv(fs) && TableReady(fs) && Table(fs) == old(Table(fs))
      invariant |parser.entry.entryLocs| == 19 && parser.secondaryLeft == 0
      invariant i < |names| ==> Listed(fs.g, fs.heap, fs.nodes, id) && DirIs(fs.g, fs.nodes, directory, id)
      invariant i < |names| ==> want == Resolve(fs.g, fs.heap, fs.nodes, fs.upcaseValid, Table(fs), id, names[i..])
      invariant i == |names| ==> false
    {
      var units := EncodeName(names[i]);
      assert names[i..][0] == names[i] && names[i..][1..] == names[i + 1..];
      if units.Err? { return Err(units.error), id; }
      var found, k := LookupSlot(fs, directory, units.value, parser, id);
      if found.Err? { return Err(found.error), id; }
      if found.value.None? { return Err(PathNotFound), id; }
      ChildFound(fs, id, k);
      id := Child(id, k);
      if i + 1 == |names| { return Ok(found.value.value), id; }
      var next := DirectoryOf(found.value.value);
      if next.None? { return Err(NotDirectory), id; }
      directory := next.value;
    }
  }

  /** The answer `r` is the record in slot `k`, or the absence of one, that the
      search of the slots comes to. */
  ghost predicate Answers(r: Result<Option<DirectoryEntry>>, k: nat, named: Result<Option<nat>>, slots: seq<Slot>,
                          locs: seq<EntryLocator>)
    requires Stored(slots) && |slots| == |locs|
  {
    match named
    case Err(e) => r == Err(e)
    case Ok(None) => r == Ok(None)
    case Ok(Some(m)) => k == m < |slots| && slots[m][0] == 0x85 && r == Ok(Some(RecordAt(slots, locs, m)))
  }

  /** Search one directory; `k` is the slot of the match. */
  method LookupSlot(fs: FileSystem, dir: Directory, wanted: seq<u16>, parser: EntrySet, ghost d: Id)
    returns (r: Result<Option<DirectoryEntry>>, ghost k: nat)
    requires Inv(fs) && TableReady(fs) && DirIs(fs.g, fs.nodes, dir, d) && Listed(fs.g, fs.heap, fs.nodes, d)
    requires |parser.entry.entryLocs| == 19 && parser.secondaryLeft == 0
    modifies fs`clock, fs`scratch, parser
    ensures Inv(fs) && TableReady(fs) && Listed(fs.g, fs.heap, fs.nodes, d) && |parser.entry.entryLocs| == 19
    ensures r != Err(Device) ==> parser.secondaryLeft == 0
    ensures r == Err(Device)
            || Answers(r, k, SlotNamed(fs.upcaseValid, Table(fs), SlotsIn(fs.g, fs.heap, fs.nodes, d),
                                       PlacesIn(fs.g, fs.heap, fs.nodes, d), 0, wanted),
                       SlotsIn(fs.g, fs.heap, fs.nodes, d), PlacesIn(fs.g, fs.heap, fs.nodes, d))
    ensures Honest(fs.faulty, old(fs.clock), fs.clock, r == Err(Device))
  {
    hide FileSystem.Valid;
    hide OwnOk;
    hide TreeOk;
    hide Content;
    hide SameName;
    hide Scannable;
    hide Stored;
    hide DirSlots;
    hide FirstMatch;
    hide SlotNamed;
    hide TreeRecords;
    hide ZeroTail;
    ghost var slots, locs := SlotsIn(fs.g, fs.heap, fs.nodes, d), PlacesIn(fs.g, fs.heap, fs.nodes, d);
    ghost var found := SlotNamed(fs.upcaseValid, Table(fs), slots, locs, 0, wanted);
    k := if found.Ok? && found.value.Some? then found.value.value else 0;
    SlotIsFirstMatch(fs.upcaseValid, Table(fs), slots, locs, 0, wanted);
    BarelyBut(fs, d);
    DirTail(fs, d);
    SeenIsAll(fs.g, fs.heap, fs.nodes[d].ext);
    r := LookupChild(fs, dir, wanted, parser, d);
  }

  // ----- opening ------------------------------------------------------------------------

  /** A fresh handle on a recorded file agrees with the volume. */
  lemma OpenedHolds(fs: FileSystem, file: File, e: DirectoryEntry)
    requires Inv(fs) && EntryTells(fs.g, fs.nodes, e, file.id) && !e.isDirectory
    requires file.State() == FileState(e.firstCluster, e.dataLength, e.validLength, 0, e.noFatChain, None, 0)
    requires file.primary == e.primary && file.stream == e.stream && file.entryLocs == e.entryLocs
    requires file.entryCount == e.entryCount
    requires file.ext == fs.nodes[file.id].ext
    ensures Holds(fs, file)
  {
    hide FileSystem.Valid;
    hide TreeOk;
    fs.Basics();
    assert NodeOk(fs.g, fs.fat, fs.used, fs.nodes[file.id]);
    DistinctFits(fs.g, file.ext);
  }

  /** Open a file: a handle on exactly the file the path leads to, at its
      beginning; a directory cannot be opened. */
  method Open(fs: FileSystem, names: seq<seq<Scalar>>, parser: EntrySet) returns (r: Result<File>)
    requires Inv(fs) && TableReady(fs) && |parser.entry.entryLocs| == 19 && parser.secondaryLeft == 0
    modifies fs`clock, fs`scratch, parser
    ensures Inv(fs) && TableReady(fs) && Listed(fs.g, fs.heap, fs.nodes, Root) && |parser.entry.entryLocs| == 19
    ensures var to := Resolve(fs.g, fs.heap, fs.nodes, fs.upcaseValid, Table(fs), Root, names);
      && (r.Ok? ==> fresh(r.value) && to == Ok(r.value.id) && Holds(fs, r.value) && r.value.position == 0)
      && (r.Err? && r.error != Device ==>
            to == Err(r.error) || (to.Ok? && to.value in fs.nodes && fs.nodes[to.value].isDir
                                   && r.error == IsDirectory))
      && (r.Ok? ==> to.value in fs.nodes && !fs.nodes[to.value].isDir)
    ensures r != Err(Device) ==> parser.secondaryLeft == 0
    ensures Honest(fs.faulty, old(fs.clock), fs.clock, r == Err(Device))
  {
    hide FileSystem.Valid;
    hide OwnOk;
    hide TreeOk;
    hide Content;
    hide Listed;
    hide DirIs;
    hide EntryFor;
    hide Resolve;
    var entry, id := Lookup(fs, names, parser);
    if entry.Err? { return Err(entry.error); }
    var e := entry.value;
    if e.isDirectory { return Err(IsDirectory); }
    var file := new File(e.primary, e.stream, e.entryLocs, e.entryCount, e.firstCluster, e.dataLength, e.validLength,
                         e.noFatChain, id, fs.nodes[id].ext);
    OpenedHolds(fs, file, e);
    return Ok(file);
  }
}
