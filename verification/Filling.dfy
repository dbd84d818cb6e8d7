/** Filling the root of a volume just formatted: it works, and then the volume
    cannot be mounted any more. */
module Filling {
  import opened Words
  import opened Errors
  import opened Geometry
  import opened Views
  import opened Volume
  import opened EntrySets
  import opened EntryCodec
  import opened Files
  import opened Tree
  import opened SlotIo
  import opened Growth
  import opened Meaning
  import opened Listings
  import opened Standing
  import opened Upcase
  import opened Scanning
  import opened Names
  import opened Paths
  import opened Resolution
  import opened Vacancies
  import opened Creation
  import opened PathCreation
  import opened Formatting
  import opened Remounting
  import opened Durability
  import opened Fresh

  // ----- where the two sets go --------------------------------------------------------------------

  /** In a directory of sixteen slots whose first free run of seven is at `k`, a set
      of seven slots goes there. */
  lemma SevenAt(slots: seq<Slot>, k: nat)
    requires |slots| == 16 && 0 < k <= 9 && !Free(slots[k - 1])
    requires forall i :: k <= i < 16 ==> slots[i][0] == 0
    requires forall i: nat :: i + 7 < k ==> !FreeRun(slots, i, 7)
    ensures HoldsRun(slots, 7) && Find(slots, 7, 16, 16) == Finding(0, k)
  {
    assert FreeRun(slots, k, 7);
    forall i: nat | i + 7 <= k + 6
      ensures !FreeRun(slots, i, 7)
    {
      if i + 7 >= k { assert i <= k - 1 < i + 7; }
    }
    RunIsFirst(slots, 7, k);
  }

  /** What has been put into a root of sixteen slots. */
  lemma SevenPut(g: Geometry, heap0: Heap, nodes0: Owners, used0: set<nat>, heap: Heap, nodes: Owners,
                 units: seq<u16>, at: nat, k: nat)
    returns (win: seq<Slot>)
    requires SetPut(g, heap0, nodes0, used0, heap, nodes, Root, units, at) && SlotsFor(|units|) == 7
    requires g.bytesPerSector == 512 && g.BytesPerCluster() == 512
    requires Root in nodes0 && Reads(heap0, nodes0[Root].ext)
    requires var slots := DirSlots(heap0, nodes0[Root].ext);
             HoldsRun(slots, 7) && Find(slots, 7, 16, 16) == Finding(0, k) && k + 7 <= |slots|
    ensures Root in nodes && nodes[Root].ext == nodes0[Root].ext && Reads(heap, nodes[Root].ext)
    ensures FileSet(win) && |win| == 7 && NameIn(win) == units && at == k
    ensures DirSlots(heap, nodes[Root].ext) == Window(DirSlots(heap0, nodes0[Root].ext), k, win)
  {
    hide DirSlots;
    hide FileSet;
    hide NameIn;
    hide Window;
    hide Find;
    hide HoldsRun;
    hide Room;
    hide Geometry.BytesPerCluster;
    var grown: seq<nat>, set': seq<Slot> :| PutBy(g, heap0, nodes0, used0, heap, nodes, Root, units, at, grown, set');
    assert grown == [] && nodes0[Root].ext + [] == nodes0[Root].ext;
    win := set';
  }

  // ----- why the creations are not refused ----------------------------------------------------------

  /** Nothing is found when all names differ. */
  lemma {:induction false} AllDiffer(valid: bool, table: seq<byte>, slots: seq<Slot>, locs: seq<EntryLocator>, lo: nat,
                                     wanted: seq<u16>)
    requires Stored(slots) && |slots| == |locs| && lo <= |slots|
    requires forall k :: 0 <= k < |slots| && slots[k][0] == 0x85 ==>
      SameName(valid, table, NameAt(slots, k), wanted) == Ok(false)
    ensures SlotNamed(valid, table, slots, locs, lo, wanted) == Ok(None)
    decreases |slots| - lo
  {
    hide SameName;
    hide FileSet;
    hide NameAt;
    hide SlotNamed;
    if lo == |slots| {
      NoneBeyond(valid, table, slots, locs, lo, wanted);
    } else {
      NamedStep(valid, table, slots, locs, lo, wanted);
      AllDiffer(valid, table, slots, locs, lo + 1, wanted);
    }
  }

  /** A name that is wanting in the root, and can be hashed, is not refused while
      there is room. */
  lemma NotRefused(g: Geometry, heap: Heap, nodes: Owners, valid: bool, table: seq<byte>, name: seq<Scalar>)
    requires Wanting(g, heap, nodes, valid, table, Root, name) && HashOf(valid, table, Encoded(name).value).Ok?
    requires Root in nodes && Reads(heap, nodes[Root].ext)
    requires HoldsRun(DirSlots(heap, nodes[Root].ext), SlotsFor(|Encoded(name).value|))
    ensures Resolve(g, heap, nodes, valid, table, Root, [name]) == Err(PathNotFound)
    ensures forall e :: !Uncreatable(g, heap, nodes, valid, table, [name], e)
    ensures !NoRoomAt(g, heap, nodes, valid, table, [name])
  {
    hide Encoded;
    hide SlotNamed;
    hide Listed;
    hide SlotsIn;
    hide PlacesIn;
    hide DirSlots;
    hide HoldsRun;
    hide HashOf;
    hide Resolve;
    NoneResolves(g, heap, nodes, valid, table, Root, name);
  }

  // ----- two names on a fresh volume ------------------------------------------------------------------

  /** A name whose set has seven slots. */
  ghost predicate Seven(valid: bool, table: seq<byte>, name: seq<Scalar>) {
    && Encoded(name).Ok? && 61 <= |Encoded(name).value| <= 75 && HashOf(valid, table, Encoded(name).value).Ok?
  }

  lemma SevenSlots(n: nat)
    requires 61 <= n <= 75
    ensures SlotsFor(n) == 7
  {
  }

  /** The root has room for a first set of seven slots, after the descriptors. */
  lemma FirstFits(g: Geometry, heap: Heap, nodes: Owners, valid: bool, table: seq<byte>, name: seq<Scalar>)
    requires BlankRoot(heap, nodes, 1) && Listed(g, heap, nodes, Root) && Seven(valid, table, name)
    ensures var slots := DirSlots(heap, nodes[Root].ext);
            HoldsRun(slots, 7) && Find(slots, 7, 16, 16) == Finding(0, 2) && |slots| == 16
    ensures Wanting(g, heap, nodes, valid, table, Root, name)
  {
    hide SlotsOf;
    hide Find;
    hide HoldsRun;
    hide Encoded;
    hide SlotNamed;
    hide Scannable;
    hide Stored;
    hide HashOf;
    var slots := DirSlots(heap, nodes[Root].ext);
    SevenAt(slots, 2);
    NoneBeyond(valid, table, slots, PlacesIn(g, heap, nodes, Root), 0, Encoded(name).value);
  }

  /** And for a second one behind it. */
  lemma SecondFits(g: Geometry, heap0: Heap, nodes0: Owners, heap: Heap, nodes: Owners, valid: bool, table: seq<byte>,
                   win: seq<Slot>, name: seq<Scalar>)
    requires BlankRoot(heap0, nodes0, 1) && Listed(g, heap, nodes, Root) && Seven(valid, table, name)
    requires Reads(heap, nodes[Root].ext) && FileSet(win) && |win| == 7
    requires DirSlots(heap, nodes[Root].ext) == Window(DirSlots(heap0, nodes0[Root].ext), 2, win)
    requires SameName(valid, table, NameIn(win), Encoded(name).value) == Ok(false)
    ensures var slots := DirSlots(heap, nodes[Root].ext);
            HoldsRun(slots, 7) && Find(slots, 7, 16, 16) == Finding(0, 9) && |slots| == 16
    ensures Root in nodes && Wanting(g, heap, nodes, valid, table, Root, name)
  {
    hide SlotsOf;
    hide Find;
    hide HoldsRun;
    hide Encoded;
    hide SlotNamed;
    hide Scannable;
    hide Stored;
    hide HashOf;
    hide FileSet;
    hide NameIn;
    hide SameName;
    hide Window;
    var slots0, slots := DirSlots(heap0, nodes0[Root].ext), DirSlots(heap, nodes[Root].ext);
    SetTypes(win);
    WindowAt(slots0, 2, win);
    forall i: nat | i + 7 < 9
      ensures !FreeRun(slots, i, 7)
    {
      assert !Free(slots[1]) && !Free(slots[2]);
      if i <= 1 { assert i <= 1 < i + 7; }
    }
    SevenAt(slots, 9);
    NewSlots(slots0, 2, win);
    forall k | 0 <= k < |slots| && slots[k][0] == 0x85
      ensures SetAt(slots, k) && SameName(valid, table, NameAt(slots, k), Encoded(name).value) == Ok(false)
    {
      assert k == 2;
      StartsSet(slots, k);
    }
    AllDiffer(valid, table, slots, PlacesIn(g, heap, nodes, Root), 0, Encoded(name).value);
  }

  // ----- both creations --------------------------------------------------------------------------------

  lemma OneSectorClusters(fs: FileSystem, p: Plan)
    requires IsFresh(fs, p) && p.spc == 1
    ensures fs.g.bytesPerSector == 512 && fs.g.BytesPerCluster() == 512 && BlankRoot(fs.heap, fs.nodes, 1)
    ensures Listed(fs.g, fs.heap, fs.nodes, Root)
  {
    hide Inv;
    hide AsciiBytes;
    hide Contents;
    hide BlankRoot;
    hide Listed;
  }

  lemma FirstReady(g: Geometry, heap: Heap, nodes: Owners, valid: bool, table: seq<byte>, a: seq<Scalar>)
    requires BlankRoot(heap, nodes, 1) && Listed(g, heap, nodes, Root) && Seven(valid, table, a)
    ensures Resolve(g, heap, nodes, valid, table, Root, [a]) == Err(PathNotFound)
    ensures forall e :: !Uncreatable(g, heap, nodes, valid, table, [a], e)
    ensures !NoRoomAt(g, heap, nodes, valid, table, [a])
  {
    hide SlotsOf;
    hide Find;
    hide HoldsRun;
    hide Encoded;
    hide Listed;
    hide HashOf;
    hide Wanting;
    hide Uncreatable;
    hide NoRoomAt;
    hide Resolve;
    FirstFits(g, heap, nodes, valid, table, a);
    SevenSlots(|Encoded(a).value|);
    NotRefused(g, heap, nodes, valid, table, a);
  }

  /** The new file is a child of the root. */
  lemma RootChild(fs: FileSystem, heap0: Heap, nodes0: Owners, table: seq<byte>, name: seq<Scalar>, file: File)
    requires Listed(fs.g, heap0, nodes0, Root) && EmptyAt(fs, heap0, nodes0, table, [name], file)
    requires Resolve(fs.g, heap0, nodes0, fs.upcaseValid, table, Root, [name]) == Err(PathNotFound)
    ensures file.id !in nodes0 && file.id.Child? && file.id.dir == Root && Listed(fs.g, fs.heap, fs.nodes, Root)
    ensures Reached(fs.g, fs.upcaseValid, fs.heap, fs.nodes, heap0, nodes0, table, [name], file.id)
  {
    hide Listed;
    hide Contents;
    hide Content;
    hide Encoded;
    hide SlotNamed;
    hide SlotsIn;
    hide PlacesIn;
    hide NewlyCreated;
    hide NamesKept;
    hide RootStands;
  }

  /** What the first creation has made of the root. */
  lemma FirstMade(fs: FileSystem, heap0: Heap, nodes0: Owners, used0: set<nat>, table: seq<byte>, a: seq<Scalar>,
                  file: File)
    returns (win: seq<Slot>)
    requires BlankRoot(heap0, nodes0, 1) && Listed(fs.g, heap0, nodes0, Root) && Seven(fs.upcaseValid, table, a)
    requires fs.g.bytesPerSector == 512 && fs.g.BytesPerCluster() == 512
    requires EmptyAt(fs, heap0, nodes0, table, [a], file)
    requires SetMadeAt(fs.g, heap0, nodes0, used0, fs.heap, fs.nodes, fs.used, [a], file.id)
    ensures FileSet(win) && |win| == 7 && NameIn(win) == Encoded(a).value
    ensures Root in nodes0 && Root in fs.nodes && Reads(heap0, nodes0[Root].ext) && Reads(fs.heap, fs.nodes[Root].ext)
    ensures Listed(fs.g, fs.heap, fs.nodes, Root)
    ensures DirSlots(fs.heap, fs.nodes[Root].ext) == Window(DirSlots(heap0, nodes0[Root].ext), 2, win)
  {
    hide SlotsOf;
    hide Find;
    hide HoldsRun;
    hide Encoded;
    hide Listed;
    hide HashOf;
    hide Wanting;
    hide Resolve;
    hide EmptyAt;
    hide SetPut;
    hide FileSet;
    hide NameIn;
    hide Window;
    hide Took;
    hide Geometry.BytesPerCluster;
    FirstFits(fs.g, heap0, nodes0, fs.upcaseValid, table, a);
    FirstReady(fs.g, heap0, nodes0, fs.upcaseValid, table, a);
    SevenSlots(|Encoded(a).value|);
    RootChild(fs, heap0, nodes0, table, a, file);
    win := SevenPut(fs.g, heap0, nodes0, used0, fs.heap, fs.nodes, Encoded(a).value, file.id.at, 2);
  }

  lemma SecondReady(g: Geometry, heap0: Heap, nodes0: Owners, heap: Heap, nodes: Owners, valid: bool, table: seq<byte>,
                    win: seq<Slot>, b: seq<Scalar>)
    requires BlankRoot(heap0, nodes0, 1) && Listed(g, heap, nodes, Root) && Seven(valid, table, b)
    requires Reads(heap, nodes[Root].ext) && FileSet(win) && |win| == 7
    requires DirSlots(heap, nodes[Root].ext) == Window(DirSlots(heap0, nodes0[Root].ext), 2, win)
    requires SameName(valid, table, NameIn(win), Encoded(b).value) == Ok(false)
    ensures Resolve(g, heap, nodes, valid, table, Root, [b]) == Err(PathNotFound)
    ensures forall e :: !Uncreatable(g, heap, nodes, valid, table, [b], e)
    ensures !NoRoomAt(g, heap, nodes, valid, table, [b])
  {
    hide SlotsOf;
    hide Find;
    hide HoldsRun;
    hide Encoded;
    hide Listed;
    hide HashOf;
    hide Wanting;
    hide Uncreatable;
    hide NoRoomAt;
    hide Resolve;
    hide FileSet;
    hide NameIn;
    hide SameName;
    SecondFits(g, heap0, nodes0, heap, nodes, valid, table, win, b);
    SevenSlots(|Encoded(b).value|);
    NotRefused(g, heap, nodes, valid, table, b);
  }

  /** What the second creation has made of it: no slot is left. */
  lemma SecondMade(fs: FileSystem, heap0: Heap, nodes0: Owners, heap1: Heap, nodes1: Owners, used1: set<nat>,
                   table: seq<byte>, win: seq<Slot>, b: seq<Scalar>, file: File)
    requires BlankRoot(heap0, nodes0, 1) && Listed(fs.g, heap1, nodes1, Root) && Seven(fs.upcaseValid, table, b)
    requires fs.g.bytesPerSector == 512 && fs.g.BytesPerCluster() == 512
    requires Reads(heap1, nodes1[Root].ext) && FileSet(win) && |win| == 7
    requires DirSlots(heap1, nodes1[Root].ext) == Window(DirSlots(heap0, nodes0[Root].ext), 2, win)
    requires SameName(fs.upcaseValid, table, NameIn(win), Encoded(b).value) == Ok(false)
    requires EmptyAt(fs, heap1, nodes1, table, [b], file)
    requires SetMadeAt(fs.g, heap1, nodes1, used1, fs.heap, fs.nodes, fs.used, [b], file.id)
    ensures !RootHasRoom(fs.heap, fs.nodes)
  {
    hide SlotsOf;
    hide Find;
    hide HoldsRun;
    hide Encoded;
    hide Listed;
    hide HashOf;
    hide Wanting;
    hide Resolve;
    hide EmptyAt;
    hide SetPut;
    hide FileSet;
    hide NameIn;
    hide SameName;
    hide Window;
    hide Took;
    hide RootHasRoom;
    hide Geometry.BytesPerCluster;
    SecondFits(fs.g, heap0, nodes0, heap1, nodes1, fs.upcaseValid, table, win, b);
    SecondReady(fs.g, heap0, nodes0, heap1, nodes1, fs.upcaseValid, table, win, b);
    SevenSlots(|Encoded(b).value|);
    RootChild(fs, heap1, nodes1, table, b, file);
    var second := SevenPut(fs.g, heap1, nodes1, used1, fs.heap, fs.nodes, Encoded(b).value, file.id.at, 9);
    TwoNamesFillTheRoot(fs.heap, fs.nodes, DirSlots(heap0, nodes0[Root].ext), win, second);
  }

  /** A file created on a mountable volume leaves it mountable. */
  lemma CreatedMountable(fs: FileSystem, heap0: Heap, nodes0: Owners, table: seq<byte>, name: seq<Scalar>, file: File,
                         gpt: Result<Partition>)
    requires Inv(fs) && TableReady(fs) && fs.upcaseValid && Anchored(fs.g, fs.origin, gpt)
    requires Carried(fs.g, fs.bitmap, fs.upcase, heap0, nodes0) && UpcaseFile in nodes0
    requires table == Content(heap0, nodes0[UpcaseFile]) && EmptyAt(fs, heap0, nodes0, table, [name], file)
    ensures Mountable(fs, gpt) && Table(fs) == table
  {
    hide Carried;
    hide Anchored;
    hide Inv;
    hide Content;
    hide Contents;
    hide Reached;
    hide Resolve;
    hide Listed;
    hide NewlyCreated;
    ReachedMountable(fs, heap0, nodes0, table, [name], file.id, gpt);
  }

  /** Create two files whose names have 61 to 75 units on a volume just formatted,
      with clusters of one sector, and mount it again.  Unless the device fails,
      both creations succeed, and the mount is refused. */
  method FillRoot(fs: FileSystem, parser: EntrySet, a: seq<Scalar>, b: seq<Scalar>, faulty: nat -> bool,
                  scratchLength: nat, gpt: Result<Partition>, ghost p: Plan)
    returns (first: Result<File>, second: Result<File>, again: Result<FileSystem>)
    requires IsFresh(fs, p) && Mountable(fs, gpt) && p.spc == 1 && scratchLength >= fs.g.bytesPerSector
    requires |parser.entry.entryLocs| == 19 && parser.secondaryLeft == 0
    requires IsName(a) && 61 <= UnitCount(a) <= 75 && 0xffff !in a
    requires IsName(b) && 61 <= UnitCount(b) <= 75 && 0xffff !in b
    requires SameName(fs.upcaseValid, Table(fs), Utf16(a), Utf16(b)) == Ok(false)
    modifies fs`clock, fs`scratch, fs`disk, fs`fat, fs`heap, fs`used, fs`free, fs`nodes, parser
    ensures Honest(fs.faulty, old(fs.clock), fs.clock, first.Err? || second.Err?)
    ensures first.Ok? && second.Ok? ==>
      again == Err(RootDirectoryCorrupt) || (again == Err(Device) && exists t :: faulty(t))
  {
    hide IsName;
    hide UnitCount;
    hide Failures;
    hide FileSystem.Valid;
    hide OwnOk;
    hide TreeOk;
    hide Content;
    hide Contents;
    hide Listed;
    hide Resolve;
    hide Encoded;
    hide HashOf;
    hide SameName;
    hide Carried;
    hide Anchored;
    hide BlankRoot;
    hide RootHasRoom;
    hide SetPut;
    hide Uncreatable;
    hide NoRoomAt;
    hide Reached;
    hide EmptyAt;
    hide SetMadeAt;
    hide Holds;
    hide StillStands;
    hide PathLeavesNoGap;
    hide AsciiBytes;
    second, again := Err(Device), Err(Device);
    ghost var heap0, nodes0, used0, table := fs.heap, fs.nodes, fs.used, Table(fs);
    FreshNames(fs, p, a);
    FreshNames(fs, p, b);
    EncodedIs(a);
    EncodedIs(b);
    OneSectorClusters(fs, p);
    FirstReady(fs.g, heap0, nodes0, fs.upcaseValid, table, a);
    first := Create(fs, [a], parser);
    if first.Err? { return; }
    ghost var heap1, nodes1, used1 := fs.heap, fs.nodes, fs.used;
    ghost var win := FirstMade(fs, heap0, nodes0, used0, table, a, first.value);
    CreatedMountable(fs, heap0, nodes0, table, a, first.value, gpt);
    SecondReady(fs.g, heap0, nodes0, heap1, nodes1, fs.upcaseValid, table, win, b);
    second := Create(fs, [b], parser);
    if second.Err? { return; }
    SecondMade(fs, heap0, nodes0, heap1, nodes1, used1, table, win, b, second.value);
    CreatedMountable(fs, heap1, nodes1, table, b, second.value, gpt);
    again := RemountDevice(fs, faulty, scratchLength, gpt);
  }
}
