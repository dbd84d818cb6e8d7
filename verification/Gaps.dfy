/** What a refused create_dir_all can leave behind: unused slots before others,
    and what that does to a later creation in the same directory. */
module Gaps {
  import opened Words
  import opened Errors
  import opened Geometry
  import opened Views
  import opened Volume
  import opened EntrySets
  import opened EntryCodec
  import opened Files
  import opened Tree
  import opened SlotIo
  import opened Growth
  import opened Meaning
  import opened Listings
  import opened Standing
  import opened Upcase
  import opened Scanning
  import opened Directories
  import opened Paths
  import opened Vacancies
  import opened Reserving
  import opened Creation
  import opened PathCreation

  // ----- a refused creation that leaves a gap ------------------------------------------------

  /** What `Gapless` rules out is a directory that grew once. */
  lemma OnceGrown(g: Geometry, heap0: Heap, nodes0: Owners, used0: set<nat>, heap: Heap, nodes: Owners, d: Id,
                  wanted: nat)
    requires OnlyRoom(g, heap0, nodes0, used0, heap, nodes, d, wanted) && 3 <= wanted <= 19
    requires d in nodes0 && Reads(heap0, nodes0[d].ext) && ZeroTail(DirSlots(heap0, nodes0[d].ext))
    requires !Gapless(g, heap0, nodes0, used0, d, wanted)
    ensures d in nodes && Scannable(g, heap0, nodes0[d].ext) && Scannable(g, heap, nodes[d].ext)
    ensures var slots, marked, more := DirSlots(heap0, nodes0[d].ext), g.bytesPerSector / 32, g.BytesPerCluster() / 32;
            && Sizes(marked, more) && marked <= |slots| && !HoldsRun(slots, wanted) && !NoneBefore(slots, marked)
            && DirSlots(heap, nodes[d].ext) == Roomier(slots, marked, more)
            && SameSets(slots, DirSlots(heap, nodes[d].ext))
    ensures exists c, length ::
      nodes == nodes0[d := nodes0[d].(ext := nodes0[d].ext + [c], valid := length)]
    ensures Contents(heap, nodes) == Contents(heap0, nodes0)
  {
    hide DirSlots;
    hide DirsStay;
    hide SameSets;
    hide Contents;
    hide ZeroTail;
    hide HoldsRun;
    hide NoneBefore;
    hide Find;
    hide Roomier;
    hide Full;
    hide Geometry.BytesPerCluster;
    hide Geometry.WellFormed;
    var used: set<nat>, grown: seq<nat>, k: nat, done: bool :|
      RoomBy(g, heap0, nodes0, used0, heap, nodes, used, d, wanted, grown, k, done);
    var slots, marked, more := DirSlots(heap0, nodes0[d].ext), g.bytesPerSector / 32, g.BytesPerCluster() / 32;
    GrownNotFull(g, nodes0, nodes, d, grown, used0, used, heap0, heap);
    FindFits(slots, wanted, marked, more);
    GrowthsNone(slots, wanted, marked, more);
    if Find(slots, wanted, marked, more).growths == 2 { TwiceGrown(slots, wanted, marked, more); }
    assert |grown| == 1;
    assert grown == [grown[0]];
    RoomedTwice(slots, marked, more);
  }

  lemma GrowthsNone(slots: seq<Slot>, wanted: nat, marked: nat, more: nat)
    requires 0 < wanted
    ensures Find(slots, wanted, marked, more).growths == 0 <==> HoldsRun(slots, wanted)
  {
    hide HoldsRun;
    hide Roomier;
    hide Crosses;
  }

  /** The gap at an operation.  Fifteen slots of two sectors are in use, one
      cluster is free, and the new directory's name needs eighteen slots: the
      directory takes the cluster, then none is left for the new directory, and
      unused slot 15 lies before the closed slot 16. */
  method GapCase(fs: FileSystem, dir: Directory, units: seq<u16>, ghost d: Id, ghost free: nat)
    returns (r: Result<Directory>)
    requires Inv(fs) && TableReady(fs) && DirIs(fs.g, fs.nodes, dir, d) && MetaOk(fs.g, fs.nodes, dir, d)
    requires 226 <= |units| <= 240 && HashOf(fs.upcaseValid, Table(fs), units).Ok?
    requires fs.g.bytesPerSector == 512 && Reads(fs.heap, fs.nodes[d].ext)
    requires var slots := DirSlots(fs.heap, fs.nodes[d].ext);
             |slots| == 32 && forall i :: 0 <= i < 32 ==> if i < 15 then slots[i][0] >= 0x80 else slots[i][0] == 0
    requires forall c :: 2 <= c < fs.g.clusterCount + 2 ==> (c in fs.used <==> c != free)
    requires 2 <= free < fs.g.clusterCount + 2
    modifies fs`clock, fs`scratch, fs`disk, fs`fat, fs`heap, fs`used, fs`free, fs`nodes
    ensures r == Err(Device) || (r == Err(NoSpace) && InvBut(fs, d) && !Inv(fs))
    ensures Honest(fs.faulty, old(fs.clock), fs.clock, r == Err(Device))
  {
    hide FileSystem.Valid;
    hide OwnOk;
    hide TreeOk;
    hide TreeBut;
    hide Content;
    hide Contents;
    hide DirSlots;
    hide MetaOk;
    hide Created;
    hide OwnersKept;
    hide Gapless;
    hide SetPut;
    hide OnlyRoom;
    hide HashOf;
    BarelyBut(fs, d);
    ghost var heap0, nodes0, used0 := fs.heap, fs.nodes, fs.used;
    SlotsWanted(|units|);
    CaseGap(fs.g, heap0, nodes0, used0, d, free);
    ghost var k;
    r, k := CreateDirectoryIn(fs, dir, units, d);
    if r.Ok? { TwoTaken(fs, heap0, nodes0, used0, d, units, k); }
  }

  lemma SlotsWanted(n: nat)
    requires 226 <= n <= 240
    ensures SlotsFor(n) == 18
  {
  }

  lemma CaseGap(g: Geometry, heap: Heap, nodes: Owners, used: set<nat>, d: Id, free: nat)
    requires d in nodes && Reads(heap, nodes[d].ext) && g.bytesPerSector == 512
    requires var slots := DirSlots(heap, nodes[d].ext);
             |slots| == 32 && forall i :: 0 <= i < 32 ==> if i < 15 then slots[i][0] >= 0x80 else slots[i][0] == 0
    requires 2 <= free < g.clusterCount + 2 && free !in used
    ensures !Gapless(g, heap, nodes, used, d, 18) && !HoldsRun(DirSlots(heap, nodes[d].ext), 18)
  {
    hide DirSlots;
    var slots := DirSlots(heap, nodes[d].ext);
    forall k: nat
      ensures !FreeRun(slots, k, 18)
    {
      if k + 18 <= 32 { assert k <= 14 && !Free(slots[14]); }
    }
    assert slots[15][0] == 0;
  }

  /** One cluster would not have been enough. */
  lemma TwoTaken(fs: FileSystem, heap0: Heap, nodes0: Owners, used0: set<nat>, d: Id, units: seq<u16>, k: nat)
    requires InvBut(fs, d) && SetPut(fs.g, heap0, nodes0, used0, fs.heap, fs.nodes, d, units, k)
    requires d in nodes0 && Reads(heap0, nodes0[d].ext) && !HoldsRun(DirSlots(heap0, nodes0[d].ext), SlotsFor(|units|))
    requires Child(d, k) in fs.nodes && fs.nodes[Child(d, k)].ext != []
    requires forall c :: c in fs.nodes[Child(d, k)].ext ==> c !in used0
    ensures exists a, b :: a != b && Spared(fs.g, used0, a) && Spared(fs.g, used0, b)
  {
    hide FileSystem.Valid;
    hide OwnOk;
    hide TreeBut;
    hide DirSlots;
    hide Find;
    hide HoldsRun;
    hide FileSet;
    hide NameIn;
    hide Window;
    hide Roomed;
    hide Room;
    hide Geometry.BytesPerCluster;
    var grown: seq<nat>, win: seq<Slot> :|
      PutBy(fs.g, heap0, nodes0, used0, fs.heap, fs.nodes, d, units, k, grown, win);
    GrowthsNone(DirSlots(heap0, nodes0[d].ext), SlotsFor(|units|), fs.g.bytesPerSector / 32,
                fs.g.BytesPerCluster() / 32);
    NotOwnDirectory(Child(d, k));
    var ext := fs.nodes[Child(d, k)].ext;
    OwnedApart(fs.g, fs.fat, fs.used, fs.bm, fs.nodes, Child(d, k), d);
    assert grown[0] in grown && ext[0] in ext;
    assert fs.nodes[d].ext[|nodes0[d].ext|] == grown[0];
    assert Spared(fs.g, used0, grown[0]) && Spared(fs.g, used0, ext[0]);
  }

  ghost predicate Spared(g: Geometry, used: set<nat>, c: nat) {
    2 <= c < g.clusterCount + 2 && c !in used
  }

  lemma OwnedApart(g: Geometry, fat: seq<u32>, used: set<nat>, bm: seq<nat>, nodes: Owners, a: Id, b: Id)
    requires OwnOk(g, fat, used, bm, nodes) && a in nodes && b in nodes && a != b
    ensures InHeap(g, nodes[a].ext) && forall i :: 0 <= i < |nodes[b].ext| ==> nodes[b].ext[i] !in nodes[a].ext
  {
    assert NodeOk(g, fat, used, nodes[a]);
    ApartExtents(nodes, a, b);
  }

  // ----- a later creation behind the gap -----------------------------------------------------

  /** A set behind an unused slot changes nothing a reader sees. */
  lemma SeenBehind(slots: seq<Slot>, locs: seq<EntryLocator>, k: nat, win: seq<Slot>)
    requires Stored(slots) && |slots| == |locs| && FileSet(win) && Room(slots, k, |win|) && FirstUnused(slots) < k
    ensures Stored(Window(slots, k, win)) && SeenList(Window(slots, k, win), locs) == SeenList(slots, locs)
  {
    hide FileSet;
    hide Stored;
    hide Window;
    InsertStored(slots, k, win);
    WindowAt(slots, k, win);
    var b, z := Window(slots, k, win), FirstUnused(slots);
    FirstUnusedIs(b, z);
    assert Front(b) == Front(slots);
  }

  /** A set before it is seen, when all others are. */
  lemma SeenBefore(slots: seq<Slot>, locs: seq<EntryLocator>, k: nat, win: seq<Slot>)
    requires Stored(slots) && |slots| == |locs| && FileSet(win) && Room(slots, k, |win|) && k <= FirstUnused(slots)
    requires forall i :: FirstUnused(slots) <= i < |slots| ==> slots[i][0] != 0x85
    ensures Stored(Window(slots, k, win))
    ensures SeenList(Window(slots, k, win), locs) == Listing(Window(slots, k, win), locs)
  {
    hide FileSet;
    hide Stored;
    hide Window;
    InsertStored(slots, k, win);
    WindowAt(slots, k, win);
    SetTypes(win);
    var b := Window(slots, k, win);
    var z := FirstUnused(b);
    assert forall i :: 0 <= i < k + |win| ==> b[i][0] != 0;
    assert z < |b| ==> slots[z] == b[z];
    assert forall i :: z <= i < |b| ==> b[i] == slots[i];
    SeenAllBefore(b, locs);
  }

  /** Records are seen if none is behind an unused slot. */
  lemma SeenAllBefore(slots: seq<Slot>, locs: seq<EntryLocator>)
    requires Stored(slots) && |slots| == |locs|
    requires forall i :: FirstUnused(slots) <= i < |slots| ==> slots[i][0] != 0x85
    ensures SeenList(slots, locs) == Listing(slots, locs)
  {
    hide Stored;
    hide RecordsIn;
    SeenRecords(slots, locs);
    var n := FirstUnused(slots);
    NoRecords(slots, locs, n, |slots|);
    RecordsSplit(slots, locs, 0, n, |slots|);
  }

  /** After a growth that has left a gap, the next set is seen exactly if there was
      a run of free slots for it before the closed sector. */
  lemma GapHides(slots: seq<Slot>, wanted: nat, marked: nat, more: nat, win: seq<Slot>, locs: seq<EntryLocator>)
    requires Sizes(marked, more) && marked <= |slots| && 3 <= wanted <= 19 && FileSet(win) && 3 <= |win| <= 19
    requires ZeroTail(slots) && Stored(slots) && !HoldsRun(slots, wanted) && !NoneBefore(slots, marked)
    requires |locs| == |slots| + more && Room(Roomier(slots, marked, more),
                                              Find(Roomier(slots, marked, more), |win|, marked, more).at, |win|)
    ensures var slots1 := Roomier(slots, marked, more);
            var slots2 := Window(slots1, Find(slots1, |win|, marked, more).at, win);
            && Stored(slots1) && Stored(slots2) && SeenList(slots1, locs) == Listing(slots1, locs)
            && SeenList(slots2, locs) ==
                 (if NoRunIn(slots, |slots| - marked, |win|) then Listing(slots1, locs) else Listing(slots2, locs))
  {
    hide FileSet;
    hide Stored;
    hide Window;
    hide Roomier;
    hide Find;
    hide NoRunIn;
    hide HoldsRun;
    hide RecordsIn;
    hide SeenList;
    hide Listing;
    hide Room;
    hide FreeRun;
    var slots1 := Roomier(slots, marked, more);
    var k := Find(slots1, |win|, marked, more).at;
    GapStays(slots, wanted, marked, more, |win|);
    GapWide(slots, wanted, marked, more);
    RoomierAt(slots, marked, more);
    SpacedStored(slots, marked, more);
    SeenAllBefore(slots1, locs);
    if NoRunIn(slots, |slots| - marked, |win|) {
      SeenBehind(slots1, locs, k, win);
    } else {
      SeenBefore(slots1, locs, k, win);
    }
  }

  lemma SpacedStored(slots: seq<Slot>, marked: nat, more: nat)
    requires Stored(slots)
    ensures Stored(Roomier(slots, marked, more))
  {
    hide Stored;
    hide Stays;
    RoomierSame(slots, marked, more);
    StaysSpaced(slots, Roomier(slots, marked, more));
    StaysStored(slots, Roomier(slots, marked, more));
  }

  lemma StaysStored(a: seq<Slot>, b: seq<Slot>)
    requires Stays(a, b)
    ensures Stored(a) && Stored(b)
  {
    hide Stored;
    hide FileSet;
    hide NameIn;
  }

  /** The handle of a directory that has grown by one cluster. */
  function Longer(g: Geometry, dir: Directory): Directory {
    dir.(dataLength := if dir.dataLength == 0 then 0 else dir.dataLength + g.BytesPerCluster())
  }

  lemma AgainReady(fs: FileSystem, dir: Directory, heap0: Heap, nodes0: Owners, used0: set<nat>, d: Id, wanted: nat)
    requires fs.Valid() && OnlyRoom(fs.g, heap0, nodes0, used0, fs.heap, fs.nodes, d, wanted) && 3 <= wanted <= 19
    requires d in nodes0 && Reads(heap0, nodes0[d].ext) && ZeroTail(DirSlots(heap0, nodes0[d].ext))
    requires !Gapless(fs.g, heap0, nodes0, used0, d, wanted)
    requires DirIs(fs.g, nodes0, dir, d) && MetaOk(fs.g, nodes0, dir, d)
    requires UpcaseFile in nodes0 && !nodes0[UpcaseFile].isDir
    requires fs.upcaseValid ==>
          && nodes0[UpcaseFile].ext != [] && nodes0[UpcaseFile].ext[0] == fs.upcase.firstCluster
          && nodes0[UpcaseFile].valid == fs.upcase.byteLength
    ensures DirIs(fs.g, fs.nodes, Longer(fs.g, dir), d) && MetaOk(fs.g, fs.nodes, Longer(fs.g, dir), d)
    ensures TableReady(fs) && Table(fs) == Content(heap0, nodes0[UpcaseFile]) && IsFile(fs.nodes, UpcaseFile)
  {
    hide FileSystem.Valid;
    hide OnlyRoom;
    hide Gapless;
    hide DirSlots;
    hide Content;
    hide SameSets;
    hide Roomier;
    hide HoldsRun;
    hide NoneBefore;
    hide ZeroTail;
    hide LocatedAt;
    hide Geometry.BytesPerCluster;
    hide Geometry.WellFormed;
    OnceGrown(fs.g, heap0, nodes0, used0, fs.heap, fs.nodes, d, wanted);
    var c, length :| fs.nodes == nodes0[d := nodes0[d].(ext := nodes0[d].ext + [c], valid := length)];
    if d.Child? { NotOwnDirectory(d); }
    NextMultiple(|nodes0[d].ext|, fs.g.BytesPerCluster());
    RootLength(fs.g, nodes0, dir, d);
    assert IsFile(nodes0, UpcaseFile) && IsFile(fs.nodes, UpcaseFile);
    assert Contents(heap0, nodes0)[UpcaseFile] == Contents(fs.heap, fs.nodes)[UpcaseFile];
  }

  lemma NoneTaken(g: Geometry, used: set<nat>, grown: seq<nat>)
    requires forall c :: c in grown ==> Spared(g, used, c)
    ensures Full(g, used) ==> grown == []
  {
    if grown != [] { assert grown[0] in grown && Spared(g, used, grown[0]); }
  }

  /** The slots the second creation finds. */
  lemma FullPut(g: Geometry, heap0: Heap, nodes0: Owners, used0: set<nat>, heap: Heap, nodes: Owners, d: Id,
                units: seq<u16>, k: nat)
    returns (win: seq<Slot>)
    requires SetPut(g, heap0, nodes0, used0, heap, nodes, d, units, k) && Full(g, used0)
    ensures d in nodes0 && d in nodes && nodes[d].ext == nodes0[d].ext && Reads(heap0, nodes0[d].ext)
    ensures Reads(heap, nodes[d].ext)
    ensures FileSet(win) && 3 <= |win| == SlotsFor(|units|) <= 19
    ensures var slots, marked, more := DirSlots(heap0, nodes0[d].ext), g.bytesPerSector / 32, g.BytesPerCluster() / 32;
            && Find(slots, |win|, marked, more).at == k && Room(slots, k, |win|)
            && DirSlots(heap, nodes[d].ext) == Window(slots, k, win)
  {
    hide DirSlots;
    hide FileSet;
    hide NameIn;
    hide Window;
    hide Find;
    hide Room;
    hide Geometry.BytesPerCluster;
    var grown: seq<nat>, set': seq<Slot> :| PutBy(g, heap0, nodes0, used0, heap, nodes, d, units, k, grown, set');
    NoneTaken(g, used0, grown);
    assert nodes0[d].ext + [] == nodes0[d].ext;
    win := set';
  }

  /** What a reader of the directory sees after both. */
  lemma HiddenThen(fs: FileSystem, heap0: Heap, nodes0: Owners, used0: set<nat>, heap1: Heap, nodes1: Owners,
                   used1: set<nat>, d: Id, wanted: nat, next: seq<u16>, k: nat, n: Node)
    requires OnlyRoom(fs.g, heap0, nodes0, used0, heap1, nodes1, d, wanted) && 3 <= wanted <= 19
    requires Listed(fs.g, heap0, nodes0, d) && ZeroTail(DirSlots(heap0, nodes0[d].ext))
    requires !Gapless(fs.g, heap0, nodes0, used0, d, wanted) && Full(fs.g, used1)
    requires SetPut(fs.g, heap1, nodes1, used1, fs.heap, fs.nodes, d, next, k)
    requires Created(fs, nodes1, heap1, used1, d, k, next, n)
    ensures d in nodes1 && fs.nodes[d].ext == nodes1[d].ext && Listed(fs.g, fs.heap, fs.nodes, d)
    ensures Listed(fs.g, heap1, nodes1, d) && ListHere(fs.g, heap1, nodes1, d) == ListHere(fs.g, heap0, nodes0, d)
    ensures SeenOf(fs.g, fs.heap, fs.nodes[d].ext) ==
      if NoRunIn(DirSlots(heap0, nodes0[d].ext), |DirSlots(heap0, nodes0[d].ext)| - fs.g.bytesPerSector / 32,
                 SlotsFor(|next|))
      then ListHere(fs.g, heap0, nodes0, d) else ListHere(fs.g, fs.heap, fs.nodes, d)
  {
    hide DirSlots;
    hide FileSet;
    hide Window;
    hide Find;
    hide Room;
    hide Roomier;
    hide OnlyRoom;
    hide SetPut;
    hide Gapless;
    hide HoldsRun;
    hide NoneBefore;
    hide NoRunIn;
    hide ZeroTail;
    hide Stored;
    hide DirsGain;
    hide OneMore;
    hide SeenList;
    hide Listing;
    hide LocAt;
    hide Geometry.BytesPerCluster;
    hide Geometry.WellFormed;
    var g := fs.g;
    OnceGrown(g, heap0, nodes0, used0, heap1, nodes1, d, wanted);
    var win := FullPut(g, heap1, nodes1, used1, fs.heap, fs.nodes, d, next, k);
    var slots0, slots1 := DirSlots(heap0, nodes0[d].ext), DirSlots(heap1, nodes1[d].ext);
    var marked, more, locs := g.bytesPerSector / 32, g.BytesPerCluster() / 32, Places(g, fs.heap, fs.nodes[d].ext);
    assert Places(g, heap1, nodes1[d].ext) == locs;
    GapHides(slots0, wanted, marked, more, win, locs);
    PlacesPrefix(g, heap0, heap1, nodes0[d].ext, nodes1[d].ext);
    SameSetsList(slots0, Places(g, heap0, nodes0[d].ext), slots1, locs);
  }

  /** The cluster that was added has room for every set that is not longer. */
  lemma RoomBehind(g: Geometry, heap0: Heap, nodes0: Owners, used0: set<nat>, heap: Heap, nodes: Owners, d: Id,
                   wanted: nat, next: nat)
    requires OnlyRoom(g, heap0, nodes0, used0, heap, nodes, d, wanted) && 3 <= wanted <= 19
    requires d in nodes0 && Reads(heap0, nodes0[d].ext) && ZeroTail(DirSlots(heap0, nodes0[d].ext))
    requires !Gapless(g, heap0, nodes0, used0, d, wanted) && Roomless(heap, nodes, d, next)
    ensures next > g.BytesPerCluster() / 32
  {
    hide OnlyRoom;
    hide Gapless;
    hide DirSlots;
    hide SameSets;
    hide Contents;
    hide ZeroTail;
    hide HoldsRun;
    hide NoneBefore;
    hide Roomier;
    hide TailFree;
    hide Geometry.BytesPerCluster;
    hide Geometry.WellFormed;
    OnceGrown(g, heap0, nodes0, used0, heap, nodes, d, wanted);
    var slots, marked, more := DirSlots(heap0, nodes0[d].ext), g.bytesPerSector / 32, g.BytesPerCluster() / 32;
    RoomierTail(slots, marked, more);
    if next <= more { TailHolds(Roomier(slots, marked, more), more, next); }
  }

  /** A directory is refused and leaves a gap, then a file is created in the same
      directory and looked up.  The creation succeeds, unless the device fails, the
      name cannot be hashed, or its set is longer than a cluster.  The lookup then
      finds the file exactly if the directory had a run of free slots for it before
      its last sector: otherwise no lookup finds it. */
  method CreateBehindGap(fs: FileSystem, parser: EntrySet, dir: Directory, units: seq<u16>, next: seq<u16>, ghost d: Id)
    returns (refused: Result<Directory>, made: Result<File>, found: Result<Option<DirectoryEntry>>)
    requires Inv(fs) && TableReady(fs) && DirIs(fs.g, fs.nodes, dir, d) && MetaOk(fs.g, fs.nodes, dir, d)
    requires 1 <= |units| <= 255 && 1 <= |next| <= 255 && Listed(fs.g, fs.heap, fs.nodes, d)
    requires |parser.entry.entryLocs| == 19 && parser.secondaryLeft == 0
    requires !Gapless(fs.g, fs.heap, fs.nodes, fs.used, d, SlotsFor(|units|))
    requires FirstMatch(fs.upcaseValid, Table(fs), ListHere(fs.g, fs.heap, fs.nodes, d), next) == Ok(None)
    modifies fs`clock, fs`scratch, fs`disk, fs`fat, fs`heap, fs`used, fs`free, fs`nodes, parser
    ensures refused.Err? && refused.error != Device ==>
      refused.error == NoSpace || HashOf(fs.upcaseValid, old(Table(fs)), units) == Err(refused.error)
    ensures refused == Err(NoSpace) && made.Err? ==>
      || made.error == Device
      || HashOf(fs.upcaseValid, old(Table(fs)), next) == Err(made.error)
      || (made.error == NoSpace && SlotsFor(|next|) > fs.g.BytesPerCluster() / 32)
    ensures Honest(fs.faulty, old(fs.clock), fs.clock,
                   refused == Err(Device) || made == Err(Device) || found == Err(Device))
    ensures refused == Err(NoSpace) && made.Ok? && found != Err(Device) ==>
      && found.Ok?
      && var slots := old(DirSlots(fs.heap, fs.nodes[d].ext));
         found.value.None? <==> NoRunIn(slots, |slots| - fs.g.bytesPerSector / 32, SlotsFor(|next|))
  {
    hide Failures;
    hide FileSystem.Valid;
    hide OwnOk;
    hide TreeOk;
    hide TreeBut;
    hide TreeRecords;
    hide Content;
    hide Contents;
    hide DirSlots;
    hide MetaOk;
    hide DirIs;
    hide Created;
    hide OwnersKept;
    hide Gapless;
    hide SetPut;
    hide OnlyRoom;
    hide HashOf;
    hide Roomless;
    hide Took;
    hide FirstMatch;
    hide NoRunIn;
    hide ZeroTail;
    hide Listed;
    hide SeenOf;
    hide Longer;
    hide ListHere;
    hide Full;
    hide Apart;
    hide Distinct;
    hide LocAt;
    hide InvLoose;
    hide Scannable;
    hide Stored;
    hide HasVacancy;
    hide TakesVacancy;
    hide LocatedAt;
    hide SlotsFor;
    BarelyBut(fs, d);
    made, found := Err(NoSpace), Err(NoSpace);
    ghost var heap0, nodes0, used0, table := fs.heap, fs.nodes, fs.used, Table(fs);
    DirIsDirectory(fs.g, fs.nodes, dir, d);
    TailStart(fs, d);
    ghost var at;
    refused, at := CreateDirectoryIn(fs, dir, units, d);
    if refused != Err(NoSpace) { return; }
    NameSlots(|units|);
    AgainReady(fs, dir, heap0, nodes0, used0, d, SlotsFor(|units|));
    ghost var heap1, nodes1, used1 := fs.heap, fs.nodes, fs.used;
    var again := Longer(fs.g, dir);
    made := CreateIn(fs, again, next, d);
    if made == Err(NoSpace) {
      RoomBehind(fs.g, heap0, nodes0, used0, heap1, nodes1, d, SlotsFor(|units|), SlotsFor(|next|));
    }
    if made.Err? { return; }
    ghost var k := made.value.id.at;
    HiddenThen(fs, heap0, nodes0, used0, heap1, nodes1, used1, d, SlotsFor(|units|), next, k,
               FileNode(SlotsFor(|next|)));
    SeenAfter(fs, heap1, nodes1, used1, d, k, next, again, table);
    found := LookupChild(fs, again, next, parser, d);
  }

  /** The directory's handle and the table after the second creation, and the list
      with the new record. */
  lemma SeenAfter(fs: FileSystem, heap1: Heap, nodes1: Owners, used1: set<nat>, d: Id, k: nat, next: seq<u16>,
                  dir: Directory, table: seq<byte>)
    requires InvBut(fs, d) && TableReady(fs)
    requires Created(fs, nodes1, heap1, used1, d, k, next, FileNode(SlotsFor(|next|)))
    requires DirIs(fs.g, nodes1, dir, d) && d in fs.nodes && fs.nodes[d].ext == nodes1[d].ext
    requires IsFile(nodes1, UpcaseFile) && table == Content(heap1, nodes1[UpcaseFile])
    requires Listed(fs.g, heap1, nodes1, d) && HashOf(fs.upcaseValid, table, next).Ok?
    requires FirstMatch(fs.upcaseValid, table, ListHere(fs.g, heap1, nodes1, d), next) == Ok(None)
    ensures InvLoose(fs) && DirIs(fs.g, fs.nodes, dir, d) && Table(fs) == table && Listed(fs.g, fs.heap, fs.nodes, d)
    ensures var r := FirstMatch(fs.upcaseValid, table, ListHere(fs.g, fs.heap, fs.nodes, d), next);
            r.Ok? && r.value.Some?
  {
    hide FileSystem.Valid;
    hide OwnOk;
    hide TreeBut;
    hide TreeRecords;
    hide Content;
    hide DirSlots;
    hide DirsGain;
    hide OneMore;
    hide HashOf;
    hide FirstMatch;
    hide NameUtf16;
    hide RecordAt;
    hide ListOf;
    ButLoose(fs, d);
    LooseListed(fs, d);
    UpcaseNotDirectory(fs.g, fs.fat, fs.used, fs.bm, fs.nodes);
    assert Contents(heap1, nodes1)[UpcaseFile] == Contents(fs.heap, fs.nodes)[UpcaseFile];
    var e := RecordAt(SlotsIn(fs.g, fs.heap, fs.nodes, d), PlacesIn(fs.g, fs.heap, fs.nodes, d), k);
    FoundAgain(fs.upcaseValid, table, ListHere(fs.g, heap1, nodes1, d), ListHere(fs.g, fs.heap, fs.nodes, d), e);
  }
}
