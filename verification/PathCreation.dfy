/** Creating by path: a file, or every directory along a path. */
module PathCreation {
  import opened Words
  import opened Errors
  import opened Geometry
  import opened Views
  import opened Volume
  import opened EntrySets
  import opened EntryCodec
  import opened Files
  import opened Tree
  import opened SlotIo
  import opened Growth
  import opened Meaning
  import opened Commits
  import opened Appending
  import opened Truncation
  import opened Sessions
  import opened Listings
  import opened Standing
  import opened Upcase
  import opened Scanning
  import opened Directories
  import opened Names
  import opened Paths
  import opened Resolution
  import opened Reserving
  import opened Creation

  // ----- finding what was created -------------------------------------------------------

  /** A lookup after a creation finds the new record, with its places. */
  lemma FoundAgain(valid: bool, table: seq<byte>, list: seq<DirectoryEntry>, list': seq<DirectoryEntry>,
                   e: DirectoryEntry)
    requires FirstMatch(valid, table, list, NameUtf16(e)) == Ok(None) && OneMore(list, list', e)
    requires HashOf(valid, table, NameUtf16(e)).Ok?
    ensures FirstMatch(valid, table, list', NameUtf16(e)) == Ok(Some(e))
  {
    hide SameName;
    hide HashOf;
    var wanted := NameUtf16(e);
    NoMatchIsMiss(valid, table, list, wanted);
    NameMatchesItself(valid, table, wanted);
    var i :| 0 <= i <= |list| && list' == list[..i] + [e] + list[i..];
    var found := list[..i] + [e];
    assert found[..|found| - 1] == list[..i];
    MissedFront(valid, table, list, i, wanted);
    HitIsFirst(valid, table, list', found, wanted, Ok(true));
  }

  lemma MissedFront(valid: bool, table: seq<byte>, list: seq<DirectoryEntry>, i: nat, wanted: seq<u16>)
    requires Missed(valid, table, list, wanted) && i <= |list|
    ensures Missed(valid, table, list[..i], wanted)
  {
    hide SameName;
  }

  // ----- resolving a path and its parent ----------------------------------------------------

  /** Resolving a path is resolving its parent and then the last name. */
  lemma {:induction false} ResolveLast(g: Geometry, heap: Heap, nodes: Owners, valid: bool, table: seq<byte>, d: Id,
                                       names: seq<seq<Scalar>>, last: seq<Scalar>, p: Id)
    requires Listed(g, heap, nodes, d) && Listed(g, heap, nodes, p)
    requires if names == [] then p == d else Resolve(g, heap, nodes, valid, table, d, names) == Ok(p)
    ensures Resolve(g, heap, nodes, valid, table, d, names + [last]) == Resolve(g, heap, nodes, valid, table, p, [last])
    decreases |names|
  {
    hide Listed;
    hide SlotNamed;
    hide Encoded;
    if names == [] {
      assert names + [last] == [last];
    } else {
      assert (names + [last])[0] == names[0] && (names + [last])[1..] == names[1..] + [last];
      var k := SlotNamed(valid, table, SlotsIn(g, heap, nodes, d), PlacesIn(g, heap, nodes, d), 0,
                         Encoded(names[0]).value).value.value;
      assert Listed(g, heap, nodes, Child(d, k)) by {
        if |names| == 1 { assert p == Child(d, k); }
      }
      ResolveLast(g, heap, nodes, valid, table, Child(d, k), names[1..], last, p);
    }
  }

  /** A path that is not found although its parent is: the last name is valid
      and matches nothing there. */
  lemma LastNotFound(g: Geometry, heap: Heap, nodes: Owners, valid: bool, table: seq<byte>, names: seq<seq<Scalar>>,
                     p: Id)
    requires names != [] && Listed(g, heap, nodes, Root) && Listed(g, heap, nodes, p)
    requires if |names| == 1 then p == Root
             else Resolve(g, heap, nodes, valid, table, Root, names[..|names| - 1]) == Ok(p)
    requires Resolve(g, heap, nodes, valid, table, Root, names) == Err(PathNotFound)
    ensures Encoded(names[|names| - 1]).Ok?
    ensures FirstMatch(valid, table, ListHere(g, heap, nodes, p), Encoded(names[|names| - 1]).value) == Ok(None)
  {
    hide Encoded;
    hide FirstMatch;
    hide Resolve;
    hide Listed;
    hide ListHere;
    var last := names[|names| - 1];
    assert names == names[..|names| - 1] + [last];
    ResolveLast(g, heap, nodes, valid, table, Root, names[..|names| - 1], last, p);
    OneName(g, heap, nodes, valid, table, p, last);
  }

  /** A single name that is not found matches nothing in its directory. */
  lemma OneName(g: Geometry, heap: Heap, nodes: Owners, valid: bool, table: seq<byte>, p: Id, last: seq<Scalar>)
    requires Listed(g, heap, nodes, p) && Resolve(g, heap, nodes, valid, table, p, [last]) == Err(PathNotFound)
    ensures Encoded(last).Ok?
    ensures FirstMatch(valid, table, ListHere(g, heap, nodes, p), Encoded(last).value) == Ok(None)
  {
    hide Encoded;
    hide FirstMatch;
    hide SlotNamed;
    hide SlotsOf;
    hide Decode;
    hide FileSet;
    hide Stored;
    hide Places;
    EncodingErrors(last);
    SlotIsFirstMatch(valid, table, SlotsIn(g, heap, nodes, p), PlacesIn(g, heap, nodes, p), 0, Encoded(last).value);
  }

  lemma EncodingErrors(name: seq<Scalar>)
    ensures Encoded(name).Err? ==> Encoded(name).error in {InvalidPath, NameTooLong}
  {
  }

  lemma EntryMeta(g: Geometry, nodes: Owners, e: DirectoryEntry, id: Id)
    requires EntryTells(g, nodes, e, id) && e.isDirectory
    ensures DirectoryOf(e).Some? && MetaOk(g, nodes, DirectoryOf(e).value, id)
  {
  }

  // ----- creating a file ----------------------------------------------------------------------

  /** The directory a new entry belongs in. */
  method ParentOf(fs: FileSystem, names: seq<seq<Scalar>>, parser: EntrySet) returns (r: Result<Directory>, ghost d: Id)
    requires Inv(fs) && TableReady(fs) && |parser.entry.entryLocs| == 19 && parser.secondaryLeft == 0 && names != []
    modifies fs`clock, fs`scratch, parser
    ensures Inv(fs) && TableReady(fs) && Listed(fs.g, fs.heap, fs.nodes, Root) && |parser.entry.entryLocs| == 19
    ensures r != Err(Device) ==> parser.secondaryLeft == 0
    ensures r.Ok? ==>
      && Listed(fs.g, fs.heap, fs.nodes, d) && DirIs(fs.g, fs.nodes, r.value, d) && MetaOk(fs.g, fs.nodes, r.value, d)
      && (if |names| == 1 then d == Root
          else Resolve(fs.g, fs.heap, fs.nodes, fs.upcaseValid, Table(fs), Root, names[..|names| - 1]) == Ok(d))
    ensures r.Err? && r.error != Device ==>
      |names| > 1 &&
      var parent := Resolve(fs.g, fs.heap, fs.nodes, fs.upcaseValid, Table(fs), Root, names[..|names| - 1]);
      if parent.Err? then r.error == parent.error
      else r.error == NotDirectory && parent.value in fs.nodes && !fs.nodes[parent.value].isDir
    ensures Honest(fs.faulty, old(fs.clock), fs.clock, r == Err(Device))
  {
    hide FileSystem.Valid;
    hide OwnOk;
    hide TreeOk;
    hide Content;
    hide Resolve;
    hide EntryFor;
    d := Root;
    RootListed(fs);
    if |names| == 1 { return Ok(RootDirectory(fs.g)), d; }
    var entry;
    entry, d := Lookup(fs, names[..|names| - 1], parser);
    if entry.Err? { return Err(entry.error), d; }
    var dir := DirectoryOf(entry.value);
    if dir.None? { return Err(NotDirectory), d; }
    EntryMeta(fs.g, fs.nodes, entry.value, d);
    InvListed(fs, d);
    return Ok(dir.value), d;
  }

  /** Why no file can be created at a path, nor the one there emptied: the path to
      its directory fails or leads to a file, the path leads to a directory, or
      the name cannot be encoded, compared or hashed. */
  ghost predicate Uncreatable(g: Geometry, heap: Heap, nodes: Owners, valid: bool, table: seq<byte>,
                              names: seq<seq<Scalar>>, e: Error) {
    if names == [] then e == InvalidPath
    else
      && Listed(g, heap, nodes, Root) &&
      var to, last := Resolve(g, heap, nodes, valid, table, Root, names), Encoded(names[|names| - 1]);
      || last == Err(e)
      || (last.Ok? && to == Err(PathNotFound) && HashOf(valid, table, last.value) == Err(e))
      || (to == Err(e) && e != PathNotFound)
      || (to.Ok? && to.value in nodes && nodes[to.value].isDir && e == IsDirectory)
      || (|names| > 1 &&
          var parent := Resolve(g, heap, nodes, valid, table, Root, names[..|names| - 1]);
          if parent.Err? then parent.error == e
          else e == NotDirectory && parent.value in nodes && !nodes[parent.value].isDir)
  }

  /** No set of this name is there yet, so a creation needs room for one. */
  ghost predicate Wanting(g: Geometry, heap: Heap, nodes: Owners, valid: bool, table: seq<byte>, d: Id,
                          name: seq<Scalar>) {
    && Encoded(name).Ok? && Listed(g, heap, nodes, d)
    && SlotNamed(valid, table, SlotsIn(g, heap, nodes, d), PlacesIn(g, heap, nodes, d), 0, Encoded(name).value)
         == Ok(None)
  }

  /** A creation under this name leaves no unused slot before others if it is
      refused: it needs no room, or finds the directory without a gap to leave. */
  ghost predicate LeavesNoGap(g: Geometry, heap: Heap, nodes: Owners, used: set<nat>, valid: bool, table: seq<byte>,
                              d: Id, name: seq<Scalar>) {
    Wanting(g, heap, nodes, valid, table, d, name) ==>
      Gapless(g, heap, nodes, used, d, SlotsFor(|Encoded(name).value|))
  }

  /** The directory an entry at this path belongs in. */
  ghost function HomeOf(g: Geometry, heap: Heap, nodes: Owners, valid: bool, table: seq<byte>, names: seq<seq<Scalar>>)
    : Result<Id>
    requires names != [] && Listed(g, heap, nodes, Root)
  {
    if |names| == 1 then Ok(Root) else Resolve(g, heap, nodes, valid, table, Root, names[..|names| - 1])
  }

  /** The same for a path: a refusal needs no room unless the path's directory is
      there. */
  ghost predicate PathLeavesNoGap(g: Geometry, heap: Heap, nodes: Owners, used: set<nat>, valid: bool, table: seq<byte>,
                                  names: seq<seq<Scalar>>) {
    names != [] && Listed(g, heap, nodes, Root) ==>
      var home := HomeOf(g, heap, nodes, valid, table, names);
      home.Ok? ==> LeavesNoGap(g, heap, nodes, used, valid, table, home.value, names[|names| - 1])
  }

  /** Where the path leads somewhere, or a search fails, nothing is wanting. */
  lemma NoneWanting(g: Geometry, heap: Heap, nodes: Owners, used: set<nat>, valid: bool, table: seq<byte>,
                    names: seq<seq<Scalar>>)
    requires names != [] && Listed(g, heap, nodes, Root)
    requires Resolve(g, heap, nodes, valid, table, Root, names) != Err(PathNotFound)
    ensures PathLeavesNoGap(g, heap, nodes, used, valid, table, names)
  {
    hide Encoded;
    hide SlotNamed;
    hide Resolve;
    hide Listed;
    hide SlotsIn;
    hide PlacesIn;
    hide Gapless;
    var home, last := HomeOf(g, heap, nodes, valid, table, names), names[|names| - 1];
    assert names == names[..|names| - 1] + [last];
    if home.Ok? && Wanting(g, heap, nodes, valid, table, home.value, last) {
      ResolveLast(g, heap, nodes, valid, table, Root, names[..|names| - 1], last, home.value);
      NoneResolves(g, heap, nodes, valid, table, home.value, last);
    }
  }

  lemma NoneResolves(g: Geometry, heap: Heap, nodes: Owners, valid: bool, table: seq<byte>, d: Id, last: seq<Scalar>)
    requires Wanting(g, heap, nodes, valid, table, d, last)
    ensures Resolve(g, heap, nodes, valid, table, d, [last]) == Err(PathNotFound)
  {
    hide Encoded;
    hide SlotNamed;
    hide Listed;
    hide SlotsIn;
    hide PlacesIn;
  }

  /** A directory that does not lead anywhere wants nothing. */
  lemma NoHome(g: Geometry, heap: Heap, nodes: Owners, used: set<nat>, valid: bool, table: seq<byte>,
               names: seq<seq<Scalar>>)
    requires names != [] && Listed(g, heap, nodes, Root)
    requires var home := HomeOf(g, heap, nodes, valid, table, names);
             home.Ok? ==> home.value in nodes && !nodes[home.value].isDir
    ensures PathLeavesNoGap(g, heap, nodes, used, valid, table, names)
  {
    hide Encoded;
    hide SlotNamed;
    hide Resolve;
    hide SlotsIn;
    hide PlacesIn;
    hide Gapless;
    hide Stored;
  }

  lemma NoPathWants(g: Geometry, heap: Heap, nodes: Owners, used: set<nat>, valid: bool, table: seq<byte>)
    ensures PathLeavesNoGap(g, heap, nodes, used, valid, table, [])
  {
  }

  /** What making room leaves standing: every path, every handle, every file. */
  ghost predicate StillStands(heap0: Heap, nodes0: Owners, heap: Heap, nodes: Owners) {
    && DirsStay(heap0, nodes0, heap, nodes) && OwnersKept(nodes0, nodes) && (forall e :: e in nodes ==> e in nodes0)
    && Contents(heap, nodes) == Contents(heap0, nodes0)
  }

  lemma RoomStands(fs: FileSystem, heap0: Heap, nodes0: Owners, used0: set<nat>, d: Id, wanted: nat)
    requires OnlyRoom(fs.g, heap0, nodes0, used0, fs.heap, fs.nodes, d, wanted)
    requires fs.Valid() && d in nodes0 && nodes0[d].isDir && UpcaseFile in nodes0 && !nodes0[UpcaseFile].isDir
    requires fs.upcaseValid ==>
          && nodes0[UpcaseFile].ext != [] && nodes0[UpcaseFile].ext[0] == fs.upcase.firstCluster
          && nodes0[UpcaseFile].valid == fs.upcase.byteLength
    ensures StillStands(heap0, nodes0, fs.heap, fs.nodes) && TableReady(fs)
  {
    hide FileSystem.Valid;
    hide Content;
    hide Contents;
    hide DirsStay;
    hide DirSlots;
    hide SameSets;
    hide AsFound;
    var used: set<nat>, grown: seq<nat>, k: nat, done: bool :|
      RoomBy(fs.g, heap0, nodes0, used0, fs.heap, fs.nodes, used, d, wanted, grown, k, done);
  }

  /** The path leads to this file, which is empty; every other file is as it was;
      and either the file was there, or it is one new record of its directory. */
  ghost predicate EmptyAt(fs: FileSystem, heap0: Heap, nodes0: Owners, table: seq<byte>, names: seq<seq<Scalar>>,
                          file: File)
    reads fs, file
  {
    && Contents(fs.heap, fs.nodes) == Contents(heap0, nodes0)[file.id := []]
    && Reached(fs.g, fs.upcaseValid, fs.heap, fs.nodes, heap0, nodes0, table, names, file.id)
    && (forall e :: e in fs.nodes ==> e in nodes0 || e == file.id)
    && if file.id in nodes0 then
         && Resolve(fs.g, heap0, nodes0, fs.upcaseValid, table, Root, names) == Ok(file.id)
         && fs.nodes == Committed(nodes0, file)
       else
         && names != []
         && NewlyCreated(fs.g, fs.upcaseValid, table, heap0, nodes0, fs.heap, fs.nodes, names[|names| - 1], file.id)
         && OwnersKept(nodes0, fs.nodes)
  }

  /** The path leads nowhere, and its directory has no room for its set. */
  ghost predicate NoRoomAt(g: Geometry, heap: Heap, nodes: Owners, valid: bool, table: seq<byte>,
                           names: seq<seq<Scalar>>) {
    && names != [] && Listed(g, heap, nodes, Root) && Encoded(names[|names| - 1]).Ok?
    && Resolve(g, heap, nodes, valid, table, Root, names) == Err(PathNotFound)
    && HomeOf(g, heap, nodes, valid, table, names).Ok?
    && Roomless(heap, nodes, HomeOf(g, heap, nodes, valid, table, names).value,
                SlotsFor(|Encoded(names[|names| - 1]).value|))
  }

  /** The directory an entry at this path belongs in has vacant slots for its set. */
  ghost predicate VacantHome(g: Geometry, heap: Heap, nodes: Owners, valid: bool, table: seq<byte>,
                             names: seq<seq<Scalar>>) {
    && names != [] && Listed(g, heap, nodes, Root) && Encoded(names[|names| - 1]).Ok?
    && HomeOf(g, heap, nodes, valid, table, names).Ok?
    && HasVacancy(heap, nodes, HomeOf(g, heap, nodes, valid, table, names).value,
                  SlotsFor(|Encoded(names[|names| - 1]).value|))
  }

  /** A file that was there has given clusters back; a new one's set has been put
      into its directory, which has grown by two clusters at most. */
  ghost predicate SetMadeAt(g: Geometry, heap0: Heap, nodes0: Owners, used0: set<nat>, heap: Heap, nodes: Owners,
                            used: set<nat>, names: seq<seq<Scalar>>, id: Id) {
    if id in nodes0 then used <= used0
    else
      && Took(used0, used, 2) && names != [] && Encoded(names[|names| - 1]).Ok? && id.Child?
      && SetPut(g, heap0, nodes0, used0, heap, nodes, id.dir, Encoded(names[|names| - 1]).value, id.at)
  }

  /** Create a file, or empty the one that is already there: either way the
      volume means what it meant, except that this file is now empty; the path
      leads to it, and every path that led somewhere leads there still.  A new
      file adds exactly one record to its directory's listing, takes vacant slots
      before it takes a cluster, and names that were apart stay apart. */
  method Create(fs: FileSystem, names: seq<seq<Scalar>>, parser: EntrySet) returns (r: Result<File>)
    requires Inv(fs) && TableReady(fs) && |parser.entry.entryLocs| == 19 && parser.secondaryLeft == 0
    modifies fs`clock, fs`scratch, fs`disk, fs`fat, fs`heap, fs`used, fs`free, fs`nodes, parser
    ensures fs.Valid() && UpcaseFile in old(fs.nodes)
    ensures names == [] ==> r == Err(InvalidPath)
    ensures r.Ok? ==>
      && Inv(fs) && TableReady(fs) && fresh(r.value) && Holds(fs, r.value) && r.value.position == 0
      && EmptyAt(fs, old(fs.heap), old(fs.nodes), old(Table(fs)), names, r.value)
    ensures r.Err? && r.error != Device ==>
      && (exists d :: InvBut(fs, d)) && TableReady(fs)
      && StillStands(old(fs.heap), old(fs.nodes), fs.heap, fs.nodes)
      && (Inv(fs) <==> PathLeavesNoGap(fs.g, old(fs.heap), old(fs.nodes), old(fs.used), fs.upcaseValid, old(Table(fs)),
                                       names))
    ensures r == Err(NoSpace) ==>
      && Inv(fs) && Took(old(fs.used), fs.used, 1)
      && NoRoomAt(fs.g, old(fs.heap), old(fs.nodes), fs.upcaseValid, old(Table(fs)), names)
    ensures r.Ok? ==>
      SetMadeAt(fs.g, old(fs.heap), old(fs.nodes), old(fs.used), fs.heap, fs.nodes, fs.used, names, r.value.id)
    ensures r.Err? && r.error != Device ==> Took(old(fs.used), fs.used, 2)
    ensures r != Err(Device) ==> |parser.entry.entryLocs| == 19 && parser.secondaryLeft == 0
    ensures r.Err? && r.error !in {Device, NoSpace} ==>
      Uncreatable(fs.g, old(fs.heap), old(fs.nodes), fs.upcaseValid, old(Table(fs)), names, r.error)
    ensures r != Err(Device)
            && VacantHome(fs.g, old(fs.heap), old(fs.nodes), fs.upcaseValid, old(Table(fs)), names) ==>
      r != Err(NoSpace) && fs.used <= old(fs.used)
    ensures Honest(fs.faulty, old(fs.clock), fs.clock, r == Err(Device))
    ensures r == Err(NoSpace) ==> Full(fs.g, fs.used)
  {
    hide Failures;
    hide FileSystem.Valid;
    hide OwnOk;
    hide TreeOk;
    hide Content;
    hide Contents;
    hide Resolve;
    hide DirIs;
    hide MetaOk;
    hide Listed;
    hide Created;
    hide Encoded;
    hide HashOf;
    hide NewlyCreated;
    hide OwnersKept;
    hide Reached;
    hide DirsStay;
    hide Took;
    hide NoRoomAt;
    hide VacantHome;
    hide SetMadeAt;
    hide PathLeavesNoGap;
    UpcaseNotDirectory(fs.g, fs.fat, fs.used, fs.bm, fs.nodes);
    RootListed(fs);
    BarelyBut(fs, Root);
    SameStill(fs);
    TookNone(fs.used);
    TookWiden(fs.used, fs.used, 0, 2);
    NoPathWants(fs.g, fs.heap, fs.nodes, fs.used, fs.upcaseValid, Table(fs));
    if |names| == 0 { return Err(InvalidPath); }
    InvAllListed(fs);
    InvInhabited(fs.g, fs.heap, fs.nodes);
    ghost var nodes, heap, table, used := fs.nodes, fs.heap, Table(fs), fs.used;
    var dir, d := ParentOf(fs, names, parser);
    BarelyBut(fs, Root);
    if dir.Err? {
      NotNoSpace(fs, names);
      if dir != Err(Device) { NoHome(fs.g, heap, nodes, used, fs.upcaseValid, table, names); }
      return Err(dir.error);
    }
    var found := Open(fs, names, parser);
    BarelyBut(fs, Root);
    if found.Ok? {
      var file := found.value;
      assert file.id in nodes && IsFile(nodes, file.id) && file.id.Child? by { HoldsParts(fs, file); }
      ContentsSame(fs.heap, nodes, file.id);
      var emptied := Truncate(fs, file, 0);
      if emptied.Err? { return Err(emptied.error); }
      EmptiedTable(fs, nodes, file);
      EmptiedSpends(fs, nodes, heap, used, names, file.id);
      EmptiedPaths(fs, heap, nodes, table, file, names, Content(heap, nodes[file.id])[..0]);
      return Ok(file);
    }
    NotNoSpace(fs, names);
    if found.error != PathNotFound {
      if found != Err(Device) { NoneWanting(fs.g, heap, nodes, used, fs.upcaseValid, table, names); }
      return Err(found.error);
    }
    r := CreateMissing(fs, names, dir.value, d);
  }

  lemma EmptiedSpends(fs: FileSystem, nodes0: Owners, heap0: Heap, used0: set<nat>, names: seq<seq<Scalar>>, id: Id)
    requires id in nodes0 && fs.used <= used0
    ensures SetMadeAt(fs.g, heap0, nodes0, used0, fs.heap, fs.nodes, fs.used, names, id)
  {
  }

  lemma SameStill(fs: FileSystem)
    requires Inv(fs)
    ensures StillStands(fs.heap, fs.nodes, fs.heap, fs.nodes)
  {
    hide FileSystem.Valid;
    hide OwnOk;
    hide TreeOk;
    hide TreeRecords;
    hide Contents;
    hide DirsStay;
    OkRecords(fs.g, fs.heap, fs.nodes);
    SameStays(fs.g, fs.heap, fs.nodes);
  }

  /** Create the file at a path that does not lead anywhere, in the directory it
      belongs in. */
  method CreateMissing(fs: FileSystem, names: seq<seq<Scalar>>, dir: Directory, ghost d: Id) returns (r: Result<File>)
    requires Inv(fs) && TableReady(fs) && names != []
    requires Listed(fs.g, fs.heap, fs.nodes, Root) && Listed(fs.g, fs.heap, fs.nodes, d)
    requires DirIs(fs.g, fs.nodes, dir, d) && MetaOk(fs.g, fs.nodes, dir, d)
    requires if |names| == 1 then d == Root
             else Resolve(fs.g, fs.heap, fs.nodes, fs.upcaseValid, Table(fs), Root, names[..|names| - 1]) == Ok(d)
    requires Resolve(fs.g, fs.heap, fs.nodes, fs.upcaseValid, Table(fs), Root, names) == Err(PathNotFound)
    modifies fs`clock, fs`scratch, fs`disk, fs`fat, fs`heap, fs`used, fs`free, fs`nodes
    ensures fs.Valid() && UpcaseFile in old(fs.nodes)
    ensures r.Ok? ==>
      && Inv(fs) && TableReady(fs) && fresh(r.value) && Holds(fs, r.value) && r.value.position == 0
      && EmptyAt(fs, old(fs.heap), old(fs.nodes), old(Table(fs)), names, r.value)
    ensures r.Err? && r.error != Device ==>
      && InvBut(fs, d) && TableReady(fs) && StillStands(old(fs.heap), old(fs.nodes), fs.heap, fs.nodes)
      && (Inv(fs) <==> PathLeavesNoGap(fs.g, old(fs.heap), old(fs.nodes), old(fs.used), fs.upcaseValid, old(Table(fs)),
                                       names))
    ensures r.Err? && r.error != Device ==> Took(old(fs.used), fs.used, 2)
    ensures r == Err(NoSpace) ==>
      && Inv(fs) && Took(old(fs.used), fs.used, 1)
      && NoRoomAt(fs.g, old(fs.heap), old(fs.nodes), fs.upcaseValid, old(Table(fs)), names)
    ensures r.Ok? ==>
      SetMadeAt(fs.g, old(fs.heap), old(fs.nodes), old(fs.used), fs.heap, fs.nodes, fs.used, names, r.value.id)
    ensures r.Err? && r.error !in {Device, NoSpace} ==>
      Uncreatable(fs.g, old(fs.heap), old(fs.nodes), fs.upcaseValid, old(Table(fs)), names, r.error)
    ensures r != Err(Device)
            && VacantHome(fs.g, old(fs.heap), old(fs.nodes), fs.upcaseValid, old(Table(fs)), names) ==>
      r != Err(NoSpace) && fs.used == old(fs.used)
    ensures Honest(fs.faulty, old(fs.clock), fs.clock, r == Err(Device))
    ensures r == Err(NoSpace) ==> Full(fs.g, fs.used)
  {
    hide Failures;
    hide FileSystem.Valid;
    hide OwnOk;
    hide TreeOk;
    hide InvBut;
    hide Content;
    hide Contents;
    hide Resolve;
    hide DirIs;
    hide MetaOk;
    hide Listed;
    hide Created;
    hide Encoded;
    hide HashOf;
    hide NewlyCreated;
    hide OwnersKept;
    hide Reached;
    hide DirsStay;
    hide Took;
    hide SetPut;
    hide HasVacancy;
    hide FillsVacancy;
    hide Roomless;
    UpcaseNotDirectory(fs.g, fs.fat, fs.used, fs.bm, fs.nodes);
    InvAllListed(fs);
    InvInhabited(fs.g, fs.heap, fs.nodes);
    ghost var nodes, heap, table, used := fs.nodes, fs.heap, Table(fs), fs.used;
    LastNotFound(fs.g, heap, nodes, fs.upcaseValid, table, names, d);
    var units := EncodeName(names[|names| - 1]);
    EncodedFits(names[|names| - 1], names[|names| - 1]);
    DirIsDirectory(fs.g, fs.nodes, dir, d);
    BarelyBut(fs, d);
    WantingLast(fs.g, heap, nodes, used, fs.upcaseValid, table, names, d);
    r := CreateIn(fs, dir, units.value, d);
    if r.Err? && r.error != Device { RoomStands(fs, heap, nodes, used, d, SlotsFor(|units.value|)); }
    if r.Ok? {
      CreatedParts(fs, nodes, heap, used, d, r.value.id.at, units.value, FileNode(SlotsFor(|units.value|)));
      NewlyDone(fs, nodes, heap, table, used, names[|names| - 1], d, r.value.id, units.value);
      NewlyReached(fs, nodes, heap, table, used, names, d, r.value.id, units.value);
    }
  }

  /** A last name that is not found is wanting. */
  lemma WantingLast(g: Geometry, heap: Heap, nodes: Owners, used: set<nat>, valid: bool, table: seq<byte>,
                    names: seq<seq<Scalar>>, d: Id)
    requires names != [] && Listed(g, heap, nodes, Root) && Listed(g, heap, nodes, d)
    requires HomeOf(g, heap, nodes, valid, table, names) == Ok(d)
    requires Resolve(g, heap, nodes, valid, table, Root, names) == Err(PathNotFound)
    ensures Encoded(names[|names| - 1]).Ok?
    ensures PathLeavesNoGap(g, heap, nodes, used, valid, table, names) <==>
      Gapless(g, heap, nodes, used, d, SlotsFor(|Encoded(names[|names| - 1]).value|))
  {
    hide Encoded;
    hide SlotNamed;
    hide Resolve;
    hide Listed;
    hide SlotsIn;
    hide PlacesIn;
    hide Gapless;
    var last := names[|names| - 1];
    assert names == names[..|names| - 1] + [last];
    ResolveLast(g, heap, nodes, valid, table, Root, names[..|names| - 1], last, d);
    NotFoundWanting(g, heap, nodes, valid, table, d, last);
  }

  lemma NotFoundWanting(g: Geometry, heap: Heap, nodes: Owners, valid: bool, table: seq<byte>, d: Id, last: seq<Scalar>)
    requires Listed(g, heap, nodes, d) && Resolve(g, heap, nodes, valid, table, d, [last]) == Err(PathNotFound)
    ensures Wanting(g, heap, nodes, valid, table, d, last)
  {
    hide Encoded;
    hide SlotNamed;
    hide Listed;
    hide SlotsIn;
    hide PlacesIn;
    EncodingErrors(last);
  }

  /** No path fails for want of space. */
  lemma NotNoSpace(fs: FileSystem, names: seq<seq<Scalar>>)
    requires Inv(fs) && UpcaseFile in fs.nodes && Listed(fs.g, fs.heap, fs.nodes, Root)
    ensures Resolve(fs.g, fs.heap, fs.nodes, fs.upcaseValid, Table(fs), Root, names) != Err(NoSpace)
    ensures |names| > 0 ==>
      Resolve(fs.g, fs.heap, fs.nodes, fs.upcaseValid, Table(fs), Root, names[..|names| - 1]) != Err(NoSpace)
  {
    hide FileSystem.Valid;
    hide OwnOk;
    hide TreeOk;
    hide Listed;
    hide Resolve;
    ResolveErrors(fs.g, fs.heap, fs.nodes, fs.upcaseValid, Table(fs), Root, names);
    if |names| > 0 { ResolveErrors(fs.g, fs.heap, fs.nodes, fs.upcaseValid, Table(fs), Root, names[..|names| - 1]); }
  }

  lemma {:induction false} ResolveErrors(g: Geometry, heap: Heap, nodes: Owners, valid: bool, table: seq<byte>, d: Id,
                                         names: seq<seq<Scalar>>)
    requires Listed(g, heap, nodes, d)
    ensures var to := Resolve(g, heap, nodes, valid, table, d, names);
            to.Err? ==> to.error in {PathNotFound, NotDirectory, InvalidPath, NameTooLong, UpcaseTableCorrupt, Corrupt}
    decreases |names|
  {
    hide Listed;
    hide Encoded;
    hide SlotNamed;
    if names != [] {
      EncodingErrors(names[0]);
      if Encoded(names[0]).Ok? {
        var found := SlotNamed(valid, table, SlotsIn(g, heap, nodes, d), PlacesIn(g, heap, nodes, d), 0,
                               Encoded(names[0]).value);
        if found.Ok? && found.value.Some? && |names| > 1 && Listed(g, heap, nodes, Child(d, found.value.value)) {
          ResolveErrors(g, heap, nodes, valid, table, Child(d, found.value.value), names[1..]);
        }
      }
    }
  }

  lemma CreatedParts(fs: FileSystem, nodes0: Owners, heap0: Heap, used0: set<nat>, d: Id, k: nat, units: seq<u16>,
                     n: Node)
    requires Created(fs, nodes0, heap0, used0, d, k, units, n)
    ensures Child(d, k) !in nodes0 && Child(d, k) in fs.nodes && fs.nodes[Child(d, k)] == n
    ensures Contents(fs.heap, fs.nodes) ==
      if n.isDir then Contents(heap0, nodes0) else Contents(heap0, nodes0)[Child(d, k) := []]
    ensures forall e :: e in fs.nodes ==> e in nodes0 || e == Child(d, k)
  {
    hide Listed;
    hide Contents;
    hide SlotsIn;
    hide PlacesIn;
    hide ListHere;
    hide OneMore;
    hide Decode;
  }

  /** The named entry was not there, and now is: one record more, which the next
      lookup finds, and names that were apart stay apart. */
  ghost predicate NewlyCreated(g: Geometry, valid: bool, table: seq<byte>, heap0: Heap, nodes0: Owners, heap: Heap,
                               nodes: Owners, name: seq<Scalar>, id: Id) {
    && id.Child? && Encoded(name).Ok? && id !in nodes0 && id in nodes
    && Listed(g, heap0, nodes0, id.dir) && Listed(g, heap, nodes, id.dir)
    && id.at < |SlotsIn(g, heap, nodes, id.dir)| && SlotsIn(g, heap, nodes, id.dir)[id.at][0] == 0x85
    && var list, list' := ListHere(g, heap0, nodes0, id.dir), ListHere(g, heap, nodes, id.dir);
       var e := RecordAt(SlotsIn(g, heap, nodes, id.dir), PlacesIn(g, heap, nodes, id.dir), id.at);
       && OneMore(list, list', e)
       && FirstMatch(valid, table, list, Encoded(name).value) == Ok(None)
       && FirstMatch(valid, table, list', Encoded(name).value) == Ok(Some(e))
       && (Unambiguous(valid, table, list) ==> Unambiguous(valid, table, list'))
  }

  lemma NewlyDone(fs: FileSystem, nodes0: Owners, heap0: Heap, table: seq<byte>, used0: set<nat>, name: seq<Scalar>,
                  d: Id, id: Id, units: seq<u16>)
    requires Encoded(name) == Ok(units) && id.Child? && id.dir == d && id in fs.nodes
    requires Created(fs, nodes0, heap0, used0, d, id.at, units, fs.nodes[id])
    requires Listed(fs.g, heap0, nodes0, d)
    requires FirstMatch(fs.upcaseValid, table, ListHere(fs.g, heap0, nodes0, d), units) == Ok(None)
    requires HashOf(fs.upcaseValid, table, units).Ok?
    ensures NewlyCreated(fs.g, fs.upcaseValid, table, heap0, nodes0, fs.heap, fs.nodes, name, id)
  {
    hide Listed;
    hide SlotsIn;
    hide PlacesIn;
    hide FirstMatch;
    hide OneMore;
    hide Encoded;
    hide HashOf;
    hide Contents;
    hide Decode;
    hide Unambiguous;
    hide Listing;
    hide FileSet;
    hide DirsGain;
    var list, list' := ListHere(fs.g, heap0, nodes0, d), ListHere(fs.g, fs.heap, fs.nodes, d);
    StoredAt(SlotsIn(fs.g, fs.heap, fs.nodes, d), id.at);
    var e := RecordAt(SlotsIn(fs.g, fs.heap, fs.nodes, d), PlacesIn(fs.g, fs.heap, fs.nodes, d), id.at);
    FoundAgain(fs.upcaseValid, table, list, list', e);
    if Unambiguous(fs.upcaseValid, table, list) { StillUnambiguous(fs.upcaseValid, table, list, list', e); }
  }

  /** The path leads to `id`; every path that led somewhere leads there still;
      and if no two names of any directory matched before, or if all were proper,
      so now. */
  ghost predicate Reached(g: Geometry, valid: bool, heap: Heap, nodes: Owners, heap0: Heap, nodes0: Owners,
                          table: seq<byte>, names: seq<seq<Scalar>>, id: Id) {
    && UpcaseFile in nodes && Content(heap, nodes[UpcaseFile]) == table
    && PathsKept(g, heap0, nodes0, heap, nodes, valid, table)
    && Resolve(g, heap, nodes, valid, table, Root, names) == Ok(id)
    && NamesKept(g, heap0, nodes0, heap, nodes, valid, table)
  }

  lemma TableSame(heap0: Heap, nodes0: Owners, heap: Heap, nodes: Owners, id: Id, bytes: seq<byte>)
    requires UpcaseFile in nodes0 && !nodes0[UpcaseFile].isDir && UpcaseFile in nodes && !nodes[UpcaseFile].isDir
    requires Contents(heap, nodes) == Contents(heap0, nodes0)
             || (id != UpcaseFile && Contents(heap, nodes) == Contents(heap0, nodes0)[id := bytes])
    ensures Content(heap, nodes[UpcaseFile]) == Content(heap0, nodes0[UpcaseFile])
  {
    hide Content;
    assert UpcaseFile in Contents(heap0, nodes0) && UpcaseFile in Contents(heap, nodes);
    assert Contents(heap, nodes)[UpcaseFile] == Contents(heap0, nodes0)[UpcaseFile];
  }

  /** Emptying a file moves no path. */
  lemma EmptiedPaths(fs: FileSystem, heap0: Heap, nodes0: Owners, table: seq<byte>, file: File, names: seq<seq<Scalar>>,
                     bytes: seq<byte>)
    requires Inv(fs) && fs.nodes == Committed(nodes0, file) && IsFile(nodes0, file.id) && file.id.Child?
    requires DirsStay(heap0, nodes0, fs.heap, fs.nodes) && AllListed(fs.g, heap0, nodes0) && Inhabited(heap0, nodes0)
    requires UpcaseFile in nodes0 && !nodes0[UpcaseFile].isDir && table == Content(heap0, nodes0[UpcaseFile])
    requires Contents(fs.heap, fs.nodes) == Contents(heap0, nodes0)[file.id := bytes]
    requires Listed(fs.g, heap0, nodes0, Root)
    requires Resolve(fs.g, heap0, nodes0, fs.upcaseValid, table, Root, names) == Ok(file.id)
    ensures Reached(fs.g, fs.upcaseValid, fs.heap, fs.nodes, heap0, nodes0, table, names, file.id)
  {
    hide FileSystem.Valid;
    hide OwnOk;
    hide TreeOk;
    hide Listed;
    hide Resolve;
    hide Content;
    hide Contents;
    hide DirsStay;
    hide Inhabited;
    hide NamesDistinct;
    hide NamesProper;
    hide AllListed;
    InvAllListed(fs);
    RootListed(fs);
    TableSame(heap0, nodes0, fs.heap, fs.nodes, file.id, bytes);
    StandPaths(fs.g, heap0, nodes0, fs.heap, fs.nodes, fs.upcaseValid, table);
    NamesStay(fs.g, heap0, nodes0, fs.heap, fs.nodes, fs.upcaseValid, table);
  }

  lemma StandPaths(g: Geometry, heap0: Heap, nodes0: Owners, heap: Heap, nodes: Owners, valid: bool, table: seq<byte>)
    requires Comparable(g, heap0, nodes0, heap, nodes) && DirsStay(heap0, nodes0, heap, nodes)
    requires Listed(g, heap0, nodes0, Root) && Listed(g, heap, nodes, Root)
    ensures PathsKept(g, heap0, nodes0, heap, nodes, valid, table)
  {
    hide Resolve;
    hide Listed;
    hide AllListed;
    hide Inhabited;
    hide DirsStay;
    hide RootStands;
    ListedReads(g, heap0, nodes0, Root);
    StaysRoot(heap0, nodes0, heap, nodes);
    forall names | Resolve(g, heap0, nodes0, valid, table, Root, names).Ok?
      ensures Resolve(g, heap, nodes, valid, table, Root, names) == Resolve(g, heap0, nodes0, valid, table, Root, names)
    {
      ResolveStays(g, heap0, nodes0, heap, nodes, valid, table, Root, names);
    }
    forall names | Resolve(g, heap, nodes, valid, table, Root, names).Ok?
      ensures Resolve(g, heap0, nodes0, valid, table, Root, names) == Resolve(g, heap, nodes, valid, table, Root, names)
    {
      ResolveStays(g, heap0, nodes0, heap, nodes, valid, table, Root, names);
    }
  }

  lemma KeptKinds(nodes0: Owners, nodes: Owners)
    requires OwnersKept(nodes0, nodes)
    ensures KindsKept(nodes0, nodes)
  {
  }

  /** The conditions of an arrival, from a creation. */
  lemma CreatedArrived(fs: FileSystem, nodes0: Owners, heap0: Heap, table: seq<byte>, used0: set<nat>, d: Id, id: Id,
                       units: seq<u16>)
    requires id.Child? && id.dir == d && id in fs.nodes
    requires Created(fs, nodes0, heap0, used0, d, id.at, units, fs.nodes[id])
    requires Listed(fs.g, heap0, nodes0, d) && HashOf(fs.upcaseValid, table, units).Ok?
    requires FirstMatch(fs.upcaseValid, table, ListHere(fs.g, heap0, nodes0, d), units) == Ok(None)
    ensures Arrived(fs.g, heap0, nodes0, fs.heap, fs.nodes, fs.upcaseValid, table, d, id.at, units)
    ensures forall e :: e in fs.nodes ==> e in nodes0 || e == id
    ensures Contents(fs.heap, fs.nodes) ==
            if fs.nodes[id].isDir then Contents(heap0, nodes0) else Contents(heap0, nodes0)[id := []]
  {
    hide Listed;
    hide SlotsIn;
    hide PlacesIn;
    hide FirstMatch;
    hide OneMore;
    hide HashOf;
    hide Contents;
    hide Decode;
    hide FileSet;
    hide DirsGain;
    hide SlotNamed;
    hide Foldable;
    SlotIsFirstMatch(fs.upcaseValid, table, SlotsIn(fs.g, heap0, nodes0, d), PlacesIn(fs.g, heap0, nodes0, d), 0,
                     units);
    ListIsListing(fs.g, heap0, nodes0, d);
    HashFolds(fs.upcaseValid, table, units);
  }

  lemma ListIsListing(g: Geometry, heap: Heap, nodes: Owners, d: Id)
    requires Listed(g, heap, nodes, d)
    ensures var slots := SlotsIn(g, heap, nodes, d);
            ListHere(g, heap, nodes, d) == RecordsIn(slots, PlacesIn(g, heap, nodes, d), 0, |slots|)
  {
  }

  /** After a creation the path leads to what was created. */
  lemma NewlyReached(fs: FileSystem, nodes0: Owners, heap0: Heap, table: seq<byte>, used0: set<nat>,
                     names: seq<seq<Scalar>>, d: Id, id: Id, units: seq<u16>)
    requires Inv(fs) && names != [] && Encoded(names[|names| - 1]) == Ok(units) && id.Child? && id.dir == d
    requires id in fs.nodes
    requires Created(fs, nodes0, heap0, used0, d, id.at, units, fs.nodes[id]) && OwnersKept(nodes0, fs.nodes)
    requires AllListed(fs.g, heap0, nodes0) && Inhabited(heap0, nodes0)
    requires Listed(fs.g, heap0, nodes0, d) && Listed(fs.g, heap0, nodes0, Root)
    requires FirstMatch(fs.upcaseValid, table, ListHere(fs.g, heap0, nodes0, d), units) == Ok(None)
    requires HashOf(fs.upcaseValid, table, units).Ok?
    requires UpcaseFile in nodes0 && !nodes0[UpcaseFile].isDir && table == Content(heap0, nodes0[UpcaseFile])
    requires if |names| == 1 then d == Root
             else Resolve(fs.g, heap0, nodes0, fs.upcaseValid, table, Root, names[..|names| - 1]) == Ok(d)
    requires fs.nodes[id].isDir ==> Listed(fs.g, fs.heap, fs.nodes, id) && ListHere(fs.g, fs.heap, fs.nodes, id) == []
    ensures Reached(fs.g, fs.upcaseValid, fs.heap, fs.nodes, heap0, nodes0, table, names, id)
  {
    hide FileSystem.Valid;
    hide OwnOk;
    hide TreeOk;
    hide Listed;
    hide Resolve;
    hide Content;
    hide Contents;
    hide Created;
    hide Arrived;
    hide FirstMatch;
    hide HashOf;
    hide Encoded;
    hide SlotNamed;
    hide Inhabited;
    hide NamesDistinct;
    hide NamesProper;
    hide AllListed;
    hide ListHere;
    hide NewAreEmpty;
    InvAllListed(fs);
    RootListed(fs);
    CreatedArrived(fs, nodes0, heap0, table, used0, d, id, units);
    NewEmpty(fs, nodes0, heap0, used0, d, id, units);
    KeptKinds(nodes0, fs.nodes);
    TableSame(heap0, nodes0, fs.heap, fs.nodes, id, []);
    ArrivalKeepsPaths(fs.g, heap0, nodes0, fs.heap, fs.nodes, fs.upcaseValid, table, d, id.at, units);
    ArrivalFound(fs.g, heap0, nodes0, fs.heap, fs.nodes, fs.upcaseValid, table, d, id.at, units);
    assert Listed(fs.g, fs.heap, fs.nodes, d) by {
      ArrivedListed(fs.g, heap0, nodes0, fs.heap, fs.nodes, fs.upcaseValid, table, d, id.at, units);
    }
    var last := names[|names| - 1];
    assert names == names[..|names| - 1] + [last];
    ResolveVia(fs.g, fs.heap, fs.nodes, fs.upcaseValid, table, d, [last], units, id.at);
    ResolveLast(fs.g, fs.heap, fs.nodes, fs.upcaseValid, table, Root, names[..|names| - 1], last, d);
    NamesArrive(fs.g, heap0, nodes0, fs.heap, fs.nodes, fs.upcaseValid, table, d, id.at, units);
  }

  lemma NewEmpty(fs: FileSystem, nodes0: Owners, heap0: Heap, used0: set<nat>, d: Id, id: Id, units: seq<u16>)
    requires id.Child? && id.dir == d && id in fs.nodes
    requires Created(fs, nodes0, heap0, used0, d, id.at, units, fs.nodes[id])
    requires fs.nodes[id].isDir ==> Listed(fs.g, fs.heap, fs.nodes, id) && ListHere(fs.g, fs.heap, fs.nodes, id) == []
    ensures NewAreEmpty(fs.g, nodes0, fs.heap, fs.nodes, id)
  {
    hide Listed;
    hide SlotsIn;
    hide PlacesIn;
    hide ListHere;
    hide OneMore;
    hide Contents;
    hide Decode;
    hide DirsGain;
    NewStartsNone(fs.g, fs.heap, fs.nodes, id);
  }

  lemma ArrivedListed(g: Geometry, heap0: Heap, nodes0: Owners, heap: Heap, nodes: Owners, valid: bool,
                      table: seq<byte>, d: Id, k: nat, name: seq<u16>)
    requires Arrived(g, heap0, nodes0, heap, nodes, valid, table, d, k, name)
    ensures Listed(g, heap0, nodes0, d) && Listed(g, heap, nodes, d)
  {
    hide SlotNamed;
    hide Listed;
  }

  /** A new directory that lists nothing starts no set. */
  lemma NewStartsNone(g: Geometry, heap: Heap, nodes: Owners, id: Id)
    requires id in nodes && (nodes[id].isDir ==> Listed(g, heap, nodes, id) && ListHere(g, heap, nodes, id) == [])
    ensures nodes[id].isDir ==> forall j :: 0 <= j < |SlotsIn(g, heap, nodes, id)| ==>
      SlotsIn(g, heap, nodes, id)[j][0] != 0x85
  {
    hide SlotsOf;
    hide Scannable;
    hide Stored;
    hide RecordsIn;
    if nodes[id].isDir {
      forall j | 0 <= j < |SlotsIn(g, heap, nodes, id)|
        ensures SlotsIn(g, heap, nodes, id)[j][0] != 0x85
      {
        EmptyList(SlotsIn(g, heap, nodes, id), PlacesIn(g, heap, nodes, id), j);
      }
    }
  }

  /** Emptying a file leaves the up-case table where it was. */
  lemma EmptiedTable(fs: FileSystem, nodes0: Owners, file: File)
    requires fs.nodes == Committed(nodes0, file) && file.id.Child? && UpcaseFile in nodes0
    requires fs.upcaseValid ==>
          && nodes0[UpcaseFile].ext != [] && nodes0[UpcaseFile].ext[0] == fs.upcase.firstCluster
          && nodes0[UpcaseFile].valid == fs.upcase.byteLength
    ensures TableReady(fs)
  {
  }

  // ----- creating directories -------------------------------------------------------------------

  /** The volume after some of a path's names, and the directory reached. */
  datatype Stage = Stage(heap: Heap, nodes: Owners, used: set<nat>, id: Id)

  /** One name further: into a directory that was there, or into a new one. */
  ghost predicate Stepped(g: Geometry, valid: bool, table: seq<byte>, a: Stage, b: Stage, name: seq<Scalar>) {
    && b.id.Child? && b.id.dir == a.id && b.id in b.nodes && b.nodes[b.id].isDir
    && PathsKept(g, a.heap, a.nodes, b.heap, b.nodes, valid, table) && OwnersKept(a.nodes, b.nodes)
    && Took(a.used, b.used, 3)
    && Contents(b.heap, b.nodes) == Contents(a.heap, a.nodes)
    && (forall e :: e in b.nodes ==> e in a.nodes || e == b.id)
    && if b.id in a.nodes then b.heap == a.heap && b.nodes == a.nodes && b.used == a.used
       else NewlyCreated(g, valid, table, a.heap, a.nodes, b.heap, b.nodes, name, b.id)
  }

  /** The stages of a walk along `names`, one step a name. */
  ghost predicate Walked(g: Geometry, valid: bool, table: seq<byte>, stages: seq<Stage>, names: seq<seq<Scalar>>) {
    && |stages| == |names| + 1
    && forall i :: 0 <= i < |names| ==> Stepped(g, valid, table, stages[i], stages[i + 1], names[i])
  }

  lemma WalkedMore(g: Geometry, valid: bool, table: seq<byte>, stages: seq<Stage>, names: seq<seq<Scalar>>, i: nat,
                   next: Stage)
    requires i < |names| && Walked(g, valid, table, stages, names[..i])
    requires Stepped(g, valid, table, stages[i], next, names[i])
    ensures Walked(g, valid, table, stages + [next], names[..i + 1])
  {
    hide Stepped;
    var stages', names' := stages + [next], names[..i + 1];
    forall j | 0 <= j < |names'|
      ensures Stepped(g, valid, table, stages'[j], stages'[j + 1], names'[j])
    {
      if j < i {
        assert names'[j] == names[..i][j];
        assert Stepped(g, valid, table, stages[j], stages[j + 1], names[..i][j]);
      }
    }
  }

  /** A walk along `names` from `a` to `b`: each stage one step on, the path and
      all its beginnings lead to directories now, and only these are new. */
  ghost predicate Climbed(g: Geometry, valid: bool, table: seq<byte>, a: Stage, stages: seq<Stage>, b: Stage,
                          names: seq<seq<Scalar>>) {
    && Walked(g, valid, table, stages, names) && stages[0] == a && stages[|names|] == b
    && OwnersKept(a.nodes, b.nodes) && Contents(b.heap, b.nodes) == Contents(a.heap, a.nodes)
    && Took(a.used, b.used, 3 * |names|)
    && Along(g, valid, b.heap, b.nodes, a.heap, a.nodes, table, names, b.id)
    && Laid(g, valid, b.heap, b.nodes, a.nodes, table, names)
  }

  lemma ClimbedMore(g: Geometry, valid: bool, table: seq<byte>, a: Stage, stages: seq<Stage>, b: Stage, c: Stage,
                    names: seq<seq<Scalar>>, i: nat)
    requires i < |names| && Climbed(g, valid, table, a, stages, b, names[..i])
    requires Stepped(g, valid, table, b, c, names[i])
    requires Along(g, valid, c.heap, c.nodes, a.heap, a.nodes, table, names[..i] + [names[i]], c.id)
    ensures Climbed(g, valid, table, a, stages + [c], c, names[..i + 1])
  {
    hide Stepped;
    hide Took;
    hide Contents;
    hide OwnersKept;
    hide Along;
    hide Laid;
    hide PathsKept;
    hide Resolve;
    assert names[..i] + [names[i]] == names[..i + 1];
    SteppedParts(g, valid, table, b, c, names[i]);
    KeptTrans(a.nodes, b.nodes, c.nodes);
    TookTrans(a.used, b.used, c.used, 3 * i, 3);
    WalkedMore(g, valid, table, stages, names, i, c);
    AlongLeads(g, valid, c.heap, c.nodes, a.heap, a.nodes, table, names[..i + 1], c.id);
    LaidMore(g, valid, c.heap, c.nodes, b.heap, b.nodes, a.nodes, table, names, i, c.id);
  }

  lemma AlongLeads(g: Geometry, valid: bool, heap: Heap, nodes: Owners, heap0: Heap, nodes0: Owners, table: seq<byte>,
                   names: seq<seq<Scalar>>, id: Id)
    requires names != [] && Along(g, valid, heap, nodes, heap0, nodes0, table, names, id)
    ensures Listed(g, heap, nodes, Root) && Resolve(g, heap, nodes, valid, table, Root, names) == Ok(id)
  {
    hide Resolve;
    hide Listed;
    hide NamesDistinct;
    hide NamesProper;
    hide Content;
  }

  lemma ClimbedParts(g: Geometry, valid: bool, table: seq<byte>, a: Stage, stages: seq<Stage>, b: Stage,
                     names: seq<seq<Scalar>>)
    requires Climbed(g, valid, table, a, stages, b, names)
    ensures |stages| == |names| + 1 && stages[|names|] == b
    ensures OwnersKept(a.nodes, b.nodes) && Contents(b.heap, b.nodes) == Contents(a.heap, a.nodes)
    ensures Took(a.used, b.used, 3 * |names|)
    ensures Along(g, valid, b.heap, b.nodes, a.heap, a.nodes, table, names, b.id)
    ensures Laid(g, valid, b.heap, b.nodes, a.nodes, table, names)
  {
    hide Contents;
    hide OwnersKept;
    hide Along;
    hide Laid;
    hide Stepped;
  }

  /** A walk that is refused: everything stands as at its last stage; the next name
      bars the way, or the volume is full; and unused slots lie before others only
      if there was no room for the next name's set. */
  ghost predicate Halted(fs: FileSystem, table: seq<byte>, at: Stage, name: seq<Scalar>, e: Error)
    reads fs
  {
    && InvBut(fs, at.id) && TableReady(fs) && StillStands(at.heap, at.nodes, fs.heap, fs.nodes)
    && (Inv(fs) <==> LeavesNoGap(fs.g, at.heap, at.nodes, at.used, fs.upcaseValid, table, at.id, name))
    && (Wanting(fs.g, at.heap, at.nodes, fs.upcaseValid, table, at.id, name)
        || (fs.heap == at.heap && fs.nodes == at.nodes))
    && AllListed(fs.g, at.heap, at.nodes) && Inhabited(at.heap, at.nodes) && Took(at.used, fs.used, 3)
    && (if e == NoSpace then
          Full(fs.g, fs.used) && Wanting(fs.g, at.heap, at.nodes, fs.upcaseValid, table, at.id, name)
        else Barred(fs.g, at.heap, at.nodes, fs.upcaseValid, table, at.id, name, e))
  }

  lemma HaltedParts(fs: FileSystem, table: seq<byte>, a: Stage, stages: seq<Stage>, at: Stage, names: seq<seq<Scalar>>,
                    name: seq<Scalar>, e: Error)
    requires Halted(fs, table, at, name, e) && Climbed(fs.g, fs.upcaseValid, table, a, stages, at, names)
    ensures InvBut(fs, at.id) && TableReady(fs) && Contents(fs.heap, fs.nodes) == Contents(a.heap, a.nodes)
  {
    hide FileSystem.Valid;
    hide OwnOk;
    hide TreeBut;
    hide TreeOk;
    hide Contents;
    hide DirsStay;
    hide OwnersKept;
    hide Along;
    hide Laid;
    hide Walked;
    hide Barred;
    hide LeavesNoGap;
    hide Wanting;
    hide Took;
    hide AllListed;
    hide Inhabited;
  }

  /** Make sure that every directory along a path exists.  The path then leads to
      the last one; no file changes; each directory on the way was there or has
      been created as one new record in the directory before; every path that led
      somewhere leads there still, and names that were apart stay apart. */
  method CreateDirAll(fs: FileSystem, names: seq<seq<Scalar>>, parser: EntrySet)
    returns (r: Result<()>, ghost id: Id, ghost stages: seq<Stage>)
    requires Inv(fs) && TableReady(fs) && |parser.entry.entryLocs| == 19 && parser.secondaryLeft == 0
    modifies fs`clock, fs`scratch, fs`disk, fs`fat, fs`heap, fs`used, fs`free, fs`nodes, parser
    ensures fs.Valid() && UpcaseFile in old(fs.nodes)
    ensures names == [] ==>
      && r == Err(InvalidPath) && Inv(fs)
      && fs.heap == old(fs.heap) && fs.nodes == old(fs.nodes) && fs.used == old(fs.used)
    ensures r.Ok? ==>
      && Inv(fs) && TableReady(fs) && id in fs.nodes && fs.nodes[id].isDir
      && Climbed(fs.g, fs.upcaseValid, old(Table(fs)), Stage(old(fs.heap), old(fs.nodes), old(fs.used), Root), stages,
                 Stage(fs.heap, fs.nodes, fs.used, id), names)
    ensures r.Err? && r.error != Device ==>
      InvBut(fs, id) && TableReady(fs) && Contents(fs.heap, fs.nodes) == old(Contents(fs.heap, fs.nodes))
    ensures names != [] && r.Err? && r.error != Device ==>
      var n := |stages| - 1;
      && 0 <= n < |names| && stages[n].id == id
      && Climbed(fs.g, fs.upcaseValid, old(Table(fs)), Stage(old(fs.heap), old(fs.nodes), old(fs.used), Root), stages,
                 stages[n], names[..n])
      && Halted(fs, old(Table(fs)), stages[n], names[n], r.error)
    ensures r != Err(Device) ==> |parser.entry.entryLocs| == 19 && parser.secondaryLeft == 0
    ensures Honest(fs.faulty, old(fs.clock), fs.clock, r == Err(Device))
    ensures r == Err(NoSpace) ==> Full(fs.g, fs.used)
  {
    hide Failures;
    hide FileSystem.Valid;
    hide OwnOk;
    hide TreeOk;
    hide TreeBut;
    hide Contents;
    hide Content;
    hide DirIs;
    hide MetaOk;
    hide Listed;
    hide OwnersKept;
    hide Climbed;
    hide Halted;
    hide Along;
    hide Stepped;
    id := Root;
    ghost var start := Stage(fs.heap, fs.nodes, fs.used, Root);
    stages := [start];
    UpcaseNotDirectory(fs.g, fs.fat, fs.used, fs.bm, fs.nodes);
    BarelyBut(fs, Root);
    if |names| == 0 { return Err(InvalidPath), id, stages; }
    RootListed(fs);
    RootMeta(fs.g, fs.nodes);
    ghost var table := Table(fs);
    WalkStarts(fs, start, stages, names);
    var parent := RootDirectory(fs.g);
    for i := 0 to |names|
      invariant Honest(fs.faulty, old(fs.clock), fs.clock, false)
      invariant Inv(fs) && TableReady(fs) && |parser.entry.entryLocs| == 19 && parser.secondaryLeft == 0
      invariant DirIs(fs.g, fs.nodes, parent, id) && MetaOk(fs.g, fs.nodes, parent, id)
      invariant |stages| == i + 1 && stages[i] == Stage(fs.heap, fs.nodes, fs.used, id)
      invariant Climbed(fs.g, fs.upcaseValid, table, start, stages, stages[i], names[..i])
    {
      ClimbedParts(fs.g, fs.upcaseValid, table, start, stages, stages[i], names[..i]);
      var made, next := EnterOrCreate(fs, parent, names[i], parser, id, start.heap, start.nodes, table, names[..i]);
      if made.Err? {
        if made.error != Device {
          HaltedParts(fs, table, start, stages, stages[i], names[..i], names[i], made.error);
        }
        return Err(made.error), id, stages;
      }
      ghost var stage := Stage(fs.heap, fs.nodes, fs.used, next);
      ClimbedMore(fs.g, fs.upcaseValid, table, start, stages, stages[i], stage, names, i);
      parent, id, stages := made.value, next, stages + [stage];
    }
    DirIsDirectory(fs.g, fs.nodes, parent, id);
    assert names[..|names|] == names;
    return Ok(()), id, stages;
  }

  /** The names so far lead from the root to `id`, and nothing that was reachable
      has been lost. */
  ghost predicate Along(g: Geometry, valid: bool, heap: Heap, nodes: Owners, heap0: Heap, nodes0: Owners,
                        table: seq<byte>, names: seq<seq<Scalar>>, id: Id) {
    if names == [] then
      && id == Root && UpcaseFile in nodes && Content(heap, nodes[UpcaseFile]) == table
      && PathsKept(g, heap0, nodes0, heap, nodes, valid, table)
      && NamesKept(g, heap0, nodes0, heap, nodes, valid, table)
    else Reached(g, valid, heap, nodes, heap0, nodes0, table, names, id)
  }

  /** The path and all its beginnings lead to directories, and nothing else is
      new. */
  ghost predicate Laid(g: Geometry, valid: bool, heap: Heap, nodes: Owners, nodes0: Owners, table: seq<byte>,
                       names: seq<seq<Scalar>>) {
    && Listed(g, heap, nodes, Root)
    && (forall i :: 1 <= i <= |names| ==> LeadsToDirectory(g, valid, heap, nodes, table, names[..i]))
    && (forall e :: e in nodes && e !in nodes0 ==>
          exists i :: 1 <= i <= |names| && Resolve(g, heap, nodes, valid, table, Root, names[..i]) == Ok(e))
  }

  ghost predicate LeadsToDirectory(g: Geometry, valid: bool, heap: Heap, nodes: Owners, table: seq<byte>,
                                   names: seq<seq<Scalar>>)
    requires Listed(g, heap, nodes, Root)
  {
    var to := Resolve(g, heap, nodes, valid, table, Root, names);
    to.Ok? && to.value in nodes && nodes[to.value].isDir
  }

  /** One name further. */
  lemma LaidMore(g: Geometry, valid: bool, heap: Heap, nodes: Owners, heap0: Heap, nodes0: Owners, nodes00: Owners,
                 table: seq<byte>, names: seq<seq<Scalar>>, i: nat, id: Id)
    requires i < |names| && Laid(g, valid, heap0, nodes0, nodes00, table, names[..i])
    requires PathsKept(g, heap0, nodes0, heap, nodes, valid, table) && OwnersKept(nodes0, nodes)
    requires Resolve(g, heap, nodes, valid, table, Root, names[..i + 1]) == Ok(id) && id in nodes && nodes[id].isDir
    requires forall e :: e in nodes ==> e in nodes0 || e == id
    ensures Laid(g, valid, heap, nodes, nodes00, table, names[..i + 1])
  {
    hide Resolve;
    hide Listed;
    hide RootStands;
    var now := names[..i + 1];
    forall j | 1 <= j <= |now|
      ensures LeadsToDirectory(g, valid, heap, nodes, table, now[..j])
    {
      if j <= i {
        assert now[..j] == names[..i][..j];
        assert LeadsToDirectory(g, valid, heap0, nodes0, table, names[..i][..j]);
      } else {
        assert now[..j] == now;
      }
    }
    forall e | e in nodes && e !in nodes00
      ensures exists j :: 1 <= j <= |now| && Resolve(g, heap, nodes, valid, table, Root, now[..j]) == Ok(e)
    {
      if e in nodes0 {
        var j :| 1 <= j <= i && Resolve(g, heap0, nodes0, valid, table, Root, names[..i][..j]) == Ok(e);
        assert now[..j] == names[..i][..j];
      } else {
        assert now[..i + 1] == now;
      }
    }
  }

  lemma PathsRefl(fs: FileSystem, table: seq<byte>)
    requires Inv(fs)
    ensures PathsKept(fs.g, fs.heap, fs.nodes, fs.heap, fs.nodes, fs.upcaseValid, table)
  {
    hide FileSystem.Valid;
    hide OwnOk;
    hide TreeOk;
    hide Listed;
    hide Resolve;
    hide RootStands;
    RootListed(fs);
    ListedReads(fs.g, fs.heap, fs.nodes, Root);
    RootStandsRefl(fs.heap, fs.nodes);
  }

  /** One step's part in what a walk has done. */
  lemma SteppedParts(g: Geometry, valid: bool, table: seq<byte>, a: Stage, b: Stage, name: seq<Scalar>)
    requires Stepped(g, valid, table, a, b, name)
    ensures PathsKept(g, a.heap, a.nodes, b.heap, b.nodes, valid, table) && OwnersKept(a.nodes, b.nodes)
    ensures Contents(b.heap, b.nodes) == Contents(a.heap, a.nodes)
    ensures forall e :: e in b.nodes ==> e in a.nodes || e == b.id
    ensures b.id in b.nodes && b.nodes[b.id].isDir && Took(a.used, b.used, 3)
  {
    hide PathsKept;
    hide OwnersKept;
    hide Contents;
    hide NewlyCreated;
  }

  lemma WalkStarts(fs: FileSystem, start: Stage, stages: seq<Stage>, names: seq<seq<Scalar>>)
    requires Inv(fs) && UpcaseFile in fs.nodes && start == Stage(fs.heap, fs.nodes, fs.used, Root) && stages == [start]
    ensures Climbed(fs.g, fs.upcaseValid, Table(fs), start, stages, start, names[..0])
  {
    hide FileSystem.Valid;
    hide OwnOk;
    hide TreeOk;
    hide Listed;
    hide Content;
    hide Contents;
    hide Resolve;
    hide PathsKept;
    RootListed(fs);
    PathsRefl(fs, Table(fs));
    TookNone(fs.used);
  }

  /** Entering a directory that is there: one name further. */
  lemma AlongFound(fs: FileSystem, heap0: Heap, nodes0: Owners, table: seq<byte>, names: seq<seq<Scalar>>, d: Id,
                   name: seq<Scalar>, units: seq<u16>, k: nat)
    requires Along(fs.g, fs.upcaseValid, fs.heap, fs.nodes, heap0, nodes0, table, names, d)
    requires Listed(fs.g, fs.heap, fs.nodes, d) && Listed(fs.g, fs.heap, fs.nodes, Root)
    requires Encoded(name) == Ok(units)
    requires SlotNamed(fs.upcaseValid, table, SlotsIn(fs.g, fs.heap, fs.nodes, d), PlacesIn(fs.g, fs.heap, fs.nodes, d),
                       0, units) == Ok(Some(k))
    ensures Along(fs.g, fs.upcaseValid, fs.heap, fs.nodes, heap0, nodes0, table, names + [name], Child(d, k))
  {
    hide Listed;
    hide Resolve;
    hide SlotNamed;
    hide Encoded;
    hide NamesDistinct;
    hide NamesProper;
    hide Content;
    ResolveVia(fs.g, fs.heap, fs.nodes, fs.upcaseValid, table, d, [name], units, k);
    ResolveLast(fs.g, fs.heap, fs.nodes, fs.upcaseValid, table, Root, names, name, d);
  }

  /** Two stretches of a history. */
  lemma AlongMade(fs: FileSystem, heap0: Heap, nodes0: Owners, heap1: Heap, nodes1: Owners, table: seq<byte>,
                  names: seq<seq<Scalar>>, id: Id)
    requires PathsKept(fs.g, heap0, nodes0, heap1, nodes1, fs.upcaseValid, table)
    requires NamesKept(fs.g, heap0, nodes0, heap1, nodes1, fs.upcaseValid, table)
    requires Reached(fs.g, fs.upcaseValid, fs.heap, fs.nodes, heap1, nodes1, table, names, id)
    ensures Reached(fs.g, fs.upcaseValid, fs.heap, fs.nodes, heap0, nodes0, table, names, id)
  {
    hide Resolve;
    hide Listed;
    hide PathsKept;
    hide NamesDistinct;
    hide NamesProper;
    hide Content;
    PathsKeptTrans(fs.g, heap0, nodes0, heap1, nodes1, fs.heap, fs.nodes, fs.upcaseValid, table);
  }

  lemma AlongParts(fs: FileSystem, heap0: Heap, nodes0: Owners, table: seq<byte>, names: seq<seq<Scalar>>, id: Id)
    requires Along(fs.g, fs.upcaseValid, fs.heap, fs.nodes, heap0, nodes0, table, names, id)
    ensures UpcaseFile in fs.nodes && Table(fs) == table
    ensures PathsKept(fs.g, heap0, nodes0, fs.heap, fs.nodes, fs.upcaseValid, table)
    ensures NamesKept(fs.g, heap0, nodes0, fs.heap, fs.nodes, fs.upcaseValid, table)
    ensures Listed(fs.g, fs.heap, fs.nodes, Root)
    ensures if names == [] then id == Root
            else Resolve(fs.g, fs.heap, fs.nodes, fs.upcaseValid, table, Root, names) == Ok(id)
  {
    hide Resolve;
    hide Listed;
    hide NamesDistinct;
    hide NamesProper;
    hide Content;
  }

  lemma FurtherAlong(fs: FileSystem, heap0: Heap, nodes0: Owners, table: seq<byte>, names: seq<seq<Scalar>>, id: Id)
    requires Reached(fs.g, fs.upcaseValid, fs.heap, fs.nodes, heap0, nodes0, table, names, id) && names != []
    ensures Along(fs.g, fs.upcaseValid, fs.heap, fs.nodes, heap0, nodes0, table, names, id)
  {
    hide Reached;
  }

  /** Why a directory can be neither entered nor created under this name: the name
      is none, or cannot be compared or hashed, or is a file's. */
  ghost predicate Barred(g: Geometry, heap: Heap, nodes: Owners, valid: bool, table: seq<byte>, d: Id,
                         name: seq<Scalar>, e: Error) {
    var units := Encoded(name);
    || units == Err(e)
    || (&& units.Ok? && Listed(g, heap, nodes, d)
        && match SlotNamed(valid, table, SlotsIn(g, heap, nodes, d), PlacesIn(g, heap, nodes, d), 0, units.value)
           case Err(error) => e == error
           case Ok(None) => HashOf(valid, table, units.value) == Err(e)
           case Ok(Some(k)) => e == NotDirectory && Child(d, k) in nodes && !nodes[Child(d, k)].isDir)
  }

  /** A directory for a name that matches nothing. */
  method MakeDirectory(fs: FileSystem, parent: Directory, ghost name: seq<Scalar>, units: seq<u16>, ghost d: Id,
                       ghost heap0: Heap, ghost nodes0: Owners, ghost table: seq<byte>, ghost names: seq<seq<Scalar>>)
    returns (r: Result<Directory>, ghost id: Id)
    requires Inv(fs) && TableReady(fs) && DirIs(fs.g, fs.nodes, parent, d) && MetaOk(fs.g, fs.nodes, parent, d)
    requires Along(fs.g, fs.upcaseValid, fs.heap, fs.nodes, heap0, nodes0, table, names, d)
    requires Encoded(name) == Ok(units) && 1 <= |units| <= 255
    requires Listed(fs.g, fs.heap, fs.nodes, d)
    requires FirstMatch(fs.upcaseValid, table, ListHere(fs.g, fs.heap, fs.nodes, d), units) == Ok(None)
    modifies fs`clock, fs`scratch, fs`disk, fs`fat, fs`heap, fs`used, fs`free, fs`nodes
    ensures fs.Valid()
    ensures r.Ok? ==>
      && Inv(fs) && TableReady(fs) && DirIs(fs.g, fs.nodes, r.value, id) && MetaOk(fs.g, fs.nodes, r.value, id)
      && Stepped(fs.g, fs.upcaseValid, table, Stage(old(fs.heap), old(fs.nodes), old(fs.used), d),
                 Stage(fs.heap, fs.nodes, fs.used, id), name)
      && Along(fs.g, fs.upcaseValid, fs.heap, fs.nodes, heap0, nodes0, table, names + [name], id)
    ensures r.Err? && r.error != Device ==>
      && InvBut(fs, d) && TableReady(fs) && StillStands(old(fs.heap), old(fs.nodes), fs.heap, fs.nodes)
      && (Inv(fs) <==> Gapless(fs.g, old(fs.heap), old(fs.nodes), old(fs.used), d, SlotsFor(|units|)))
    ensures r.Err? && r.error != Device ==> Took(old(fs.used), fs.used, 3)
    ensures r.Err? && r.error !in {Device, NoSpace} ==> HashOf(fs.upcaseValid, table, units) == Err(r.error)
    ensures Honest(fs.faulty, old(fs.clock), fs.clock, r == Err(Device))
    ensures r == Err(NoSpace) ==> Full(fs.g, fs.used)
  {
    hide FileSystem.Valid;
    hide OwnOk;
    hide TreeOk;
    hide Content;
    hide Contents;
    hide DirIs;
    hide MetaOk;
    hide Listed;
    hide Created;
    hide Encoded;
    hide HashOf;
    hide OwnersKept;
    hide FirstMatch;
    hide ListHere;
    hide Along;
    hide Reached;
    hide NewlyCreated;
    hide PathsKept;
    hide NamesDistinct;
    hide NamesProper;
    hide Resolve;
    hide Stepped;
    hide Gapless;
    hide OnlyRoom;
    hide SetPut;
    hide StillStands;
    hide Took;
    id := d;
    AlongParts(fs, heap0, nodes0, table, names, d);
    UpcaseNotDirectory(fs.g, fs.fat, fs.used, fs.bm, fs.nodes);
    InvAllListed(fs);
    InvInhabited(fs.g, fs.heap, fs.nodes);
    ghost var nodes, heap, used := fs.nodes, fs.heap, fs.used;
    DirIsDirectory(fs.g, fs.nodes, parent, d);
    BarelyBut(fs, d);
    var made, at := CreateDirectoryIn(fs, parent, units, d);
    if made.Err? {
      if made.error != Device { RoomStands(fs, heap, nodes, used, d, SlotsFor(|units|)); }
      return Err(made.error), id;
    }
    id := Child(d, at);
    CreatedParts(fs, nodes, heap, used, d, at, units, fs.nodes[id]);
    NewlyDone(fs, nodes, heap, table, used, name, d, id, units);
    assert (names + [name])[..|names|] == names;
    NewlyReached(fs, nodes, heap, table, used, names + [name], d, id, units);
    SteppedNew(fs, Stage(heap, nodes, used, d), table, name, names + [name], id);
    AlongMade(fs, heap0, nodes0, heap, nodes, table, names + [name], id);
    FurtherAlong(fs, heap0, nodes0, table, names + [name], id);
    return Ok(made.value), id;
  }

  lemma SteppedNew(fs: FileSystem, a: Stage, table: seq<byte>, name: seq<Scalar>, names: seq<seq<Scalar>>, id: Id)
    requires NewlyCreated(fs.g, fs.upcaseValid, table, a.heap, a.nodes, fs.heap, fs.nodes, name, id) && id.dir == a.id
    requires Reached(fs.g, fs.upcaseValid, fs.heap, fs.nodes, a.heap, a.nodes, table, names, id)
    requires OwnersKept(a.nodes, fs.nodes) && fs.nodes[id].isDir && Took(a.used, fs.used, 3)
    requires Contents(fs.heap, fs.nodes) == Contents(a.heap, a.nodes)
    requires forall e :: e in fs.nodes ==> e in a.nodes || e == id
    ensures Stepped(fs.g, fs.upcaseValid, table, a, Stage(fs.heap, fs.nodes, fs.used, id), name)
  {
    hide PathsKept;
    hide Took;
    hide Contents;
    hide Resolve;
    hide Content;
    hide Listed;
    hide FirstMatch;
    hide OneMore;
    hide NamesDistinct;
    hide NamesProper;
    hide Encoded;
    hide Unambiguous;
    hide SlotsIn;
    hide PlacesIn;
    hide ListHere;
    hide RecordAt;
  }

  lemma SteppedIn(g: Geometry, valid: bool, table: seq<byte>, a: Stage, k: nat, name: seq<Scalar>)
    requires Child(a.id, k) in a.nodes && a.nodes[Child(a.id, k)].isDir
    requires PathsKept(g, a.heap, a.nodes, a.heap, a.nodes, valid, table)
    ensures Stepped(g, valid, table, a, a.(id := Child(a.id, k)), name)
  {
    hide PathsKept;
    hide Contents;
    TookNone(a.used);
  }

  /** So does a name that is none. */
  lemma NameBarred(g: Geometry, heap: Heap, nodes: Owners, valid: bool, table: seq<byte>, d: Id, name: seq<Scalar>)
    requires Encoded(name).Err?
    ensures Barred(g, heap, nodes, valid, table, d, name, Encoded(name).error)
  {
    hide Encoded;
  }

  lemma HashBarred(g: Geometry, heap: Heap, nodes: Owners, valid: bool, table: seq<byte>, d: Id, name: seq<Scalar>,
                   units: seq<u16>, e: Error)
    requires Encoded(name) == Ok(units) && Listed(g, heap, nodes, d) && HashOf(valid, table, units) == Err(e)
    requires SlotNamed(valid, table, SlotsIn(g, heap, nodes, d), PlacesIn(g, heap, nodes, d), 0, units) == Ok(None)
    ensures Barred(g, heap, nodes, valid, table, d, name, e)
  {
    hide Encoded;
    hide HashOf;
    hide SlotNamed;
    hide Listed;
    hide SlotsIn;
    hide PlacesIn;
  }

  /** A search that fails bars the way. */
  lemma SearchBarred(fs: FileSystem, d: Id, k: nat, found: Result<Option<DirectoryEntry>>, name: seq<Scalar>,
                     units: seq<u16>)
    requires Listed(fs.g, fs.heap, fs.nodes, d) && UpcaseFile in fs.nodes && Encoded(name) == Ok(units) && found.Err?
    requires Answers(found, k, SlotNamed(fs.upcaseValid, Table(fs), SlotsIn(fs.g, fs.heap, fs.nodes, d),
                                         PlacesIn(fs.g, fs.heap, fs.nodes, d), 0, units),
                     SlotsIn(fs.g, fs.heap, fs.nodes, d), PlacesIn(fs.g, fs.heap, fs.nodes, d))
    ensures Barred(fs.g, fs.heap, fs.nodes, fs.upcaseValid, Table(fs), d, name, found.error) && found.error != NoSpace
  {
    hide Listed;
    hide SlotNamed;
    hide Encoded;
    hide HashOf;
    hide Content;
    hide SlotsIn;
    hide PlacesIn;
  }

  /** What a search says about the room a creation would need. */
  lemma SearchLeaves(fs: FileSystem, used: set<nat>, d: Id, k: nat, found: Result<Option<DirectoryEntry>>,
                     name: seq<Scalar>, units: seq<u16>)
    requires Listed(fs.g, fs.heap, fs.nodes, d) && UpcaseFile in fs.nodes && Encoded(name) == Ok(units)
    requires found == Err(Device)
             || Answers(found, k, SlotNamed(fs.upcaseValid, Table(fs), SlotsIn(fs.g, fs.heap, fs.nodes, d),
                                            PlacesIn(fs.g, fs.heap, fs.nodes, d), 0, units),
                        SlotsIn(fs.g, fs.heap, fs.nodes, d), PlacesIn(fs.g, fs.heap, fs.nodes, d))
    ensures found != Err(Device) && found != Ok(None) ==>
      && LeavesNoGap(fs.g, fs.heap, fs.nodes, used, fs.upcaseValid, Table(fs), d, name)
      && !Wanting(fs.g, fs.heap, fs.nodes, fs.upcaseValid, Table(fs), d, name)
    ensures found == Ok(None) ==> Wanting(fs.g, fs.heap, fs.nodes, fs.upcaseValid, Table(fs), d, name)
    ensures found == Ok(None) ==>
      (LeavesNoGap(fs.g, fs.heap, fs.nodes, used, fs.upcaseValid, Table(fs), d, name) <==>
         Gapless(fs.g, fs.heap, fs.nodes, used, d, SlotsFor(|units|)))
  {
    hide Listed;
    hide SlotNamed;
    hide Encoded;
    hide Content;
    hide SlotsIn;
    hide PlacesIn;
    hide Gapless;
  }

  /** A search that finds an entry leads into its directory, or is barred by its
      file. */
  lemma EnterFound(fs: FileSystem, heap0: Heap, nodes0: Owners, table: seq<byte>, names: seq<seq<Scalar>>, d: Id,
                   k: nat, found: Result<Option<DirectoryEntry>>, name: seq<Scalar>, units: seq<u16>)
    requires Inv(fs) && Listed(fs.g, fs.heap, fs.nodes, d) && UpcaseFile in fs.nodes && Encoded(name) == Ok(units)
    requires Along(fs.g, fs.upcaseValid, fs.heap, fs.nodes, heap0, nodes0, table, names, d)
    requires found.Ok? && found.value.Some?
    requires Answers(found, k, SlotNamed(fs.upcaseValid, Table(fs), SlotsIn(fs.g, fs.heap, fs.nodes, d),
                                         PlacesIn(fs.g, fs.heap, fs.nodes, d), 0, units),
                     SlotsIn(fs.g, fs.heap, fs.nodes, d), PlacesIn(fs.g, fs.heap, fs.nodes, d))
    ensures var next := DirectoryOf(found.value.value);
            if next.None? then Barred(fs.g, fs.heap, fs.nodes, fs.upcaseValid, table, d, name, NotDirectory)
            else
              && DirIs(fs.g, fs.nodes, next.value, Child(d, k)) && MetaOk(fs.g, fs.nodes, next.value, Child(d, k))
              && Along(fs.g, fs.upcaseValid, fs.heap, fs.nodes, heap0, nodes0, table, names + [name], Child(d, k))
              && Stepped(fs.g, fs.upcaseValid, table, Stage(fs.heap, fs.nodes, fs.used, d),
                         Stage(fs.heap, fs.nodes, fs.used, Child(d, k)), name)
  {
    hide FileSystem.Valid;
    hide OwnOk;
    hide TreeOk;
    hide Content;
    hide DirIs;
    hide MetaOk;
    hide Listed;
    hide Encoded;
    hide HashOf;
    hide EntryFor;
    hide SlotNamed;
    hide Along;
    hide Stepped;
    hide SlotsIn;
    hide PlacesIn;
    AlongParts(fs, heap0, nodes0, table, names, d);
    AnswerSlot(fs, d, k, found, units);
    ChildFound(fs, d, k);
    var next := DirectoryOf(found.value.value);
    if next.Some? {
      EntryMeta(fs.g, fs.nodes, found.value.value, Child(d, k));
      AlongFound(fs, heap0, nodes0, table, names, d, name, units, k);
      DirIsDirectory(fs.g, fs.nodes, next.value, Child(d, k));
      PathsRefl(fs, table);
      SteppedIn(fs.g, fs.upcaseValid, table, Stage(fs.heap, fs.nodes, fs.used, d), k, name);
    }
  }

  /** One name of a path: the directory it leads to, or a new one. */
  method EnterOrCreate(fs: FileSystem, parent: Directory, name: seq<Scalar>, parser: EntrySet, ghost d: Id,
                       ghost heap0: Heap, ghost nodes0: Owners, ghost table: seq<byte>, ghost names: seq<seq<Scalar>>)
    returns (r: Result<Directory>, ghost id: Id)
    requires Inv(fs) && TableReady(fs) && |parser.entry.entryLocs| == 19 && parser.secondaryLeft == 0
    requires DirIs(fs.g, fs.nodes, parent, d) && MetaOk(fs.g, fs.nodes, parent, d)
    requires Along(fs.g, fs.upcaseValid, fs.heap, fs.nodes, heap0, nodes0, table, names, d)
    modifies fs`clock, fs`scratch, fs`disk, fs`fat, fs`heap, fs`used, fs`free, fs`nodes, parser
    ensures fs.Valid()
    ensures r.Ok? ==>
      && Inv(fs) && TableReady(fs)
      && DirIs(fs.g, fs.nodes, r.value, id) && MetaOk(fs.g, fs.nodes, r.value, id)
      && Stepped(fs.g, fs.upcaseValid, table, Stage(old(fs.heap), old(fs.nodes), old(fs.used), d),
                 Stage(fs.heap, fs.nodes, fs.used, id), name)
      && Along(fs.g, fs.upcaseValid, fs.heap, fs.nodes, heap0, nodes0, table, names + [name], id)
    ensures r.Err? && r.error != Device ==>
      Halted(fs, table, Stage(old(fs.heap), old(fs.nodes), old(fs.used), d), name, r.error)
    ensures r != Err(Device) ==> |parser.entry.entryLocs| == 19 && parser.secondaryLeft == 0
    ensures Honest(fs.faulty, old(fs.clock), fs.clock, r == Err(Device))
    ensures r == Err(NoSpace) ==> Full(fs.g, fs.used)
  {
    hide Failures;
    hide FileSystem.Valid;
    hide OwnOk;
    hide TreeOk;
    hide Content;
    hide Contents;
    hide DirIs;
    hide MetaOk;
    hide Listed;
    hide Created;
    hide Encoded;
    hide HashOf;
    hide OwnersKept;
    hide EntryFor;
    hide EntryTells;
    hide SlotNamed;
    hide Along;
    hide Stepped;
    hide Barred;
    hide Answers;
    hide InvBut;
    hide Reached;
    hide NewlyCreated;
    hide PathsKept;
    hide NamesDistinct;
    hide NamesProper;
    hide Resolve;
    hide Took;
    hide AllListed;
    hide Inhabited;
    id := d;
    AlongParts(fs, heap0, nodes0, table, names, d);
    DirIsDirectory(fs.g, fs.nodes, parent, d);
    InvListed(fs, d);
    UpcaseNotDirectory(fs.g, fs.fat, fs.used, fs.bm, fs.nodes);
    KeptRefl(fs.nodes);
    BarelyBut(fs, d);
    SameStill(fs);
    InvAllListed(fs);
    InvInhabited(fs.g, fs.heap, fs.nodes);
    TookNone(fs.used);
    TookWiden(fs.used, fs.used, 0, 3);
    var units := EncodeName(name);
    ghost var heap, nodes, used := fs.heap, fs.nodes, fs.used;
    if units.Err? {
      assert !Wanting(fs.g, heap, nodes, fs.upcaseValid, table, d, name);
      NameBarred(fs.g, fs.heap, fs.nodes, fs.upcaseValid, table, d, name);
      return Err(units.error), id;
    }
    EncodedFits(name, name);
    var found, k := LookupSlot(fs, parent, units.value, parser, d);
    BarelyBut(fs, d);
    SearchLeaves(fs, used, d, k, found, name, units.value);
    if found.Err? {
      if found != Err(Device) { SearchBarred(fs, d, k, found, name, units.value); }
      return Err(found.error), id;
    }
    if found.value.Some? {
      EnterFound(fs, heap0, nodes0, table, names, d, k, found, name, units.value);
      var next := DirectoryOf(found.value.value);
      if next.None? { return Err(NotDirectory), id; }
      id := Child(d, k);
      return Ok(next.value), id;
    }
    AnswerNone(fs, d, k, found, units.value);
    r, id := MakeDirectory(fs, parent, name, units.value, d, heap0, nodes0, table, names);
    if r.Err? && r.error !in {Device, NoSpace} {
      HashBarred(fs.g, heap, nodes, fs.upcaseValid, table, d, name, units.value, r.error);
    }
  }

  lemma RootMeta(g: Geometry, nodes: Owners)
    ensures MetaOk(g, nodes, RootDirectory(g), Root)
  {
  }

  lemma KeptRefl(nodes: Owners)
    ensures OwnersKept(nodes, nodes)
  {
  }

  lemma KeptTrans(a: Owners, b: Owners, c: Owners)
    requires OwnersKept(a, b) && OwnersKept(b, c)
    ensures OwnersKept(a, c)
  {
  }

  lemma AnswerSlot(fs: FileSystem, d: Id, k: nat, r: Result<Option<DirectoryEntry>>, wanted: seq<u16>)
    requires Listed(fs.g, fs.heap, fs.nodes, d) && r.Ok? && r.value.Some? && UpcaseFile in fs.nodes
    requires Answers(r, k, SlotNamed(fs.upcaseValid, Table(fs), SlotsIn(fs.g, fs.heap, fs.nodes, d),
                                     PlacesIn(fs.g, fs.heap, fs.nodes, d), 0, wanted),
                     SlotsIn(fs.g, fs.heap, fs.nodes, d), PlacesIn(fs.g, fs.heap, fs.nodes, d))
    ensures k < |SlotsIn(fs.g, fs.heap, fs.nodes, d)| && SlotsIn(fs.g, fs.heap, fs.nodes, d)[k][0] == 0x85
    ensures r.value.value == RecordAt(SlotsIn(fs.g, fs.heap, fs.nodes, d), PlacesIn(fs.g, fs.heap, fs.nodes, d), k)
    ensures SlotNamed(fs.upcaseValid, Table(fs), SlotsIn(fs.g, fs.heap, fs.nodes, d),
                      PlacesIn(fs.g, fs.heap, fs.nodes, d), 0, wanted) == Ok(Some(k))
  {
  }

  lemma AnswerNone(fs: FileSystem, d: Id, k: nat, r: Result<Option<DirectoryEntry>>, wanted: seq<u16>)
    requires Listed(fs.g, fs.heap, fs.nodes, d) && r == Ok(None) && UpcaseFile in fs.nodes
    requires Answers(r, k, SlotNamed(fs.upcaseValid, Table(fs), SlotsIn(fs.g, fs.heap, fs.nodes, d),
                                     PlacesIn(fs.g, fs.heap, fs.nodes, d), 0, wanted),
                     SlotsIn(fs.g, fs.heap, fs.nodes, d), PlacesIn(fs.g, fs.heap, fs.nodes, d))
    ensures SlotNamed(fs.upcaseValid, Table(fs), SlotsIn(fs.g, fs.heap, fs.nodes, d),
                      PlacesIn(fs.g, fs.heap, fs.nodes, d), 0, wanted) == Ok(None)
    ensures FirstMatch(fs.upcaseValid, Table(fs), ListHere(fs.g, fs.heap, fs.nodes, d), wanted) == Ok(None)
  {
    hide Listed;
    hide SlotNamed;
    hide FirstMatch;
    hide SlotsIn;
    hide PlacesIn;
    hide Content;
    SlotIsFirstMatch(fs.upcaseValid, Table(fs), SlotsIn(fs.g, fs.heap, fs.nodes, d),
                     PlacesIn(fs.g, fs.heap, fs.nodes, d), 0, wanted);
    ListIsListing(fs.g, fs.heap, fs.nodes, d);
  }

  /** Handles opened before a creation are still at rest after it. */
  lemma HandleSurvives(fs: FileSystem, file: File, nodes0: Owners, fat0: seq<u32>)
    requires Inv(fs) && AtRest(fs.g, nodes0, fat0, file) && OwnersKept(nodes0, fs.nodes)
    ensures Holds(fs, file)
  {
    hide FileSystem.Valid;
    hide OwnOk;
    hide TreeOk;
    hide LocAt;
    hide Geometry.BytesPerCluster;
    assert nodes0[file.id.dir].ext <= fs.nodes[file.id.dir].ext;
    StillLocated(fs, file, nodes0);
    RestoreHolds(fs, file, fat0);
  }

  lemma StillLocated(fs: FileSystem, file: File, nodes0: Owners)
    requires Inv(fs) && Placed(fs.g, nodes0, file) && file.id.dir in fs.nodes && fs.nodes[file.id.dir].isDir
    requires nodes0[file.id.dir].ext <= fs.nodes[file.id.dir].ext
    ensures LocatedAt(fs.g, fs.nodes[file.id.dir].ext, file.id.at, file.entryLocs, file.entryCount)
  {
    hide FileSystem.Valid;
    hide TreeOk;
    hide LocatedAt;
    DirectoryExtent(fs.g, fs.fat, fs.used, fs.bm, fs.nodes, file.id.dir);
    Relocated(fs.g, nodes0[file.id.dir].ext, fs.nodes[file.id.dir].ext, file.id.at, file.entryLocs, file.entryCount);
  }

  /** Slots stay where they are when clusters are added behind. */
  lemma Relocated(g: Geometry, ext0: seq<nat>, ext: seq<nat>, k: nat, locs: seq<EntryLocator>, count: nat)
    requires LocatedAt(g, ext0, k, locs, count) && ext0 <= ext && InHeap(g, ext)
    ensures LocatedAt(g, ext, k, locs, count)
  {
    hide Geometry.BytesPerCluster;
    forall i: nat | i < count
      ensures 32 * (k + i) < |ext| * g.BytesPerCluster() && locs[i] == LocAt(g, ext, k + i)
    {
      assert locs[i] == locs[i + 0];
      PrefixPlace(g, ext0, ext, k + i);
    }
  }

  lemma PrefixPlace(g: Geometry, ext0: seq<nat>, ext: seq<nat>, k: nat)
    requires g.WellFormed() && g.clusterCount + 2 <= U32_MAX && InHeap(g, ext0) && InHeap(g, ext) && ext0 <= ext
    requires 32 * k < |ext0| * g.BytesPerCluster()
    ensures 32 * k < |ext| * g.BytesPerCluster() && LocAt(g, ext, k) == LocAt(g, ext0, k)
  {
    MulMonotone(|ext0|, |ext|, g.BytesPerCluster());
    SlotCluster(g, ext0, k);
  }
}
