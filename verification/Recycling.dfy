/** Removing an entry and creating a file in its directory: the slots given up
    serve again, so no cluster is needed for any name of at most as many slots. */
module Recycling {
  import opened Words
  import opened Errors
  import opened Geometry
  import opened Views
  import opened Volume
  import opened EntrySets
  import opened EntryCodec
  import opened Files
  import opened Tree
  import opened Meaning
  import opened Listings
  import opened Standing
  import opened SlotIo
  import opened Commits
  import opened Upcase
  import opened Scanning
  import opened Names
  import opened Paths
  import opened Resolution
  import opened Reserving
  import opened PathCreation
  import opened Removal
  import opened Catalog

  /** The path with another last name. */
  ghost function Beside(names: Path, name: seq<Scalar>): Path
    requires names != []
  {
    names[..|names| - 1] + [name]
  }

  ghost predicate LeadsTo(g: Geometry, heap: Heap, nodes: Owners, valid: bool, table: seq<byte>, names: Path, id: Id) {
    Listed(g, heap, nodes, Root) && Resolve(g, heap, nodes, valid, table, Root, names) == Ok(id)
  }

  /** No cluster has been taken that the removed owner did not give back. */
  ghost predicate LessUsed(used0: set<nat>, used: set<nat>, gone: Node) {
    used <= used0 - Released(gone.ext, gone.linked)
  }

  // ----- the directory of what was removed ---------------------------------------------------

  /** A path that leads to a child leads through the child's directory, whose search
      finds it. */
  lemma HomeIsParent(g: Geometry, heap: Heap, nodes: Owners, valid: bool, table: seq<byte>, names: Path, id: Id)
    requires Listed(g, heap, nodes, Root) && Resolve(g, heap, nodes, valid, table, Root, names) == Ok(id)
    ensures names != [] && id.Child? && HomeOf(g, heap, nodes, valid, table, names) == Ok(id.dir)
    ensures Listed(g, heap, nodes, id.dir)
    ensures Resolve(g, heap, nodes, valid, table, id.dir, [names[|names| - 1]]) == Ok(id)
  {
    hide Listed;
    hide Encoded;
    hide SlotNamed;
    hide SlotsIn;
    hide PlacesIn;
    if |names| == 1 {
      assert names == [names[0]];
    } else {
      var n := |names| - 1;
      var front, last := names[..n], names[n];
      ResolveFront(g, heap, nodes, valid, table, Root, names, n);
      assert names == front + [last];
      var p := Resolve(g, heap, nodes, valid, table, Root, front).value;
      ResolveLast(g, heap, nodes, valid, table, Root, front, last, p);
    }
  }

  /** The removal of an entry leaves the path to its directory. */
  lemma HomeStays(fs: FileSystem, heap0: Heap, nodes0: Owners, table: seq<byte>, names: Path, name: seq<Scalar>, id: Id)
    requires Listed(fs.g, heap0, nodes0, Root) && Unreached(fs, heap0, nodes0, table, id)
    requires Resolve(fs.g, heap0, nodes0, fs.upcaseValid, table, Root, names) == Ok(id)
    ensures names != [] && id.Child? && Listed(fs.g, fs.heap, fs.nodes, Root)
    ensures HomeOf(fs.g, fs.heap, fs.nodes, fs.upcaseValid, table, Beside(names, name)) == Ok(id.dir)
  {
    hide Listed;
    hide Resolve;
    hide RootStands;
    hide NamesKept;
    hide NamesDistinct;
    HomeIsParent(fs.g, heap0, nodes0, fs.upcaseValid, table, names, id);
    NotOwnDirectory(id);
    assert Beside(names, name)[..|names| - 1] == names[..|names| - 1];
  }

  /** ... and leaves it with room for every set that is no longer. */
  lemma HomeVacant(fs: FileSystem, table: seq<byte>, names: Path, d: Id, k: nat, n: nat)
    requires names != [] && Listed(fs.g, fs.heap, fs.nodes, Root)
    requires HomeOf(fs.g, fs.heap, fs.nodes, fs.upcaseValid, table, names) == Ok(d)
    requires VacantAt(fs.heap, fs.nodes, d, k, n)
    requires IsName(names[|names| - 1]) && UnitCount(names[|names| - 1]) <= 255
    requires SlotsFor(UnitCount(names[|names| - 1])) <= n
    ensures VacantHome(fs.g, fs.heap, fs.nodes, fs.upcaseValid, table, names)
  {
    hide Listed;
    hide HomeOf;
    hide Encoded;
    hide IsName;
    hide UnitCount;
    hide VacantAt;
    hide HasVacancy;
    EncodedExactly(names[|names| - 1]);
    VacantLess(fs.heap, fs.nodes, d, k, n, SlotsFor(UnitCount(names[|names| - 1])));
  }

  // ----- the name that was removed -------------------------------------------------------------

  /** A set has as many slots as its name needs. */
  lemma SetNeeds(win: seq<Slot>)
    requires FileSet(win)
    ensures |win| == SlotsFor(|NameIn(win)|)
  {
    hide SetSum;
    hide NameUnit;
    assert |NameIn(win)| == win[1][3];
    assert 15 * (|win| - 3) < win[1][3] by { assert win[|win| - 1][0] == 0xc1; }
  }

  /** ... so it has as many as any name it is found under. */
  lemma CountIsSlots(g: Geometry, heap: Heap, nodes: Owners, valid: bool, table: seq<byte>, last: seq<Scalar>, id: Id)
    requires TreeOk(g, heap, nodes) && id.Child? && id in nodes && Listed(g, heap, nodes, id.dir)
    requires Resolve(g, heap, nodes, valid, table, id.dir, [last]) == Ok(id)
    ensures Encoded(last).Ok? && nodes[id].count == SlotsFor(|Encoded(last).value|)
  {
    hide Encoded;
    hide SlotNamed;
    hide Scannable;
    hide SlotsOf;
    hide FileSet;
    hide NameIn;
    hide Places;
    hide TreeOk;
    hide MatchFrom;
    var slots := SlotsIn(g, heap, nodes, id.dir);
    OkRecords(g, heap, nodes);
    RecordHere(g, heap, nodes, id);
    FoundMatches(valid, table, slots, PlacesIn(g, heap, nodes, id.dir), 0, Encoded(last).value);
    WindowLength(nodes[id], slots, id.at, g.BytesPerCluster());
    SetNeeds(slots[id.at..id.at + nodes[id].count]);
  }

  /** What a directory does not lead to, though the name can be hashed, is wanting
      there. */
  lemma UnledIsWanting(w: Ground, heap: Heap, nodes: Owners, d: Id, last: seq<Scalar>)
    requires Listed(w.g, heap, nodes, d) && NamesProper(w.g, heap, nodes, w.valid, w.table)
    requires Encoded(last).Ok? && HashOf(w.valid, w.table, Encoded(last).value).Ok?
    requires Resolve(w.g, heap, nodes, w.valid, w.table, d, [last]).Err?
    ensures Resolve(w.g, heap, nodes, w.valid, w.table, d, [last]) == Err(PathNotFound)
  {
    hide Listed;
    hide Encoded;
    hide SlotNamed;
    hide SlotsIn;
    hide PlacesIn;
    hide HashOf;
    hide NamesProper;
    hide AllProper;
    var units := Encoded(last).value;
    var found := SlotNamed(w.valid, w.table, SlotsIn(w.g, heap, nodes, d), PlacesIn(w.g, heap, nodes, d), 0, units);
    if found.Err? {
      ProperHere(w, heap, nodes, d);
      SearchFails(w.valid, w.table, SlotsIn(w.g, heap, nodes, d), PlacesIn(w.g, heap, nodes, d), 0, units, found.error);
    }
  }

  lemma GoneIsWanting(w: Ground, heap: Heap, nodes: Owners, names: Path, d: Id)
    requires names != [] && Listed(w.g, heap, nodes, Root) && Listed(w.g, heap, nodes, d)
    requires HomeOf(w.g, heap, nodes, w.valid, w.table, names) == Ok(d)
    requires NamesProper(w.g, heap, nodes, w.valid, w.table)
    requires Encoded(names[|names| - 1]).Ok? && HashOf(w.valid, w.table, Encoded(names[|names| - 1]).value).Ok?
    requires Resolve(w.g, heap, nodes, w.valid, w.table, Root, names).Err?
    ensures Resolve(w.g, heap, nodes, w.valid, w.table, Root, names) == Err(PathNotFound)
  {
    hide Listed;
    hide Encoded;
    hide Resolve;
    hide HashOf;
    hide NamesProper;
    var n := |names| - 1;
    assert names == names[..n] + [names[n]];
    ResolveLast(w.g, heap, nodes, w.valid, w.table, Root, names[..n], names[n], d);
    UnledIsWanting(w, heap, nodes, d, names[n]);
  }

  /** A name that is wanting in a directory, and can be hashed, is not refused for
      anything but space. */
  lemma WantingCreatable(g: Geometry, heap: Heap, nodes: Owners, valid: bool, table: seq<byte>, names: Path, d: Id)
    requires names != [] && Listed(g, heap, nodes, Root) && Listed(g, heap, nodes, d)
    requires HomeOf(g, heap, nodes, valid, table, names) == Ok(d)
    requires Encoded(names[|names| - 1]).Ok? && HashOf(valid, table, Encoded(names[|names| - 1]).value).Ok?
    requires Resolve(g, heap, nodes, valid, table, Root, names) == Err(PathNotFound)
    ensures forall e :: !Uncreatable(g, heap, nodes, valid, table, names, e)
  {
    hide Encoded;
    hide HashOf;
    hide Resolve;
    hide Scannable;
    hide Stored;
  }

  /** What was removed can be created again under the same name. */
  lemma Recreatable(fs: FileSystem, heap0: Heap, nodes0: Owners, table: seq<byte>, names: Path, id: Id)
    requires Listed(fs.g, heap0, nodes0, Root) && Unreached(fs, heap0, nodes0, table, id)
    requires Resolve(fs.g, heap0, nodes0, fs.upcaseValid, table, Root, names) == Ok(id)
    requires id.Child? && Listed(fs.g, fs.heap, fs.nodes, id.dir)
    requires NamesDistinct(fs.g, heap0, nodes0, fs.upcaseValid, table)
    requires NamesProper(fs.g, heap0, nodes0, fs.upcaseValid, table)
    requires names != [] && Encoded(names[|names| - 1]).Ok?
    requires HashOf(fs.upcaseValid, table, Encoded(names[|names| - 1]).value).Ok?
    ensures forall e :: !Uncreatable(fs.g, fs.heap, fs.nodes, fs.upcaseValid, table, names, e)
  {
    hide Listed;
    hide Encoded;
    hide Resolve;
    hide HashOf;
    hide NamesProper;
    hide NamesDistinct;
    hide HomeOf;
    hide RootStands;
    hide Uncreatable;
    HomeStays(fs, heap0, nodes0, table, names, names[|names| - 1], id);
    assert Beside(names, names[|names| - 1]) == names;
    GoneIsWanting(Ground(fs.g, fs.upcaseValid, table, true), fs.heap, fs.nodes, names, id.dir);
    WantingCreatable(fs.g, fs.heap, fs.nodes, fs.upcaseValid, table, names, id.dir);
  }

  /** What the removal means for the creation. */
  lemma MadeRoom(fs: FileSystem, heap0: Heap, nodes0: Owners, table: seq<byte>, names: Path, name: seq<Scalar>, id: Id)
    requires Listed(fs.g, heap0, nodes0, Root) && Unreached(fs, heap0, nodes0, table, id)
    requires Resolve(fs.g, heap0, nodes0, fs.upcaseValid, table, Root, names) == Ok(id)
    requires TreeOk(fs.g, heap0, nodes0) && id in nodes0 && id.Child? && names != []
    requires Listed(fs.g, fs.heap, fs.nodes, id.dir)
    requires VacantAt(fs.heap, fs.nodes, id.dir, id.at, nodes0[id].count) && IsName(name) && UnitCount(name) <= 255
    ensures Listed(fs.g, fs.heap, fs.nodes, Root)
    ensures SlotsFor(UnitCount(name)) <= nodes0[id].count ==>
      VacantHome(fs.g, fs.heap, fs.nodes, fs.upcaseValid, table, Beside(names, name))
    ensures name == names[|names| - 1] ==> SlotsFor(UnitCount(name)) <= nodes0[id].count
    ensures name == names[|names| - 1] && HashOf(fs.upcaseValid, table, Utf16(name)).Ok?
            && NamesDistinct(fs.g, heap0, nodes0, fs.upcaseValid, table)
            && NamesProper(fs.g, heap0, nodes0, fs.upcaseValid, table) ==>
      forall e :: !Uncreatable(fs.g, fs.heap, fs.nodes, fs.upcaseValid, table, Beside(names, name), e)
  {
    hide TreeOk;
    hide Listed;
    hide Encoded;
    hide Resolve;
    hide HashOf;
    hide IsName;
    hide UnitCount;
    hide Unreached;
    hide VacantAt;
    hide VacantHome;
    hide Uncreatable;
    hide NamesDistinct;
    hide NamesProper;
    hide HomeOf;
    EncodedExactly(name);
    HomeStays(fs, heap0, nodes0, table, names, name, id);
    var path := Beside(names, name);
    assert path[|path| - 1] == name;
    if SlotsFor(UnitCount(name)) <= nodes0[id].count {
      HomeVacant(fs, table, path, id.dir, id.at, nodes0[id].count);
    }
    if name == names[|names| - 1] {
      assert path == names;
      HomeIsParent(fs.g, heap0, nodes0, fs.upcaseValid, table, names, id);
      CountIsSlots(fs.g, heap0, nodes0, fs.upcaseValid, table, name, id);
      if HashOf(fs.upcaseValid, table, Utf16(name)).Ok? && NamesDistinct(fs.g, heap0, nodes0, fs.upcaseValid, table)
         && NamesProper(fs.g, heap0, nodes0, fs.upcaseValid, table) {
        EncodedIs(name);
        Recreatable(fs, heap0, nodes0, table, names, id);
      }
    }
  }

  /** Remove what a path leads to, and create a file in the same directory: if the
      slots given up suffice for its set, no cluster is needed, however full the
      volume is; and what was removed can always be created again. */
  method Recycle(fs: FileSystem, names: Path, name: seq<Scalar>, parser: EntrySet)
    returns (removed: Result<()>, made: Result<File>, ghost id: Id)
    requires Inv(fs) && TableReady(fs) && |parser.entry.entryLocs| == 19 && parser.secondaryLeft == 0
    requires names != [] && IsName(name) && UnitCount(name) <= 255
    modifies fs`clock, fs`scratch, fs`disk, fs`fat, fs`heap, fs`used, fs`free, fs`nodes, parser
    ensures fs.Valid() && UpcaseFile in old(fs.nodes)
    ensures removed.Err? ==> made == Err(removed.error)
    ensures removed.Ok? ==>
      id in old(fs.nodes) && old(LeadsTo(fs.g, fs.heap, fs.nodes, fs.upcaseValid, Table(fs), names, id))
    ensures removed.Ok? && made != Err(Device) && SlotsFor(UnitCount(name)) <= old(fs.nodes)[id].count ==>
      made != Err(NoSpace) && LessUsed(old(fs.used), fs.used, old(fs.nodes)[id])
    ensures removed.Ok? && made != Err(Device) && name == names[|names| - 1]
            && old(NamesDistinct(fs.g, fs.heap, fs.nodes, fs.upcaseValid, Table(fs)))
            && old(NamesProper(fs.g, fs.heap, fs.nodes, fs.upcaseValid, Table(fs)))
            && HashOf(fs.upcaseValid, old(Table(fs)), Utf16(name)).Ok? ==>
      made.Ok? && LessUsed(old(fs.used), fs.used, old(fs.nodes)[id])
    ensures made.Ok? ==>
      && Inv(fs) && TableReady(fs) && Holds(fs, made.value) && made.value.position == 0
      && LeadsTo(fs.g, fs.heap, fs.nodes, fs.upcaseValid, old(Table(fs)), Beside(names, name), made.value.id)
      && Contents(fs.heap, fs.nodes) == old(Contents(fs.heap, fs.nodes) - {id})[made.value.id := []]
    ensures Honest(fs.faulty, old(fs.clock), fs.clock, removed == Err(Device) || made == Err(Device))
  {
    hide Failures;
    hide FileSystem.Valid;
    hide OwnOk;
    hide TreeOk;
    hide Content;
    hide Contents;
    hide Resolve;
    hide Listed;
    hide Encoded;
    hide HashOf;
    hide IsName;
    hide UnitCount;
    hide Unreached;
    hide VacantAt;
    hide VacantHome;
    hide Uncreatable;
    hide NamesDistinct;
    hide NamesProper;
    ghost var nodes0, heap0, table := fs.nodes, fs.heap, Table(fs);
    EncodedExactly(name);
    removed, id := Remove(fs, names, parser);
    if removed.Err? { return removed, Err(removed.error), id; }
    MadeRoom(fs, heap0, nodes0, table, names, name, id);
    made := Create(fs, names[..|names| - 1] + [name], parser);
  }
}
