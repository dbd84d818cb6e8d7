/** Durability: what was created and written before is there after the device
    has been mounted again. */
module Durability {
  import opened Words
  import opened Errors
  import opened Geometry
  import opened Views
  import opened Volume
  import opened EntrySets
  import opened Files
  import opened Tree
  import opened Meaning
  import opened Standing
  import opened Upcase
  import opened Sessions
  import opened Names
  import opened Paths
  import opened Resolution
  import opened PathCreation
  import opened Removal
  import opened Media
  import opened Remounting

  // ----- what a script leaves alone --------------------------------------------------------------

  /** A script changes no file's bytes but those of the files it is called on,
      and neither adds nor drops a file. */
  lemma {:induction false} ReplayDomain(w: World, ids: seq<Id>, script: seq<Op>)
    requires Fitting(w, ids) && Calls(script, |ids|)
    ensures Replay(w, ids, script).0.contents.Keys == w.contents.Keys
  {
    hide OnDoc;
    if script != [] { ReplayDomain(w, ids, script[..|script| - 1]); }
  }

  /** A script on a single handle. */
  lemma {:induction false} ReplayAlone(w: World, id: Id, script: seq<Op>)
    requires Fitting(w, [id]) && Calls(script, 1)
    ensures Replay(w, [id], script).0.contents == w.contents[id := Alone(DocAt(w, [id], 0), script).0.content]
    ensures DocAt(Replay(w, [id], script).0, [id], 0) == Alone(DocAt(w, [id], 0), script).0
  {
    hide OnDoc;
    if script != [] { ReplayAlone(w, id, script[..|script| - 1]); }
  }

  /** No call on a child changes the up-case table's bytes. */
  lemma TableBystands(w: World, ids: seq<Id>, script: seq<Op>)
    requires Fitting(w, ids) && Calls(script, |ids|) && UpcaseFile in w.contents
    requires forall i :: 0 <= i < |ids| ==> ids[i].Child?
    ensures UpcaseFile in Replay(w, ids, script).0.contents
    ensures Replay(w, ids, script).0.contents[UpcaseFile] == w.contents[UpcaseFile]
  {
    Bystander(w, ids, script, UpcaseFile);
  }

  lemma FixedOwners(fs: FileSystem)
    requires Inv(fs)
    ensures UpcaseFile in fs.nodes && !fs.nodes[UpcaseFile].isDir && Root in fs.nodes && fs.nodes[Root].isDir
    ensures BitmapFile in fs.nodes && !fs.nodes[BitmapFile].isDir
  {
    hide FileSystem.Valid;
    hide TreeOk;
  }

  lemma ChildrenOpened(fs: FileSystem, files: seq<File>)
    requires Opened(fs, files)
    ensures forall i :: 0 <= i < |files| ==> Ids(files)[i].Child?
  {
    hide FileSystem.Valid;
  }

  /** Owners of the same files and directories. */
  lemma SameKinds(heap0: Heap, nodes0: Owners, heap: Heap, nodes: Owners)
    requires DirsStay(heap0, nodes0, heap, nodes) && Contents(heap0, nodes0).Keys == Contents(heap, nodes).Keys
    requires BitmapFile in nodes0 && !nodes0[BitmapFile].isDir && BitmapFile in nodes && !nodes[BitmapFile].isDir
    ensures KindsKept(nodes0, nodes)
  {
    hide Stays;
    hide Content;
    forall id | id in nodes0
      ensures id in nodes && nodes[id].isDir == nodes0[id].isDir
    {
      if nodes0[id].isDir {
        assert DirStays(heap0, nodes0, heap, nodes, id);
      } else if id != BitmapFile {
        assert id in Contents(heap0, nodes0).Keys;
      }
    }
  }

  /** After a script every path leads where it led, and the volume can still be
      mounted. */
  lemma ScriptKeeps(fs: FileSystem, heap0: Heap, nodes0: Owners, gpt: Result<Partition>)
    requires Inv(fs) && TableReady(fs) && fs.upcaseValid && Anchored(fs.g, fs.origin, gpt)
    requires Carried(fs.g, fs.bitmap, fs.upcase, heap0, nodes0) && DirsStay(heap0, nodes0, fs.heap, fs.nodes)
    requires AllListed(fs.g, heap0, nodes0) && Inhabited(heap0, nodes0) && Listed(fs.g, heap0, nodes0, Root)
    requires UpcaseFile in nodes0 && !nodes0[UpcaseFile].isDir && BitmapFile in nodes0 && !nodes0[BitmapFile].isDir
    requires Contents(fs.heap, fs.nodes).Keys == Contents(heap0, nodes0).Keys
    requires UpcaseFile in Contents(heap0, nodes0)
             && Contents(fs.heap, fs.nodes)[UpcaseFile] == Contents(heap0, nodes0)[UpcaseFile]
    ensures Mountable(fs, gpt) && Table(fs) == Content(heap0, nodes0[UpcaseFile])
    ensures PathsKept(fs.g, heap0, nodes0, fs.heap, fs.nodes, fs.upcaseValid, Table(fs))
  {
    hide Carried;
    hide Anchored;
    hide FileSystem.Valid;
    hide OwnOk;
    hide TreeOk;
    hide DirsStay;
    hide Contents;
    hide Content;
    hide AllListed;
    hide Inhabited;
    hide Listed;
    hide RootStands;
    hide Resolve;
    FixedOwners(fs);
    ContentsSame(heap0, nodes0, UpcaseFile);
    ContentsSame(fs.heap, fs.nodes, UpcaseFile);
    ListedReads(fs.g, heap0, nodes0, Root);
    StaysRoot(heap0, nodes0, fs.heap, fs.nodes);
    CarriedOn(fs.g, fs.bitmap, fs.upcase, heap0, nodes0, fs.heap, fs.nodes);
    SameKinds(heap0, nodes0, fs.heap, fs.nodes);
    InvAllListed(fs);
    RootListed(fs);
    StandPaths(fs.g, heap0, nodes0, fs.heap, fs.nodes, fs.upcaseValid, Table(fs));
  }

  // ----- durability -----------------------------------------------------------------------------------

  /** A file system started from what another one left on the device. */
  ghost predicate Continues(again: FileSystem, fs: FileSystem)
    reads again, fs
  {
    && again.g == fs.g && again.upcaseValid == fs.upcaseValid && again.nodes == fs.nodes && again.heap == fs.heap
    && again.disk == fs.disk
  }

  /** Some append of the script would make a file longer than 64 bits can say. */
  ghost predicate Overflows(w: World, ids: seq<Id>, script: seq<Op>) {
    && Fitting(w, ids) && Calls(script, |ids|)
    && exists n :: 0 <= n < |script| && TooLong(w, ids, script, n)
  }

  ghost predicate TooLong(w: World, ids: seq<Id>, script: seq<Op>, n: nat)
    requires Fitting(w, ids) && Calls(script, |ids|) && n < |script|
  {
    && script[n].DoAppend?
    && |Replay(w, ids, script[..n]).0.contents[ids[script[n].h]]| + |script[n].input| > U64_MAX
  }

  /** Run a script, and mount what is on the device then: all the effects of the
      calls are there, and every path leads where it led. */
  method RunThenRemount(fs: FileSystem, files: seq<File>, script: seq<Op>, faulty: nat -> bool, scratchLength: nat,
                        gpt: Result<Partition>)
    returns (stopped: Option<Error>, r: Result<FileSystem>)
    requires Mountable(fs, gpt) && Opened(fs, files) && Calls(script, |files|) && scratchLength >= fs.g.bytesPerSector
    modifies fs`clock, fs`scratch, fs`disk, fs`fat, fs`heap, fs`used, fs`free, fs`nodes, files
    ensures Fitting(old(Seen(fs, files)), Ids(files))
    ensures stopped.None? ==>
      && Mountable(fs, gpt) && Table(fs) == old(Table(fs))
      && PathsKept(fs.g, old(fs.heap), old(fs.nodes), fs.heap, fs.nodes, fs.upcaseValid, Table(fs))
    ensures stopped.None? && r.Ok? ==>
      && fresh(r.value) && Mountable(r.value, gpt) && Continues(r.value, fs)
      && Contents(r.value.heap, r.value.nodes) == Replay(old(Seen(fs, files)), Ids(files), script).0.contents
    ensures stopped.None? && r.Err? ==>
      (r.error == RootDirectoryCorrupt && !RootHasRoom(fs.heap, fs.nodes))
        || (r.error == Error.Device && exists t :: faulty(t))
    ensures stopped.Some? ==>
      && r == Err(stopped.value) && stopped.value in {Error.Device, NoSpace}
      && (stopped.value == NoSpace ==> Full(fs.g, fs.used) || Overflows(old(Seen(fs, files)), Ids(files), script))
    ensures Honest(fs.faulty, old(fs.clock), fs.clock, stopped == Some(Error.Device))
  {
    hide RootHasRoom;
    hide Carried;
    hide Anchored;
    hide FileSystem.Valid;
    hide OwnOk;
    hide TreeOk;
    hide Fitting;
    hide Replay;
    hide Holds;
    hide DirsStay;
    hide Contents;
    hide Content;
    hide AllListed;
    hide Inhabited;
    hide Listed;
    hide PathsKept;
    ghost var w, heap, nodes := Seen(fs, files), fs.heap, fs.nodes;
    ChildrenOpened(fs, files);
    FixedOwners(fs);
    ContentsSame(heap, nodes, UpcaseFile);
    InvAllListed(fs);
    InvInhabited(fs.g, fs.heap, fs.nodes);
    RootListed(fs);
    var replies;
    ghost var torn;
    replies, stopped, torn := Run(fs, files, script);
    if stopped.Some? {
      if stopped.value == NoSpace && !Full(fs.g, fs.used) { assert TooLong(w, Ids(files), script, |replies|); }
      return stopped, Err(stopped.value);
    }
    TableBystands(w, Ids(files), script);
    ReplayDomain(w, Ids(files), script);
    ScriptKeeps(fs, heap, nodes, gpt);
    r := RemountDevice(fs, faulty, scratchLength, gpt);
  }

  /** Mount what is on the device. */
  method RemountDevice(fs: FileSystem, faulty: nat -> bool, scratchLength: nat, gpt: Result<Partition>)
    returns (r: Result<FileSystem>)
    requires Mountable(fs, gpt) && scratchLength >= fs.g.bytesPerSector
    ensures r.Ok? ==>
      fresh(r.value) && RootHasRoom(fs.heap, fs.nodes) && Mountable(r.value, gpt) && Continues(r.value, fs)
    ensures r.Err? ==>
      (r.error == RootDirectoryCorrupt && !RootHasRoom(fs.heap, fs.nodes))
        || (r.error == Error.Device && exists t :: faulty(t))
  {
    hide RootHasRoom;
    hide Carried;
    hide Anchored;
    hide OwnOk;
    hide TreeOk;
    hide FileSystem.Valid;
    MountsAgain(fs, scratchLength, gpt);
    AnchoredSize(fs.g, fs.origin, gpt);
    var d := new Device(fs.g.bytesPerSector, faulty, fs.disk);
    r := Remount(fs, d, scratchLength, gpt);
    FailuresBetween(faulty, 0, d.clock);
  }

  lemma AnchoredSize(g: Geometry, origin: seq<seq<byte>>, gpt: Result<Partition>)
    requires Anchored(g, origin, gpt)
    ensures g.bytesPerSector > 0
  {
  }

  /** The path leads to the file `id`, which holds `content`; every other file has
      its old bytes; and every path that led somewhere leads there still. */
  ghost predicate StoredAs(g: Geometry, heap0: Heap, nodes0: Owners, heap: Heap, nodes: Owners, names: seq<seq<Scalar>>,
                           id: Id, content: seq<byte>) {
    && Contents(heap, nodes) == Contents(heap0, nodes0)[id := content]
    && UpcaseFile in nodes0 && UpcaseFile in nodes
    && var table := Content(heap0, nodes0[UpcaseFile]);
       && Content(heap, nodes[UpcaseFile]) == table && PathsKept(g, heap0, nodes0, heap, nodes, true, table)
       && Resolve(g, heap, nodes, true, table, Root, names) == Ok(id)
  }

  /** Create a file at a path (or empty the one there), make any calls on it, and
      mount the device again.  The file is stored under its path, with the bytes
      the calls say. */
  method StoreThenRemount(fs: FileSystem, names: seq<seq<Scalar>>, parser: EntrySet, script: seq<Op>,
                          faulty: nat -> bool, scratchLength: nat, gpt: Result<Partition>)
    returns (done: bool, r: Result<FileSystem>, ghost id: Id)
    requires Mountable(fs, gpt) && |parser.entry.entryLocs| == 19 && parser.secondaryLeft == 0
    requires Calls(script, 1) && scratchLength >= fs.g.bytesPerSector
    modifies fs`clock, fs`scratch, fs`disk, fs`fat, fs`heap, fs`used, fs`free, fs`nodes, parser
    ensures done && r.Ok? ==>
      && fresh(r.value) && Mountable(r.value, gpt) && r.value.g == fs.g
      && StoredAs(fs.g, old(fs.heap), old(fs.nodes), r.value.heap, r.value.nodes, names, id,
                  Alone(Doc([], 0), script).0.content)
    ensures !done ==>
      && r.Err?
      && (r.error == NoSpace ==>
            || Full(fs.g, fs.used)
            || Overflows(World(old(Contents(fs.heap, fs.nodes))[id := []], [0]), [id], script))
      && (r.error !in {Error.Device, NoSpace} ==>
            Uncreatable(fs.g, old(fs.heap), old(fs.nodes), true, old(Table(fs)), names, r.error))
    ensures Honest(fs.faulty, old(fs.clock), fs.clock, !done && r == Err(Error.Device))
    ensures done && r.Err? ==>
      (r.error == RootDirectoryCorrupt && !RootHasRoom(fs.heap, fs.nodes))
        || (r.error == Error.Device && exists t :: faulty(t))
  {
    hide Failures;
    hide RootHasRoom;
    hide Carried;
    hide Anchored;
    hide FileSystem.Valid;
    hide OwnOk;
    hide TreeOk;
    hide Fitting;
    hide Replay;
    hide Holds;
    hide Contents;
    hide Content;
    hide Listed;
    hide Resolve;
    hide NewlyCreated;
    hide Reached;
    hide PathsKept;
    hide StoredAs;
    hide OnDoc;
    hide Uncreatable;
    hide Overflows;
    done, id := false, Root;
    ghost var heap, nodes, table := fs.heap, fs.nodes, Table(fs);
    var created := Create(fs, names, parser);
    if created.Err? { return false, Err(created.error), id; }
    var file := created.value;
    id := file.id;
    ReachedMountable(fs, heap, nodes, table, names, id, gpt);
    ghost var heap1, nodes1, w := fs.heap, fs.nodes, Seen(fs, [file]);
    assert Opened(fs, [file]);
    assert Ids([file]) == [id];
    StoredDoc(fs, file);
    var stopped;
    stopped, r := RunThenRemount(fs, [file], script, faulty, scratchLength, gpt);
    if stopped.Some? { return false, r, id; }
    done := true;
    ReplayAlone(w, id, script);
    if r.Ok? {
      StoredEnd(fs.g, heap, nodes, heap1, nodes1, fs.heap, fs.nodes, names, id, Alone(Doc([], 0), script).0.content);
    }
  }

  /** Creation, then anything that keeps the paths. */
  lemma StoredEnd(g: Geometry, heap0: Heap, nodes0: Owners, heap1: Heap, nodes1: Owners, heap: Heap, nodes: Owners,
                  names: seq<seq<Scalar>>, id: Id, content: seq<byte>)
    requires UpcaseFile in nodes0 && UpcaseFile in nodes && Contents(heap1, nodes1) == Contents(heap0, nodes0)[id := []]
    requires Contents(heap, nodes) == Contents(heap1, nodes1)[id := content]
    requires Content(heap, nodes[UpcaseFile]) == Content(heap0, nodes0[UpcaseFile])
    requires Reached(g, true, heap1, nodes1, heap0, nodes0, Content(heap0, nodes0[UpcaseFile]), names, id)
    requires PathsKept(g, heap1, nodes1, heap, nodes, true, Content(heap0, nodes0[UpcaseFile]))
    ensures StoredAs(g, heap0, nodes0, heap, nodes, names, id, content)
  {
    hide Content;
    hide Contents;
    hide Resolve;
    hide Listed;
    hide RootStands;
    hide NamesDistinct;
    hide NamesProper;
    PathsKeptTrans(g, heap0, nodes0, heap1, nodes1, heap, nodes, true, Content(heap0, nodes0[UpcaseFile]));
  }

  /** Creating files or directories leaves a volume that can be mounted. */
  lemma ReachedMountable(fs: FileSystem, heap0: Heap, nodes0: Owners, table: seq<byte>, names: seq<seq<Scalar>>, id: Id,
                         gpt: Result<Partition>)
    requires Inv(fs) && TableReady(fs) && fs.upcaseValid && Anchored(fs.g, fs.origin, gpt)
    requires Carried(fs.g, fs.bitmap, fs.upcase, heap0, nodes0) && UpcaseFile in nodes0
    requires table == Content(heap0, nodes0[UpcaseFile])
    requires Reached(fs.g, fs.upcaseValid, fs.heap, fs.nodes, heap0, nodes0, table, names, id)
    ensures Mountable(fs, gpt) && Table(fs) == table
  {
    hide Carried;
    hide Anchored;
    hide FileSystem.Valid;
    hide OwnOk;
    hide TreeOk;
    hide Content;
    hide Listed;
    hide Resolve;
    hide RootStands;
    hide NamesDistinct;
    hide NamesProper;
    CarriedOn(fs.g, fs.bitmap, fs.upcase, heap0, nodes0, fs.heap, fs.nodes);
  }

  /** So does removing them. */
  lemma RemovedMountable(fs: FileSystem, heap0: Heap, nodes0: Owners, table: seq<byte>, id: Id, gpt: Result<Partition>)
    requires Inv(fs) && TableReady(fs) && fs.upcaseValid && Anchored(fs.g, fs.origin, gpt)
    requires Carried(fs.g, fs.bitmap, fs.upcase, heap0, nodes0) && UpcaseFile in nodes0
    requires table == Content(heap0, nodes0[UpcaseFile])
    requires Unreached(fs, heap0, nodes0, table, id) && Table(fs) == table
    ensures Mountable(fs, gpt)
  {
    hide Carried;
    hide Anchored;
    hide FileSystem.Valid;
    hide OwnOk;
    hide TreeOk;
    hide Content;
    hide Listed;
    hide Resolve;
    hide RootStands;
    hide NamesDistinct;
    hide NamesProper;
    CarriedOn(fs.g, fs.bitmap, fs.upcase, heap0, nodes0, fs.heap, fs.nodes);
  }

  lemma StoredDoc(fs: FileSystem, file: File)
    requires Inv(fs) && Holds(fs, file) && file.position == 0
    requires file.id in Contents(fs.heap, fs.nodes) && Contents(fs.heap, fs.nodes)[file.id] == []
    ensures Seen(fs, [file]) == World(Contents(fs.heap, fs.nodes), [0])
    ensures Fitting(Seen(fs, [file]), [file.id]) && DocAt(Seen(fs, [file]), [file.id], 0) == Doc([], 0)
  {
    hide FileSystem.Valid;
    hide OwnOk;
    hide TreeOk;
    hide Content;
    hide Holds;
  }
}
