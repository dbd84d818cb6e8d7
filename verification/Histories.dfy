/** Whole histories: any sequence of creations, removals, openings and calls on the
    open files is a sequence of operations on a map from paths to bytes. */
module Histories {
  import opened Words
  import opened Errors
  import opened Geometry
  import opened Views
  import opened Volume
  import opened Files
  import opened EntrySets
  import opened Tree
  import opened Growth
  import opened Meaning
  import opened Standing
  import opened Appending
  import opened Sessions
  import opened Upcase
  import opened Names
  import opened Paths
  import opened Resolution
  import opened Creation
  import opened PathCreation
  import opened Removal
  import opened Catalog

  // ----- the specification -----------------------------------------------------------------------

  /** One call.  `Use` is a call on the handle number `op.h`, counted in the order
      in which files were made or opened. */
  datatype Request =
    | MakeFile(path: Path)
    | MakeFolders(path: Path)
    | Delete(path: Path)
    | OpenFile(path: Path)
    | Use(op: Op)

  datatype Answer = Done | Replied(reply: Reply) | Failed(error: Error)

  /** A call's answer, the clusters in use after it, and, for a refused walk, how
      many of the path's directories are there. */
  datatype Turn = Turn(answer: Answer, used: set<nat>, made: nat)

  /** A handle is dead once its file has been made or opened again, or deleted. */
  datatype Handle = Live(path: Path, position: nat) | Dead

  datatype Session = Session(tree: PathMap, handles: seq<Handle>, used: set<nat>)

  ghost function Closed(valid: bool, table: seq<byte>, handles: seq<Handle>, p: Path): (r: seq<Handle>)
    ensures |r| == |handles|
  {
    seq(|handles|, i requires 0 <= i < |handles| =>
      if handles[i].Live? && SamePath(valid, table, handles[i].path, p) then Dead else handles[i])
  }

  /** The handle can be called, and is on a file of the map. */
  ghost predicate Usable(s: Session, h: nat) {
    && h < |s.handles| && s.handles[h].Live? && s.handles[h].path in s.tree && s.tree[s.handles[h].path].Bytes?
  }

  ghost function DocBehind(s: Session, h: nat): Doc
    requires Usable(s, h)
  {
    Doc(s.tree[s.handles[h].path].content, s.handles[h].position)
  }

  /** What an answered call has done. */
  ghost function Afterwards(w: Ground, s: Session, request: Request, t: Turn): Session {
    match request
    case MakeFile(p) =>
      if t.answer.Done? then
        Session(Put(w.valid, w.table, s.tree, p, Bytes([])), Closed(w.valid, w.table, s.handles, p) + [Live(p, 0)],
                t.used)
      else s.(used := t.used)
    case MakeFolders(p) =>
      var made := if t.answer.Done? then |p| else if t.made <= |p| then t.made else 0;
      Session(WithFolders(w.valid, w.table, s.tree, p[..made]), s.handles, t.used)
    case Delete(p) =>
      if t.answer.Done? then
        Session(Without(w.valid, w.table, s.tree, p), Closed(w.valid, w.table, s.handles, p), t.used)
      else s.(used := t.used)
    case OpenFile(p) =>
      if t.answer.Done? then
        Session(s.tree, Closed(w.valid, w.table, s.handles, p) + [Live(p, 0)], t.used)
      else s.(used := t.used)
    case Use(op) =>
      if t.answer.Replied? && Usable(s, op.h) then
        var d, p := OnDoc(DocBehind(s, op.h), op).0, s.handles[op.h].path;
        Session(Put(w.valid, w.table, s.tree, p, Bytes(d.content)), s.handles[op.h := Live(p, d.position)], t.used)
      else s.(used := t.used)
  }

  /** The answers a call may get, and the clusters it may take or give back. */
  ghost predicate Allowed(w: Ground, s: Session, request: Request, t: Turn) {
    match request
    case MakeFile(p) => MakeAllowed(w, s, p, t)
    case MakeFolders(p) => FoldersAllowed(w, s, p, t)
    case Delete(p) => DeleteAllowed(w, s, p, t)
    case OpenFile(p) => OpenAllowed(w, s, p, t)
    case Use(op) => UseAllowed(w, s, op, t)
  }

  /** An existing file is emptied; a new one costs its directory two clusters at
      most.  Space is lacking only when every cluster is in use, and then at most
      one was free. */
  ghost predicate MakeAllowed(w: Ground, s: Session, p: Path, t: Turn) {
    match t.answer
    case Done =>
      && p != [] && InFolder(s.tree, p)
      && (if p in s.tree then s.tree[p].Bytes? && t.used <= s.used else Took(s.used, t.used, 2))
    case Replied(_) => false
    case Failed(e) =>
      && Unmakable(w, s.tree, p, e) && Took(s.used, t.used, 2)
      && (e == NoSpace ==> Full(w.g, t.used) && Took(s.used, t.used, 1))
  }

  /** Each directory costs at most one cluster and its parent two more. */
  ghost predicate FoldersAllowed(w: Ground, s: Session, p: Path, t: Turn) {
    match t.answer
    case Done =>
      && p != [] && (forall q :: q in s.tree && Beginning(w.valid, w.table, p, q) ==> s.tree[q] == Folder)
      && Took(s.used, t.used, 3 * |p|)
    case Replied(_) => false
    case Failed(e) =>
      if p == [] then e == InvalidPath && t.made == 0 && t.used == s.used
      else
        && Barrier(w, s.tree, p, t.made, e) && Took(s.used, t.used, 3 * (t.made + 1))
        && (e == NoSpace ==> Full(w.g, t.used))
  }

  /** A directory is refused only when something is in it. */
  ghost predicate DeleteAllowed(w: Ground, s: Session, p: Path, t: Turn) {
    match t.answer
    case Done => p in s.tree && NothingBelow(w.valid, w.table, s.tree, p) && t.used <= s.used
    case Replied(_) => false
    case Failed(e) =>
      && t.used == s.used
      && if e == DirectoryNotEmpty then
           && p in s.tree && s.tree[p] == Folder
           && (w.proper ==> !NothingBelow(w.valid, w.table, s.tree, p))
         else Explained(w, s.tree, p, e)
  }

  ghost predicate OpenAllowed(w: Ground, s: Session, p: Path, t: Turn) {
    && t.used == s.used
    && match t.answer
       case Done => p in s.tree && s.tree[p].Bytes?
       case Replied(_) => false
       case Failed(e) => if e == IsDirectory then p in s.tree && s.tree[p] == Folder else Explained(w, s.tree, p, e)
  }

  /** The reply is the specification's; an append is refused only when all clusters
      that were free would not hold the input, or when the file would become too
      long. */
  ghost predicate UseAllowed(w: Ground, s: Session, op: Op, t: Turn) {
    && Usable(s, op.h)
    && match t.answer
       case Done => false
       case Replied(reply) => reply == OnDoc(DocBehind(s, op.h), op).1 && Spent(w.g, s.used, t.used, op)
       case Failed(e) =>
         && e == NoSpace && op.DoAppend?
         && (|| Short(w.g, s.used, t.used, |op.input|)
             || (t.used == s.used && |DocBehind(s, op.h).content| + |op.input| > U64_MAX))
  }

  /** Refusals that may have left unused slots before others. */
  predicate Doubtful(request: Request, a: Answer) {
    && a.Failed?
    && ((request.MakeFile? && a.error in {UpcaseTableCorrupt, Corrupt})
        || (request.MakeFolders? && a.error in {NoSpace, UpcaseTableCorrupt, Corrupt}))
  }

  /** A client chooses its next request, or none, from the answers so far. */
  type Client = seq<Answer> -> Option<Request>

  /** For so many more calls the client makes none on a dead handle, whatever
      allowed answers it gets. */
  ghost predicate Careful(w: Ground, s: Session, client: Client, answers: seq<Answer>, left: nat)
    decreases left
  {
    left == 0 || client(answers).None? ||
      var request := client(answers).value;
      && (request.Use? ==> request.op.h < |s.handles| && s.handles[request.op.h].Live?)
      && forall t :: Allowed(w, s, request, t) && !Doubtful(request, t.answer) ==>
           Careful(w, Afterwards(w, s, request, t), client, answers + [t.answer], left - 1)
  }

  /** What all calls have done. */
  ghost function Outcome(w: Ground, s: Session, requests: seq<Request>, turns: seq<Turn>): Session
    requires |requests| == |turns|
  {
    if requests == [] then s
    else
      var n := |requests| - 1;
      Afterwards(w, Outcome(w, s, requests[..n], turns[..n]), requests[n], turns[n])
  }

  /** Every answer is one that the map allows at its time. */
  ghost predicate AllAllowed(w: Ground, s: Session, requests: seq<Request>, turns: seq<Turn>)
    requires |requests| == |turns|
  {
    forall n :: 0 <= n < |requests| ==> AllowedAt(w, s, requests, turns, n)
  }

  ghost predicate AllowedAt(w: Ground, s: Session, requests: seq<Request>, turns: seq<Turn>, n: nat)
    requires n < |requests| == |turns|
  {
    Allowed(w, Outcome(w, s, requests[..n], turns[..n]), requests[n], turns[n])
  }

  // ----- the volume and its handles ------------------------------------------------------------------

  /** Every live handle is at rest on the file its path leads to, and no two are on
      the same file. */
  ghost predicate Linked(g: Geometry, heap: Heap, nodes: Owners, fat: seq<u32>, valid: bool, table: seq<byte>,
                         files: seq<File>, handles: seq<Handle>)
    requires Listed(g, heap, nodes, Root)
    reads files
  {
    && |files| == |handles| && (forall i, j :: 0 <= i < j < |files| ==> files[i] != files[j])
    && (forall i :: 0 <= i < |files| && handles[i].Live? ==>
          LinkedAt(g, heap, nodes, fat, valid, table, files[i], handles[i]))
    && (forall i, j :: 0 <= i < j < |files| && handles[i].Live? && handles[j].Live? ==> files[i].id != files[j].id)
  }

  ghost predicate LinkedAt(g: Geometry, heap: Heap, nodes: Owners, fat: seq<u32>, valid: bool, table: seq<byte>,
                           file: File, h: Handle)
    requires Listed(g, heap, nodes, Root) && h.Live?
    reads file
  {
    && AtRest(g, nodes, fat, file) && file.position == h.position
    && Resolve(g, heap, nodes, valid, table, Root, h.path) == Ok(file.id)
  }

  /** The volume and its handles are what the session says. */
  ghost predicate Serving(fs: FileSystem, files: seq<File>, s: Session, w: Ground)
    reads fs, files
  {
    && Inv(fs) && TableReady(fs) && w.g == fs.g && w.valid == fs.upcaseValid && Table(fs) == w.table
    && Served(w, fs.heap, fs.nodes, fs.fat, fs.used, files, s)
  }

  /** What holds of the views in such a state, and of a state that has passed. */
  ghost predicate Served(w: Ground, heap: Heap, nodes: Owners, fat: seq<u32>, used: set<nat>, files: seq<File>,
                         s: Session)
    reads files
  {
    && Listed(w.g, heap, nodes, Root) && AllListed(w.g, heap, nodes) && Inhabited(heap, nodes)
    && NamesDistinct(w.g, heap, nodes, w.valid, w.table)
    && (w.proper ==> NamesProper(w.g, heap, nodes, w.valid, w.table))
    && UpcaseFile in nodes && !nodes[UpcaseFile].isDir && Content(heap, nodes[UpcaseFile]) == w.table
    && s.tree == TreeOf(w.g, heap, nodes, w.valid, w.table) && s.used == used
    && Linked(w.g, heap, nodes, fat, w.valid, w.table, files, s.handles)
  }

  /** The parts of an intact volume that a served state has. */
  lemma ServedStarts(fs: FileSystem, w: Ground, files: seq<File>, s: Session)
    requires Inv(fs) && TableReady(fs) && w.g == fs.g && w.valid == fs.upcaseValid
    requires UpcaseFile in fs.nodes && Table(fs) == w.table
    requires NamesDistinct(w.g, fs.heap, fs.nodes, w.valid, w.table)
    requires w.proper ==> NamesProper(w.g, fs.heap, fs.nodes, w.valid, w.table)
    requires Listed(w.g, fs.heap, fs.nodes, Root)
    requires s.tree == TreeOf(w.g, fs.heap, fs.nodes, w.valid, w.table) && s.used == fs.used
    requires Linked(w.g, fs.heap, fs.nodes, fs.fat, w.valid, w.table, files, s.handles)
    ensures Serving(fs, files, s, w)
  {
    hide FileSystem.Valid;
    hide OwnOk;
    hide TreeOk;
    hide Listed;
    hide AllListed;
    hide Inhabited;
    hide NamesDistinct;
    hide NamesProper;
    hide Content;
    hide TreeOf;
    hide Linked;
    InvAllListed(fs);
    InvInhabited(fs.g, fs.heap, fs.nodes);
    UpcaseNotDirectory(fs.g, fs.fat, fs.used, fs.bm, fs.nodes);
  }

  /** Handles that hold on, on files their paths lead to. */
  lemma LinksKept(fs: FileSystem, files: seq<File>, handles: seq<Handle>, handles': seq<Handle>, table: seq<byte>,
                  heap0: Heap, nodes0: Owners, fat0: seq<u32>)
    requires Inv(fs) && Listed(fs.g, heap0, nodes0, Root) && Listed(fs.g, fs.heap, fs.nodes, Root)
    requires Linked(fs.g, heap0, nodes0, fat0, fs.upcaseValid, table, files, handles) && |handles'| == |handles|
    requires forall i :: 0 <= i < |files| && handles'[i].Live? ==>
      && handles'[i] == handles[i] && Holds(fs, files[i])
      && Resolve(fs.g, fs.heap, fs.nodes, fs.upcaseValid, table, Root, handles'[i].path) == Ok(files[i].id)
    ensures Linked(fs.g, fs.heap, fs.nodes, fs.fat, fs.upcaseValid, table, files, handles')
  {
    hide FileSystem.Valid;
    hide OwnOk;
    hide TreeOk;
    hide Listed;
    hide Resolve;
    hide AtRest;
    hide Holds;
    forall i | 0 <= i < |files| && handles'[i].Live?
      ensures LinkedAt(fs.g, fs.heap, fs.nodes, fs.fat, fs.upcaseValid, table, files[i], handles'[i])
    {
      assert LinkedAt(fs.g, heap0, nodes0, fat0, fs.upcaseValid, table, files[i], handles[i]);
      HoldsAtRest(fs, files[i]);
    }
  }

  /** One more handle, on a file that no other live handle is on. */
  lemma LinksMore(fs: FileSystem, files: seq<File>, handles: seq<Handle>, file: File, p: Path, table: seq<byte>)
    requires Inv(fs) && Listed(fs.g, fs.heap, fs.nodes, Root)
    requires Linked(fs.g, fs.heap, fs.nodes, fs.fat, fs.upcaseValid, table, files, handles)
    requires Holds(fs, file) && file.position == 0 && file !in files
    requires Resolve(fs.g, fs.heap, fs.nodes, fs.upcaseValid, table, Root, p) == Ok(file.id)
    requires forall i :: 0 <= i < |files| && handles[i].Live? ==> files[i].id != file.id
    ensures Linked(fs.g, fs.heap, fs.nodes, fs.fat, fs.upcaseValid, table, files + [file], handles + [Live(p, 0)])
  {
    hide FileSystem.Valid;
    hide OwnOk;
    hide TreeOk;
    hide Listed;
    hide Resolve;
    hide AtRest;
    hide Holds;
    HoldsAtRest(fs, file);
    var files', handles' := files + [file], handles + [Live(p, 0)];
    forall i | 0 <= i < |files'| && handles'[i].Live?
      ensures LinkedAt(fs.g, fs.heap, fs.nodes, fs.fat, fs.upcaseValid, table, files'[i], handles'[i])
    {
      if i < |files| {
        assert LinkedAt(fs.g, fs.heap, fs.nodes, fs.fat, fs.upcaseValid, table, files[i], handles[i]);
      }
    }
  }

  /** A handle that is not closed with the path is on another file. */
  lemma OtherFile(g: Geometry, heap: Heap, nodes: Owners, fat: seq<u32>, valid: bool, table: seq<byte>,
                  files: seq<File>, handles: seq<Handle>, p: Path, i: nat, id: Id)
    requires Listed(g, heap, nodes, Root) && Linked(g, heap, nodes, fat, valid, table, files, handles)
    requires i < |handles| && Closed(valid, table, handles, p)[i].Live?
    requires Resolve(g, heap, nodes, valid, table, Root, p) == Ok(id)
    ensures files[i].id != id
  {
    hide Listed;
    hide Resolve;
    hide AtRest;
    hide SamePath;
    assert LinkedAt(g, heap, nodes, fat, valid, table, files[i], handles[i]);
    if files[i].id == id { SameTarget(g, heap, nodes, valid, table, Root, handles[i].path, p); }
  }

  // ----- one call ---------------------------------------------------------------------------------

  /** Making room changes nothing that can be seen. */
  lemma StoodServing(fs: FileSystem, files: seq<File>, s: Session, w: Ground, heap0: Heap, nodes0: Owners,
                     fat0: seq<u32>, used0: set<nat>)
    requires Served(w, heap0, nodes0, fat0, used0, files, s) && w.g == fs.g && w.valid == fs.upcaseValid
    requires Inv(fs) && TableReady(fs) && StillStands(heap0, nodes0, fs.heap, fs.nodes)
    ensures Serving(fs, files, s.(used := fs.used), w)
  {
    hide FileSystem.Valid;
    hide OwnOk;
    hide TreeOk;
    hide Listed;
    hide AllListed;
    hide Inhabited;
    hide NamesDistinct;
    hide NamesProper;
    hide Content;
    hide TreeOf;
    hide Resolve;
    hide AtRest;
    hide Holds;
    hide Contents;
    hide DirsStay;
    hide OwnersKept;
    StoodPaths(fs, w.table, heap0, nodes0);
    forall i | 0 <= i < |files| && s.handles[i].Live?
      ensures Holds(fs, files[i])
      ensures Resolve(w.g, fs.heap, fs.nodes, w.valid, w.table, Root, s.handles[i].path) == Ok(files[i].id)
    {
      assert LinkedAt(w.g, heap0, nodes0, fat0, w.valid, w.table, files[i], s.handles[i]);
      HandleSurvives(fs, files[i], nodes0, fat0);
      KeptPath(w.g, heap0, nodes0, fs.heap, fs.nodes, w.valid, w.table, s.handles[i].path);
    }
    LinksKept(fs, files, s.handles, s.handles, w.table, heap0, nodes0, fat0);
    ServedStarts(fs, w, files, s.(used := fs.used));
  }

  lemma KeptPath(g: Geometry, heap0: Heap, nodes0: Owners, heap: Heap, nodes: Owners, valid: bool, table: seq<byte>,
                 p: Path)
    requires PathsKept(g, heap0, nodes0, heap, nodes, valid, table)
    ensures Listed(g, heap0, nodes0, Root) && Listed(g, heap, nodes, Root)
    ensures Resolve(g, heap0, nodes0, valid, table, Root, p).Ok? ==>
      Resolve(g, heap, nodes, valid, table, Root, p) == Resolve(g, heap0, nodes0, valid, table, Root, p)
  {
    hide Listed;
    hide Resolve;
    hide RootStands;
  }

  lemma StoodPaths(fs: FileSystem, table: seq<byte>, heap0: Heap, nodes0: Owners)
    requires Inv(fs) && StillStands(heap0, nodes0, fs.heap, fs.nodes)
    requires Listed(fs.g, heap0, nodes0, Root) && AllListed(fs.g, heap0, nodes0) && Inhabited(heap0, nodes0)
    requires UpcaseFile in nodes0 && !nodes0[UpcaseFile].isDir && Content(heap0, nodes0[UpcaseFile]) == table
    ensures UpcaseFile in fs.nodes && Table(fs) == table && Listed(fs.g, fs.heap, fs.nodes, Root)
    ensures NamesKept(fs.g, heap0, nodes0, fs.heap, fs.nodes, fs.upcaseValid, table)
    ensures PathsKept(fs.g, heap0, nodes0, fs.heap, fs.nodes, fs.upcaseValid, table)
    ensures TreeOf(fs.g, fs.heap, fs.nodes, fs.upcaseValid, table) ==
      TreeOf(fs.g, heap0, nodes0, fs.upcaseValid, table)
  {
    hide FileSystem.Valid;
    hide OwnOk;
    hide TreeOk;
    hide Listed;
    hide AllListed;
    hide Inhabited;
    hide NamesDistinct;
    hide NamesProper;
    hide Content;
    hide Contents;
    hide TreeOf;
    hide Resolve;
    hide DirsStay;
    hide PathsKept;
    InvAllListed(fs);
    InvInhabited(fs.g, fs.heap, fs.nodes);
    RootListed(fs);
    UpcaseNotDirectory(fs.g, fs.fat, fs.used, fs.bm, fs.nodes);
    KeptKinds(nodes0, fs.nodes);
    TableSame(heap0, nodes0, fs.heap, fs.nodes, Root, []);
    StandPaths(fs.g, heap0, nodes0, fs.heap, fs.nodes, fs.upcaseValid, table);
    NamesStay(fs.g, heap0, nodes0, fs.heap, fs.nodes, fs.upcaseValid, table);
    SameTree(fs.g, heap0, nodes0, fs.heap, fs.nodes, fs.upcaseValid, table);
  }

  // ----- making a file ------------------------------------------------------------------------------

  lemma MadeHolds(fs: FileSystem, file: File, other: File, heap0: Heap, nodes0: Owners, fat0: seq<u32>,
                  table: seq<byte>, p: Path)
    requires Inv(fs) && EmptyAt(fs, heap0, nodes0, table, p, file) && AtRest(fs.g, nodes0, fat0, other)
    requires other.id != file.id && IsFile(fs.nodes, file.id)
    ensures Holds(fs, other)
  {
    hide FileSystem.Valid;
    hide OwnOk;
    hide TreeOk;
    hide Contents;
    hide Reached;
    hide Resolve;
    hide NewlyCreated;
    hide AtRest;
    hide Holds;
    hide Listed;
    if file.id in nodes0 {
      EmptiedWasFile(fs, file, nodes0, heap0, table, p);
      StillHolds(fs, other, nodes0, fat0, file.id);
    } else {
      HandleSurvives(fs, other, nodes0, fat0);
    }
  }

  lemma EmptiedWasFile(fs: FileSystem, file: File, nodes0: Owners, heap0: Heap, table: seq<byte>, p: Path)
    requires EmptyAt(fs, heap0, nodes0, table, p, file) && file.id in nodes0 && IsFile(fs.nodes, file.id)
    ensures IsFile(nodes0, file.id) && OwnerReplaced(nodes0, fs.nodes, file.id)
  {
    hide Contents;
    hide Resolve;
    hide Listed;
    hide NamesDistinct;
    hide RootStands;
    hide Content;
    hide NewlyCreated;
    assert KindsKept(nodes0, fs.nodes);
  }

  lemma MadePaths(fs: FileSystem, file: File, heap0: Heap, nodes0: Owners, table: seq<byte>, p: Path)
    requires Inv(fs) && EmptyAt(fs, heap0, nodes0, table, p, file) && IsFile(fs.nodes, file.id)
    requires Listed(fs.g, heap0, nodes0, Root) && AllListed(fs.g, heap0, nodes0) && Inhabited(heap0, nodes0)
    ensures UpcaseFile in fs.nodes && Table(fs) == table && Listed(fs.g, fs.heap, fs.nodes, Root)
    ensures NamesKept(fs.g, heap0, nodes0, fs.heap, fs.nodes, fs.upcaseValid, table)
    ensures PathsKept(fs.g, heap0, nodes0, fs.heap, fs.nodes, fs.upcaseValid, table)
    ensures Resolve(fs.g, fs.heap, fs.nodes, fs.upcaseValid, table, Root, p) == Ok(file.id)
    ensures var t := TreeOf(fs.g, heap0, nodes0, fs.upcaseValid, table);
            && TreeOf(fs.g, fs.heap, fs.nodes, fs.upcaseValid, table) == Put(fs.upcaseValid, table, t, p, Bytes([]))
            && p != [] && InFolder(t, p) && (p in t <==> file.id in nodes0) && (p in t ==> t[p].Bytes?)
  {
    hide FileSystem.Valid;
    hide OwnOk;
    hide TreeOk;
    hide Listed;
    hide AllListed;
    hide Inhabited;
    hide NamesDistinct;
    hide NamesProper;
    hide Content;
    hide Contents;
    hide TreeOf;
    hide Resolve;
    hide PathsKept;
    hide NewlyCreated;
    hide OwnersKept;
    hide EntryOf;
    var g, valid := fs.g, fs.upcaseValid;
    InvAllListed(fs);
    InvInhabited(g, fs.heap, fs.nodes);
    RootListed(fs);
    PutTree(g, heap0, nodes0, fs.heap, fs.nodes, valid, table, p, file.id, []);
    ResolveUp(g, fs.heap, fs.nodes, valid, table, Root, p);
    var t, t' := TreeOf(g, heap0, nodes0, valid, table), TreeOf(g, fs.heap, fs.nodes, valid, table);
    TreeAt(g, fs.heap, fs.nodes, valid, table, p);
    TreeAt(g, heap0, nodes0, valid, table, p);
    KeptPath(g, heap0, nodes0, fs.heap, fs.nodes, valid, table, p);
    InsideFolder(g, fs.heap, fs.nodes, valid, table, p);
    if |p| > 1 { assert !SamePath(valid, table, p, p[..|p| - 1]); }
    if p in t { WasFile(g, heap0, nodes0, fs.heap, fs.nodes, valid, table, p, file.id); }
  }

  /** What leads to a file now led to a file before. */
  lemma WasFile(g: Geometry, heap0: Heap, nodes0: Owners, heap: Heap, nodes: Owners, valid: bool, table: seq<byte>,
                p: Path, id: Id)
    requires PathsKept(g, heap0, nodes0, heap, nodes, valid, table) && Inhabited(heap0, nodes0)
    requires Listed(g, heap0, nodes0, Root) && Resolve(g, heap0, nodes0, valid, table, Root, p) == Ok(id)
    requires id in nodes && !nodes[id].isDir
    ensures p in TreeOf(g, heap0, nodes0, valid, table) && TreeOf(g, heap0, nodes0, valid, table)[p].Bytes?
  {
    hide Listed;
    hide Resolve;
    hide RootStands;
    hide Inhabited;
    hide Content;
    hide TreeOf;
    TreeAt(g, heap0, nodes0, valid, table, p);
  }

  lemma MakeDone(fs: FileSystem, files: seq<File>, file: File, s: Session, w: Ground, heap0: Heap, nodes0: Owners,
                 fat0: seq<u32>, used0: set<nat>, p: Path, t: Turn)
    requires Served(w, heap0, nodes0, fat0, used0, files, s) && w.g == fs.g && w.valid == fs.upcaseValid
    requires Inv(fs) && TableReady(fs) && Holds(fs, file) && file.position == 0 && file !in files
    requires EmptyAt(fs, heap0, nodes0, w.table, p, file) && t.answer == Done && t.used == fs.used
    requires SetMadeAt(fs.g, heap0, nodes0, used0, fs.heap, fs.nodes, fs.used, p, file.id)
    ensures Serving(fs, files + [file], Afterwards(w, s, MakeFile(p), t), w) && Allowed(w, s, MakeFile(p), t)
  {
    hide FileSystem.Valid;
    hide OwnOk;
    hide TreeOk;
    hide Listed;
    hide AllListed;
    hide Inhabited;
    hide NamesDistinct;
    hide NamesProper;
    hide Content;
    hide TreeOf;
    hide Resolve;
    hide AtRest;
    hide EmptyAt;
    hide InFolder;
    hide SamePath;
    hide SetPut;
    hide Took;
    assert IsFile(fs.nodes, file.id);
    hide Holds;
    MadePaths(fs, file, heap0, nodes0, w.table, p);
    var g, valid, table := w.g, w.valid, w.table;
    var handles := Closed(valid, table, s.handles, p);
    forall i | 0 <= i < |files| && handles[i].Live?
      ensures Holds(fs, files[i]) && handles[i] == s.handles[i] && files[i].id != file.id
      ensures Resolve(g, fs.heap, fs.nodes, valid, table, Root, handles[i].path) == Ok(files[i].id)
    {
      assert LinkedAt(g, heap0, nodes0, fat0, valid, table, files[i], s.handles[i]);
      KeptPath(g, heap0, nodes0, fs.heap, fs.nodes, valid, table, s.handles[i].path);
      if files[i].id == file.id { SameTarget(g, fs.heap, fs.nodes, valid, table, Root, s.handles[i].path, p); }
      MadeHolds(fs, file, files[i], heap0, nodes0, fat0, table, p);
    }
    LinksKept(fs, files, s.handles, handles, table, heap0, nodes0, fat0);
    LinksMore(fs, files, handles, file, p, table);
    ServedStarts(fs, w, files + [file], Afterwards(w, s, MakeFile(p), t));
  }

  /** A refusal for any of these reasons comes before room is looked for. */
  lemma RefusedEarly(g: Geometry, heap: Heap, nodes: Owners, used: set<nat>, valid: bool, table: seq<byte>, p: Path,
                     e: Error)
    requires Uncreatable(g, heap, nodes, valid, table, p, e) && e !in {UpcaseTableCorrupt, Corrupt}
    ensures PathLeavesNoGap(g, heap, nodes, used, valid, table, p)
  {
    hide Listed;
    hide Resolve;
    hide Encoded;
    hide HashOf;
    hide LeavesNoGap;
    if p != [] {
      var to, last := Resolve(g, heap, nodes, valid, table, Root, p), Encoded(p[|p| - 1]);
      if to != Err(PathNotFound) {
        NoneWanting(g, heap, nodes, used, valid, table, p);
      } else if last.Err? {
        BadLeavesNone(g, heap, nodes, used, valid, table, p);
      } else {
        EncodingErrors(p[|p| - 1]);
        NoHome(g, heap, nodes, used, valid, table, p);
      }
    }
  }

  lemma BadLeavesNone(g: Geometry, heap: Heap, nodes: Owners, used: set<nat>, valid: bool, table: seq<byte>, p: Path)
    requires p != [] && Encoded(p[|p| - 1]).Err?
    ensures PathLeavesNoGap(g, heap, nodes, used, valid, table, p)
  {
    hide Listed;
    hide Resolve;
    hide Encoded;
    hide SlotNamed;
  }

  predicate Idle(parser: EntrySet)
    reads parser
  {
    |parser.entry.entryLocs| == 19 && parser.secondaryLeft == 0
  }

  /** What is known once a call has been answered: the answer is allowed; and the
      volume is what the session says then, unless the call was refused where it
      may have left a gap, and has: `NoGapAt` says exactly when it has not. */
  ghost predicate Settled(fs: FileSystem, files: seq<File>, w: Ground, s: Session, request: Request, t: Turn)
    reads fs, files
  {
    && Allowed(w, s, request, t) && t.used == fs.used
    && (Inv(fs) ==> Serving(fs, files, Afterwards(w, s, request, t), w))
    && (if Doubtful(request, t.answer) then
          exists at: Stage :: Reaches(w, s, request, t, at) && (Inv(fs) <==> NoGapAt(w, request, t, at))
        else Inv(fs))
  }

  /** The volume as the last step of a creation found it. */
  ghost predicate Reaches(w: Ground, s: Session, request: Request, t: Turn, at: Stage) {
    && Listed(w.g, at.heap, at.nodes, Root)
    && match request
       case MakeFile(_) =>
         TreeOf(w.g, at.heap, at.nodes, w.valid, w.table) == s.tree && at.used == s.used
       case MakeFolders(p) =>
         && t.made < |p|
         && TreeOf(w.g, at.heap, at.nodes, w.valid, w.table) == WithFolders(w.valid, w.table, s.tree, p[..t.made])
         && (if t.made == 0 then at.id == Root
             else Resolve(w.g, at.heap, at.nodes, w.valid, w.table, Root, p[..t.made]) == Ok(at.id))
       case _ => false
  }

  /** That step leaves no unused slot before others. */
  ghost predicate NoGapAt(w: Ground, request: Request, t: Turn, at: Stage) {
    match request
    case MakeFile(p) => PathLeavesNoGap(w.g, at.heap, at.nodes, at.used, w.valid, w.table, p)
    case MakeFolders(p) =>
      t.made < |p| && LeavesNoGap(w.g, at.heap, at.nodes, at.used, w.valid, w.table, at.id, p[t.made])
    case _ => true
  }

  /** Make a file, or empty the one there. */
  method ServeMake(fs: FileSystem, parser: EntrySet, files: seq<File>, p: Path, ghost s: Session, ghost w: Ground)
    returns (a: Answer, files': seq<File>, ghost t: Turn)
    requires Serving(fs, files, s, w) && Idle(parser)
    modifies fs`clock, fs`scratch, fs`disk, fs`fat, fs`heap, fs`used, fs`free, fs`nodes, parser
    ensures fs.Valid() && t.answer == a && Honest(fs.faulty, old(fs.clock), fs.clock, a == Failed(Device))
    ensures a != Failed(Device) ==> Settled(fs, files', w, s, MakeFile(p), t) && Idle(parser)
    ensures |files'| >= |files| && files'[..|files|] == files
    ensures forall i :: |files| <= i < |files'| ==> fresh(files'[i])
  {
    hide Failures;
    hide FileSystem.Valid;
    hide OwnOk;
    hide TreeOk;
    hide Listed;
    hide AllListed;
    hide Inhabited;
    hide NamesDistinct;
    hide NamesProper;
    hide Content;
    hide TreeOf;
    hide Resolve;
    hide Linked;
    hide EmptyAt;
    hide SetMadeAt;
    hide NoRoomAt;
    hide Holds;
    hide StillStands;
    hide Uncreatable;
    hide PathLeavesNoGap;
    hide Allowed;
    hide Afterwards;
    hide Explained;
    hide Took;
    ghost var heap0, nodes0, fat0, used0 := fs.heap, fs.nodes, fs.fat, fs.used;
    var r := Create(fs, p, parser);
    if r.Ok? {
      t := Turn(Done, fs.used, 0);
      MakeDone(fs, files, r.value, s, w, heap0, nodes0, fat0, used0, p, t);
      return Done, files + [r.value], t;
    }
    t := Turn(Failed(r.error), fs.used, 0);
    if r.error != Device {
      if r.error !in {NoSpace, UpcaseTableCorrupt, Corrupt} {
        RefusedEarly(fs.g, heap0, nodes0, used0, fs.upcaseValid, w.table, p, r.error);
      }
      if Inv(fs) { StoodServing(fs, files, s, w, heap0, nodes0, fat0, used0); }
      MakeRefused(w, heap0, nodes0, fat0, used0, files, s, p, t);
    }
    return Failed(r.error), files, t;
  }

  lemma MakeRefused(w: Ground, heap0: Heap, nodes0: Owners, fat0: seq<u32>, used0: set<nat>, files: seq<File>,
                    s: Session, p: Path, t: Turn)
    requires Served(w, heap0, nodes0, fat0, used0, files, s) && t.answer.Failed? && Took(used0, t.used, 2)
    requires if t.answer.error == NoSpace then
               NoRoomAt(w.g, heap0, nodes0, w.valid, w.table, p) && Full(w.g, t.used) && Took(used0, t.used, 1)
             else Uncreatable(w.g, heap0, nodes0, w.valid, w.table, p, t.answer.error)
    ensures Allowed(w, s, MakeFile(p), t) && Afterwards(w, s, MakeFile(p), t) == s.(used := t.used)
    ensures Reaches(w, s, MakeFile(p), t, Stage(heap0, nodes0, used0, Root))
  {
    hide Listed;
    hide AllListed;
    hide Inhabited;
    hide NamesDistinct;
    hide NamesProper;
    hide Linked;
    hide TreeOf;
    hide Resolve;
    hide Uncreatable;
    hide Explained;
    hide Content;
    hide Took;
    hide Full;
    if t.answer.error == NoSpace {
      Explains(w, heap0, nodes0, p, PathNotFound);
      HomeIsFolder(w, heap0, nodes0, p);
    } else {
      UncreatableIs(w, heap0, nodes0, p, t.answer.error);
    }
  }

  /** A directory that lacks room is on the map. */
  lemma HomeIsFolder(w: Ground, heap: Heap, nodes: Owners, p: Path)
    requires Inhabited(heap, nodes) && AllListed(w.g, heap, nodes) && Listed(w.g, heap, nodes, Root)
    requires NoRoomAt(w.g, heap, nodes, w.valid, w.table, p)
    ensures InFolder(TreeOf(w.g, heap, nodes, w.valid, w.table), p)
  {
    hide Listed;
    hide Resolve;
    hide Inhabited;
    hide AllListed;
    hide TreeOf;
    hide EntryOf;
    hide Encoded;
    if |p| > 1 {
      var q := p[..|p| - 1];
      TreeAt(w.g, heap, nodes, w.valid, w.table, q);
      var home := Resolve(w.g, heap, nodes, w.valid, w.table, Root, q).value;
      FolderEntry(heap, nodes, home);
      ListedIsFolder(w.g, heap, nodes, home);
      ResolveJoin(w.g, heap, nodes, w.valid, w.table, Root, p, |q|);
    }
  }

  // ----- opening a file --------------------------------------------------------------------------------

  lemma OpenDone(fs: FileSystem, files: seq<File>, file: File, s: Session, w: Ground, p: Path, t: Turn)
    requires Serving(fs, files, s, w) && Holds(fs, file) && file.position == 0 && file !in files
    requires Resolve(w.g, fs.heap, fs.nodes, w.valid, w.table, Root, p) == Ok(file.id)
    requires t.answer == Done && t.used == fs.used
    ensures Serving(fs, files + [file], Afterwards(w, s, OpenFile(p), t), w) && Allowed(w, s, OpenFile(p), t)
  {
    hide FileSystem.Valid;
    hide OwnOk;
    hide TreeOk;
    hide Listed;
    hide AllListed;
    hide Inhabited;
    hide NamesDistinct;
    hide NamesProper;
    hide Content;
    hide TreeOf;
    hide Resolve;
    hide AtRest;
    hide SamePath;
    assert IsFile(fs.nodes, file.id);
    hide Holds;
    var g, valid, table := w.g, w.valid, w.table;
    TreeAt(g, fs.heap, fs.nodes, valid, table, p);
    FolderEntry(fs.heap, fs.nodes, file.id);
    var handles := Closed(valid, table, s.handles, p);
    forall i | 0 <= i < |files| && handles[i].Live?
      ensures Holds(fs, files[i]) && handles[i] == s.handles[i] && files[i].id != file.id
      ensures Resolve(g, fs.heap, fs.nodes, valid, table, Root, handles[i].path) == Ok(files[i].id)
    {
      assert LinkedAt(g, fs.heap, fs.nodes, fs.fat, valid, table, files[i], s.handles[i]);
      OtherFile(g, fs.heap, fs.nodes, fs.fat, valid, table, files, s.handles, p, i, file.id);
      RestHolds(fs, files[i]);
    }
    LinksKept(fs, files, s.handles, handles, table, fs.heap, fs.nodes, fs.fat);
    LinksMore(fs, files, handles, file, p, table);
    ServedStarts(fs, w, files + [file], Afterwards(w, s, OpenFile(p), t));
  }

  lemma RestHolds(fs: FileSystem, file: File)
    requires Inv(fs) && AtRest(fs.g, fs.nodes, fs.fat, file)
    ensures Holds(fs, file)
  {
    hide FileSystem.Valid;
    hide OwnOk;
    hide TreeOk;
    hide AtRest;
    hide Holds;
    KeptRefl(fs.nodes);
    HandleSurvives(fs, file, fs.nodes, fs.fat);
  }

  /** Open a file. */
  method ServeOpen(fs: FileSystem, parser: EntrySet, files: seq<File>, p: Path, ghost s: Session, ghost w: Ground)
    returns (a: Answer, files': seq<File>, ghost t: Turn)
    requires Serving(fs, files, s, w) && Idle(parser)
    modifies fs`clock, fs`scratch, parser
    ensures fs.Valid() && t.answer == a && Honest(fs.faulty, old(fs.clock), fs.clock, a == Failed(Device))
    ensures a != Failed(Device) ==> Settled(fs, files', w, s, OpenFile(p), t) && Idle(parser)
    ensures |files'| >= |files| && files'[..|files|] == files
    ensures forall i :: |files| <= i < |files'| ==> fresh(files'[i])
  {
    hide FileSystem.Valid;
    hide OwnOk;
    hide TreeOk;
    hide Listed;
    hide AllListed;
    hide Inhabited;
    hide NamesDistinct;
    hide NamesProper;
    hide Content;
    hide TreeOf;
    hide Resolve;
    hide Linked;
    hide Holds;
    hide Allowed;
    hide Afterwards;
    ghost var used := fs.used;
    var r := Open(fs, p, parser);
    if r.Ok? {
      t := Turn(Done, fs.used, 0);
      OpenDone(fs, files, r.value, s, w, p, t);
      return Done, files + [r.value], t;
    }
    t := Turn(Failed(r.error), fs.used, 0);
    if r.error != Device { OpenRefused(w, fs.heap, fs.nodes, fs.fat, fs.used, files, s, p, t); }
    return Failed(r.error), files, t;
  }

  lemma OpenRefused(w: Ground, heap: Heap, nodes: Owners, fat: seq<u32>, used: set<nat>, files: seq<File>, s: Session,
                    p: Path, t: Turn)
    requires Served(w, heap, nodes, fat, used, files, s) && t.answer.Failed? && t.used == used
    requires var to := Resolve(w.g, heap, nodes, w.valid, w.table, Root, p);
             || to == Err(t.answer.error)
             || (to.Ok? && to.value in nodes && nodes[to.value].isDir && t.answer.error == IsDirectory)
    ensures Allowed(w, s, OpenFile(p), t) && Afterwards(w, s, OpenFile(p), t) == s
  {
    hide Listed;
    hide AllListed;
    hide Inhabited;
    hide NamesDistinct;
    hide NamesProper;
    hide Linked;
    hide TreeOf;
    hide Resolve;
    hide Explained;
    hide EntryOf;
    hide Content;
    ResolveErrors(w.g, heap, nodes, w.valid, w.table, Root, p);
    TreeAt(w.g, heap, nodes, w.valid, w.table, p);
    var to := Resolve(w.g, heap, nodes, w.valid, w.table, Root, p);
    if to.Ok? {
      FolderEntry(heap, nodes, to.value);
    } else {
      Explains(w, heap, nodes, p, t.answer.error);
    }
  }

  // ----- deleting ------------------------------------------------------------------------------------

  lemma DeleteDone(fs: FileSystem, files: seq<File>, s: Session, w: Ground, heap0: Heap, nodes0: Owners,
                   fat0: seq<u32>, used0: set<nat>, p: Path, id: Id, t: Turn)
    requires Served(w, heap0, nodes0, fat0, used0, files, s) && w.g == fs.g && w.valid == fs.upcaseValid
    requires Inv(fs) && TableReady(fs) && Table(fs) == w.table && fs.nodes == nodes0 - {id}
    requires Contents(fs.heap, fs.nodes) == Contents(heap0, nodes0) - {id}
    requires Unreached(fs, heap0, nodes0, w.table, id) && forall j: nat :: Child(id, j) !in nodes0
    requires Resolve(w.g, heap0, nodes0, w.valid, w.table, Root, p) == Ok(id)
    requires t.answer == Done && t.used == fs.used && fs.used <= used0
    ensures Serving(fs, files, Afterwards(w, s, Delete(p), t), w) && Allowed(w, s, Delete(p), t)
  {
    hide FileSystem.Valid;
    hide OwnOk;
    hide TreeOk;
    hide Listed;
    hide AllListed;
    hide Inhabited;
    hide NamesDistinct;
    hide NamesProper;
    hide Content;
    hide TreeOf;
    hide Resolve;
    hide Contents;
    hide AtRest;
    hide SamePath;
    hide Holds;
    hide RootStands;
    hide NothingBelow;
    hide EntryOf;
    var g, valid, table := w.g, w.valid, w.table;
    InvInhabited(g, fs.heap, fs.nodes);
    WithoutTree(fs, heap0, nodes0, table, p, id);
    TreeAt(g, heap0, nodes0, valid, table, p);
    ChildlessIsLeaf(g, heap0, nodes0, valid, table, p, id);
    var handles := Closed(valid, table, s.handles, p);
    forall i | 0 <= i < |files| && handles[i].Live?
      ensures Holds(fs, files[i]) && handles[i] == s.handles[i]
      ensures Resolve(g, fs.heap, fs.nodes, valid, table, Root, handles[i].path) == Ok(files[i].id)
    {
      assert LinkedAt(g, heap0, nodes0, fat0, valid, table, files[i], s.handles[i]);
      OtherFile(g, heap0, nodes0, fat0, valid, table, files, s.handles, p, i, id);
      HandleOutlives(fs, files[i], nodes0, fat0, id);
    }
    LinksKept(fs, files, s.handles, handles, table, heap0, nodes0, fat0);
    ServedStarts(fs, w, files, Afterwards(w, s, Delete(p), t));
  }

  /** Remove a file or an empty directory. */
  method ServeDelete(fs: FileSystem, parser: EntrySet, files: seq<File>, p: Path, ghost s: Session, ghost w: Ground)
    returns (a: Answer, ghost t: Turn)
    requires Serving(fs, files, s, w) && Idle(parser)
    modifies fs`clock, fs`scratch, fs`disk, fs`fat, fs`heap, fs`used, fs`free, fs`nodes, parser
    ensures fs.Valid() && t.answer == a && Honest(fs.faulty, old(fs.clock), fs.clock, a == Failed(Device))
    ensures a != Failed(Device) ==> Settled(fs, files, w, s, Delete(p), t) && Idle(parser)
  {
    hide Failures;
    hide FileSystem.Valid;
    hide OwnOk;
    hide TreeOk;
    hide Listed;
    hide AllListed;
    hide Inhabited;
    hide NamesDistinct;
    hide NamesProper;
    hide Content;
    hide TreeOf;
    hide Resolve;
    hide Contents;
    hide Linked;
    hide Allowed;
    hide Afterwards;
    hide Unreached;
    hide ListHere;
    ghost var heap0, nodes0, fat0, used0 := fs.heap, fs.nodes, fs.fat, fs.used;
    SameStill(fs);
    var r;
    ghost var id;
    r, id := Remove(fs, p, parser);
    if r.Ok? {
      t := Turn(Done, fs.used, 0);
      RemovedContents(fs, nodes0, heap0, used0, id);
      DeleteDone(fs, files, s, w, heap0, nodes0, fat0, used0, p, id, t);
      return Done, t;
    }
    t := Turn(Failed(r.error), fs.used, 0);
    if r.error != Device {
      StoodServing(fs, files, s, w, heap0, nodes0, fat0, used0);
      DeleteRefused(w, heap0, nodes0, fat0, used0, files, s, p, id, t);
    }
    return Failed(r.error), t;
  }

  lemma RemovedContents(fs: FileSystem, nodes0: Owners, heap0: Heap, used0: set<nat>, id: Id)
    requires Removed(fs, nodes0, heap0, used0, id)
    ensures Contents(fs.heap, fs.nodes) == Contents(heap0, nodes0) - {id} && fs.used <= used0
  {
    hide Contents;
    hide Listed;
    hide Released;
  }

  lemma DeleteRefused(w: Ground, heap: Heap, nodes: Owners, fat: seq<u32>, used: set<nat>, files: seq<File>,
                      s: Session, p: Path, id: Id, t: Turn)
    requires Served(w, heap, nodes, fat, used, files, s) && t.answer.Failed? && t.used == used
    requires var to := Resolve(w.g, heap, nodes, w.valid, w.table, Root, p);
             || to == Err(t.answer.error)
             || (to == Ok(id) && t.answer.error == DirectoryNotEmpty && Listed(w.g, heap, nodes, id)
                 && ListHere(w.g, heap, nodes, id) != [])
    ensures Allowed(w, s, Delete(p), t) && Afterwards(w, s, Delete(p), t) == s
  {
    hide Listed;
    hide AllListed;
    hide Inhabited;
    hide NamesDistinct;
    hide NamesProper;
    hide Linked;
    hide TreeOf;
    hide Resolve;
    hide Explained;
    hide EntryOf;
    hide Content;
    hide ListHere;
    hide NothingBelow;
    ResolveErrors(w.g, heap, nodes, w.valid, w.table, Root, p);
    TreeAt(w.g, heap, nodes, w.valid, w.table, p);
    var to := Resolve(w.g, heap, nodes, w.valid, w.table, Root, p);
    if to.Ok? {
      ListedIsFolder(w.g, heap, nodes, id);
      if w.proper { OccupiedIsBranch(w, heap, nodes, p, id); }
    } else {
      Explains(w, heap, nodes, p, t.answer.error);
    }
  }

  // ----- making directories ----------------------------------------------------------------------------

  /** Handles and names once directories have been added. */
  lemma FoldersServing(fs: FileSystem, files: seq<File>, s: Session, w: Ground, heap0: Heap, nodes0: Owners,
                       fat0: seq<u32>, used0: set<nat>)
    requires Served(w, heap0, nodes0, fat0, used0, files, s) && w.g == fs.g && w.valid == fs.upcaseValid
    requires Inv(fs) && TableReady(fs) && Table(fs) == w.table && OwnersKept(nodes0, fs.nodes)
    requires PathsKept(w.g, heap0, nodes0, fs.heap, fs.nodes, w.valid, w.table)
    requires NamesKept(w.g, heap0, nodes0, fs.heap, fs.nodes, w.valid, w.table)
    ensures Listed(w.g, fs.heap, fs.nodes, Root)
    ensures var tree := TreeOf(w.g, fs.heap, fs.nodes, w.valid, w.table);
            Serving(fs, files, Session(tree, s.handles, fs.used), w)
  {
    hide FileSystem.Valid;
    hide OwnOk;
    hide TreeOk;
    hide Listed;
    hide AllListed;
    hide Inhabited;
    hide NamesDistinct;
    hide NamesProper;
    hide Content;
    hide TreeOf;
    hide Resolve;
    hide AtRest;
    hide Holds;
    hide OwnersKept;
    hide PathsKept;
    RootListed(fs);
    var g, valid, table := w.g, w.valid, w.table;
    forall i | 0 <= i < |files| && s.handles[i].Live?
      ensures Holds(fs, files[i])
      ensures Resolve(g, fs.heap, fs.nodes, valid, table, Root, s.handles[i].path) == Ok(files[i].id)
    {
      assert LinkedAt(g, heap0, nodes0, fat0, valid, table, files[i], s.handles[i]);
      HandleSurvives(fs, files[i], nodes0, fat0);
      KeptPath(g, heap0, nodes0, fs.heap, fs.nodes, valid, table, s.handles[i].path);
    }
    LinksKept(fs, files, s.handles, s.handles, table, heap0, nodes0, fat0);
    ServedStarts(fs, w, files, Session(TreeOf(g, fs.heap, fs.nodes, valid, table), s.handles, fs.used));
  }

  lemma FoldersDone(fs: FileSystem, files: seq<File>, s: Session, w: Ground, a: Stage, fat0: seq<u32>,
                    stages: seq<Stage>, id: Id, p: Path, t: Turn)
    requires Served(w, a.heap, a.nodes, fat0, a.used, files, s) && w.g == fs.g && w.valid == fs.upcaseValid
    requires Inv(fs) && TableReady(fs) && p != [] && t.answer == Done && t.used == fs.used
    requires Climbed(w.g, w.valid, w.table, a, stages, Stage(fs.heap, fs.nodes, fs.used, id), p)
    ensures Serving(fs, files, Afterwards(w, s, MakeFolders(p), t), w) && Allowed(w, s, MakeFolders(p), t)
  {
    hide FileSystem.Valid;
    hide OwnOk;
    hide TreeOk;
    hide Listed;
    hide AllListed;
    hide Inhabited;
    hide NamesDistinct;
    hide NamesProper;
    hide Content;
    hide TreeOf;
    hide Resolve;
    hide Linked;
    hide Climbed;
    hide WithFolders;
    hide Beginning;
    hide Along;
    hide Laid;
    hide PathsKept;
    hide NamesKept;
    hide Took;
    var b := Stage(fs.heap, fs.nodes, fs.used, id);
    InvInhabited(fs.g, fs.heap, fs.nodes);
    ClimbedParts(w.g, w.valid, w.table, a, stages, b, p);
    AlongKeeps(w.g, w.valid, b.heap, b.nodes, a.heap, a.nodes, w.table, p, b.id);
    ClimbedTree(w.g, w.valid, w.table, a, stages, b, p);
    FoldersServing(fs, files, s, w, a.heap, a.nodes, fat0, a.used);
    assert p[..|p|] == p;
  }

  /** A refused walk: the directories before the name that barred the way are
      made. */
  lemma FoldersHalted(fs: FileSystem, files: seq<File>, s: Session, w: Ground, a: Stage, fat0: seq<u32>,
                      stages: seq<Stage>, at: Stage, p: Path, t: Turn)
    requires Served(w, a.heap, a.nodes, fat0, a.used, files, s) && w.g == fs.g && w.valid == fs.upcaseValid
    requires fs.Valid() && t.answer.Failed? && t.used == fs.used && t.made < |p|
    requires Climbed(w.g, w.valid, w.table, a, stages, at, p[..t.made])
    requires Halted(fs, w.table, at, p[t.made], t.answer.error)
    ensures Inv(fs) ==> Serving(fs, files, Afterwards(w, s, MakeFolders(p), t), w)
    ensures Allowed(w, s, MakeFolders(p), t)
    ensures Reaches(w, s, MakeFolders(p), t, at) && (Inv(fs) <==> NoGapAt(w, MakeFolders(p), t, at))
  {
    hide FileSystem.Valid;
    hide OwnOk;
    hide TreeOk;
    hide Listed;
    hide AllListed;
    hide Inhabited;
    hide NamesDistinct;
    hide NamesProper;
    hide Content;
    hide TreeOf;
    hide Resolve;
    hide TreeBut;
    hide Linked;
    hide Climbed;
    hide Halted;
    hide WithFolders;
    hide Along;
    hide Laid;
    hide PathsKept;
    hide NamesKept;
    hide LeavesNoGap;
    hide Barrier;
    hide Took;
    hide Full;
    var n, e := t.made, t.answer.error;
    HaltedTree(fs, w, a, stages, at, p, n, e);
    ClimbedParts(w.g, w.valid, w.table, a, stages, at, p[..n]);
    HaltedSpends(fs, w.table, at, p[n], e);
    TookTrans(a.used, at.used, fs.used, 3 * n, 3);
    AlongKeeps(w.g, w.valid, at.heap, at.nodes, a.heap, a.nodes, w.table, p[..n], at.id);
    if Inv(fs) {
      HaltedPaths(fs, w.table, at, p[n], e);
      PathsKeptTrans(w.g, a.heap, a.nodes, at.heap, at.nodes, fs.heap, fs.nodes, w.valid, w.table);
      NamesKeptTrans(w.g, a.heap, a.nodes, at.heap, at.nodes, fs.heap, fs.nodes, w.valid, w.table);
      KeptTrans(a.nodes, at.nodes, fs.nodes);
      FoldersServing(fs, files, s, w, a.heap, a.nodes, fat0, a.used);
    }
  }

  lemma HaltedSpends(fs: FileSystem, table: seq<byte>, at: Stage, name: seq<Scalar>, e: Error)
    requires Halted(fs, table, at, name, e)
    ensures Took(at.used, fs.used, 3) && (e == NoSpace ==> Full(fs.g, fs.used))
    ensures Inv(fs) <==> LeavesNoGap(fs.g, at.heap, at.nodes, at.used, fs.upcaseValid, table, at.id, name)
  {
    hide Inv;
    hide InvBut;
    hide StillStands;
    hide LeavesNoGap;
    hide Wanting;
    hide Barred;
    hide Took;
    hide Full;
    hide AllListed;
    hide Inhabited;
  }

  /** Everything stands as at the last stage. */
  lemma HaltedPaths(fs: FileSystem, table: seq<byte>, at: Stage, name: seq<Scalar>, e: Error)
    requires Halted(fs, table, at, name, e) && Inv(fs) && Listed(fs.g, at.heap, at.nodes, Root)
    requires UpcaseFile in at.nodes && !at.nodes[UpcaseFile].isDir && Content(at.heap, at.nodes[UpcaseFile]) == table
    ensures UpcaseFile in fs.nodes && Table(fs) == table && TableReady(fs) && OwnersKept(at.nodes, fs.nodes)
    ensures Listed(fs.g, fs.heap, fs.nodes, Root)
    ensures NamesKept(fs.g, at.heap, at.nodes, fs.heap, fs.nodes, fs.upcaseValid, table)
    ensures PathsKept(fs.g, at.heap, at.nodes, fs.heap, fs.nodes, fs.upcaseValid, table)
    ensures TreeOf(fs.g, fs.heap, fs.nodes, fs.upcaseValid, table) ==
      TreeOf(fs.g, at.heap, at.nodes, fs.upcaseValid, table)
  {
    hide FileSystem.Valid;
    hide OwnOk;
    hide TreeOk;
    hide TreeBut;
    hide Listed;
    hide AllListed;
    hide Inhabited;
    hide Content;
    hide Contents;
    hide TreeOf;
    hide PathsKept;
    hide NamesKept;
    hide LeavesNoGap;
    hide Wanting;
    hide Barred;
    hide DirsStay;
    hide OwnersKept;
    StoodPaths(fs, table, at.heap, at.nodes);
  }

  lemma NamesKeptTrans(g: Geometry, heap0: Heap, nodes0: Owners, heap1: Heap, nodes1: Owners, heap2: Heap,
                       nodes2: Owners, valid: bool, table: seq<byte>)
    requires NamesKept(g, heap0, nodes0, heap1, nodes1, valid, table)
    requires NamesKept(g, heap1, nodes1, heap2, nodes2, valid, table)
    ensures NamesKept(g, heap0, nodes0, heap2, nodes2, valid, table)
  {
    hide NamesDistinct;
    hide NamesProper;
  }

  lemma NoFolders(w: Ground, s: Session, t: Turn)
    requires t.answer == Failed(InvalidPath) && t.used == s.used && t.made == 0
    ensures Afterwards(w, s, MakeFolders([]), t) == s && Allowed(w, s, MakeFolders([]), t)
  {
    var none: Path := [];
    assert none[..0] == none && WithFolders(w.valid, w.table, s.tree, none) == s.tree;
  }

  /** Make all directories along a path. */
  method ServeFolders(fs: FileSystem, parser: EntrySet, files: seq<File>, p: Path, ghost s: Session, ghost w: Ground)
    returns (a: Answer, ghost t: Turn)
    requires Serving(fs, files, s, w) && Idle(parser)
    modifies fs`clock, fs`scratch, fs`disk, fs`fat, fs`heap, fs`used, fs`free, fs`nodes, parser
    ensures fs.Valid() && t.answer == a && Honest(fs.faulty, old(fs.clock), fs.clock, a == Failed(Device))
    ensures a != Failed(Device) ==> Settled(fs, files, w, s, MakeFolders(p), t) && Idle(parser)
  {
    hide Failures;
    hide FileSystem.Valid;
    hide OwnOk;
    hide TreeOk;
    hide Listed;
    hide AllListed;
    hide Inhabited;
    hide NamesDistinct;
    hide NamesProper;
    hide Content;
    hide TreeOf;
    hide Resolve;
    hide TreeBut;
    hide Contents;
    hide Linked;
    hide Climbed;
    hide Halted;
    hide StillStands;
    hide Allowed;
    hide Afterwards;
    hide Reaches;
    hide NoGapAt;
    ghost var start, fat0 := Stage(fs.heap, fs.nodes, fs.used, Root), fs.fat;
    SameStill(fs);
    var r;
    ghost var id, stages;
    r, id, stages := CreateDirAll(fs, p, parser);
    if r.Ok? {
      t := Turn(Done, fs.used, 0);
      FoldersDone(fs, files, s, w, start, fat0, stages, id, p, t);
      return Done, t;
    }
    t := Turn(Failed(r.error), fs.used, if p == [] || stages == [] then 0 else |stages| - 1);
    if r.error != Device {
      if p == [] {
        StoodServing(fs, files, s, w, start.heap, start.nodes, fat0, start.used);
        NoFolders(w, s, t);
      } else {
        FoldersHalted(fs, files, s, w, start, fat0, stages, stages[t.made], p, t);
        EarlyHalt(fs, w, start, stages, stages[t.made], p, t);
      }
    }
    return Failed(r.error), t;
  }

  /** Other refusals come before room is looked for. */
  lemma EarlyHalt(fs: FileSystem, w: Ground, a: Stage, stages: seq<Stage>, at: Stage, p: Path, t: Turn)
    requires t.answer.Failed? && t.made < |p| && w.g == fs.g && w.valid == fs.upcaseValid
    requires Halted(fs, w.table, at, p[t.made], t.answer.error)
    ensures !Doubtful(MakeFolders(p), t.answer) ==> NoGapAt(w, MakeFolders(p), t, at)
  {
    hide Inv;
    hide InvBut;
    hide StillStands;
    hide Listed;
    hide Encoded;
    hide SlotNamed;
    hide SlotsIn;
    hide PlacesIn;
    hide HashOf;
    hide AllListed;
    hide Inhabited;
    EncodingErrors(p[t.made]);
  }

  // ----- calls on open files ----------------------------------------------------------------------------

  /** All live handles but number `h` are linked, and all are on different files. */
  ghost predicate OthersLinked(g: Geometry, heap: Heap, nodes: Owners, fat: seq<u32>, valid: bool, table: seq<byte>,
                               files: seq<File>, handles: seq<Handle>, h: nat)
    requires Listed(g, heap, nodes, Root)
    reads files
  {
    && h < |files| == |handles| && (forall i, j :: 0 <= i < j < |files| ==> files[i] != files[j])
    && (forall i :: 0 <= i < |files| && i != h && handles[i].Live? ==>
          LinkedAt(g, heap, nodes, fat, valid, table, files[i], handles[i]))
    && (forall i, j :: 0 <= i < j < |files| && handles[i].Live? && handles[j].Live? ==> files[i].id != files[j].id)
  }

  lemma UseLinks(fs: FileSystem, files: seq<File>, handles: seq<Handle>, h: nat, table: seq<byte>, heap0: Heap,
                 nodes0: Owners, fat0: seq<u32>)
    requires PathsKept(fs.g, heap0, nodes0, fs.heap, fs.nodes, fs.upcaseValid, table)
    requires OthersLinked(fs.g, heap0, nodes0, fat0, fs.upcaseValid, table, files, handles, h)
    requires Inv(fs) && handles[h].Live? && Holds(fs, files[h]) && IsFile(nodes0, files[h].id)
    requires OwnerReplaced(nodes0, fs.nodes, files[h].id)
    requires Resolve(fs.g, heap0, nodes0, fs.upcaseValid, table, Root, handles[h].path) == Ok(files[h].id)
    ensures Listed(fs.g, fs.heap, fs.nodes, Root)
    ensures Linked(fs.g, fs.heap, fs.nodes, fs.fat, fs.upcaseValid, table, files,
                   handles[h := Live(handles[h].path, files[h].position)])
  {
    hide FileSystem.Valid;
    hide OwnOk;
    hide TreeOk;
    hide Listed;
    hide Resolve;
    hide AtRest;
    hide Holds;
    hide PathsKept;
    hide OwnerReplaced;
    var handles' := handles[h := Live(handles[h].path, files[h].position)];
    forall i | 0 <= i < |files| && handles'[i].Live?
      ensures Listed(fs.g, fs.heap, fs.nodes, Root)
      ensures LinkedAt(fs.g, fs.heap, fs.nodes, fs.fat, fs.upcaseValid, table, files[i], handles'[i])
    {
      KeptPath(fs.g, heap0, nodes0, fs.heap, fs.nodes, fs.upcaseValid, table, handles[i].path);
      if i != h {
        assert LinkedAt(fs.g, heap0, nodes0, fat0, fs.upcaseValid, table, files[i], handles[i]);
        StillHolds(fs, files[i], nodes0, fat0, files[h].id);
      }
      HoldsAtRest(fs, files[i]);
    }
  }

  /** The map and its names after a call on the file at `p`. */
  lemma UseTree(fs: FileSystem, table: seq<byte>, heap0: Heap, nodes0: Owners, p: Path, id: Id, bytes: seq<byte>)
    requires Inv(fs) && DirsStay(heap0, nodes0, fs.heap, fs.nodes) && OwnerReplaced(nodes0, fs.nodes, id)
    requires Contents(fs.heap, fs.nodes) == Contents(heap0, nodes0)[id := bytes]
    requires IsFile(nodes0, id) && IsFile(fs.nodes, id) && id.Child?
    requires Listed(fs.g, heap0, nodes0, Root) && AllListed(fs.g, heap0, nodes0) && Inhabited(heap0, nodes0)
    requires UpcaseFile in nodes0 && !nodes0[UpcaseFile].isDir && Content(heap0, nodes0[UpcaseFile]) == table
    requires Resolve(fs.g, heap0, nodes0, fs.upcaseValid, table, Root, p) == Ok(id)
    ensures UpcaseFile in fs.nodes && Table(fs) == table && Listed(fs.g, fs.heap, fs.nodes, Root)
    ensures NamesKept(fs.g, heap0, nodes0, fs.heap, fs.nodes, fs.upcaseValid, table)
    ensures PathsKept(fs.g, heap0, nodes0, fs.heap, fs.nodes, fs.upcaseValid, table)
    ensures TreeOf(fs.g, fs.heap, fs.nodes, fs.upcaseValid, table) ==
      Put(fs.upcaseValid, table, TreeOf(fs.g, heap0, nodes0, fs.upcaseValid, table), p, Bytes(bytes))
  {
    hide FileSystem.Valid;
    hide OwnOk;
    hide TreeOk;
    hide Listed;
    hide AllListed;
    hide Inhabited;
    hide NamesDistinct;
    hide NamesProper;
    hide Content;
    hide Contents;
    hide TreeOf;
    hide Resolve;
    hide DirsStay;
    hide PathsKept;
    InvAllListed(fs);
    InvInhabited(fs.g, fs.heap, fs.nodes);
    RootListed(fs);
    UpcaseNotDirectory(fs.g, fs.fat, fs.used, fs.bm, fs.nodes);
    assert KindsKept(nodes0, fs.nodes);
    TableSame(heap0, nodes0, fs.heap, fs.nodes, id, bytes);
    StandPaths(fs.g, heap0, nodes0, fs.heap, fs.nodes, fs.upcaseValid, table);
    NamesStay(fs.g, heap0, nodes0, fs.heap, fs.nodes, fs.upcaseValid, table);
    KeptPath(fs.g, heap0, nodes0, fs.heap, fs.nodes, fs.upcaseValid, table, p);
    PutTree(fs.g, heap0, nodes0, fs.heap, fs.nodes, fs.upcaseValid, table, p, id, bytes);
  }

  /** What a live handle is on. */
  lemma UseReady(fs: FileSystem, files: seq<File>, s: Session, w: Ground, h: nat)
    requires Serving(fs, files, s, w) && h < |s.handles| && s.handles[h].Live?
    ensures h < |files| && Holds(fs, files[h]) && files[h].id in fs.nodes && IsFile(fs.nodes, files[h].id)
    ensures files[h].id.Child? && Usable(s, h) && DocBehind(s, h) == DocOf(fs, files[h])
    ensures Resolve(w.g, fs.heap, fs.nodes, w.valid, w.table, Root, s.handles[h].path) == Ok(files[h].id)
    ensures OthersLinked(w.g, fs.heap, fs.nodes, fs.fat, w.valid, w.table, files, s.handles, h)
    ensures Contents(fs.heap, fs.nodes) == Contents(fs.heap, fs.nodes)[files[h].id := DocOf(fs, files[h]).content]
    ensures OwnerReplaced(fs.nodes, fs.nodes, files[h].id)
  {
    hide FileSystem.Valid;
    hide OwnOk;
    hide TreeOk;
    hide Listed;
    hide AllListed;
    hide Inhabited;
    hide NamesDistinct;
    hide NamesProper;
    hide Content;
    hide TreeOf;
    hide Resolve;
    hide AtRest;
    assert LinkedAt(w.g, fs.heap, fs.nodes, fs.fat, w.valid, w.table, files[h], s.handles[h]);
    RestHolds(fs, files[h]);
    HoldsParts(fs, files[h]);
    TreeAt(w.g, fs.heap, fs.nodes, w.valid, w.table, s.handles[h].path);
    ContentsSame(fs.heap, fs.nodes, files[h].id);
    SameOwner(fs.nodes, files[h].id);
  }

  /** A read, a write, an append or a truncation on a live handle. */
  method ServeUse(fs: FileSystem, files: seq<File>, op: Op, ghost s: Session, ghost w: Ground)
    returns (a: Answer, ghost t: Turn)
    requires Serving(fs, files, s, w) && op.h < |s.handles| && s.handles[op.h].Live?
    modifies fs`clock, fs`scratch, fs`disk, fs`fat, fs`heap, fs`used, fs`free, fs`nodes, files
    ensures fs.Valid() && t.answer == a && Honest(fs.faulty, old(fs.clock), fs.clock, a == Failed(Device))
    ensures a != Failed(Device) ==> Settled(fs, files, w, s, Use(op), t)
  {
    hide Failures;
    hide FileSystem.Valid;
    hide OwnOk;
    hide TreeOk;
    hide Listed;
    hide AllListed;
    hide Inhabited;
    hide NamesDistinct;
    hide NamesProper;
    hide Content;
    hide TreeOf;
    hide Resolve;
    hide Contents;
    hide Linked;
    hide Holds;
    hide OnDoc;
    hide Usable;
    hide OwnerReplaced;
    hide DirsStay;
    hide TornRecord;
    hide Put;
    hide Spent;
    hide Short;
    hide Allowed;
    hide Afterwards;
    UseReady(fs, files, s, w, op.h);
    ghost var heap0, nodes0, fat0, used0, h, d := fs.heap, fs.nodes, fs.fat, fs.used, op.h, DocBehind(s, op.h);
    var file := files[op.h];
    ghost var id := file.id;
    var r;
    ghost var torn;
    r, torn := Call(fs, file, op);
    t := Turn(if r.Err? then Failed(r.error) else Replied(r.value), fs.used, 0);
    if r == Err(Device) { return Failed(Device), t; }
    assert OthersLinked(w.g, heap0, nodes0, fat0, w.valid, w.table, files, s.handles, h);
    assert id in fs.nodes by { HoldsParts(fs, file); }
    TableStays(fs, nodes0, file);
    UseDone(fs, files, s, w, heap0, nodes0, fat0, op, r, d, t);
    return if r.Err? then Failed(r.error) else Replied(r.value), t;
  }

  /** The session after a call that was answered, or refused for want of space. */
  lemma UseDone(fs: FileSystem, files: seq<File>, s: Session, w: Ground, heap0: Heap, nodes0: Owners,
                fat0: seq<u32>, op: Op, r: Result<Reply>, d: Doc, t: Turn)
    requires w.g == fs.g && w.valid == fs.upcaseValid
    requires Listed(w.g, heap0, nodes0, Root) && AllListed(w.g, heap0, nodes0) && Inhabited(heap0, nodes0)
    requires NamesDistinct(w.g, heap0, nodes0, w.valid, w.table)
    requires w.proper ==> NamesProper(w.g, heap0, nodes0, w.valid, w.table)
    requires UpcaseFile in nodes0 && !nodes0[UpcaseFile].isDir && Content(heap0, nodes0[UpcaseFile]) == w.table
    requires s.tree == TreeOf(w.g, heap0, nodes0, w.valid, w.table)
    requires OthersLinked(w.g, heap0, nodes0, fat0, w.valid, w.table, files, s.handles, op.h)
    requires op.h < |s.handles| == |files| && s.handles[op.h].Live? && Usable(s, op.h) && d == DocBehind(s, op.h)
    requires Inv(fs) && TableReady(fs) && Holds(fs, files[op.h])
    requires var file := files[op.h];
             && file.id in fs.nodes && IsFile(nodes0, file.id) && OwnerReplaced(nodes0, fs.nodes, file.id)
             && Resolve(w.g, heap0, nodes0, w.valid, w.table, Root, s.handles[op.h].path) == Ok(file.id)
             && DirsStay(heap0, nodes0, fs.heap, fs.nodes)
             && (if r.Ok? then
                   && (DocOf(fs, file), r.value) == OnDoc(d, op) && Spent(w.g, s.used, fs.used, op)
                   && Contents(fs.heap, fs.nodes) == Contents(heap0, nodes0)[file.id := DocOf(fs, file).content]
                 else
                   && r == Err(NoSpace) && op.DoAppend? && file.position == d.position && fs.nodes == nodes0
                   && Contents(fs.heap, fs.nodes) == Contents(heap0, nodes0)
                   && (|| Short(w.g, s.used, fs.used, |op.input|)
                       || (fs.used == s.used && |d.content| + |op.input| > U64_MAX)))
    requires t.answer == (if r.Ok? then Replied(r.value) else Failed(r.error)) && t.used == fs.used
    ensures Serving(fs, files, Afterwards(w, s, Use(op), t), w) && Allowed(w, s, Use(op), t)
  {
    hide FileSystem.Valid;
    hide OwnOk;
    hide TreeOk;
    hide Listed;
    hide AllListed;
    hide Inhabited;
    hide NamesDistinct;
    hide NamesProper;
    hide Content;
    hide TreeOf;
    hide Resolve;
    hide Contents;
    hide Linked;
    hide OthersLinked;
    hide OnDoc;
    hide OwnerReplaced;
    hide DirsStay;
    hide PathsKept;
    hide Put;
    hide Spent;
    hide Short;
    var file, h := files[op.h], op.h;
    assert IsFile(fs.nodes, file.id) && file.id.Child? by { HoldsParts(fs, file); }
    hide Holds;
    ContentsSame(fs.heap, fs.nodes, file.id);
    UseTree(fs, w.table, heap0, nodes0, s.handles[h].path, file.id, DocOf(fs, file).content);
    UseLinks(fs, files, s.handles, h, w.table, heap0, nodes0, fat0);
    UseRefused(fs, w.table, heap0, nodes0, s, h, file.position);
    ServedStarts(fs, w, files, Afterwards(w, s, Use(op), t));
  }

  /** A call that changed nothing. */
  lemma UseRefused(fs: FileSystem, table: seq<byte>, heap0: Heap, nodes0: Owners, s: Session, h: nat, position: nat)
    requires PathsKept(fs.g, heap0, nodes0, fs.heap, fs.nodes, fs.upcaseValid, table) && Inv(fs)
    requires Inhabited(heap0, nodes0) && Usable(s, h)
    ensures Listed(fs.g, heap0, nodes0, Root) && Listed(fs.g, fs.heap, fs.nodes, Root)
    ensures Contents(fs.heap, fs.nodes) == Contents(heap0, nodes0) && fs.nodes == nodes0 ==>
      TreeOf(fs.g, fs.heap, fs.nodes, fs.upcaseValid, table) == TreeOf(fs.g, heap0, nodes0, fs.upcaseValid, table)
    ensures position == DocBehind(s, h).position ==> s.handles[h := Live(s.handles[h].path, position)] == s.handles
  {
    hide FileSystem.Valid;
    hide OwnOk;
    hide TreeOk;
    hide Listed;
    hide Inhabited;
    hide Contents;
    hide TreeOf;
    hide PathsKept;
    PathsListed(fs.g, heap0, nodes0, fs.heap, fs.nodes, fs.upcaseValid, table);
    InvInhabited(fs.g, fs.heap, fs.nodes);
    if Contents(fs.heap, fs.nodes) == Contents(heap0, nodes0) && fs.nodes == nodes0 {
      SameTree(fs.g, heap0, nodes0, fs.heap, fs.nodes, fs.upcaseValid, table);
    }
  }

  // ----- histories -------------------------------------------------------------------------------------

  /** One call of any kind. */
  method Serve(fs: FileSystem, parser: EntrySet, files: seq<File>, request: Request, ghost s: Session,
               ghost w: Ground)
    returns (a: Answer, files': seq<File>, ghost t: Turn)
    requires Serving(fs, files, s, w) && Idle(parser)
    requires request.Use? ==> request.op.h < |s.handles| && s.handles[request.op.h].Live?
    modifies fs`clock, fs`scratch, fs`disk, fs`fat, fs`heap, fs`used, fs`free, fs`nodes, parser, files
    ensures fs.Valid() && t.answer == a && Honest(fs.faulty, old(fs.clock), fs.clock, a == Failed(Device))
    ensures a != Failed(Device) ==> Settled(fs, files', w, s, request, t) && Idle(parser)
    ensures |files'| >= |files| && files'[..|files|] == files
    ensures forall i :: |files| <= i < |files'| ==> fresh(files'[i])
  {
    hide FileSystem.Valid;
    hide Serving;
    hide Settled;
    files' := files;
    match request
    case MakeFile(p) => a, files', t := ServeMake(fs, parser, files, p, s, w);
    case MakeFolders(p) => a, t := ServeFolders(fs, parser, files, p, s, w);
    case Delete(p) => a, t := ServeDelete(fs, parser, files, p, s, w);
    case OpenFile(p) => a, files', t := ServeOpen(fs, parser, files, p, s, w);
    case Use(op) => a, t := ServeUse(fs, files, op, s, w);
  }

  lemma OutcomeMore(w: Ground, s: Session, requests: seq<Request>, turns: seq<Turn>, request: Request, t: Turn)
    requires |turns| == |requests| && AllAllowed(w, s, requests, turns)
    requires Allowed(w, Outcome(w, s, requests, turns), request, t)
    ensures AllAllowed(w, s, requests + [request], turns + [t])
    ensures Outcome(w, s, requests + [request], turns + [t]) ==
      Afterwards(w, Outcome(w, s, requests, turns), request, t)
  {
    hide Allowed;
    hide Afterwards;
    var n := |turns|;
    var now, all := requests + [request], turns + [t];
    assert now[..n] == requests && all[..n] == turns;
    forall k | 0 <= k < |now|
      ensures AllowedAt(w, s, now, all, k)
    {
      if k < n {
        assert now[..k] == requests[..k] && all[..k] == turns[..k];
        assert AllowedAt(w, s, requests, turns, k);
      }
    }
  }

  /** The answers of the turns, and requests that are the client's own. */
  ghost predicate Conversed(client: Client, requests: seq<Request>, answers: seq<Answer>, turns: seq<Turn>) {
    && |requests| == |answers| == |turns|
    && (forall n :: 0 <= n < |turns| ==> turns[n].answer == answers[n])
    && (forall n :: 0 <= n < |requests| ==> client(answers[..n]) == Some(requests[n]))
  }

  lemma ConversedMore(client: Client, requests: seq<Request>, answers: seq<Answer>, turns: seq<Turn>,
                      request: Request, t: Turn)
    requires Conversed(client, requests, answers, turns) && client(answers) == Some(request)
    ensures Conversed(client, requests + [request], answers + [t.answer], turns + [t])
  {
    var all := answers + [t.answer];
    forall n | 0 <= n <= |requests|
      ensures client(all[..n]) == Some((requests + [request])[n])
    {
      assert all[..n] == answers[..n];
      assert answers[..|requests|] == answers;
    }
  }

  /** How a history ends: the client is done; or a creation was refused where it may
      have left a gap; or the device failed. */
  datatype End = Finished | Paused | Broken

  /** The last answer is a doubtful refusal. */
  ghost predicate PausedAt(fs: FileSystem, files: seq<File>, w: Ground, s: Session, requests: seq<Request>,
                           turns: seq<Turn>)
    reads fs, files
  {
    && 0 < |requests| == |turns|
    && var n := |requests| - 1;
       && Doubtful(requests[n], turns[n].answer)
       && Settled(fs, files, w, Outcome(w, s, requests[..n], turns[..n]), requests[n], turns[n])
  }

  /** Serve a client for at most `steps` calls, in whatever order it makes, removes,
      opens, reads, writes, appends and truncates.  Every answer is one that the
      map from paths to bytes allows at that time, and the volume and the handles
      are at every time what the answered calls have made of the map.  A history
      that ends with a doubtful refusal can go on, in another run, exactly if the
      refusal has left no gap. */
  method Run(fs: FileSystem, parser: EntrySet, client: Client, steps: nat, files0: seq<File>, ghost s: Session,
             ghost w: Ground)
    returns (requests: seq<Request>, answers: seq<Answer>, files: seq<File>, end: End, ghost turns: seq<Turn>)
    requires Serving(fs, files0, s, w) && Idle(parser) && Careful(w, s, client, [], steps)
    modifies fs`clock, fs`scratch, fs`disk, fs`fat, fs`heap, fs`used, fs`free, fs`nodes, parser, files0
    ensures fs.Valid() && Conversed(client, requests, answers, turns) && |answers| <= steps
    ensures AllAllowed(w, s, requests, turns)
    ensures |files| >= |files0| && files[..|files0|] == files0
    ensures forall i :: |files0| <= i < |files| ==> fresh(files[i])
    ensures !end.Broken? ==> Idle(parser)
    ensures end.Finished? ==>
      (|answers| == steps || client(answers).None?) && Serving(fs, files, Outcome(w, s, requests, turns), w)
    ensures end.Paused? ==> PausedAt(fs, files, w, s, requests, turns)
    ensures end.Broken? ==> |answers| < steps && client(answers).Some?
    ensures Honest(fs.faulty, old(fs.clock), fs.clock, end.Broken?)
  {
    hide FileSystem.Valid;
    hide OwnOk;
    hide TreeOk;
    hide Serving;
    hide Settled;
    hide Afterwards;
    hide Allowed;
    hide AllAllowed;
    hide Careful;
    hide Outcome;
    hide Conversed;
    hide Doubtful;
    requests, answers, files, turns := [], [], files0, [];
    ghost var now := s;
    RunStarts(fs, files0, w, s, client);
    while |answers| < steps
      invariant Honest(fs.faulty, old(fs.clock), fs.clock, false)
      invariant |answers| <= steps && Idle(parser) && fs.Valid() && Conversed(client, requests, answers, turns)
      invariant |requests| == |answers| == |turns|
      invariant |files| >= |files0| && files[..|files0|] == files0
      invariant forall i :: |files0| <= i < |files| ==> fresh(files[i])
      invariant Serving(fs, files, now, w) && now == Outcome(w, s, requests, turns)
      invariant AllAllowed(w, s, requests, turns) && Careful(w, now, client, answers, steps - |answers|)
    {
      var choice := client(answers);
      if choice.None? { return requests, answers, files, Finished, turns; }
      var request := choice.value;
      CarefulNext(w, now, client, answers, steps - |answers|);
      var a, files', t := Serve(fs, parser, files, request, now, w);
      if a == Failed(Device) { return requests, answers, files, Broken, turns; }
      SettledParts(fs, files', w, now, request, t);
      OutcomeMore(w, s, requests, turns, request, t);
      ConversedMore(client, requests, answers, turns, request, t);
      LastTurn(requests, turns, request, t);
      assert forall i :: 0 <= i < |files| ==> files'[i] == files'[..|files|][i];
      assert files'[..|files0|] == files[..|files0|];
      requests, answers, files, turns := requests + [request], answers + [a], files', turns + [t];
      if Doubtful(request, a) { return requests, answers, files, Paused, turns; }
      now := Afterwards(w, now, request, t);
    }
    return requests, answers, files, Finished, turns;
  }

  lemma RunStarts(fs: FileSystem, files: seq<File>, w: Ground, s: Session, client: Client)
    requires Serving(fs, files, s, w)
    ensures fs.Valid() && Conversed(client, [], [], []) && AllAllowed(w, s, [], []) && Outcome(w, s, [], []) == s
    ensures files[..|files|] == files
  {
    hide FileSystem.Valid;
    hide Served;
  }

  lemma LastTurn(requests: seq<Request>, turns: seq<Turn>, request: Request, t: Turn)
    requires |requests| == |turns|
    ensures (requests + [request])[..|requests|] == requests && (turns + [t])[..|requests|] == turns
  {
  }

  lemma CarefulNext(w: Ground, s: Session, client: Client, answers: seq<Answer>, left: nat)
    requires Careful(w, s, client, answers, left) && left > 0 && client(answers).Some?
    ensures var request := client(answers).value;
            && (request.Use? ==> request.op.h < |s.handles| && s.handles[request.op.h].Live?)
            && forall t :: Allowed(w, s, request, t) && !Doubtful(request, t.answer) ==>
                 Careful(w, Afterwards(w, s, request, t), client, answers + [t.answer], left - 1)
  {
    hide Allowed;
    hide Afterwards;
    hide Doubtful;
  }

  lemma SettledParts(fs: FileSystem, files: seq<File>, w: Ground, s: Session, request: Request, t: Turn)
    requires Settled(fs, files, w, s, request, t)
    ensures Allowed(w, s, request, t)
    ensures !Doubtful(request, t.answer) ==> Serving(fs, files, Afterwards(w, s, request, t), w)
  {
    hide Inv;
    hide Serving;
    hide Allowed;
    hide Afterwards;
    hide Reaches;
    hide NoGapAt;
    hide Doubtful;
  }
}
