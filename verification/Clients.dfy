/** What histories come to: paths that no call names, calls that cannot be refused,
    clients that call no dead handle, and where histories start. */
module Clients {
  import opened Words
  import opened Errors
  import opened Geometry
  import opened Views
  import opened Volume
  import opened Files
  import opened EntrySets
  import opened Tree
  import opened Growth
  import opened Meaning
  import opened Listings
  import opened Sessions
  import opened Upcase
  import opened Scanning
  import opened Names
  import opened Paths
  import opened Resolution
  import opened PathCreation
  import opened Catalog
  import opened Formatting
  import opened Fresh
  import opened Histories

  // ----- what no history changes -----------------------------------------------------------------------

  /** The request is made on this path, however it is spelled. */
  ghost predicate OnPath(valid: bool, table: seq<byte>, request: Request, q: Path) {
    match request
    case MakeFile(p) => SamePath(valid, table, p, q)
    case MakeFolders(p) => false
    case Delete(p) => SamePath(valid, table, p, q)
    case OpenFile(p) => SamePath(valid, table, p, q)
    case Use(_) => false
  }

  ghost predicate NoneOn(valid: bool, table: seq<byte>, s: Session, q: Path) {
    forall i :: 0 <= i < |s.handles| && s.handles[i].Live? ==> !SamePath(valid, table, s.handles[i].path, q)
  }

  /** A path that is never made, deleted or opened leads throughout to what it led
      to, with the same bytes. */
  lemma {:induction false} Untouched(w: Ground, s: Session, requests: seq<Request>, turns: seq<Turn>, q: Path)
    requires |requests| == |turns| && q in s.tree && NoneOn(w.valid, w.table, s, q)
    requires forall n :: 0 <= n < |requests| ==> !OnPath(w.valid, w.table, requests[n], q)
    ensures var s' := Outcome(w, s, requests, turns);
            q in s'.tree && s'.tree[q] == s.tree[q] && NoneOn(w.valid, w.table, s', q)
  {
    hide SamePath;
    hide OnDoc;
    hide Beginning;
    if requests != [] {
      var n := |requests| - 1;
      Untouched(w, s, requests[..n], turns[..n], q);
      StepUntouched(w, Outcome(w, s, requests[..n], turns[..n]), requests[n], turns[n], q);
    }
  }

  lemma StepUntouched(w: Ground, s: Session, request: Request, t: Turn, q: Path)
    requires q in s.tree && NoneOn(w.valid, w.table, s, q) && !OnPath(w.valid, w.table, request, q)
    ensures var s' := Afterwards(w, s, request, t);
            q in s'.tree && s'.tree[q] == s.tree[q] && NoneOn(w.valid, w.table, s', q)
  {
    hide SamePath;
    hide OnDoc;
    hide Beginning;
  }

  // ----- going on after a refusal --------------------------------------------------------------------

  /** A history that was paused can go on, with all that its calls have made,
      exactly if the refused creation has left no gap. */
  lemma PausedGoesOn(fs: FileSystem, files: seq<File>, w: Ground, s: Session, requests: seq<Request>,
                     turns: seq<Turn>)
    requires PausedAt(fs, files, w, s, requests, turns)
    ensures var n := |requests| - 1;
            exists at: Stage ::
              && Reaches(w, Outcome(w, s, requests[..n], turns[..n]), requests[n], turns[n], at)
              && (Serving(fs, files, Outcome(w, s, requests, turns), w) <==> NoGapAt(w, requests[n], turns[n], at))
  {
    hide FileSystem.Valid;
    hide OwnOk;
    hide TreeOk;
    hide Served;
    hide Afterwards;
    hide Allowed;
    hide Reaches;
    hide NoGapAt;
    hide Doubtful;
    var n := |requests| - 1;
    var before := Outcome(w, s, requests[..n], turns[..n]);
    var at :| Reaches(w, before, requests[n], turns[n], at) && (Inv(fs) <==> NoGapAt(w, requests[n], turns[n], at));
  }

  // ----- what cannot be refused ------------------------------------------------------------------------

  /** Every name of the path is one, not too long, and can be hashed. */
  ghost predicate Plain(w: Ground, p: Path) {
    forall n :: 0 <= n < |p| ==>
      IsName(p[n]) && UnitCount(p[n]) <= 255 && HashOf(w.valid, w.table, Utf16(p[n])).Ok?
  }

  lemma PlainEncoded(w: Ground, p: Path)
    requires Plain(w, p)
    ensures forall n :: 0 <= n < |p| ==>
      Encoded(p[n]).Ok? && HashOf(w.valid, w.table, Encoded(p[n]).value).Ok?
  {
    hide IsName;
    hide UnitCount;
    hide HashOf;
    forall n | 0 <= n < |p|
      ensures Encoded(p[n]).Ok?
    {
      EncodedExactly(p[n]);
    }
  }

  /** Everything on the map is in directories on the map. */
  ghost predicate Nested(t: PathMap) {
    forall q: Path, n :: q in t && 0 < n < |q| ==> q[..n] in t && t[q[..n]] == Folder
  }

  /** The map of a served volume is nested. */
  lemma ServingNested(fs: FileSystem, files: seq<File>, s: Session, w: Ground)
    requires Serving(fs, files, s, w)
    ensures Nested(s.tree)
  {
    hide FileSystem.Valid;
    hide OwnOk;
    hide TreeOk;
    hide Listed;
    hide AllListed;
    hide Inhabited;
    hide NamesDistinct;
    hide NamesProper;
    hide Content;
    hide TreeOf;
    hide Linked;
    hide InFolder;
    forall q: Path, n | q in s.tree && 0 < n < |q|
      ensures q[..n] in s.tree && s.tree[q[..n]] == Folder
    {
      FrontFolder(w, fs.heap, fs.nodes, q, n);
    }
  }

  lemma FrontFolder(w: Ground, heap: Heap, nodes: Owners, q: Path, n: nat)
    requires Listed(w.g, heap, nodes, Root) && Inhabited(heap, nodes) && AllListed(w.g, heap, nodes)
    requires q in TreeOf(w.g, heap, nodes, w.valid, w.table) && 0 < n < |q|
    ensures var t := TreeOf(w.g, heap, nodes, w.valid, w.table); q[..n] in t && t[q[..n]] == Folder
  {
    hide Listed;
    hide Resolve;
    hide Inhabited;
    hide AllListed;
    hide TreeOf;
    hide EntryOf;
    TreeAt(w.g, heap, nodes, w.valid, w.table, q);
    ResolveFront(w.g, heap, nodes, w.valid, w.table, Root, q, n);
    TreeAt(w.g, heap, nodes, w.valid, w.table, q[..n]);
    ListedIsFolder(w.g, heap, nodes, Resolve(w.g, heap, nodes, w.valid, w.table, Root, q[..n]).value);
  }

  /** The path can be made: its names are plain, its directory is there, and it is
      no directory itself. */
  ghost predicate Makable(w: Ground, t: PathMap, p: Path) {
    p != [] && Plain(w, p) && InFolder(t, p) && (p in t ==> t[p].Bytes?)
  }

  /** A path that can be made is made, when two clusters are free. */
  lemma MustMake(w: Ground, s: Session, p: Path, t: Turn, a: nat, b: nat)
    requires w.proper && Nested(s.tree) && Makable(w, s.tree, p) && Allowed(w, s, MakeFile(p), t)
    requires a != b && a !in s.used && b !in s.used && 2 <= a < w.g.clusterCount + 2 && 2 <= b < w.g.clusterCount + 2
    ensures t.answer == Done
  {
    hide HashOf;
    hide Encoded;
    hide IsName;
    hide UnitCount;
    PlainEncoded(w, p);
    if t.answer.Failed? {
      NoFileBefore(s.tree, p);
      if t.answer.error == NoSpace { TwoMissing(s.used, t.used, a, b); }
    }
  }

  lemma TwoMissing(used0: set<nat>, used: set<nat>, a: nat, b: nat)
    requires a != b && a !in used0 && b !in used0 && a in used && b in used
    ensures !Took(used0, used, 1)
  {
    SubsetSize({a, b}, used - used0);
  }

  /** A nested map has no file on the way to a directory on it. */
  lemma NoFileBefore(t: PathMap, p: Path)
    requires Nested(t) && InFolder(t, p)
    ensures forall n :: !FileAt(t, p, n)
  {
    forall n: nat
      ensures !FileAt(t, p, n)
    {
      if 0 < n < |p| - 1 { assert p[..|p| - 1][..n] == p[..n]; }
    }
  }

  /** A file that is there is opened. */
  lemma MustOpen(w: Ground, s: Session, p: Path, t: Turn)
    requires w.proper && Nested(s.tree) && Plain(w, p) && Allowed(w, s, OpenFile(p), t)
    requires p in s.tree && s.tree[p].Bytes?
    ensures t.answer == Done
  {
    hide HashOf;
    hide Encoded;
    hide IsName;
    hide UnitCount;
    PlainEncoded(w, p);
  }

  /** An append is done, and answered with its length, when the free clusters hold
      the input and the file does not become too long. */
  lemma MustAppend(w: Ground, s: Session, h: nat, input: seq<byte>, t: Turn, free: set<nat>)
    requires Allowed(w, s, Use(DoAppend(h, input)), t) && Usable(s, h)
    requires |DocBehind(s, h).content| + |input| <= U64_MAX
    requires forall c :: c in free ==> 2 <= c < w.g.clusterCount + 2 && c !in s.used
    requires |input| <= |free| * w.g.BytesPerCluster()
    ensures t.answer == Replied(Moved(|input|))
  {
    if t.answer.Failed? {
      SubsetSize(free, t.used - s.used);
      MulMonotone(|free|, |t.used - s.used|, w.g.BytesPerCluster());
    }
  }

  // ----- a client ------------------------------------------------------------------------------------

  /** Make a file and, once that is done, append to it through handle `h`. */
  function MakeThenAppend(h: nat, p: Path, input: seq<byte>): Client {
    (answers: seq<Answer>) =>
      if answers == [] then Some(MakeFile(p))
      else if answers == [Done] then Some(Use(DoAppend(h, input)))
      else None
  }

  /** It never calls a dead handle, whatever it is answered. */
  lemma AppenderIsCareful(w: Ground, s: Session, p: Path, input: seq<byte>, steps: nat)
    ensures Careful(w, s, MakeThenAppend(|s.handles|, p, input), [], steps)
  {
    hide Allowed;
    hide Put;
    hide OnDoc;
    hide SamePath;
    var client := MakeThenAppend(|s.handles|, p, input);
    if steps > 0 {
      forall t | Allowed(w, s, MakeFile(p), t) && !Doubtful(MakeFile(p), t.answer)
        ensures Careful(w, Afterwards(w, s, MakeFile(p), t), client, [] + [t.answer], steps - 1)
      {
        AppenderAfter(w, s, p, input, t, steps - 1);
      }
    }
  }

  lemma AppenderAfter(w: Ground, s: Session, p: Path, input: seq<byte>, t: Turn, left: nat)
    ensures Careful(w, Afterwards(w, s, MakeFile(p), t), MakeThenAppend(|s.handles|, p, input), [] + [t.answer], left)
  {
    hide Allowed;
    hide Put;
    hide OnDoc;
    hide SamePath;
    var client, s1 := MakeThenAppend(|s.handles|, p, input), Afterwards(w, s, MakeFile(p), t);
    assert [] + [t.answer] == [t.answer];
    if left > 0 && t.answer == Done {
      var append := Use(DoAppend(|s.handles|, input));
      forall t1 | Allowed(w, s1, append, t1) && !Doubtful(append, t1.answer)
        ensures Careful(w, Afterwards(w, s1, append, t1), client, [Done] + [t1.answer], left - 1)
      {
        assert client([Done] + [t1.answer]) == None;
      }
    }
  }

  /** When nothing stands in its way, the file has exactly the input afterwards. */
  lemma AppenderStores(w: Ground, s: Session, p: Path, input: seq<byte>, requests: seq<Request>,
                       answers: seq<Answer>, turns: seq<Turn>, free: set<nat>)
    requires w.proper && Nested(s.tree) && Makable(w, s.tree, p)
    requires Conversed(MakeThenAppend(|s.handles|, p, input), requests, answers, turns) && |answers| == 2
    requires AllAllowed(w, s, requests, turns) && |input| <= U64_MAX
    requires forall c :: c in free ==> 2 <= c < w.g.clusterCount + 2 && c !in s.used
    requires |free| >= 4 && |input| <= (|free| - 2) * w.g.BytesPerCluster()
    ensures answers == [Done, Replied(Moved(|input|))]
    ensures var s' := Outcome(w, s, requests, turns); p in s'.tree && s'.tree[p] == Bytes(input)
  {
    hide Allowed;
    hide Afterwards;
    hide Makable;
    hide Nested;
    hide OnDoc;
    var client, h := MakeThenAppend(|s.handles|, p, input), |s.handles|;
    var request, append := MakeFile(p), Use(DoAppend(h, input));
    assert answers[..0] == [] && requests[0] == request;
    TwoTurns(w, s, requests, turns);
    var a, b := TwoOf(free);
    MustMake(w, s, p, turns[0], a, b);
    assert answers[..1] == [Done] && requests[1] == append;
    var s1 := Afterwards(w, s, request, turns[0]);
    MadeHandle(w, s, p, turns[0]);
    FreeLeft(free, s.used, s1.used);
    MulMonotone(|free| - 2, |free - s1.used|, w.g.BytesPerCluster());
    MustAppend(w, s1, h, input, turns[1], free - s1.used);
    AppendedDoc(w, s1, h, p, input, turns[1]);
  }

  lemma TwoTurns(w: Ground, s: Session, requests: seq<Request>, turns: seq<Turn>)
    requires |requests| == |turns| == 2 && AllAllowed(w, s, requests, turns)
    ensures Allowed(w, s, requests[0], turns[0])
    ensures Allowed(w, Afterwards(w, s, requests[0], turns[0]), requests[1], turns[1])
    ensures Outcome(w, s, requests, turns) ==
      Afterwards(w, Afterwards(w, s, requests[0], turns[0]), requests[1], turns[1])
  {
    hide Allowed;
    hide Afterwards;
    assert AllowedAt(w, s, requests, turns, 0) && AllowedAt(w, s, requests, turns, 1);
    assert requests[..1][..0] == [] && turns[..1][..0] == [] && requests[..0] == [] && turns[..0] == [];
    assert requests[..1][0] == requests[0] && turns[..1][0] == turns[0];
  }

  lemma TwoOf(free: set<nat>) returns (a: nat, b: nat)
    requires |free| >= 2
    ensures a in free && b in free && a != b
  {
    a :| a in free;
    assert |free - {a}| >= 1;
    b :| b in free - {a};
  }

  /** The file is there and empty, and the new handle is on it. */
  lemma MadeHandle(w: Ground, s: Session, p: Path, t: Turn)
    requires Makable(w, s.tree, p) && Allowed(w, s, MakeFile(p), t) && t.answer == Done
    ensures var s1 := Afterwards(w, s, MakeFile(p), t);
            && |s1.handles| == |s.handles| + 1 && s1.handles[|s.handles|] == Live(p, 0)
            && Usable(s1, |s.handles|) && DocBehind(s1, |s.handles|) == Doc([], 0)
            && (s1.used <= s.used || Took(s.used, s1.used, 2))
            && SamePath(w.valid, w.table, p, p)
  {
    hide HashOf;
    hide Encoded;
    hide SameName;
    hide IsName;
    hide UnitCount;
    PlainEncoded(w, p);
    forall i | 0 <= i < |p|
      ensures SameStep(w.valid, w.table, p[i], p[i])
    {
      NameMatchesItself(w.valid, w.table, Encoded(p[i]).value);
    }
  }

  lemma FreeLeft(free: set<nat>, used0: set<nat>, used: set<nat>)
    requires (forall c :: c in free ==> c !in used0) && (used <= used0 || Took(used0, used, 2))
    ensures |free - used| + 2 >= |free|
  {
    assert free == (free - used) + (free * used);
    if used <= used0 {
      assert free * used == {};
    } else {
      SubsetSize(free * used, used - used0);
    }
  }

  lemma AppendedDoc(w: Ground, s: Session, h: nat, p: Path, input: seq<byte>, t: Turn)
    requires Usable(s, h) && DocBehind(s, h) == Doc([], 0) && s.handles[h].path == p && t.answer.Replied?
    requires SamePath(w.valid, w.table, p, p)
    ensures var s' := Afterwards(w, s, Use(DoAppend(h, input)), t); p in s'.tree && s'.tree[p] == Bytes(input)
  {
    hide SamePath;
    assert [] + input == input;
  }

  // ----- where histories start ---------------------------------------------------------------------------

  /** On any volume whose names are apart, with no handle open. */
  lemma HistoryStarts(fs: FileSystem)
    requires Inv(fs) && TableReady(fs) && Listed(fs.g, fs.heap, fs.nodes, Root)
    requires NamesDistinct(fs.g, fs.heap, fs.nodes, fs.upcaseValid, Table(fs))
    ensures var proper := NamesProper(fs.g, fs.heap, fs.nodes, fs.upcaseValid, Table(fs));
            var tree := TreeOf(fs.g, fs.heap, fs.nodes, fs.upcaseValid, Table(fs));
            Serving(fs, [], Session(tree, [], fs.used), Ground(fs.g, fs.upcaseValid, Table(fs), proper))
  {
    hide FileSystem.Valid;
    hide OwnOk;
    hide TreeOk;
    hide Listed;
    hide NamesDistinct;
    hide NamesProper;
    hide Content;
    hide TreeOf;
    var proper := NamesProper(fs.g, fs.heap, fs.nodes, fs.upcaseValid, Table(fs));
    var tree := TreeOf(fs.g, fs.heap, fs.nodes, fs.upcaseValid, Table(fs));
    ServedStarts(fs, Ground(fs.g, fs.upcaseValid, Table(fs), proper), [], Session(tree, [], fs.used));
  }

  /** On a volume whose root lists nothing the root is the only directory. */
  lemma {:induction false} RootAlone(fs: FileSystem, id: Id)
    requires Inv(fs) && Listed(fs.g, fs.heap, fs.nodes, Root) && id.Child?
    requires forall j :: 0 <= j < |SlotsIn(fs.g, fs.heap, fs.nodes, Root)| ==>
      SlotsIn(fs.g, fs.heap, fs.nodes, Root)[j][0] != 0x85
    ensures id !in fs.nodes
    decreases id
  {
    hide FileSystem.Valid;
    hide TreeOk;
    hide Scannable;
    hide Stored;
    hide RecordOk;
    hide NodeOk;
    if id in fs.nodes {
      InvListed(fs, Root);
      assert Child(id.dir, id.at) == id;
      if id.dir.Child? { RootAlone(fs, id.dir); }
    }
  }

  /** A formatted volume starts as the empty map; its names, there being none, are
      apart and all proper. */
  lemma FreshStarts(fs: FileSystem, p: Plan)
    requires IsFresh(fs, p)
    ensures UpcaseFile in fs.nodes
    ensures Serving(fs, [], Session(imap[], [], fs.used), Ground(fs.g, fs.upcaseValid, Table(fs), true))
  {
    hide FileSystem.Valid;
    hide OwnOk;
    hide TreeOk;
    hide Listed;
    hide Content;
    hide Contents;
    hide AsciiBytes;
    hide Resolve;
    hide ListHere;
    hide SlotsIn;
    hide Distinguished;
    hide AllProper;
    hide Serving;
    hide TreeOf;
    hide Plan.Reserved;
    RootStartsNone(fs);
    forall d | d in fs.nodes && fs.nodes[d].isDir
      ensures d == Root
    {
      OnlyRoot(fs, d);
    }
    NoneDistinguished(fs.upcaseValid, Table(fs), SlotsIn(fs.g, fs.heap, fs.nodes, Root));
    NoneImproper(fs.upcaseValid, Table(fs), SlotsIn(fs.g, fs.heap, fs.nodes, Root));
    RootEmptyMap(fs);
    HistoryStarts(fs);
  }

  lemma RootEmptyMap(fs: FileSystem)
    requires Listed(fs.g, fs.heap, fs.nodes, Root) && UpcaseFile in fs.nodes
    requires forall j :: 0 <= j < |SlotsIn(fs.g, fs.heap, fs.nodes, Root)| ==>
      SlotsIn(fs.g, fs.heap, fs.nodes, Root)[j][0] != 0x85
    ensures TreeOf(fs.g, fs.heap, fs.nodes, fs.upcaseValid, Table(fs)) == imap[]
  {
    hide Listed;
    hide Content;
    hide Resolve;
    hide SlotsIn;
    forall q: Path
      ensures q !in TreeOf(fs.g, fs.heap, fs.nodes, fs.upcaseValid, Table(fs))
    {
      EmptyEnds(fs.g, fs.heap, fs.nodes, fs.upcaseValid, Table(fs), Root, q);
    }
  }

  lemma RootStartsNone(fs: FileSystem)
    requires Inv(fs) && Listed(fs.g, fs.heap, fs.nodes, Root) && ListHere(fs.g, fs.heap, fs.nodes, Root) == []
    ensures forall j :: 0 <= j < |SlotsIn(fs.g, fs.heap, fs.nodes, Root)| ==>
      SlotsIn(fs.g, fs.heap, fs.nodes, Root)[j][0] != 0x85
  {
    hide FileSystem.Valid;
    hide OwnOk;
    hide TreeOk;
    hide Scannable;
    hide Stored;
    hide SlotsIn;
    NewStartsNone(fs.g, fs.heap, fs.nodes, Root);
  }

  lemma OnlyRoot(fs: FileSystem, d: Id)
    requires Inv(fs) && d in fs.nodes && fs.nodes[d].isDir && Listed(fs.g, fs.heap, fs.nodes, Root)
    requires forall j :: 0 <= j < |SlotsIn(fs.g, fs.heap, fs.nodes, Root)| ==>
      SlotsIn(fs.g, fs.heap, fs.nodes, Root)[j][0] != 0x85
    ensures d == Root
  {
    hide FileSystem.Valid;
    hide TreeOk;
    hide Listed;
    hide SlotsIn;
    hide NodeOk;
    if d.Child? { RootAlone(fs, d); }
  }

  lemma NoneDistinguished(valid: bool, table: seq<byte>, slots: seq<Slot>)
    requires Stored(slots) && forall j :: 0 <= j < |slots| ==> slots[j][0] != 0x85
    ensures Distinguished(valid, table, slots)
  {
    hide Stored;
    hide SameName;
  }

  // ----- from end to end -------------------------------------------------------------------------------

  /** No answer to the client's creation is doubtful. */
  lemma NoDoubt(w: Ground, s: Session, p: Path, t: Turn)
    requires w.proper && Plain(w, p) && Allowed(w, s, MakeFile(p), t)
    ensures !Doubtful(MakeFile(p), t.answer)
  {
    hide HashOf;
    hide Encoded;
    hide IsName;
    hide UnitCount;
    PlainEncoded(w, p);
  }

  /** Make a file on a volume just formatted and append to it.  Unless the device
      fails, the path leads to a file with exactly the input. */
  method StoreOnFresh(fs: FileSystem, parser: EntrySet, name: seq<Scalar>, input: seq<byte>, ghost plan: Plan,
                      ghost free: set<nat>)
    returns (stored: bool)
    requires IsFresh(fs, plan) && Idle(parser) && |input| <= U64_MAX
    requires name != [] && name != [0x2e] && name != [0x2e, 0x2e] && 0 !in name && 0x2f !in name && 0x5c !in name
    requires |name| + |set i: nat | i < |name| && name[i] >= 0x1_0000| <= 255 && 0xffff !in name
    requires forall c :: c in free ==> 2 <= c < fs.g.clusterCount + 2 && c !in fs.used
    requires |free| >= 4 && |input| <= (|free| - 2) * fs.g.BytesPerCluster()
    modifies fs`clock, fs`scratch, fs`disk, fs`fat, fs`heap, fs`used, fs`free, fs`nodes, parser
    ensures Honest(fs.faulty, old(fs.clock), fs.clock, !stored)
    ensures stored ==>
      && Inv(fs) && UpcaseFile in fs.nodes && Listed(fs.g, fs.heap, fs.nodes, Root)
      && var tree := TreeOf(fs.g, fs.heap, fs.nodes, fs.upcaseValid, Table(fs));
         [name] in tree && tree[[name]] == Bytes(input)
  {
    hide FileSystem.Valid;
    hide OwnOk;
    hide TreeOk;
    hide Listed;
    hide TreeOf;
    hide IsFresh;
    hide HashOf;
    hide Encoded;
    hide Content;
    hide Served;
    hide Careful;
    hide AllAllowed;
    hide Conversed;
    hide PausedAt;
    hide Makable;
    hide Nested;
    hide MakeThenAppend;
    FreshStarts(fs, plan);
    FreshNames(fs, plan, name);
    ghost var w, s := Ground(fs.g, fs.upcaseValid, Table(fs), true), Session(imap[], [], fs.used);
    ghost var p: Path := [name];
    assert Makable(w, s.tree, p) && Nested(s.tree) by { FreshMakable(w, s, name); }
    AppenderIsCareful(w, s, p, input, 2);
    var requests, answers, files, end;
    ghost var turns;
    requests, answers, files, end, turns := Histories.Run(fs, parser, MakeThenAppend(0, [name], input), 2, [], s, w);
    if end.Broken? { return false; }
    TwoFree(w, s, free);
    AppenderEnds(fs, files, w, s, p, input, requests, answers, turns, end);
    AppenderStores(w, s, p, input, requests, answers, turns, free);
    ServedTree(fs, files, Outcome(w, s, requests, turns), w);
    return true;
  }

  lemma TwoFree(w: Ground, s: Session, free: set<nat>)
    requires |free| >= 2 && forall c :: c in free ==> 2 <= c < w.g.clusterCount + 2 && c !in s.used
    ensures exists a, b ::
      a != b && a !in s.used && b !in s.used && 2 <= a < w.g.clusterCount + 2 && 2 <= b < w.g.clusterCount + 2
  {
    var a, b := TwoOf(free);
  }

  lemma FreshMakable(w: Ground, s: Session, name: seq<Scalar>)
    requires s.tree == imap[] && IsName(name) && UnitCount(name) <= 255
    requires Encoded(name).Ok? && HashOf(w.valid, w.table, Encoded(name).value).Ok?
    ensures Makable(w, s.tree, [name]) && Nested(s.tree)
  {
    hide HashOf;
  }

  lemma ServedTree(fs: FileSystem, files: seq<File>, s: Session, w: Ground)
    requires Serving(fs, files, s, w)
    ensures Inv(fs) && UpcaseFile in fs.nodes && Listed(fs.g, fs.heap, fs.nodes, Root)
    ensures s.tree == TreeOf(fs.g, fs.heap, fs.nodes, fs.upcaseValid, Table(fs))
  {
    hide FileSystem.Valid;
    hide OwnOk;
    hide TreeOk;
    hide Listed;
    hide AllListed;
    hide Inhabited;
    hide NamesDistinct;
    hide NamesProper;
    hide Content;
    hide TreeOf;
    hide Linked;
  }

  /** When nothing stands in its way the client makes both its calls. */
  lemma AppenderEnds(fs: FileSystem, files: seq<File>, w: Ground, s: Session, p: Path, input: seq<byte>,
                     requests: seq<Request>, answers: seq<Answer>, turns: seq<Turn>, end: End)
    requires w.proper && Nested(s.tree) && Makable(w, s.tree, p)
    requires Conversed(MakeThenAppend(|s.handles|, p, input), requests, answers, turns) && |answers| <= 2
    requires AllAllowed(w, s, requests, turns)
    requires exists a, b ::
      a != b && a !in s.used && b !in s.used && 2 <= a < w.g.clusterCount + 2 && 2 <= b < w.g.clusterCount + 2
    requires end.Finished? ==> |answers| == 2 || MakeThenAppend(|s.handles|, p, input)(answers).None?
    requires end.Paused? ==> PausedAt(fs, files, w, s, requests, turns)
    requires !end.Broken?
    ensures end.Finished? && |answers| == 2 && |requests| == |turns|
  {
    hide Allowed;
    hide Afterwards;
    hide Makable;
    hide Nested;
    hide Settled;
    var client := MakeThenAppend(|s.handles|, p, input);
    if |requests| > 0 {
      assert answers[..0] == [] && requests[0] == MakeFile(p);
      assert AllowedAt(w, s, requests, turns, 0);
      assert requests[..0] == [] && turns[..0] == [];
      assert Plain(w, p) by { MakablePlain(w, s.tree, p); }
      NoDoubt(w, s, p, turns[0]);
      var a, b :| a != b && a !in s.used && b !in s.used
        && 2 <= a < w.g.clusterCount + 2 && 2 <= b < w.g.clusterCount + 2;
      MustMake(w, s, p, turns[0], a, b);
      assert answers[..1] == [Done];
      if |requests| == 2 { assert !requests[1].MakeFile? && !requests[1].MakeFolders?; }
    }
  }

  lemma MakablePlain(w: Ground, t: PathMap, p: Path)
    requires Makable(w, t, p)
    ensures Plain(w, p)
  {
    hide Plain;
  }
}
