/** Any number of open files, any interleaving of reads, writes, appends and
    truncations: the volume refines an array of byte strings with positions. */
module Sessions {
  import opened Words
  import opened Errors
  import opened Geometry
  import opened Views
  import opened Volume
  import opened Extents
  import opened Files
  import opened Tree
  import opened SlotIo
  import opened Growth
  import opened Meaning
  import opened Standing
  import opened Commits
  import opened Appending
  import opened Truncation
  import opened Upcase

  lemma ContentOf(fs: FileSystem, file: File)
    requires Inv(fs) && Holds(fs, file)
    ensures file.id in fs.nodes && |Content(fs.heap, fs.nodes[file.id])| == file.validLength
    ensures file.validLength <= |BytesOf(fs, file)|
    ensures Content(fs.heap, fs.nodes[file.id]) == BytesOf(fs, file)[..file.validLength]
  {
    HoldsAhead(fs, file);
  }

  /** Sequential read: the bytes of the file's content from the position on. */
  method ReadFile(fs: FileSystem, file: File, length: nat) returns (r: Result<seq<byte>>)
    requires Inv(fs) && Holds(fs, file)
    modifies fs`clock, fs`scratch, file`cachedIndex, file`cachedCluster, file`position
    ensures Inv(fs) && Holds(fs, file)
    ensures 0 <= file.position - old(file.position) <= Transfer(old(file.State()), length)
    ensures r.Err? ==> r.error == Device
    ensures r.Ok? ==>
      var n, p, content := Transfer(old(file.State()), length), old(file.position), Content(fs.heap, fs.nodes[file.id]);
      && file.position == p + n
      && (if n == 0 then r.value == [] else p + n <= |content| && r.value == content[p..p + n])
    ensures Honest(fs.faulty, old(fs.clock), fs.clock, r == Err(Device))
  {
    hide FileSystem.Valid;
    hide OwnOk;
    hide TreeOk;
    hide Content;
    hide Shape;
    hide BytesOf;
    hide LocAt;
    HoldsParts(fs, file);
    ContentOf(fs, file);
    ghost var n, p, bytes := Transfer(file.State(), length), file.position, BytesOf(fs, file);
    SameBytes(fs, file);
    r := Read(fs, file, length);
    RestoreHolds(fs, file, fs.fat);
    SameBytes(fs, file);
    if r.Ok? && n > 0 { TakeSlice(bytes, file.validLength, p, n); }
  }

  lemma SameBytes(fs: FileSystem, file: File)
    requires fs.Valid() && Shape(fs.g, fs.fat, file.State(), file.ext)
    ensures (forall i :: 0 <= i < |file.ext| ==> file.ext[i] < |fs.heap|)
    ensures BytesOf(fs, file) == Flat(fs.heap, file.ext)
  {
    fs.Basics();
  }

  lemma TakeSlice(bytes: seq<byte>, valid: nat, p: nat, n: nat)
    requires p + n <= valid <= |bytes|
    ensures bytes[..valid][p..p + n] == bytes[p..p + n]
  {
  }

  lemma WrittenContents(heap: Heap, heap': Heap, nodes: Owners, id: Id)
    requires OthersKept(heap, heap', nodes, id) && IsFile(nodes, id)
    ensures Contents(heap', nodes) == Contents(heap, nodes)[id := Content(heap', nodes[id])]
  {
    forall f | IsFile(nodes, f) && f != id
      ensures Content(heap', nodes[f]) == Content(heap, nodes[f])
    {
      ContentFrame(heap, heap', nodes[f]);
    }
    assert Contents(heap', nodes).Keys == Contents(heap, nodes)[id := Content(heap', nodes[id])].Keys;
  }

  lemma OverwrittenFront(bytes: seq<byte>, before: seq<byte>, valid: nat, p: nat, input: seq<byte>, n: nat)
    requires Overwritten(bytes, before, p, input, n) && valid <= |before| && (n > 0 ==> p + n <= valid)
    ensures |bytes| == |before| && Overwritten(bytes[..valid], before[..valid], p, input, n)
  {
    if n > 0 {
      var a, b := Splice(before, p, input[..n])[..valid], Splice(before[..valid], p, input[..n]);
      assert |a| == |b| && forall k :: 0 <= k < |a| ==> a[k] == b[k];
    }
  }

  /** In-place write: the content is overwritten from the position on, as far as
      the position has moved, and nothing else changes its meaning. */
  method WriteFile(fs: FileSystem, file: File, input: seq<byte>) returns (r: Result<nat>)
    requires Inv(fs) && Holds(fs, file)
    modifies fs`clock, fs`scratch, fs`disk, fs`heap, file`cachedIndex, file`cachedCluster, file`position
    ensures Inv(fs) && Holds(fs, file)
    ensures r.Err? ==> r.error == Device
    ensures r.Ok? ==> r.value == Transfer(old(file.State()), |input|) == file.position - old(file.position)
    ensures 0 <= file.position - old(file.position) <= Transfer(old(file.State()), |input|)
    ensures Overwritten(Content(fs.heap, fs.nodes[file.id]), old(Content(fs.heap, fs.nodes[file.id])),
                        old(file.position), input, file.position - old(file.position))
    ensures Contents(fs.heap, fs.nodes)
            == old(Contents(fs.heap, fs.nodes))[file.id := Content(fs.heap, fs.nodes[file.id])]
    ensures DirsStay(old(fs.heap), old(fs.nodes), fs.heap, fs.nodes)
    ensures Honest(fs.faulty, old(fs.clock), fs.clock, r == Err(Device))
  {
    hide FileSystem.Valid;
    hide OwnOk;
    hide TreeOk;
    hide Content;
    hide Contents;
    hide Shape;
    hide Ahead;
    hide BytesOf;
    hide Overwritten;
    hide LocAt;
    hide DirsStay;
    HoldsParts(fs, file);
    ContentOf(fs, file);
    WriteReady(fs, file);
    ghost var heap, nodes, id, s, ext, p := fs.heap, fs.nodes, file.id, file.State(), file.ext, file.position;
    ghost var before := BytesOf(fs, file);
    r := Write(fs, file, input);
    RestoreHolds(fs, file, fs.fat);
    WriteKept(fs, heap, id, s, ext);
    ContentOf(fs, file);
    OverwrittenFront(BytesOf(fs, file), before, file.validLength, p, input, file.position - p);
  }

  lemma WriteReady(fs: FileSystem, file: File)
    requires Inv(fs) && Holds(fs, file)
    ensures forall i :: 0 <= i < |file.ext| ==> file.ext[i] !in fs.bm
    ensures BitmapFile in fs.nodes && !fs.nodes[BitmapFile].isDir
  {
    HoldsParts(fs, file);
    forall i | 0 <= i < |file.ext| ensures file.ext[i] !in fs.bm {
      NotInBitmapOf(fs, file.id, file.State(), file.ext, i);
    }
  }

  lemma WriteKept(fs: FileSystem, heap: Heap, id: Id, s: FileState, ext: seq<nat>)
    requires fs.Valid() && TreeOk(fs.g, heap, fs.nodes) && Ahead(fs.used, fs.nodes, id, s, ext) && IsFile(fs.nodes, id)
    requires BitmapFile in fs.nodes && !fs.nodes[BitmapFile].isDir
    requires |fs.heap| == |heap| && forall c :: 0 <= c < |fs.heap| && c !in ext ==> fs.heap[c] == heap[c]
    ensures TreeOk(fs.g, fs.heap, fs.nodes)
    ensures Contents(fs.heap, fs.nodes) == Contents(heap, fs.nodes)[id := Content(fs.heap, fs.nodes[id])]
    ensures DirsStay(heap, fs.nodes, fs.heap, fs.nodes)
  {
    hide FileSystem.Valid;
    hide TreeOk;
    hide TreeRecords;
    hide Contents;
    hide Content;
    hide DirsStay;
    fs.Basics();
    ElsewhereKeeps(heap, fs.heap, fs.used, fs.nodes, id, s, ext);
    KeptTree(fs.g, heap, fs.heap, fs.nodes, id);
    WrittenContents(heap, fs.heap, fs.nodes, id);
    OthersKeepDirs(heap, fs.heap, fs.nodes, id);
    OkRecords(fs.g, heap, fs.nodes);
    KeptStays(fs.g, heap, fs.heap, fs.nodes);
  }

  // ----- the specification ----------------------------------------------------------------

  /** One call on the handle number `h`. */
  datatype Op =
    | DoRead(h: nat, length: nat)
    | DoWrite(h: nat, input: seq<byte>)
    | DoAppend(h: nat, input: seq<byte>)
    | DoTruncate(h: nat, len: nat)

  datatype Reply = Data(bytes: seq<byte>) | Moved(count: nat) | Trimmed | Refused

  /** One file as its handle sees it: a byte string and a position in it. */
  datatype Doc = Doc(content: seq<byte>, position: nat)

  /** Bytes a transfer of up to `n` bytes can move. */
  function Room(d: Doc, n: nat): (k: nat)
    ensures k > 0 ==> d.position + k <= |d.content|
  {
    if d.position >= |d.content| then 0 else Min(n, |d.content| - d.position)
  }

  /** What one call means for the file it is made on. */
  function OnDoc(d: Doc, op: Op): (Doc, Reply) {
    match op
    case DoRead(_, length) =>
      var k := Room(d, length);
      (Doc(d.content, d.position + k), Data(if k == 0 then [] else d.content[d.position..d.position + k]))
    case DoWrite(_, input) =>
      var k := Room(d, |input|);
      (Doc(if k == 0 then d.content else Splice(d.content, d.position, input[..k]), d.position + k), Moved(k))
    case DoAppend(_, input) =>
      (if input == [] then d else Doc(d.content + input, |d.content + input|), Moved(|input|))
    case DoTruncate(_, len) =>
      if len > |d.content| then (d, Refused) else (Doc(d.content[..len], Min(d.position, len)), Trimmed)
  }

  /** How much a transfer asks for, and the same transfer cut down to `n` bytes. */
  function Size(op: Op): nat {
    match op
    case DoRead(_, length) => length
    case DoWrite(_, input) => |input|
    case _ => 0
  }

  function Shorter(op: Op, n: nat): (s: Op)
    requires n <= Size(op)
    ensures s.h == op.h
  {
    match op
    case DoRead(h, _) => DoRead(h, n)
    case DoWrite(h, input) => DoWrite(h, input[..n])
    case _ => op
  }

  /** Every file's bytes, and the position of every handle. */
  datatype World = World(contents: map<Id, seq<byte>>, positions: seq<nat>)

  ghost predicate Fitting(w: World, ids: seq<Id>) {
    && |w.positions| == |ids|
    && (forall i :: 0 <= i < |ids| ==> ids[i] in w.contents)
    && (forall i, j :: 0 <= i < j < |ids| ==> ids[i] != ids[j])
  }

  function DocAt(w: World, ids: seq<Id>, h: nat): Doc
    requires h < |ids| == |w.positions| && ids[h] in w.contents
  {
    Doc(w.contents[ids[h]], w.positions[h])
  }

  /** One call: its own file changes as `OnDoc` says, nothing else does. */
  function Step(w: World, ids: seq<Id>, op: Op): (World, Reply)
    requires op.h < |ids| == |w.positions| && ids[op.h] in w.contents
  {
    var (d, reply) := OnDoc(DocAt(w, ids, op.h), op);
    (World(w.contents[ids[op.h] := d.content], w.positions[op.h := d.position]), reply)
  }

  /** A transfer that failed has done a shorter one. */
  ghost predicate PartWay(w: World, w': World, ids: seq<Id>, op: Op)
    requires op.h < |ids| == |w.positions| && ids[op.h] in w.contents
  {
    exists n: nat :: n <= Size(op) && w' == Step(w, ids, Shorter(op, n)).0
  }

  ghost predicate Calls(script: seq<Op>, handles: nat) {
    forall k :: 0 <= k < |script| ==> script[k].h < handles
  }

  /** A whole script, call after call. */
  ghost function Replay(w: World, ids: seq<Id>, script: seq<Op>): (r: (World, seq<Reply>))
    requires Fitting(w, ids) && Calls(script, |ids|)
    ensures Fitting(r.0, ids) && |r.1| == |script|
  {
    if script == [] then (w, [])
    else
      var n := |script| - 1;
      var before := Replay(w, ids, script[..n]);
      var (after, reply) := Step(before.0, ids, script[n]);
      (after, before.1 + [reply])
  }

  /** The calls of a script that are made on handle `h`. */
  function Only(script: seq<Op>, h: nat): seq<Op> {
    if script == [] then []
    else
      var n := |script| - 1;
      if script[n].h == h then Only(script[..n], h) + [script[n]] else Only(script[..n], h)
  }

  function OnlyReplies(script: seq<Op>, replies: seq<Reply>, h: nat): seq<Reply>
    requires |script| == |replies|
  {
    if script == [] then []
    else
      var n := |script| - 1;
      if script[n].h == h then OnlyReplies(script[..n], replies[..n], h) + [replies[n]]
      else OnlyReplies(script[..n], replies[..n], h)
  }

  /** A script on one file alone. */
  function Alone(d: Doc, script: seq<Op>): (Doc, seq<Reply>) {
    if script == [] then (d, [])
    else
      var n := |script| - 1;
      var before := Alone(d, script[..n]);
      var (after, reply) := OnDoc(before.0, script[n]);
      (after, before.1 + [reply])
  }

  /** However the calls on several files are interleaved, each file and each
      handle end up, and each call answers, as if its calls had been made alone. */
  lemma {:induction false} Interleaving(w: World, ids: seq<Id>, script: seq<Op>, h: nat)
    requires Fitting(w, ids) && Calls(script, |ids|) && h < |ids|
    ensures var (after, replies) := Replay(w, ids, script);
            Alone(DocAt(w, ids, h), Only(script, h)) == (DocAt(after, ids, h), OnlyReplies(script, replies, h))
  {
    if script != [] {
      var n := |script| - 1;
      Interleaving(w, ids, script[..n], h);
      var replies := Replay(w, ids, script).1;
      assert replies[..n] == Replay(w, ids, script[..n]).1;
      var mine := Only(script[..n], h);
      assert (mine + [script[n]])[..|mine|] == mine;
    }
  }

  /** Files that no call is made on keep their bytes. */
  lemma {:induction false} Bystander(w: World, ids: seq<Id>, script: seq<Op>, id: Id)
    requires Fitting(w, ids) && Calls(script, |ids|) && id in w.contents
    requires forall k :: 0 <= k < |script| ==> ids[script[k].h] != id
    ensures id in Replay(w, ids, script).0.contents
    ensures Replay(w, ids, script).0.contents[id] == w.contents[id]
  {
    if script != [] {
      Bystander(w, ids, script[..|script| - 1], id);
    }
  }

  // ----- the refinement ---------------------------------------------------------------------

  ghost function Ids(files: seq<File>): (ids: seq<Id>)
    ensures |ids| == |files|
  {
    seq(|files|, i requires 0 <= i < |files| => files[i].id)
  }

  function Positions(files: seq<File>): (p: seq<nat>)
    reads files
    ensures |p| == |files| && forall i :: 0 <= i < |p| ==> p[i] == files[i].position
  {
    if files == [] then [] else Positions(files[..|files| - 1]) + [files[|files| - 1].position]
  }

  /** Several handles at rest, one per file. */
  ghost predicate Opened(fs: FileSystem, files: seq<File>)
    reads fs, files
  {
    && Inv(fs)
    && (forall i :: 0 <= i < |files| ==> Holds(fs, files[i]))
    && (forall i, j :: 0 <= i < j < |files| ==> files[i] != files[j] && files[i].id != files[j].id)
  }

  ghost function Seen(fs: FileSystem, files: seq<File>): World
    reads fs, files
  {
    World(Contents(fs.heap, fs.nodes), Positions(files))
  }

  lemma SeenFits(fs: FileSystem, files: seq<File>)
    requires Opened(fs, files)
    ensures Fitting(Seen(fs, files), Ids(files))
  {
    hide FileSystem.Valid;
    hide OwnOk;
    hide TreeOk;
    hide Shape;
    hide Content;
    hide Placed;
  }

  /** The file behind a handle, as the specification sees it. */
  ghost function DocOf(fs: FileSystem, file: File): Doc
    requires file.id in fs.nodes
    reads fs, file
  {
    Doc(Content(fs.heap, fs.nodes[file.id]), file.position)
  }

  /** What a call does to the owners: it replaces its file's record. */
  ghost predicate OwnerReplaced(nodes: Owners, nodes': Owners, id: Id) {
    id in nodes' && !nodes'[id].isDir && nodes' == nodes[id := nodes'[id]]
  }

  lemma CommittedReplaces(nodes: Owners, file: File)
    ensures OwnerReplaced(nodes, Committed(nodes, file), file.id)
  {
  }

  lemma SameOwner(nodes: Owners, id: Id)
    requires IsFile(nodes, id)
    ensures OwnerReplaced(nodes, nodes, id)
  {
  }

  lemma ContentsSame(heap: Heap, nodes: Owners, id: Id)
    requires IsFile(nodes, id)
    ensures id in Contents(heap, nodes) && Contents(heap, nodes)[id] == Content(heap, nodes[id])
    ensures Contents(heap, nodes) == Contents(heap, nodes)[id := Content(heap, nodes[id])]
  {
    hide Content;
  }

  lemma ReadOnDoc(d: Doc, h: nat, length: nat, out: seq<byte>, n: nat)
    requires n == Room(d, length) && (if n == 0 then out == [] else out == d.content[d.position..d.position + n])
    ensures OnDoc(d, DoRead(h, length)) == (Doc(d.content, d.position + n), Data(out))
  {
  }

  lemma WriteOnDoc(d: Doc, h: nat, input: seq<byte>, content: seq<byte>, n: nat)
    requires n == Room(d, |input|) && Overwritten(content, d.content, d.position, input, n)
    ensures OnDoc(d, DoWrite(h, input)) == (Doc(content, d.position + n), Moved(n))
  {
  }

  lemma OverwrittenPart(bytes: seq<byte>, before: seq<byte>, p: nat, input: seq<byte>, n: nat)
    requires n <= |input| && Overwritten(bytes, before, p, input, n)
    ensures Overwritten(bytes, before, p, input[..n], n)
  {
    assert input[..n][..n] == input[..n];
  }

  lemma AppendOnDoc(d: Doc, h: nat, input: seq<byte>, content: seq<byte>, position: nat)
    requires content == d.content + input && position == (if input == [] then d.position else |content|)
    ensures OnDoc(d, DoAppend(h, input)) == (Doc(content, position), Moved(|input|))
  {
    assert d.content + [] == d.content;
  }

  lemma TruncateOnDoc(d: Doc, h: nat, len: nat)
    ensures len > |d.content| ==> OnDoc(d, DoTruncate(h, len)) == (d, Refused)
    ensures len <= |d.content| ==>
      OnDoc(d, DoTruncate(h, len)) == (Doc(d.content[..len], Min(d.position, len)), Trimmed)
  {
  }

  /** The failures that leave an intact volume. */
  predicate Intact(op: Op, torn: bool) {
    op.DoRead? || op.DoWrite? || (op.DoAppend? && !torn)
  }

  /** The FAT chain of a linked file ends at its last cluster. */
  ghost predicate Capped(fat: seq<u32>, ext: seq<nat>, contiguous: bool) {
    !contiguous && ext != [] ==> ext[|ext| - 1] < |fat| && fat[ext[|ext| - 1]] == 0xffff_ffff
  }

  /** What a call does to FAT chains: other clusters' words stay, and the file's chain
      ends with it if it did before, or if the call has given clusters back. */
  ghost predicate Rechained(fat0: seq<u32>, used0: set<nat>, ext0: seq<nat>, contiguous0: bool, fat: seq<u32>,
                            ext: seq<nat>, contiguous: bool, truncates: bool) {
    && Elsewhere(fat0, fat, used0, ext0)
    && (Capped(fat0, ext0, contiguous0) || (truncates && |ext| < |ext0|) ==> Capped(fat, ext, contiguous))
  }

  lemma RechainedParts(fat0: seq<u32>, used0: set<nat>, ext0: seq<nat>, contiguous0: bool, fat: seq<u32>, ext: seq<nat>,
                       contiguous: bool, truncates: bool)
    requires Rechained(fat0, used0, ext0, contiguous0, fat, ext, contiguous, truncates)
    ensures Elsewhere(fat0, fat, used0, ext0)
    ensures Capped(fat0, ext0, contiguous0) || (truncates && |ext| < |ext0|) ==> Capped(fat, ext, contiguous)
  {
    hide Capped;
  }

  lemma RestChains(fat: seq<u32>, used: set<nat>, ext: seq<nat>, contiguous: bool)
    ensures forall truncates :: Rechained(fat, used, ext, contiguous, fat, ext, contiguous, truncates)
  {
  }

  lemma AppendChains(g: Geometry, fat0: seq<u32>, used0: set<nat>, ext0: seq<nat>, contiguous0: bool, fat: seq<u32>,
                     ext: seq<nat>, contiguous: bool)
    requires GrownFrom(g, fat0, used0, ext0, contiguous0, fat, ext, contiguous)
    ensures Rechained(fat0, used0, ext0, contiguous0, fat, ext, contiguous, false)
  {
    hide Elsewhere;
    hide NextIfFree;
  }

  lemma TruncateChains(fat0: seq<u32>, used0: set<nat>, ext0: seq<nat>, contiguous: bool, fat: seq<u32>, ext: seq<nat>)
    requires ext <= ext0 && if |ext| == |ext0| then fat == fat0 else ChainCut(fat0, fat, ext0, ext)
    ensures Rechained(fat0, used0, ext0, contiguous, fat, ext, contiguous, true)
  {
    if ext != [] { assert ext[|ext| - 1] == ext0[|ext| - 1]; }
  }

  /** Append, as the specification sees it. */
  method CallAppend(fs: FileSystem, file: File, h: nat, input: seq<byte>) returns (r: Result<Reply>, ghost torn: bool)
    requires Inv(fs) && Holds(fs, file) && file.id in fs.nodes
    modifies fs`clock, fs`scratch, fs`disk, fs`fat, fs`heap, fs`used, fs`free, fs`nodes, file
    ensures fs.Valid()
    ensures r.Ok? ==>
      && Inv(fs) && Holds(fs, file) && OwnerReplaced(old(fs.nodes), fs.nodes, file.id)
      && (DocOf(fs, file), r.value) == OnDoc(old(DocOf(fs, file)), DoAppend(h, input))
      && Contents(fs.heap, fs.nodes) == old(Contents(fs.heap, fs.nodes))[file.id := DocOf(fs, file).content]
    ensures r.Err? ==>
      && r.error in {Device, NoSpace} && fs.nodes == old(fs.nodes) && file.position == old(file.position)
      && Contents(fs.heap, fs.nodes) == old(Contents(fs.heap, fs.nodes))
    ensures r.Err? && !torn ==> Inv(fs) && Holds(fs, file)
    ensures r.Ok? || !torn ==> DirsStay(old(fs.heap), old(fs.nodes), fs.heap, fs.nodes)
    ensures r.Err? && torn ==>
      && r.error == Device
      && TornRecord(fs.g, fs.fat, fs.used, fs.bm, old(fs.heap), fs.heap, fs.nodes, file.id,
                    old(DocOf(fs, file).content) + input)
    ensures r.Ok? ==>
      Rechained(old(fs.fat), old(fs.used), old(file.ext), old(file.noFatChain), fs.fat, file.ext, file.noFatChain,
                false)
    ensures Honest(fs.faulty, old(fs.clock), fs.clock, r == Err(Device))
    ensures r == Err(NoSpace) ==>
      || Short(fs.g, old(fs.used), fs.used, |input|)
      || (fs.used == old(fs.used) && |old(DocOf(fs, file).content)| + |input| > U64_MAX)
    ensures r.Ok? ==> TookFor(fs.g, old(fs.used), fs.used, |input|)
  {
    hide FileSystem.Valid;
    hide OwnOk;
    hide TreeOk;
    hide Content;
    hide Contents;
    hide Shape;
    hide BytesOf;
    hide LocAt;
    hide OwnerReplaced;
    hide Committed;
    hide Rechained;
    hide GrownFrom;
    hide ChainCut;
    hide OnDoc;
    hide TornRecord;
    hide DirsStay;
    hide Short;
    hide TookFor;
    HoldsParts(fs, file);
    ContentOf(fs, file);
    SameOwner(fs.nodes, file.id);
    ghost var d, nodes := DocOf(fs, file), fs.nodes;
    var out;
    ghost var fat0, used0, ext0, contiguous0 := fs.fat, fs.used, file.ext, file.noFatChain;
    out, torn := Append(fs, file, input);
    if out.Err? { return Err(out.error), torn; }
    AppendChains(fs.g, fat0, used0, ext0, contiguous0, fs.fat, file.ext, file.noFatChain);
    HoldsParts(fs, file);
    ContentOf(fs, file);
    ContentsSame(fs.heap, fs.nodes, file.id);
    if input != [] { CommittedReplaces(nodes, file); }
    AppendOnDoc(d, h, input, Content(fs.heap, fs.nodes[file.id]), file.position);
    return Ok(Moved(out.value)), torn;
  }

  /** Truncate, as the specification sees it. */
  method CallTruncate(fs: FileSystem, file: File, h: nat, len: nat) returns (r: Result<Reply>)
    requires Inv(fs) && Holds(fs, file) && file.id in fs.nodes
    modifies fs`clock, fs`scratch, fs`disk, fs`fat, fs`heap, fs`used, fs`free, fs`nodes, file
    ensures fs.Valid()
    ensures r.Ok? ==>
      && Inv(fs) && Holds(fs, file) && OwnerReplaced(old(fs.nodes), fs.nodes, file.id)
      && (DocOf(fs, file), r.value) == OnDoc(old(DocOf(fs, file)), DoTruncate(h, len))
      && Contents(fs.heap, fs.nodes) == old(Contents(fs.heap, fs.nodes))[file.id := DocOf(fs, file).content]
      && DirsStay(old(fs.heap), old(fs.nodes), fs.heap, fs.nodes) && fs.used <= old(fs.used)
    ensures r.Err? ==> r.error == Device
    ensures r.Ok? ==>
      Rechained(old(fs.fat), old(fs.used), old(file.ext), old(file.noFatChain), fs.fat, file.ext, file.noFatChain, true)
    ensures Honest(fs.faulty, old(fs.clock), fs.clock, r.Err?)
  {
    hide FileSystem.Valid;
    hide OwnOk;
    hide TreeOk;
    hide TreeRecords;
    hide Content;
    hide Contents;
    hide Shape;
    hide BytesOf;
    hide LocAt;
    hide OwnerReplaced;
    hide Committed;
    hide Rechained;
    hide GrownFrom;
    hide ChainCut;
    hide OnDoc;
    hide DirsStay;
    OkRecords(fs.g, fs.heap, fs.nodes);
    SameStays(fs.g, fs.heap, fs.nodes);
    HoldsParts(fs, file);
    ContentOf(fs, file);
    ContentsSame(fs.heap, fs.nodes, file.id);
    SameOwner(fs.nodes, file.id);
    ghost var d, nodes := DocOf(fs, file), fs.nodes;
    TruncateOnDoc(d, h, len);
    ghost var fat0, used0, ext0 := fs.fat, fs.used, file.ext;
    var out := Truncate(fs, file, len);
    RestChains(fat0, used0, ext0, file.noFatChain);
    if out == Err(EndOfFile) { return Ok(Refused); }
    if out.Err? { return Err(out.error); }
    TruncateChains(fat0, used0, ext0, file.noFatChain, fs.fat, file.ext);
    HoldsParts(fs, file);
    ContentsSame(fs.heap, fs.nodes, file.id);
    CommittedReplaces(nodes, file);
    return Ok(Trimmed);
  }

  /** Read, as the specification sees it. */
  method CallRead(fs: FileSystem, file: File, h: nat, length: nat) returns (r: Result<Reply>)
    requires Inv(fs) && Holds(fs, file) && file.id in fs.nodes
    modifies fs`clock, fs`scratch, file
    ensures Inv(fs) && Holds(fs, file) && fs.nodes == old(fs.nodes)
    ensures Contents(fs.heap, fs.nodes) == old(Contents(fs.heap, fs.nodes))[file.id := DocOf(fs, file).content]
    ensures r.Ok? ==> (DocOf(fs, file), r.value) == OnDoc(old(DocOf(fs, file)), DoRead(h, length))
    ensures r.Err? ==>
      && r.error == Device
      && exists n: nat ::
           n <= Size(DoRead(h, length))
           && DocOf(fs, file) == OnDoc(old(DocOf(fs, file)), Shorter(DoRead(h, length), n)).0
    ensures DirsStay(old(fs.heap), old(fs.nodes), fs.heap, fs.nodes)
    ensures Honest(fs.faulty, old(fs.clock), fs.clock, r.Err?)
  {
    hide FileSystem.Valid;
    hide OwnOk;
    hide TreeOk;
    hide TreeRecords;
    hide Content;
    hide Contents;
    hide Shape;
    hide BytesOf;
    hide LocAt;
    hide OnDoc;
    hide Overwritten;
    hide DirsStay;
    OkRecords(fs.g, fs.heap, fs.nodes);
    SameStays(fs.g, fs.heap, fs.nodes);
    HoldsParts(fs, file);
    ContentOf(fs, file);
    ContentsSame(fs.heap, fs.nodes, file.id);
    ghost var d := DocOf(fs, file);
    var out := ReadFile(fs, file, length);
    ghost var moved := file.position - d.position;
    ReadOnDoc(d, h, moved, if moved == 0 then [] else d.content[d.position..d.position + moved], moved);
    assert DocOf(fs, file) == OnDoc(d, Shorter(DoRead(h, length), moved)).0;
    if out.Err? { return Err(out.error); }
    ReadOnDoc(d, h, length, out.value, Room(d, length));
    return Ok(Data(out.value));
  }

  /** Write, as the specification sees it. */
  method CallWrite(fs: FileSystem, file: File, h: nat, input: seq<byte>) returns (r: Result<Reply>)
    requires Inv(fs) && Holds(fs, file) && file.id in fs.nodes
    modifies fs`clock, fs`scratch, fs`disk, fs`heap, file
    ensures Inv(fs) && Holds(fs, file) && fs.nodes == old(fs.nodes)
    ensures Contents(fs.heap, fs.nodes) == old(Contents(fs.heap, fs.nodes))[file.id := DocOf(fs, file).content]
    ensures r.Ok? ==> (DocOf(fs, file), r.value) == OnDoc(old(DocOf(fs, file)), DoWrite(h, input))
    ensures r.Err? ==>
      && r.error == Device
      && exists n: nat ::
           n <= Size(DoWrite(h, input))
           && DocOf(fs, file) == OnDoc(old(DocOf(fs, file)), Shorter(DoWrite(h, input), n)).0
    ensures DirsStay(old(fs.heap), old(fs.nodes), fs.heap, fs.nodes)
    ensures Honest(fs.faulty, old(fs.clock), fs.clock, r.Err?)
  {
    hide FileSystem.Valid;
    hide OwnOk;
    hide TreeOk;
    hide TreeRecords;
    hide Content;
    hide Contents;
    hide Shape;
    hide BytesOf;
    hide LocAt;
    hide OnDoc;
    hide Overwritten;
    hide DirsStay;
    OkRecords(fs.g, fs.heap, fs.nodes);
    SameStays(fs.g, fs.heap, fs.nodes);
    HoldsParts(fs, file);
    ContentOf(fs, file);
    ContentsSame(fs.heap, fs.nodes, file.id);
    ghost var d := DocOf(fs, file);
    var out := WriteFile(fs, file, input);
    ghost var moved := file.position - d.position;
    OverwrittenPart(Content(fs.heap, fs.nodes[file.id]), d.content, d.position, input, moved);
    WriteOnDoc(d, h, input[..moved], Content(fs.heap, fs.nodes[file.id]), moved);
    assert DocOf(fs, file) == OnDoc(d, Shorter(DoWrite(h, input), moved)).0;
    if out.Err? { return Err(out.error); }
    WriteOnDoc(d, h, input, Content(fs.heap, fs.nodes[file.id]), out.value);
    return Ok(Moved(out.value));
  }

  /** What one call may do to the clusters in use. */
  ghost predicate Spent(g: Geometry, used0: set<nat>, used: set<nat>, op: Op) {
    match op
    case DoRead(_, _) => used == used0
    case DoWrite(_, _) => used == used0
    case DoAppend(_, input) => TookFor(g, used0, used, |input|)
    case DoTruncate(_, _) => used <= used0
  }

  /** One call on one handle does to its file what the specification says. */
  method Call(fs: FileSystem, file: File, op: Op) returns (r: Result<Reply>, ghost torn: bool)
    requires Inv(fs) && Holds(fs, file)
    modifies fs`clock, fs`scratch, fs`disk, fs`fat, fs`heap, fs`used, fs`free, fs`nodes, file
    ensures fs.Valid()
    ensures r.Ok? ==>
      && Inv(fs) && Holds(fs, file) && OwnerReplaced(old(fs.nodes), fs.nodes, file.id)
      && (DocOf(fs, file), r.value) == OnDoc(old(DocOf(fs, file)), op)
      && Contents(fs.heap, fs.nodes) == old(Contents(fs.heap, fs.nodes))[file.id := DocOf(fs, file).content]
    ensures r.Err? ==> r.error in {Device, NoSpace}
    ensures r.Err? && (op.DoRead? || op.DoWrite?) ==>
      && Inv(fs) && Holds(fs, file) && fs.nodes == old(fs.nodes)
      && (exists n: nat :: n <= Size(op) && DocOf(fs, file) == OnDoc(old(DocOf(fs, file)), Shorter(op, n)).0)
      && Contents(fs.heap, fs.nodes) == old(Contents(fs.heap, fs.nodes))[file.id := DocOf(fs, file).content]
    ensures r.Err? && op.DoAppend? ==>
      && fs.nodes == old(fs.nodes) && file.position == old(file.position)
      && Contents(fs.heap, fs.nodes) == old(Contents(fs.heap, fs.nodes))
    ensures r.Err? && op.DoAppend? && !torn ==> Inv(fs) && Holds(fs, file)
    ensures r.Ok? || Intact(op, torn) ==> DirsStay(old(fs.heap), old(fs.nodes), fs.heap, fs.nodes)
    ensures r.Err? && op.DoAppend? && torn ==>
      && r.error == Device
      && TornRecord(fs.g, fs.fat, fs.used, fs.bm, old(fs.heap), fs.heap, fs.nodes, file.id,
                    old(DocOf(fs, file).content) + op.input)
    ensures r.Ok? ==>
      Rechained(old(fs.fat), old(fs.used), old(file.ext), old(file.noFatChain), fs.fat, file.ext, file.noFatChain,
                op.DoTruncate?)
    ensures Honest(fs.faulty, old(fs.clock), fs.clock, r == Err(Device))
    ensures r == Err(NoSpace) ==>
      && op.DoAppend?
      && (|| Short(fs.g, old(fs.used), fs.used, |op.input|)
          || (fs.used == old(fs.used) && |old(DocOf(fs, file).content)| + |op.input| > U64_MAX))
    ensures r.Ok? ==> Spent(fs.g, old(fs.used), fs.used, op)
  {
    hide FileSystem.Valid;
    hide OwnOk;
    hide TreeOk;
    hide TreeRecords;
    hide Content;
    hide Contents;
    hide Shape;
    hide BytesOf;
    hide LocAt;
    hide OwnerReplaced;
    hide Committed;
    hide Rechained;
    hide GrownFrom;
    hide ChainCut;
    hide OnDoc;
    hide Overwritten;
    hide TornRecord;
    hide DirsStay;
    hide Short;
    hide TookFor;
    torn := false;
    OkRecords(fs.g, fs.heap, fs.nodes);
    SameStays(fs.g, fs.heap, fs.nodes);
    HoldsParts(fs, file);
    ContentOf(fs, file);
    ContentsSame(fs.heap, fs.nodes, file.id);
    SameOwner(fs.nodes, file.id);
    ghost var d, nodes := DocOf(fs, file), fs.nodes;
    RestChains(fs.fat, fs.used, file.ext, file.noFatChain);
    match op
    case DoRead(h, length) =>
      r := CallRead(fs, file, h, length);
      HoldsParts(fs, file);
    case DoWrite(h, input) =>
      r := CallWrite(fs, file, h, input);
      HoldsParts(fs, file);
    case DoAppend(h, input) =>
      r, torn := CallAppend(fs, file, h, input);
    case DoTruncate(h, len) =>
      r := CallTruncate(fs, file, h, len);
  }

  /** The handle agrees with the given owners and FAT. */
  ghost predicate AtRest(g: Geometry, nodes: Owners, fat: seq<u32>, file: File)
    reads file
  {
    && Placed(g, nodes, file) && IsFile(nodes, file.id) && nodes[file.id.dir].isDir
    && nodes[file.id] == Node(file.ext, !file.noFatChain, file.validLength, false, file.entryCount)
    && |fat| == g.clusterCount + 2 && Shape(g, fat, file.State(), file.ext)
  }

  lemma HoldsAtRest(fs: FileSystem, file: File)
    requires Inv(fs) && Holds(fs, file)
    ensures AtRest(fs.g, fs.nodes, fs.fat, file)
  {
    hide FileSystem.Valid;
    hide TreeOk;
    fs.Basics();
    ChildParent(fs.g, fs.fat, fs.used, fs.bm, fs.nodes, file.id);
  }

  /** A handle that was not called is still at rest. */
  lemma StillHolds(fs: FileSystem, file: File, nodes: Owners, fat: seq<u32>, id: Id)
    requires Inv(fs) && OwnerReplaced(nodes, fs.nodes, id) && IsFile(nodes, id) && file.id != id
    requires AtRest(fs.g, nodes, fat, file)
    ensures Holds(fs, file)
  {
    hide FileSystem.Valid;
    hide OwnOk;
    hide TreeOk;
    hide LocatedAt;
    assert fs.nodes[file.id.dir] == nodes[file.id.dir];
    RestoreHolds(fs, file, fat);
  }

  /** After a call on handle `h`, all handles are at rest. */
  lemma AllHold(fs: FileSystem, files: seq<File>, nodes: Owners, fat: seq<u32>, h: nat)
    requires Inv(fs) && h < |files| && Holds(fs, files[h])
    requires OwnerReplaced(nodes, fs.nodes, files[h].id) && IsFile(nodes, files[h].id)
    requires forall i, j :: 0 <= i < j < |files| ==> files[i] != files[j] && files[i].id != files[j].id
    requires forall i :: 0 <= i < |files| && i != h ==> AtRest(fs.g, nodes, fat, files[i])
    ensures Opened(fs, files)
  {
    hide FileSystem.Valid;
    hide OwnOk;
    hide TreeOk;
    hide AtRest;
    hide OwnerReplaced;
    hide Holds;
    forall i | 0 <= i < |files|
      ensures Holds(fs, files[i])
    {
      if i != h { StillHolds(fs, files[i], nodes, fat, files[h].id); }
    }
  }

  ghost predicate ChainEnds(fs: FileSystem, file: File)
    reads fs`fat, file
  {
    Capped(fs.fat, file.ext, file.noFatChain)
  }

  /** The chains of other files end where they did. */
  lemma OthersCapped(g: Geometry, fat0: seq<u32>, used0: set<nat>, bm: seq<nat>, nodes: Owners, id: Id, file: File,
                     fat: seq<u32>)
    requires OwnOk(g, fat0, used0, bm, nodes) && id in nodes && Elsewhere(fat0, fat, used0, nodes[id].ext)
    requires AtRest(g, nodes, fat0, file) && file.id != id
    ensures Capped(fat0, file.ext, file.noFatChain) ==> Capped(fat, file.ext, file.noFatChain)
  {
    hide Shape;
    hide LocatedAt;
    if Capped(fat0, file.ext, file.noFatChain) && file.ext != [] && !file.noFatChain {
      assert NodeOk(g, fat0, used0, nodes[file.id]);
      var last := file.ext[|file.ext| - 1];
      assert last !in nodes[id].ext;
    }
  }

  lemma ChainsKept(g: Geometry, fat0: seq<u32>, used0: set<nat>, bm: seq<nat>, nodes: Owners, files: seq<File>,
                   h: nat, fat: seq<u32>)
    requires OwnOk(g, fat0, used0, bm, nodes) && h < |files| && files[h].id in nodes
    requires Elsewhere(fat0, fat, used0, nodes[files[h].id].ext)
    requires forall i :: 0 <= i < |files| && i != h ==> AtRest(g, nodes, fat0, files[i]) && files[i].id != files[h].id
    ensures forall i :: 0 <= i < |files| && i != h && Capped(fat0, files[i].ext, files[i].noFatChain) ==>
      Capped(fat, files[i].ext, files[i].noFatChain)
  {
    hide OwnOk;
    hide AtRest;
    hide Elsewhere;
    hide Capped;
    forall i | 0 <= i < |files| && i != h && Capped(fat0, files[i].ext, files[i].noFatChain)
      ensures Capped(fat, files[i].ext, files[i].noFatChain)
    {
      OthersCapped(g, fat0, used0, bm, nodes, files[h].id, files[i], fat);
    }
  }

  /** One call, with other handles open: the specification's step. */
  method Perform(fs: FileSystem, files: seq<File>, op: Op) returns (r: Result<Reply>, ghost torn: bool)
    requires Opened(fs, files) && op.h < |files|
    modifies fs`clock, fs`scratch, fs`disk, fs`fat, fs`heap, fs`used, fs`free, fs`nodes, files
    ensures fs.Valid() && Honest(fs.faulty, old(fs.clock), fs.clock, r == Err(Device))
    ensures Fitting(old(Seen(fs, files)), Ids(files))
    ensures r.Ok? ==> Opened(fs, files) && (Seen(fs, files), r.value) == Step(old(Seen(fs, files)), Ids(files), op)
    ensures r.Err? ==> r.error in {Device, NoSpace}
    ensures r.Err? && (op.DoRead? || op.DoWrite?) ==>
      Opened(fs, files) && PartWay(old(Seen(fs, files)), Seen(fs, files), Ids(files), op)
    ensures r.Err? && op.DoAppend? ==> Seen(fs, files) == old(Seen(fs, files)) && fs.nodes == old(fs.nodes)
    ensures r.Err? && op.DoAppend? && !torn ==> Opened(fs, files)
    ensures r.Ok? || Intact(op, torn) ==> DirsStay(old(fs.heap), old(fs.nodes), fs.heap, fs.nodes)
    ensures r.Err? && op.DoAppend? && torn ==>
      && r.error == Device
      && TornRecord(fs.g, fs.fat, fs.used, fs.bm, old(fs.heap), fs.heap, fs.nodes, Ids(files)[op.h],
                    DocAt(old(Seen(fs, files)), Ids(files), op.h).content + op.input)
    ensures old(TableReady(fs)) && (r.Ok? || !op.DoTruncate?) ==> TableReady(fs)
    ensures r.Ok? ==> forall i :: 0 <= i < |files| && old(ChainEnds(fs, files[i])) ==> ChainEnds(fs, files[i])
    ensures r.Ok? && op.DoTruncate? && |files[op.h].ext| < |old(files[op.h].ext)| ==> ChainEnds(fs, files[op.h])
    ensures r == Err(NoSpace) ==>
      && op.DoAppend?
      && (Full(fs.g, fs.used)
          || |DocAt(old(Seen(fs, files)), Ids(files), op.h).content| + |op.input| > U64_MAX)
  {
    hide Failures;
    hide FileSystem.Valid;
    hide OwnOk;
    hide TreeOk;
    hide Content;
    hide Contents;
    hide Shape;
    hide AtRest;
    hide Holds;
    hide OnDoc;
    hide TornRecord;
    hide OwnerReplaced;
    hide DirsStay;
    hide TookFor;
    hide Rechained;
    hide Capped;
    SeenFits(fs, files);
    ghost var nodes, fat, used, w, h := fs.nodes, fs.fat, fs.used, Seen(fs, files), op.h;
    var file := files[op.h];
    assert file.id in nodes && IsFile(nodes, file.id) && file.id.Child? by {
      HoldsAtRest(fs, file); HoldsParts(fs, file);
    }
    ContentsSame(fs.heap, fs.nodes, file.id);
    SameOwner(nodes, file.id);
    forall i | 0 <= i < |files|
      ensures AtRest(fs.g, nodes, fat, files[i])
    {
      HoldsAtRest(fs, files[i]);
    }
    ghost var ext, contiguous := file.ext, file.noFatChain;
    assert nodes[file.id].ext == ext by { HoldsParts(fs, file); }
    r, torn := Call(fs, file, op);
    if r.Ok? { TableStays(fs, nodes, file); }
    if !op.DoTruncate? || r.Ok? { PositionsMoved(w.positions, files, h); }
    if r.Ok? || Intact(op, torn) { AllHold(fs, files, nodes, fat, h); }
    if r.Ok? {
      RechainedParts(fat, used, ext, contiguous, fs.fat, file.ext, file.noFatChain, op.DoTruncate?);
      ChainsKept(fs.g, fat, used, fs.bm, nodes, files, h, fs.fat);
    }
  }

  /** A call on a child does not move the up-case table. */
  lemma TableStays(fs: FileSystem, nodes: Owners, file: File)
    requires OwnerReplaced(nodes, fs.nodes, file.id) && file.id.Child?
    ensures UpcaseFile in nodes ==> UpcaseFile in fs.nodes && fs.nodes[UpcaseFile] == nodes[UpcaseFile]
  {
  }

  lemma PositionsMoved(before: seq<nat>, files: seq<File>, h: nat)
    requires |before| == |files| && h < |files|
    requires forall i :: 0 <= i < |files| && i != h ==> files[i].position == before[i]
    ensures Positions(files) == before[h := files[h].position]
    ensures files[h].position == before[h] ==> Positions(files) == before
  {
  }

  /** Run a script of calls on open handles.  As long as no call meets a device
      failure or a full volume, the volume, the positions and all replies are
      those of the specification.  A read or a write that fails has done a shorter
      one.  An append that fails has changed no file's bytes; either the volume is
      intact, or only the record of its file is torn. */
  method Run(fs: FileSystem, files: seq<File>, script: seq<Op>)
    returns (replies: seq<Reply>, stopped: Option<Error>, ghost torn: bool)
    requires Opened(fs, files) && Calls(script, |files|)
    modifies fs`clock, fs`scratch, fs`disk, fs`fat, fs`heap, fs`used, fs`free, fs`nodes, files
    ensures fs.Valid() && Fitting(old(Seen(fs, files)), Ids(files)) && |replies| <= |script|
    ensures Honest(fs.faulty, old(fs.clock), fs.clock, stopped == Some(Device))
    ensures Calls(script[..|replies|], |files|)
    ensures replies == Replay(old(Seen(fs, files)), Ids(files), script[..|replies|]).1
    ensures stopped.None? ==>
      && |replies| == |script| && Opened(fs, files)
      && Seen(fs, files) == Replay(old(Seen(fs, files)), Ids(files), script).0
    ensures stopped.Some? ==>
      && stopped.value in {Device, NoSpace} && |replies| < |script|
      && var op, before := script[|replies|], Replay(old(Seen(fs, files)), Ids(files), script[..|replies|]).0;
         && (stopped.value == NoSpace ==>
               && op.DoAppend?
               && (Full(fs.g, fs.used) || |before.contents[Ids(files)[op.h]]| + |op.input| > U64_MAX))
         && (op.DoRead? || op.DoWrite? ==> Opened(fs, files) && PartWay(before, Seen(fs, files), Ids(files), op))
         && (op.DoAppend? ==>
               && Seen(fs, files) == before
               && (if torn then stopped.value == Error.Device else Opened(fs, files)))
         && (op.DoAppend? && torn ==> exists heap ::
               && Contents(heap, fs.nodes) == before.contents
               && TornRecord(fs.g, fs.fat, fs.used, fs.bm, heap, fs.heap, fs.nodes, Ids(files)[op.h],
                             before.contents[Ids(files)[op.h]] + op.input))
    ensures stopped.None? || Intact(script[|replies|], torn) ==>
      DirsStay(old(fs.heap), old(fs.nodes), fs.heap, fs.nodes)
    ensures old(TableReady(fs)) && (stopped.None? || !script[|replies|].DoTruncate?) ==> TableReady(fs)
    ensures stopped.None? ==>
      forall i :: 0 <= i < |files| && old(ChainEnds(fs, files[i])) ==> ChainEnds(fs, files[i])
  {
    hide FileSystem.Valid;
    hide Opened;
    hide Seen;
    hide Step;
    hide Fitting;
    hide TornRecord;
    hide PartWay;
    hide TableReady;
    hide ChainEnds;
    hide DirsStay;
    SeenFits(fs, files);
    OpenStays(fs, files);
    ghost var w, ids := Seen(fs, files), Ids(files);
    replies, torn := [], false;
    assert fs.Valid() by { OpenValid(fs, files); }
    while |replies| < |script|
      invariant Honest(fs.faulty, old(fs.clock), fs.clock, false)
      invariant Opened(fs, files) && |replies| <= |script| && Calls(script[..|replies|], |files|)
      invariant (Seen(fs, files), replies) == Replay(w, ids, script[..|replies|])
      invariant old(TableReady(fs)) ==> TableReady(fs)
      invariant forall i :: 0 <= i < |files| && old(ChainEnds(fs, files[i])) ==> ChainEnds(fs, files[i])
      invariant DirsStay(old(fs.heap), old(fs.nodes), fs.heap, fs.nodes)
    {
      var n := |replies|;
      assert script[..n + 1][..n] == script[..n] && script[..n + 1][n] == script[n];
      var out;
      ghost var heap, nodes := fs.heap, fs.nodes;
      assert Contents(heap, fs.nodes) == Seen(fs, files).contents by { SeenContents(fs, files); }
      out, torn := Perform(fs, files, script[n]);
      if out.Ok? || Intact(script[n], torn) {
        DirsStayTrans(old(fs.heap), old(fs.nodes), heap, nodes, fs.heap, fs.nodes);
      }
      if out.Err? { return replies, Some(out.error), torn; }
      replies := replies + [out.value];
    }
    assert script[..|replies|] == script;
    OpenValid(fs, files);
    return replies, None, torn;
  }

  lemma SeenContents(fs: FileSystem, files: seq<File>)
    ensures Seen(fs, files).contents == Contents(fs.heap, fs.nodes)
  {
  }

  lemma OpenStays(fs: FileSystem, files: seq<File>)
    requires Opened(fs, files)
    ensures DirsStay(fs.heap, fs.nodes, fs.heap, fs.nodes)
  {
    hide FileSystem.Valid;
    hide DirsStay;
    OkRecords(fs.g, fs.heap, fs.nodes);
    SameStays(fs.g, fs.heap, fs.nodes);
  }

  lemma OpenValid(fs: FileSystem, files: seq<File>)
    requires Opened(fs, files)
    ensures fs.Valid()
  {
    hide FileSystem.Valid;
  }
}
