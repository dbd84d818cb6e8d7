/** Directories of an intact volume: listing one yields exactly its records, and
    searching one yields exactly the first record with a matching name. */
module Directories {
  import opened Words
  import opened Errors
  import opened Geometry
  import opened Views
  import opened Volume
  import opened EntrySets
  import opened Tree
  import opened SlotIo
  import opened Growth
  import opened Meaning
  import opened Listings
  import opened Standing
  import opened Upcase
  import opened Scanning

  /** `dir` is the directory `id` of the volume. */
  ghost predicate DirIs(g: Geometry, nodes: Owners, dir: Directory, id: Id) {
    && id in nodes && nodes[id].isDir && nodes[id].ext != [] && dir.firstCluster == nodes[id].ext[0] && !dir.noFatChain
    && dir.dataLength == (if id == Root then 0 else |nodes[id].ext| * g.BytesPerCluster())
  }

  /** The records of a directory, in slot order. */
  ghost function ListOf(g: Geometry, heap: Heap, ext: seq<nat>): seq<DirectoryEntry>
    requires Scannable(g, heap, ext) && Stored(DirSlots(heap, ext))
  {
    Listing(DirSlots(heap, ext), Places(g, heap, ext))
  }

  /** The records of a directory that a reader sees, in slot order. */
  ghost function SeenOf(g: Geometry, heap: Heap, ext: seq<nat>): seq<DirectoryEntry>
    requires Scannable(g, heap, ext) && Stored(DirSlots(heap, ext))
  {
    SeenList(DirSlots(heap, ext), Places(g, heap, ext))
  }

  /** In an intact directory that is all of them. */
  lemma SeenIsAll(g: Geometry, heap: Heap, ext: seq<nat>)
    requires Scannable(g, heap, ext) && Stored(DirSlots(heap, ext)) && ZeroTail(DirSlots(heap, ext))
    ensures SeenOf(g, heap, ext) == ListOf(g, heap, ext)
  {
    hide DirSlots;
    hide Stored;
    SeenAll(DirSlots(heap, ext), Places(g, heap, ext));
  }

  // ----- trails through intact directories ------------------------------------------------

  /** A trail through a directory's chain is a beginning of its extent. */
  lemma TrailPrefix(g: Geometry, fat: seq<u32>, dir: Directory, ext: seq<nat>, seen: seq<nat>)
    requires |fat| == g.clusterCount + 2 <= 0xffff_fff7 && Trail(g, fat, dir, seen)
    requires InHeap(g, ext) && Links(fat, ext) && Ended(fat, ext) && dir.firstCluster == ext[0] && !dir.noFatChain
    ensures seen <= ext
    ensures seen != [] ==> (Chained(g, fat, dir, seen) <==> |seen| == |ext|)
    ensures |seen| < |ext| ==> Successor(g, fat, dir, seen) == ext[|seen|]
  {
    TrailFollows(g, fat, dir, ext, seen, Min(|seen|, |ext|));
    var n := |ext|;
    assert fat[ext[n - 1]] >= EOC_MIN > g.clusterCount + 2;
    assert |seen| >= n ==> seen[n - 1] == seen[..n][n - 1] == ext[n - 1];
    if |seen| > n { TrailStep(g, fat, dir, seen, n - 1); }
    assert 0 < |seen| < n ==> fat[ext[|seen| - 1]] == ext[|seen| - 1 + 1];
  }

  lemma TrailStep(g: Geometry, fat: seq<u32>, dir: Directory, seen: seq<nat>, i: nat)
    requires |fat| == g.clusterCount + 2 && Trail(g, fat, dir, seen) && i + 1 < |seen| && !dir.noFatChain
    ensures 2 <= fat[seen[i]] < g.clusterCount + 2
  {
    assert seen[i + 1] == fat[seen[i]];
  }

  lemma {:induction false} TrailFollows(g: Geometry, fat: seq<u32>, dir: Directory, ext: seq<nat>, seen: seq<nat>,
                                        n: nat)
    requires |fat| == g.clusterCount + 2 && Trail(g, fat, dir, seen) && n <= |seen| && n <= |ext|
    requires InHeap(g, ext) && Links(fat, ext) && ext != [] && dir.firstCluster == ext[0] && !dir.noFatChain
    ensures seen[..n] == ext[..n]
  {
    if n > 1 {
      TrailFollows(g, fat, dir, ext, seen, n - 1);
      assert seen[n - 2] == seen[..n - 1][n - 2] == ext[..n - 1][n - 2] == ext[n - 2];
      assert seen[n - 2 + 1] == fat[seen[n - 2]] && fat[ext[n - 2]] == ext[n - 2 + 1];
    }
  }

  /** The slots of a beginning of an extent are a beginning of its slots. */
  lemma {:induction false} PrefixPlaces(fs: FileSystem, ext: seq<nat>, m: nat)
    requires fs.Valid() && InHeap(fs.g, ext) && m <= |ext|
    ensures Scannable(fs.g, fs.heap, ext) && Scannable(fs.g, fs.heap, ext[..m])
    ensures DirSlots(fs.heap, ext[..m]) <= DirSlots(fs.heap, ext)
    ensures Places(fs.g, fs.heap, ext[..m]) <= Places(fs.g, fs.heap, ext)
    ensures m == |ext| ==> |DirSlots(fs.heap, ext[..m])| == |DirSlots(fs.heap, ext)|
    decreases |ext| - m
  {
    hide FileSystem.Valid;
    hide Geometry.WellFormed;
    hide Geometry.BytesPerCluster;
    hide DirSlots;
    ScannableOn(fs, ext);
    ScannableOn(fs, ext[..m]);
    if m == |ext| {
      assert ext[..m] == ext;
    } else {
      PrefixPlaces(fs, ext, m + 1);
      assert ext[..m + 1] == ext[..m] + [ext[m]];
      PlacesGrow(fs, ext[..m], ext[m]);
    }
  }

  lemma PlacesGrow(fs: FileSystem, seen: seq<nat>, c: nat)
    requires fs.Valid() && InHeap(fs.g, seen + [c]) && Scannable(fs.g, fs.heap, seen)
    requires Scannable(fs.g, fs.heap, seen + [c])
    ensures DirSlots(fs.heap, seen) <= DirSlots(fs.heap, seen + [c])
    ensures Places(fs.g, fs.heap, seen) <= Places(fs.g, fs.heap, seen + [c])
  {
    hide FileSystem.Valid;
    hide Geometry.WellFormed;
    hide Geometry.BytesPerCluster;
    SlotsGrow(fs, seen, c);
  }

  /** What a directory scan relies on. */
  lemma DirReady(fs: FileSystem, dir: Directory, id: Id)
    requires InvLoose(fs) && DirIs(fs.g, fs.nodes, dir, id)
    ensures |fs.fat| == fs.g.clusterCount + 2 <= 0xffff_fff7 && id in fs.nodes
    ensures var ext := fs.nodes[id].ext;
            && InHeap(fs.g, ext) && Links(fs.fat, ext) && Ended(fs.fat, ext) && |ext| <= fs.g.clusterCount
            && Scannable(fs.g, fs.heap, ext) && Stored(DirSlots(fs.heap, ext))
    ensures fs.g.BytesPerCluster() > 0 && dir.dataLength % fs.g.BytesPerCluster() == 0
  {
    hide FileSystem.Valid;
    hide Geometry.WellFormed;
    hide DirRecords;
    fs.Basics();
    var n, cb := fs.nodes[id], fs.g.BytesPerCluster();
    assert NodeOk(fs.g, fs.fat, fs.used, n);
    DistinctFits(fs.g, n.ext);
    ScannableOn(fs, n.ext);
    assert DirRecords(fs.nodes, id, DirSlots(fs.heap, n.ext), cb);
    DirStored(fs.nodes, id, DirSlots(fs.heap, n.ext), cb);
    if id == Root {
      DivModUnique(0, cb, 0, 0);
    } else {
      DivModUnique(|n.ext| * cb, cb, |n.ext|, 0);
    }
  }

  /** The slots of an intact directory come before its unused ones. */
  lemma DirTail(fs: FileSystem, id: Id)
    requires Inv(fs) && id in fs.nodes && fs.nodes[id].isDir
    ensures forall i :: 0 <= i < |fs.nodes[id].ext| ==> fs.nodes[id].ext[i] < |fs.heap|
    ensures ZeroTail(DirSlots(fs.heap, fs.nodes[id].ext))
  {
    hide FileSystem.Valid;
    hide OwnOk;
    hide DirRecords;
    hide ZeroTail;
    hide SlotsOf;
    assert DirOk(fs.nodes, id, DirSlots(fs.heap, fs.nodes[id].ext), fs.g.BytesPerCluster());
  }

  /** A scan of a directory whose sets are complete never fails. */
  lemma NeverFails(fs: FileSystem, dir: Directory, id: Id, start: Parser, seen: seq<nat>, n: nat)
    requires InvLoose(fs) && DirIs(fs.g, fs.nodes, dir, id) && |fs.fat| == fs.g.clusterCount + 2
    requires Trail(fs.g, fs.fat, dir, seen) && Scannable(fs.g, fs.heap, seen)
    requires |start.entry.entryLocs| == 19 && start.secondaryLeft == 0
    ensures !ScanFails(fs.g, fs.fat, fs.heap, dir, start, seen, n)
  {
    hide FileSystem.Valid;
    hide OwnOk;
    hide TreeRecords;
    hide Stored;
    hide Geometry.WellFormed;
    hide Geometry.BytesPerCluster;
    hide DirSlots;
    hide Feed;
    fs.Basics();
    DirReady(fs, dir, id);
    var ext := fs.nodes[id].ext;
    TrailPrefix(fs.g, fs.fat, dir, ext, seen);
    assert ext[..|seen|] == seen;
    PrefixPlaces(fs, ext, |seen|);
    var slots, locs := DirSlots(fs.heap, ext), Places(fs.g, fs.heap, ext);
    if n < |DirSlots(fs.heap, seen)| {
      FeedPart(start, slots, locs, n + 1);
      assert slots[..n + 1] == DirSlots(fs.heap, seen)[..n + 1];
      assert locs[..n + 1] == Places(fs.g, fs.heap, seen)[..n + 1];
    }
  }

  /** How far a scan of such a directory has got: what it found is a beginning
      of what can be seen, and all of it once an unused slot or the end of the
      chain is reached, leaving the parser between sets. */
  lemma ScanMeans(fs: FileSystem, dir: Directory, id: Id, start: Parser, seen: seq<nat>, n: nat, p: Parser,
                  found: seq<DirectoryEntry>)
    requires InvLoose(fs) && DirIs(fs.g, fs.nodes, dir, id) && |fs.fat| == fs.g.clusterCount + 2
    requires Trail(fs.g, fs.fat, dir, seen) && Scannable(fs.g, fs.heap, seen)
    requires Scanned(start, DirSlots(fs.heap, seen), Places(fs.g, fs.heap, seen), n, p, found)
    requires start.secondaryLeft == 0
    ensures Scannable(fs.g, fs.heap, fs.nodes[id].ext) && Stored(DirSlots(fs.heap, fs.nodes[id].ext))
    ensures found <= SeenOf(fs.g, fs.heap, fs.nodes[id].ext)
    ensures AtEnd(DirSlots(fs.heap, seen), n)
            || (n == |DirSlots(fs.heap, seen)| && seen != []
                && (Chained(fs.g, fs.fat, dir, seen) || |seen| >= |fs.nodes[id].ext|))
            ==> found == SeenOf(fs.g, fs.heap, fs.nodes[id].ext) && p.secondaryLeft == 0
  {
    hide FileSystem.Valid;
    hide OwnOk;
    hide TreeRecords;
    hide Stored;
    hide Geometry.WellFormed;
    hide Geometry.BytesPerCluster;
    hide DirSlots;
    hide Feed;
    hide SeenList;
    fs.Basics();
    DirReady(fs, dir, id);
    var ext := fs.nodes[id].ext;
    TrailPrefix(fs.g, fs.fat, dir, ext, seen);
    assert ext[..|seen|] == seen;
    PrefixPlaces(fs, ext, |seen|);
    var slots, locs := DirSlots(fs.heap, ext), Places(fs.g, fs.heap, ext);
    ScanGrow(start, DirSlots(fs.heap, seen), Places(fs.g, fs.heap, seen), slots, locs, n, p, found);
    if AtEnd(DirSlots(fs.heap, seen), n) {
      ScanSees(start, slots, locs, n, p, found);
    } else if n == |DirSlots(fs.heap, seen)| && seen != [] && (Chained(fs.g, fs.fat, dir, seen) || |seen| >= |ext|) {
      assert seen == ext;
      ScanSees(start, slots, locs, n, p, found);
    } else {
      ScanSees(start, slots, locs, n, p, found);
    }
  }

  /** A scan has found a beginning of what can be seen, and all of it when it
      stands at an unused slot or at the end. */
  lemma ScanSees(start: Parser, slots: seq<Slot>, locs: seq<EntryLocator>, n: nat, p: Parser,
                 found: seq<DirectoryEntry>)
    requires Scanned(start, slots, locs, n, p, found) && start.secondaryLeft == 0 && Stored(slots)
    ensures found <= SeenList(slots, locs)
    ensures AtEnd(slots, n) || n == |slots| ==> found == SeenList(slots, locs) && p.secondaryLeft == 0
  {
    hide Feed;
    hide Stored;
    hide Listing;
    var front, m := Front(slots), FirstUnused(slots);
    FrontStored(slots);
    assert n <= m;
    assert front[..n] == slots[..n] && locs[..m][..n] == locs[..n];
    FeedPart(start, front, locs[..m], n);
    if AtEnd(slots, n) || n == |slots| {
      assert n == m;
      FeedRest(start, front, locs[..m], n);
    }
  }

  // ----- listing --------------------------------------------------------------------------

  lemma AllIsVisit(list: seq<DirectoryEntry>, found: seq<DirectoryEntry>, goOn: DirectoryEntry -> bool)
    requires found <= list
    requires LastStops(found, goOn) || (AllGo(found, goOn) && found == list)
    ensures found == Visit(list, goOn)
  {
    VisitIs(list, found, goOn);
  }

  /** Show a visitor a directory: it sees the records before the first unused slot
      in order, up to and including the first one it stops at. */
  method ListDirectory(fs: FileSystem, dir: Directory, goOn: DirectoryEntry -> bool, ghost id: Id)
    returns (r: Result<seq<DirectoryEntry>>)
    requires InvLoose(fs) && DirIs(fs.g, fs.nodes, dir, id)
    modifies fs`clock, fs`scratch
    ensures InvLoose(fs) && Scannable(fs.g, fs.heap, fs.nodes[id].ext) && Stored(DirSlots(fs.heap, fs.nodes[id].ext))
    ensures r == Ok(Visit(SeenOf(fs.g, fs.heap, fs.nodes[id].ext), goOn)) || r == Err(Device)
    ensures Honest(fs.faulty, old(fs.clock), fs.clock, r == Err(Device))
  {
    hide FileSystem.Valid;
    hide OwnOk;
    hide TreeRecords;
    hide Geometry.WellFormed;
    hide Geometry.BytesPerCluster;
    hide DirSlots;
    hide Scannable;
    hide Scanned;
    hide Stored;
    hide SeenList;
    hide Trail;
    hide ScanFails;
    hide ParseFails;
    DirReady(fs, dir, id);
    ghost var seen, n, p;
    r, seen, n, p := ReadDirectory(fs, dir, goOn);
    if r.Ok? {
      ScanMeans(fs, dir, id, FRESH_PARSER, seen, n, p, r.value);
      ExhaustedAll(fs.g, fs.nodes, dir, id, seen);
      AllIsVisit(SeenOf(fs.g, fs.heap, fs.nodes[id].ext), r.value, goOn);
    } else if r.error != Device {
      NeverFails(fs, dir, id, FRESH_PARSER, seen, n);
    }
  }

  lemma ExhaustedAll(g: Geometry, nodes: Owners, dir: Directory, id: Id, seen: seq<nat>)
    requires DirIs(g, nodes, dir, id) && g.BytesPerCluster() > 0
    ensures Exhausted(g, dir, seen) ==> |seen| >= |nodes[id].ext| && seen != []
    ensures dir.dataLength != 0 && |seen| * g.BytesPerCluster() >= dir.dataLength ==> |seen| >= |nodes[id].ext|
  {
    if dir.dataLength != 0 && |seen| < |nodes[id].ext| {
      MulMonotone(|seen| + 1, |nodes[id].ext|, g.BytesPerCluster());
      NextMultiple(|seen|, g.BytesPerCluster());
    }
  }

  // ----- searching ------------------------------------------------------------------------

  /** The first record whose name matches; comparing stops at a name that cannot
      be folded. */
  function FirstMatch(valid: bool, table: seq<byte>, list: seq<DirectoryEntry>, wanted: seq<u16>)
    : Result<Option<DirectoryEntry>>
  {
    if list == [] then Ok(None)
    else
      match SameName(valid, table, NameUtf16(list[0]), wanted)
      case Err(e) => Err(e)
      case Ok(true) => Ok(Some(list[0]))
      case Ok(false) => FirstMatch(valid, table, list[1..], wanted)
  }

  lemma MissedTail(valid: bool, table: seq<byte>, found: seq<DirectoryEntry>, wanted: seq<u16>)
    requires Missed(valid, table, found, wanted) && found != []
    ensures Missed(valid, table, found[1..], wanted)
  {
    hide SameName;
  }

  /** A scan that passed over other names and then met an answer, or the end. */
  lemma {:induction false} HitIsFirst(valid: bool, table: seq<byte>, list: seq<DirectoryEntry>,
                                      found: seq<DirectoryEntry>, wanted: seq<u16>, answer: Result<bool>)
    requires found <= list && Hit(valid, table, found, wanted, answer) && answer != Ok(false)
    ensures FirstMatch(valid, table, list, wanted) ==
      match answer
      case Err(e) => Err(e)
      case Ok(_) => Ok(Some(found[|found| - 1]))
  {
    hide SameName;
    if |found| > 1 {
      var front := found[..|found| - 1];
      assert front[0] == found[0] && found[1..][..|found[1..]| - 1] == front[1..];
      MissedTail(valid, table, front, wanted);
      HitIsFirst(valid, table, list[1..], found[1..], wanted, answer);
    }
  }

  lemma {:induction false} MissIsNone(valid: bool, table: seq<byte>, list: seq<DirectoryEntry>, wanted: seq<u16>)
    requires Missed(valid, table, list, wanted)
    ensures FirstMatch(valid, table, list, wanted) == Ok(None)
  {
    hide SameName;
    if list != [] {
      MissedTail(valid, table, list, wanted);
      MissIsNone(valid, table, list[1..], wanted);
    }
  }

  /** Find an entry of a directory: exactly the first record before the first
      unused slot whose folded name is the wanted one.  Unless the device fails
      the parser is between sets afterwards. */
  method LookupChild(fs: FileSystem, dir: Directory, wanted: seq<u16>, parser: EntrySet, ghost id: Id)
    returns (r: Result<Option<DirectoryEntry>>)
    requires InvLoose(fs) && TableReady(fs) && DirIs(fs.g, fs.nodes, dir, id)
    requires |parser.entry.entryLocs| == 19 && parser.secondaryLeft == 0
    modifies fs`clock, fs`scratch, parser
    ensures InvLoose(fs) && TableReady(fs) && Scannable(fs.g, fs.heap, fs.nodes[id].ext)
    ensures Stored(DirSlots(fs.heap, fs.nodes[id].ext))
    ensures r == Err(Device)
            || r == FirstMatch(fs.upcaseValid, Table(fs), SeenOf(fs.g, fs.heap, fs.nodes[id].ext), wanted)
    ensures |parser.entry.entryLocs| == 19
    ensures r != Err(Device) ==> parser.secondaryLeft == 0
    ensures Honest(fs.faulty, old(fs.clock), fs.clock, r == Err(Device))
  {
    hide FileSystem.Valid;
    hide OwnOk;
    hide TreeRecords;
    hide Content;
    hide Geometry.WellFormed;
    hide Geometry.BytesPerCluster;
    hide DirSlots;
    hide Scannable;
    hide Stored;
    hide SeenList;
    hide Trail;
    hide ScanFails;
    hide SameName;
    hide Feed;
    DirReady(fs, dir, id);
    ghost var start := parser.State();
    ghost var seen, n, found;
    r, seen, n, found := FindChild(fs, dir, wanted, parser);
    if r != Err(Device) {
      NeverFails(fs, dir, id, start, seen, n);
      ScanMeans(fs, dir, id, start, seen, n, parser.State(), found);
      ExhaustedAll(fs.g, fs.nodes, dir, id, seen);
      ghost var list := SeenOf(fs.g, fs.heap, fs.nodes[id].ext);
      if r.Err? {
        HitIsFirst(fs.upcaseValid, Table(fs), list, found, wanted, Err(r.error));
      } else if r.value.Some? {
        HitIsFirst(fs.upcaseValid, Table(fs), list, found, wanted, Ok(true));
      } else {
        MissIsNone(fs.upcaseValid, Table(fs), list, wanted);
      }
    }
  }
}
