/** A volume as a map from paths to what they lead to: directories, and files with
    their bytes.  How creations, removals and calls change the map. */
module Catalog {
  import opened Words
  import opened Errors
  import opened Geometry
  import opened Views
  import opened Volume
  import opened Tree
  import opened Meaning
  import opened Listings
  import opened Standing
  import opened EntrySets
  import opened Upcase
  import opened Scanning
  import opened Names
  import opened Paths
  import opened Resolution
  import opened PathCreation
  import opened Removal

  type Path = seq<seq<Scalar>>

  // ----- paths up to case ----------------------------------------------------------------------

  /** Two names that a search takes for the same. */
  ghost predicate SameStep(valid: bool, table: seq<byte>, a: seq<Scalar>, b: seq<Scalar>) {
    Encoded(a).Ok? && Encoded(b).Ok? && SameName(valid, table, Encoded(a).value, Encoded(b).value) == Ok(true)
  }

  ghost predicate SamePath(valid: bool, table: seq<byte>, p: Path, q: Path) {
    |p| == |q| && forall i :: 0 <= i < |p| ==> SameStep(valid, table, p[i], q[i])
  }

  lemma {:induction false} MatchAlike(valid: bool, table: seq<byte>, x: seq<u16>, a: seq<u16>, b: seq<u16>, k: nat)
    requires k <= |x| == |a| == |b| && MatchFrom(valid, table, a, b, k) == Ok(true)
    ensures MatchFrom(valid, table, x, a, k) == MatchFrom(valid, table, x, b, k)
    decreases |a| - k
  {
    hide Folded;
    if k < |a| { MatchAlike(valid, table, x, a, b, k + 1); }
  }

  /** Names that match are matched by the same names, and fail to be compared with
      the same. */
  lemma SameAlike(valid: bool, table: seq<byte>, x: seq<u16>, a: seq<u16>, b: seq<u16>)
    requires SameName(valid, table, a, b) == Ok(true)
    ensures SameName(valid, table, x, a) == SameName(valid, table, x, b)
  {
    hide MatchFrom;
    if |x| == |a| { MatchAlike(valid, table, x, a, b, 0); }
  }

  lemma {:induction false} SearchAlike(valid: bool, table: seq<byte>, slots: seq<Slot>, locs: seq<EntryLocator>,
                                       lo: nat, a: seq<u16>, b: seq<u16>)
    requires Stored(slots) && |slots| == |locs| && lo <= |slots| && SameName(valid, table, a, b) == Ok(true)
    ensures SlotNamed(valid, table, slots, locs, lo, a) == SlotNamed(valid, table, slots, locs, lo, b)
    decreases |slots| - lo
  {
    hide SameName;
    hide FileSet;
    hide NameAt;
    hide SlotNamed;
    if lo == |slots| {
      NoneBeyond(valid, table, slots, locs, lo, a);
      NoneBeyond(valid, table, slots, locs, lo, b);
    } else {
      NamedStep(valid, table, slots, locs, lo, a);
      NamedStep(valid, table, slots, locs, lo, b);
      if slots[lo][0] == 0x85 { SameAlike(valid, table, NameAt(slots, lo), a, b); }
      SearchAlike(valid, table, slots, locs, lo + 1, a, b);
    }
  }

  /** Paths that are the same up to case lead to the same, or fail alike. */
  lemma {:induction false} ResolveAlike(g: Geometry, heap: Heap, nodes: Owners, valid: bool, table: seq<byte>, d: Id,
                                        p: Path, q: Path)
    requires Listed(g, heap, nodes, d) && SamePath(valid, table, p, q)
    ensures Resolve(g, heap, nodes, valid, table, d, p) == Resolve(g, heap, nodes, valid, table, d, q)
    decreases |p|
  {
    hide Listed;
    hide Encoded;
    hide SlotNamed;
    hide SlotsIn;
    hide PlacesIn;
    hide SameName;
    if p != [] {
      assert SameStep(valid, table, p[0], q[0]);
      var a, b := Encoded(p[0]).value, Encoded(q[0]).value;
      SearchAlike(valid, table, SlotsIn(g, heap, nodes, d), PlacesIn(g, heap, nodes, d), 0, a, b);
      var found := SlotNamed(valid, table, SlotsIn(g, heap, nodes, d), PlacesIn(g, heap, nodes, d), 0, a);
      if found.Ok? && found.value.Some? && |p| > 1 && Listed(g, heap, nodes, Child(d, found.value.value)) {
        forall i | 0 <= i < |p[1..]|
          ensures SameStep(valid, table, p[1..][i], q[1..][i])
        {
          assert SameStep(valid, table, p[i + 1], q[i + 1]);
        }
        ResolveAlike(g, heap, nodes, valid, table, Child(d, found.value.value), p[1..], q[1..]);
      }
    }
  }

  // ----- where paths lead --------------------------------------------------------------------------

  /** How many directories an owner is in. */
  ghost function Rank(id: Id): nat {
    if id.Child? then 1 + Rank(id.dir) else 0
  }

  /** The directory `n` levels up. */
  ghost function Up(id: Id, n: nat): Id
    decreases n
  {
    if n == 0 then id
    else
      var above := Up(id, n - 1);
      if above.Child? then above.dir else above
  }

  /** A path leads as many levels down as it has names, through what its first
      name is found to be. */
  lemma {:induction false} ResolveUp(g: Geometry, heap: Heap, nodes: Owners, valid: bool, table: seq<byte>, d: Id,
                                     p: Path)
    requires Listed(g, heap, nodes, d) && Resolve(g, heap, nodes, valid, table, d, p).Ok?
    ensures p != [] && Encoded(p[0]).Ok?
    ensures var found := SlotNamed(valid, table, SlotsIn(g, heap, nodes, d), PlacesIn(g, heap, nodes, d), 0,
                                   Encoded(p[0]).value);
            var id := Resolve(g, heap, nodes, valid, table, d, p).value;
            && found.Ok? && found.value.Some? && id.Child? && Rank(id) == Rank(d) + |p|
            && Up(id, |p| - 1) == Child(d, found.value.value)
    decreases |p|
  {
    hide Listed;
    hide Encoded;
    hide SlotNamed;
    hide SlotsIn;
    hide PlacesIn;
    if |p| > 1 {
      var k := SlotNamed(valid, table, SlotsIn(g, heap, nodes, d), PlacesIn(g, heap, nodes, d), 0,
                         Encoded(p[0]).value).value.value;
      ResolveUp(g, heap, nodes, valid, table, Child(d, k), p[1..]);
    }
  }

  /** Two paths that lead to the same are the same up to case. */
  lemma {:induction false} SameTarget(g: Geometry, heap: Heap, nodes: Owners, valid: bool, table: seq<byte>, d: Id,
                                      p: Path, q: Path)
    requires Listed(g, heap, nodes, d) && Resolve(g, heap, nodes, valid, table, d, p).Ok?
    requires Resolve(g, heap, nodes, valid, table, d, p) == Resolve(g, heap, nodes, valid, table, d, q)
    ensures SamePath(valid, table, p, q)
    decreases |p|
  {
    hide Listed;
    hide Encoded;
    hide SlotNamed;
    hide SlotsIn;
    hide PlacesIn;
    hide SameName;
    hide Stored;
    hide NameAt;
    ResolveUp(g, heap, nodes, valid, table, d, p);
    ResolveUp(g, heap, nodes, valid, table, d, q);
    var slots, locs := SlotsIn(g, heap, nodes, d), PlacesIn(g, heap, nodes, d);
    var a, b := Encoded(p[0]).value, Encoded(q[0]).value;
    var k := SlotNamed(valid, table, slots, locs, 0, a).value.value;
    FoundMatches(valid, table, slots, locs, 0, a);
    FoundMatches(valid, table, slots, locs, 0, b);
    MatchedTwice(valid, table, NameAt(slots, k), a, b);
    assert SameStep(valid, table, p[0], q[0]);
    if |p| > 1 {
      SameTarget(g, heap, nodes, valid, table, Child(d, k), p[1..], q[1..]);
      forall i | 0 <= i < |p|
        ensures SameStep(valid, table, p[i], q[i])
      {
        if i > 0 { assert SameStep(valid, table, p[1..][i - 1], q[1..][i - 1]); }
      }
    }
  }

  /** Names that the same name matches match each other. */
  lemma MatchedTwice(valid: bool, table: seq<byte>, x: seq<u16>, a: seq<u16>, b: seq<u16>)
    requires SameName(valid, table, x, a) == Ok(true) && SameName(valid, table, x, b) == Ok(true)
    ensures SameName(valid, table, a, b) == Ok(true)
  {
    hide SameName;
    NameSymmetric(valid, table, x, a);
    SameAlike(valid, table, a, x, b);
  }

  /** A path through a directory that a beginning of it leads to. */
  lemma {:induction false} ResolveJoin(g: Geometry, heap: Heap, nodes: Owners, valid: bool, table: seq<byte>, d: Id,
                                       p: Path, n: nat)
    requires Listed(g, heap, nodes, d) && 0 < n < |p| && Resolve(g, heap, nodes, valid, table, d, p[..n]).Ok?
    ensures var x := Resolve(g, heap, nodes, valid, table, d, p[..n]).value;
            Resolve(g, heap, nodes, valid, table, d, p) ==
              if Listed(g, heap, nodes, x) then Resolve(g, heap, nodes, valid, table, x, p[n..]) else Err(NotDirectory)
    decreases n
  {
    hide Listed;
    hide Encoded;
    hide SlotNamed;
    hide SlotsIn;
    hide PlacesIn;
    assert p[..n][0] == p[0] && p[..n][1..] == p[1..][..n - 1];
    if n > 1 {
      var k := SlotNamed(valid, table, SlotsIn(g, heap, nodes, d), PlacesIn(g, heap, nodes, d), 0,
                         Encoded(p[0]).value).value.value;
      ResolveJoin(g, heap, nodes, valid, table, Child(d, k), p[1..], n - 1);
      assert p[1..][n - 1..] == p[n..];
    }
  }

  /** A path that leads somewhere leads through directories. */
  lemma {:induction false} ResolveFront(g: Geometry, heap: Heap, nodes: Owners, valid: bool, table: seq<byte>, d: Id,
                                        p: Path, n: nat)
    requires Listed(g, heap, nodes, d) && 0 < n < |p| && Resolve(g, heap, nodes, valid, table, d, p).Ok?
    ensures Resolve(g, heap, nodes, valid, table, d, p[..n]).Ok?
    ensures Listed(g, heap, nodes, Resolve(g, heap, nodes, valid, table, d, p[..n]).value)
    decreases n
  {
    hide Listed;
    hide Encoded;
    hide SlotNamed;
    hide SlotsIn;
    hide PlacesIn;
    assert p[..n][0] == p[0] && p[..n][1..] == p[1..][..n - 1];
    if n > 1 {
      var k := SlotNamed(valid, table, SlotsIn(g, heap, nodes, d), PlacesIn(g, heap, nodes, d), 0,
                         Encoded(p[0]).value).value.value;
      ResolveFront(g, heap, nodes, valid, table, Child(d, k), p[1..], n - 1);
    }
  }

  /** A path that fails at a file has a beginning that leads to it. */
  lemma {:induction false} BlockedBy(g: Geometry, heap: Heap, nodes: Owners, valid: bool, table: seq<byte>, d: Id,
                                     p: Path)
    returns (n: nat)
    requires Listed(g, heap, nodes, d) && Resolve(g, heap, nodes, valid, table, d, p) == Err(NotDirectory)
    ensures 0 < n < |p| && Resolve(g, heap, nodes, valid, table, d, p[..n]).Ok?
    ensures !Listed(g, heap, nodes, Resolve(g, heap, nodes, valid, table, d, p[..n]).value)
    decreases |p|
  {
    hide Listed;
    hide Encoded;
    hide SlotNamed;
    hide SlotsIn;
    hide PlacesIn;
    EncodingErrors(p[0]);
    NamedErrors(valid, table, SlotsIn(g, heap, nodes, d), PlacesIn(g, heap, nodes, d), 0, Encoded(p[0]).value);
    var k := SlotNamed(valid, table, SlotsIn(g, heap, nodes, d), PlacesIn(g, heap, nodes, d), 0,
                       Encoded(p[0]).value).value.value;
    if !Listed(g, heap, nodes, Child(d, k)) {
      n := 1;
      assert p[..1] == [p[0]];
    } else {
      var m := BlockedBy(g, heap, nodes, valid, table, Child(d, k), p[1..]);
      n := m + 1;
      assert p[..n][0] == p[0] && p[..n][1..] == p[1..][..m];
    }
  }

  lemma {:induction false} NamedErrors(valid: bool, table: seq<byte>, slots: seq<Slot>, locs: seq<EntryLocator>,
                                       lo: nat, wanted: seq<u16>)
    requires Stored(slots) && |slots| == |locs| && lo <= |slots|
    ensures var r := SlotNamed(valid, table, slots, locs, lo, wanted);
            r.Err? ==> r.error in {UpcaseTableCorrupt, Corrupt}
    decreases |slots| - lo
  {
    hide SameName;
    hide FileSet;
    hide NameAt;
    hide SlotNamed;
    if lo == |slots| {
      NoneBeyond(valid, table, slots, locs, lo, wanted);
    } else {
      NamedStep(valid, table, slots, locs, lo, wanted);
      NamedErrors(valid, table, slots, locs, lo + 1, wanted);
    }
  }

  /** A path with a name that is none fails for that. */
  lemma {:induction false} BadNameIn(g: Geometry, heap: Heap, nodes: Owners, valid: bool, table: seq<byte>, d: Id,
                                     p: Path, e: Error)
    returns (n: nat)
    requires Listed(g, heap, nodes, d) && Resolve(g, heap, nodes, valid, table, d, p) == Err(e)
    requires e in {InvalidPath, NameTooLong}
    ensures n < |p| && Encoded(p[n]) == Err(e)
    decreases |p|
  {
    hide Listed;
    hide Encoded;
    hide SlotNamed;
    hide SlotsIn;
    hide PlacesIn;
    if Encoded(p[0]).Err? {
      n := 0;
    } else {
      NamedErrors(valid, table, SlotsIn(g, heap, nodes, d), PlacesIn(g, heap, nodes, d), 0, Encoded(p[0]).value);
      var k := SlotNamed(valid, table, SlotsIn(g, heap, nodes, d), PlacesIn(g, heap, nodes, d), 0,
                         Encoded(p[0]).value).value.value;
      var m := BadNameIn(g, heap, nodes, valid, table, Child(d, k), p[1..], e);
      n := m + 1;
    }
  }

  /** A path leads to an owner. */
  lemma {:induction false} ResolvesInside(g: Geometry, heap: Heap, nodes: Owners, valid: bool, table: seq<byte>, d: Id,
                                          p: Path)
    requires Inhabited(heap, nodes) && Listed(g, heap, nodes, d) && Resolve(g, heap, nodes, valid, table, d, p).Ok?
    ensures Resolve(g, heap, nodes, valid, table, d, p).value in nodes
    decreases |p|
  {
    hide Encoded;
    hide SlotNamed;
    hide SlotsOf;
    hide Scannable;
    hide Stored;
    ReadsHere(g, heap, nodes, d);
    var slots, locs := SlotsIn(g, heap, nodes, d), PlacesIn(g, heap, nodes, d);
    FoundMatches(valid, table, slots, locs, 0, Encoded(p[0]).value);
    if |p| > 1 {
      var k := SlotNamed(valid, table, slots, locs, 0, Encoded(p[0]).value).value.value;
      ResolvesInside(g, heap, nodes, valid, table, Child(d, k), p[1..]);
    }
  }

  // ----- the map ---------------------------------------------------------------------------------

  datatype Entry = Folder | Bytes(content: seq<byte>)

  ghost function EntryOf(heap: Heap, nodes: Owners, id: Id): Entry
    requires id in nodes
  {
    if nodes[id].isDir then Folder else Bytes(Content(heap, nodes[id]))
  }

  type PathMap = imap<Path, Entry>

  /** What every path leads to. */
  ghost function TreeOf(g: Geometry, heap: Heap, nodes: Owners, valid: bool, table: seq<byte>): PathMap
    requires Listed(g, heap, nodes, Root)
  {
    imap p: Path | Leads(g, heap, nodes, valid, table, p) ::
      EntryOf(heap, nodes, Resolve(g, heap, nodes, valid, table, Root, p).value)
  }

  ghost predicate Leads(g: Geometry, heap: Heap, nodes: Owners, valid: bool, table: seq<byte>, p: Path)
    requires Listed(g, heap, nodes, Root)
  {
    var to := Resolve(g, heap, nodes, valid, table, Root, p);
    to.Ok? && to.value in nodes
  }

  /** The map with `e` at the path, however it is spelled. */
  ghost function Put(valid: bool, table: seq<byte>, t: PathMap, p: Path, e: Entry): PathMap {
    imap q: Path | q in t || SamePath(valid, table, p, q) :: if SamePath(valid, table, p, q) then e else t[q]
  }

  /** The map without the path. */
  ghost function Without(valid: bool, table: seq<byte>, t: PathMap, p: Path): PathMap {
    imap q: Path | q in t && !SamePath(valid, table, p, q) :: t[q]
  }

  ghost predicate Beginning(valid: bool, table: seq<byte>, p: Path, q: Path) {
    1 <= |q| <= |p| && SamePath(valid, table, p[..|q|], q)
  }

  /** The map with directories at the path and all its beginnings. */
  ghost function WithFolders(valid: bool, table: seq<byte>, t: PathMap, p: Path): PathMap {
    imap q: Path | q in t || Beginning(valid, table, p, q) :: if q in t then t[q] else Folder
  }

  /** The same owner means the same before and after. */
  lemma SameEntry(heap0: Heap, nodes0: Owners, heap: Heap, nodes: Owners, id: Id)
    requires id in nodes0 && id in nodes && nodes[id].isDir == nodes0[id].isDir && id != BitmapFile
    requires id in Contents(heap0, nodes0) && id in Contents(heap, nodes) ==>
      Contents(heap, nodes)[id] == Contents(heap0, nodes0)[id]
    ensures EntryOf(heap, nodes, id) == EntryOf(heap0, nodes0, id)
  {
    hide Content;
  }

  lemma FileEntry(heap: Heap, nodes: Owners, id: Id)
    requires IsFile(nodes, id)
    ensures id in Contents(heap, nodes) && EntryOf(heap, nodes, id) == Bytes(Contents(heap, nodes)[id])
  {
    hide Content;
  }

  /** Where the map has the path, and what. */
  lemma TreeAt(g: Geometry, heap: Heap, nodes: Owners, valid: bool, table: seq<byte>, p: Path)
    requires Listed(g, heap, nodes, Root) && Inhabited(heap, nodes)
    ensures var to := Resolve(g, heap, nodes, valid, table, Root, p); var t := TreeOf(g, heap, nodes, valid, table);
            && (p in t <==> to.Ok?)
            && (to.Ok? ==> to.value in nodes && to.value.Child? && t[p] == EntryOf(heap, nodes, to.value))
  {
    hide Listed;
    hide Resolve;
    hide Inhabited;
    hide EntryOf;
    if Resolve(g, heap, nodes, valid, table, Root, p).Ok? {
      ResolvesInside(g, heap, nodes, valid, table, Root, p);
      ResolveUp(g, heap, nodes, valid, table, Root, p);
    }
  }

  /** What one path comes to when nothing is lost and only `id` is new or written:
      the value at each path. */
  lemma PutAt(g: Geometry, heap0: Heap, nodes0: Owners, heap: Heap, nodes: Owners, valid: bool, table: seq<byte>,
              p: Path, id: Id, bytes: seq<byte>, q: Path)
    requires PathsKept(g, heap0, nodes0, heap, nodes, valid, table)
    requires Inhabited(heap0, nodes0) && Inhabited(heap, nodes)
    requires Resolve(g, heap, nodes, valid, table, Root, p) == Ok(id) && IsFile(nodes, id)
    requires Contents(heap, nodes) == Contents(heap0, nodes0)[id := bytes]
    requires forall e :: e in nodes ==> e in nodes0 || e == id
    ensures var t, t' := TreeOf(g, heap0, nodes0, valid, table), TreeOf(g, heap, nodes, valid, table);
            && (q in t' <==> q in t || SamePath(valid, table, p, q))
            && (q in t' ==> t'[q] == if SamePath(valid, table, p, q) then Bytes(bytes) else t[q])
  {
    hide Listed;
    hide Resolve;
    hide Inhabited;
    hide EntryOf;
    hide Contents;
    hide RootStands;
    hide TreeOf;
    hide SamePath;
    TreeAt(g, heap0, nodes0, valid, table, q);
    TreeAt(g, heap, nodes, valid, table, q);
    if SamePath(valid, table, p, q) {
      ResolveAlike(g, heap, nodes, valid, table, Root, p, q);
      FileEntry(heap, nodes, id);
    } else {
      var now := Resolve(g, heap, nodes, valid, table, Root, q);
      if now == Ok(id) { SameTarget(g, heap, nodes, valid, table, Root, p, q); }
      if now.Ok? { SameEntry(heap0, nodes0, heap, nodes, now.value); }
    }
  }

  /** A file created, emptied or written at a path: the map has its bytes there, and
      is otherwise as it was. */
  lemma PutTree(g: Geometry, heap0: Heap, nodes0: Owners, heap: Heap, nodes: Owners, valid: bool, table: seq<byte>,
                p: Path, id: Id, bytes: seq<byte>)
    requires PathsKept(g, heap0, nodes0, heap, nodes, valid, table)
    requires Inhabited(heap0, nodes0) && Inhabited(heap, nodes)
    requires Resolve(g, heap, nodes, valid, table, Root, p) == Ok(id) && IsFile(nodes, id)
    requires Contents(heap, nodes) == Contents(heap0, nodes0)[id := bytes]
    requires forall e :: e in nodes ==> e in nodes0 || e == id
    ensures TreeOf(g, heap, nodes, valid, table)
         == Put(valid, table, TreeOf(g, heap0, nodes0, valid, table), p, Bytes(bytes))
  {
    hide PathsKept;
    hide Listed;
    hide Resolve;
    hide Inhabited;
    hide Contents;
    hide TreeOf;
    hide SamePath;
    PathsListed(g, heap0, nodes0, heap, nodes, valid, table);
    var t, t' := TreeOf(g, heap0, nodes0, valid, table), TreeOf(g, heap, nodes, valid, table);
    forall q: Path
      ensures q in t' <==> q in t || SamePath(valid, table, p, q)
      ensures q in t' ==> t'[q] == if SamePath(valid, table, p, q) then Bytes(bytes) else t[q]
    {
      PutAt(g, heap0, nodes0, heap, nodes, valid, table, p, id, bytes, q);
    }
  }

  lemma PathsListed(g: Geometry, heap0: Heap, nodes0: Owners, heap: Heap, nodes: Owners, valid: bool, table: seq<byte>)
    requires PathsKept(g, heap0, nodes0, heap, nodes, valid, table)
    ensures Listed(g, heap0, nodes0, Root) && Listed(g, heap, nodes, Root) && KindsKept(nodes0, nodes)
  {
    hide Listed;
    hide RootStands;
    hide Resolve;
  }

  /** When nothing is new and no bytes change, the map is the same. */
  lemma SameTree(g: Geometry, heap0: Heap, nodes0: Owners, heap: Heap, nodes: Owners, valid: bool, table: seq<byte>)
    requires PathsKept(g, heap0, nodes0, heap, nodes, valid, table)
    requires Inhabited(heap0, nodes0) && Inhabited(heap, nodes)
    requires Contents(heap, nodes) == Contents(heap0, nodes0) && forall e :: e in nodes ==> e in nodes0
    ensures Listed(g, heap0, nodes0, Root) && Listed(g, heap, nodes, Root)
    ensures TreeOf(g, heap, nodes, valid, table) == TreeOf(g, heap0, nodes0, valid, table)
  {
    hide Listed;
    hide Resolve;
    hide Inhabited;
    hide EntryOf;
    hide Contents;
    hide RootStands;
    hide TreeOf;
    var t, t' := TreeOf(g, heap0, nodes0, valid, table), TreeOf(g, heap, nodes, valid, table);
    forall q: Path
      ensures q in t' <==> q in t
      ensures q in t' ==> t'[q] == t[q]
    {
      TreeAt(g, heap0, nodes0, valid, table, q);
      TreeAt(g, heap, nodes, valid, table, q);
      var now := Resolve(g, heap, nodes, valid, table, Root, q);
      if now.Ok? { SameEntry(heap0, nodes0, heap, nodes, now.value); }
    }
  }

  /** Directories made along a path. */
  lemma FoldersAt(g: Geometry, heap0: Heap, nodes0: Owners, heap: Heap, nodes: Owners, valid: bool, table: seq<byte>,
                  p: Path, q: Path)
    requires PathsKept(g, heap0, nodes0, heap, nodes, valid, table)
    requires Inhabited(heap0, nodes0) && Inhabited(heap, nodes)
    requires Contents(heap, nodes) == Contents(heap0, nodes0) && Laid(g, valid, heap, nodes, nodes0, table, p)
    ensures var t, t' := TreeOf(g, heap0, nodes0, valid, table), TreeOf(g, heap, nodes, valid, table);
            && (q in t' <==> q in t || Beginning(valid, table, p, q))
            && (q in t' ==> t'[q] == if q in t then t[q] else Folder)
            && (Beginning(valid, table, p, q) ==> t'[q] == Folder)
  {
    hide Listed;
    hide Resolve;
    hide Inhabited;
    hide Contents;
    hide RootStands;
    hide TreeOf;
    hide SamePath;
    TreeAt(g, heap0, nodes0, valid, table, q);
    TreeAt(g, heap, nodes, valid, table, q);
    if Beginning(valid, table, p, q) {
      assert LeadsToDirectory(g, valid, heap, nodes, table, p[..|q|]);
      ResolveAlike(g, heap, nodes, valid, table, Root, p[..|q|], q);
    }
    var now := Resolve(g, heap, nodes, valid, table, Root, q);
    if now.Ok? {
      if now.value in nodes0 {
        SameEntry(heap0, nodes0, heap, nodes, now.value);
      } else {
        var i :| 1 <= i <= |p| && Resolve(g, heap, nodes, valid, table, Root, p[..i]) == now;
        assert LeadsToDirectory(g, valid, heap, nodes, table, p[..i]);
        SameTarget(g, heap, nodes, valid, table, Root, p[..i], q);
        assert |q| == i by { SameLength(valid, table, p[..i], q); }
      }
    }
  }

  lemma SameLength(valid: bool, table: seq<byte>, p: Path, q: Path)
    requires SamePath(valid, table, p, q)
    ensures |p| == |q|
  {
  }

  lemma FoldersTree(g: Geometry, heap0: Heap, nodes0: Owners, heap: Heap, nodes: Owners, valid: bool, table: seq<byte>,
                    p: Path)
    requires PathsKept(g, heap0, nodes0, heap, nodes, valid, table)
    requires Inhabited(heap0, nodes0) && Inhabited(heap, nodes)
    requires Contents(heap, nodes) == Contents(heap0, nodes0) && Laid(g, valid, heap, nodes, nodes0, table, p)
    ensures Listed(g, heap0, nodes0, Root) && Listed(g, heap, nodes, Root)
    ensures var t := TreeOf(g, heap0, nodes0, valid, table);
            && TreeOf(g, heap, nodes, valid, table) == WithFolders(valid, table, t, p)
            && forall q :: q in t && Beginning(valid, table, p, q) ==> t[q] == Folder
  {
    hide PathsKept;
    hide Listed;
    hide Resolve;
    hide Inhabited;
    hide Contents;
    hide TreeOf;
    hide Laid;
    hide Beginning;
    PathsListed(g, heap0, nodes0, heap, nodes, valid, table);
    var t, t' := TreeOf(g, heap0, nodes0, valid, table), TreeOf(g, heap, nodes, valid, table);
    forall q: Path
      ensures q in t' <==> q in t || Beginning(valid, table, p, q)
      ensures q in t' ==> t'[q] == if q in t then t[q] else Folder
      ensures q in t && Beginning(valid, table, p, q) ==> t[q] == Folder
    {
      FoldersAt(g, heap0, nodes0, heap, nodes, valid, table, p, q);
    }
  }

  /** A removal at a path. */
  lemma WithoutTree(fs: FileSystem, heap0: Heap, nodes0: Owners, table: seq<byte>, p: Path, id: Id)
    requires Unreached(fs, heap0, nodes0, table, id) && NamesDistinct(fs.g, heap0, nodes0, fs.upcaseValid, table)
    requires Inhabited(heap0, nodes0) && Inhabited(fs.heap, fs.nodes) && fs.nodes == nodes0 - {id}
    requires Contents(fs.heap, fs.nodes) == Contents(heap0, nodes0) - {id}
    requires Resolve(fs.g, heap0, nodes0, fs.upcaseValid, table, Root, p) == Ok(id)
    ensures TreeOf(fs.g, fs.heap, fs.nodes, fs.upcaseValid, table)
         == Without(fs.upcaseValid, table, TreeOf(fs.g, heap0, nodes0, fs.upcaseValid, table), p)
  {
    hide Listed;
    hide Resolve;
    hide Inhabited;
    hide EntryOf;
    hide Contents;
    hide RootStands;
    hide TreeOf;
    hide SamePath;
    hide NamesDistinct;
    hide NamesProper;
    var g, valid := fs.g, fs.upcaseValid;
    var t, t' := TreeOf(g, heap0, nodes0, valid, table), TreeOf(g, fs.heap, fs.nodes, valid, table);
    forall q: Path
      ensures q in t' <==> q in t && !SamePath(valid, table, p, q)
      ensures q in t' ==> t'[q] == t[q]
    {
      TreeAt(g, heap0, nodes0, valid, table, q);
      TreeAt(g, fs.heap, fs.nodes, valid, table, q);
      if SamePath(valid, table, p, q) { ResolveAlike(g, heap0, nodes0, valid, table, Root, p, q); }
      var was := Resolve(g, heap0, nodes0, valid, table, Root, q);
      if was == Ok(id) { SameTarget(g, heap0, nodes0, valid, table, Root, p, q); }
      if was.Ok? && was.value != id { SameEntry(heap0, nodes0, fs.heap, fs.nodes, was.value); }
    }
  }

  // ----- what a refusal says ---------------------------------------------------------------------

  /** What stays the same throughout: the geometry, the up-case table, and whether
      all stored names are proper. */
  datatype Ground = Ground(g: Geometry, valid: bool, table: seq<byte>, proper: bool)

  /** Name `n` of the path is one, but hashing it fails with `e`. */
  ghost predicate CannotFold(w: Ground, p: Path, e: Error, n: nat) {
    n < |p| && Encoded(p[n]).Ok? && HashOf(w.valid, w.table, Encoded(p[n]).value) == Err(e)
  }

  /** A name of the path cannot be folded; or, if not all stored names are proper, one
      it was compared with. */
  ghost predicate Uncomparable(w: Ground, p: Path, e: Error) {
    e in {UpcaseTableCorrupt, Corrupt} && (w.proper ==> exists n :: CannotFold(w, p, e, n))
  }

  /** The first `n` names of the path lead to a file. */
  ghost predicate FileAt(t: PathMap, p: Path, n: nat) {
    0 < n < |p| && p[..n] in t && t[p[..n]].Bytes?
  }

  ghost predicate BadName(p: Path, e: Error, n: nat) {
    n < |p| && Encoded(p[n]) == Err(e)
  }

  /** What a failed search for the path says about the map. */
  ghost predicate Explained(w: Ground, t: PathMap, p: Path, e: Error) {
    match e
    case PathNotFound => p !in t && forall n :: !FileAt(t, p, n)
    case NotDirectory => exists n :: FileAt(t, p, n)
    case InvalidPath => exists n :: BadName(p, e, n)
    case NameTooLong => exists n :: BadName(p, e, n)
    case _ => Uncomparable(w, p, e)
  }

  lemma ListedIsFolder(g: Geometry, heap: Heap, nodes: Owners, id: Id)
    requires AllListed(g, heap, nodes) && id in nodes
    ensures Listed(g, heap, nodes, id) <==> EntryOf(heap, nodes, id) == Folder
  {
    hide Scannable;
    hide Stored;
    hide SlotsOf;
    hide Content;
  }

  /** Among proper names a search fails to compare only on the path's account. */
  lemma {:induction false} CannotFoldIn(w: Ground, heap: Heap, nodes: Owners, d: Id, p: Path, e: Error)
    returns (n: nat)
    requires NamesProper(w.g, heap, nodes, w.valid, w.table) && Listed(w.g, heap, nodes, d)
    requires Resolve(w.g, heap, nodes, w.valid, w.table, d, p) == Err(e) && e in {UpcaseTableCorrupt, Corrupt}
    ensures CannotFold(w, p, e, n)
    decreases |p|
  {
    hide Listed;
    hide Encoded;
    hide SlotNamed;
    hide SlotsIn;
    hide PlacesIn;
    hide HashOf;
    hide NamesProper;
    EncodingErrors(p[0]);
    var units := Encoded(p[0]).value;
    var found := SlotNamed(w.valid, w.table, SlotsIn(w.g, heap, nodes, d), PlacesIn(w.g, heap, nodes, d), 0, units);
    if found.Err? {
      ProperHere(w, heap, nodes, d);
      SearchFails(w.valid, w.table, SlotsIn(w.g, heap, nodes, d), PlacesIn(w.g, heap, nodes, d), 0, units, e);
      n := 0;
    } else {
      var m := CannotFoldIn(w, heap, nodes, Child(d, found.value.value), p[1..], e);
      n := m + 1;
    }
  }

  lemma ProperHere(w: Ground, heap: Heap, nodes: Owners, d: Id)
    requires NamesProper(w.g, heap, nodes, w.valid, w.table) && Listed(w.g, heap, nodes, d)
    ensures AllProper(w.valid, w.table, SlotsIn(w.g, heap, nodes, d))
  {
    hide AllProper;
    hide Scannable;
    hide Stored;
    hide SlotsOf;
  }

  lemma Explains(w: Ground, heap: Heap, nodes: Owners, p: Path, e: Error)
    requires Listed(w.g, heap, nodes, Root) && Inhabited(heap, nodes) && AllListed(w.g, heap, nodes)
    requires Resolve(w.g, heap, nodes, w.valid, w.table, Root, p) == Err(e)
    requires w.proper ==> NamesProper(w.g, heap, nodes, w.valid, w.table)
    ensures Explained(w, TreeOf(w.g, heap, nodes, w.valid, w.table), p, e)
  {
    hide NamesProper;
    hide HashOf;
    hide Listed;
    hide Resolve;
    hide Inhabited;
    hide AllListed;
    hide TreeOf;
    hide EntryOf;
    hide Encoded;
    var g, valid, table := w.g, w.valid, w.table;
    var t := TreeOf(g, heap, nodes, valid, table);
    TreeAt(g, heap, nodes, valid, table, p);
    ResolveErrors(g, heap, nodes, valid, table, Root, p);
    if e == PathNotFound {
      forall n: nat
        ensures !FileAt(t, p, n)
      {
        if FileAt(t, p, n) {
          TreeAt(g, heap, nodes, valid, table, p[..n]);
          ResolveJoin(g, heap, nodes, valid, table, Root, p, n);
          ListedIsFolder(g, heap, nodes, Resolve(g, heap, nodes, valid, table, Root, p[..n]).value);
        }
      }
    } else if e == NotDirectory {
      var n := BlockedBy(g, heap, nodes, valid, table, Root, p);
      TreeAt(g, heap, nodes, valid, table, p[..n]);
      ListedIsFolder(g, heap, nodes, Resolve(g, heap, nodes, valid, table, Root, p[..n]).value);
      assert FileAt(t, p, n);
    } else if e in {InvalidPath, NameTooLong} {
      var n := BadNameIn(g, heap, nodes, valid, table, Root, p, e);
      assert BadName(p, e, n);
    } else if w.proper {
      var n := CannotFoldIn(w, heap, nodes, Root, p, e);
      assert CannotFold(w, p, e, n);
    }
  }

  /** Why no file is made at a path. */
  ghost predicate Unmakable(w: Ground, t: PathMap, p: Path, e: Error) {
    match e
    case NoSpace => p != [] && Explained(w, t, p, PathNotFound) && InFolder(t, p)
    case IsDirectory => p in t && t[p] == Folder
    case PathNotFound => |p| > 1 && Explained(w, t, p[..|p| - 1], e)
    case NotDirectory => exists n :: FileAt(t, p, n)
    case InvalidPath => p == [] || exists n :: BadName(p, e, n)
    case NameTooLong => exists n :: BadName(p, e, n)
    case _ => Uncomparable(w, p, e)
  }

  lemma UncreatableIs(w: Ground, heap: Heap, nodes: Owners, p: Path, e: Error)
    requires Listed(w.g, heap, nodes, Root) && Inhabited(heap, nodes) && AllListed(w.g, heap, nodes)
    requires Uncreatable(w.g, heap, nodes, w.valid, w.table, p, e) && e != NoSpace
    requires w.proper ==> NamesProper(w.g, heap, nodes, w.valid, w.table)
    ensures Unmakable(w, TreeOf(w.g, heap, nodes, w.valid, w.table), p, e)
  {
    hide FileAt;
    hide InFolder;
    hide NoRoomAt;
    hide NamesProper;
    hide Listed;
    hide Resolve;
    hide Inhabited;
    hide AllListed;
    hide TreeOf;
    hide EntryOf;
    hide Encoded;
    hide HashOf;
    hide Uncomparable;
    hide BadName;
    var g, valid, table := w.g, w.valid, w.table;
    var t := TreeOf(g, heap, nodes, valid, table);
    if p != [] {
      var to, last := Resolve(g, heap, nodes, valid, table, Root, p), Encoded(p[|p| - 1]);
      TreeAt(g, heap, nodes, valid, table, p);
      if last == Err(e) || (last.Ok? && HashOf(valid, table, last.value) == Err(e)) {
        LastNameBars(w, t, p, e);
      } else if to == Err(e) && e != PathNotFound {
        Explains(w, heap, nodes, p, e);
        ResolveErrors(g, heap, nodes, valid, table, Root, p);
      } else if to.Ok? && to.value in nodes && nodes[to.value].isDir && e == IsDirectory {
        FolderEntry(heap, nodes, to.value);
      } else {
        ParentExplains(w, heap, nodes, p, e);
      }
    }
  }

  /** The path's last name is none, or cannot be hashed. */
  lemma LastNameBars(w: Ground, t: PathMap, p: Path, e: Error)
    requires p != []
    requires var last := Encoded(p[|p| - 1]);
             last == Err(e) || (last.Ok? && HashOf(w.valid, w.table, last.value) == Err(e))
    ensures Unmakable(w, t, p, e)
  {
    hide Encoded;
    hide Folded;
    EncodingErrors(p[|p| - 1]);
    if Encoded(p[|p| - 1]).Err? {
      assert BadName(p, e, |p| - 1);
    } else {
      assert CannotFold(w, p, e, |p| - 1);
    }
  }

  lemma FolderEntry(heap: Heap, nodes: Owners, id: Id)
    requires id in nodes
    ensures EntryOf(heap, nodes, id) == Folder <==> nodes[id].isDir
  {
  }

  /** The path to the directory fails, or leads to a file. */
  lemma ParentExplains(w: Ground, heap: Heap, nodes: Owners, p: Path, e: Error)
    requires Listed(w.g, heap, nodes, Root) && Inhabited(heap, nodes) && AllListed(w.g, heap, nodes) && |p| > 1
    requires var parent := Resolve(w.g, heap, nodes, w.valid, w.table, Root, p[..|p| - 1]);
             if parent.Err? then parent.error == e
             else e == NotDirectory && parent.value in nodes && !nodes[parent.value].isDir
    requires w.proper ==> NamesProper(w.g, heap, nodes, w.valid, w.table)
    ensures e != NoSpace && Unmakable(w, TreeOf(w.g, heap, nodes, w.valid, w.table), p, e)
  {
    hide NamesProper;
    hide HashOf;
    hide Listed;
    hide Resolve;
    hide Inhabited;
    hide AllListed;
    hide TreeOf;
    hide EntryOf;
    hide Encoded;
    var g, valid, table := w.g, w.valid, w.table;
    var t, q := TreeOf(g, heap, nodes, valid, table), p[..|p| - 1];
    assert forall n :: 0 <= n <= |q| ==> q[..n] == p[..n];
    TreeAt(g, heap, nodes, valid, table, q);
    var parent := Resolve(g, heap, nodes, valid, table, Root, q);
    if parent.Ok? {
      FolderEntry(heap, nodes, parent.value);
      assert FileAt(t, p, |q|);
    } else {
      Explains(w, heap, nodes, q, e);
      ResolveErrors(g, heap, nodes, valid, table, Root, q);
      if e == NotDirectory {
        var n :| FileAt(t, q, n);
        assert FileAt(t, p, n);
      } else if e in {InvalidPath, NameTooLong} {
        var n :| BadName(q, e, n);
        assert BadName(p, e, n);
      } else if e in {UpcaseTableCorrupt, Corrupt} && w.proper {
        var n :| CannotFold(w, q, e, n);
        assert CannotFold(w, p, e, n);
      }
    }
  }

  /** The path's directory is there. */
  ghost predicate InFolder(t: PathMap, p: Path) {
    |p| > 1 ==> p[..|p| - 1] in t && t[p[..|p| - 1]] == Folder
  }

  /** Everything on the map is in a directory on the map. */
  lemma InsideFolder(g: Geometry, heap: Heap, nodes: Owners, valid: bool, table: seq<byte>, p: Path)
    requires Listed(g, heap, nodes, Root) && Inhabited(heap, nodes) && AllListed(g, heap, nodes)
    requires p in TreeOf(g, heap, nodes, valid, table)
    ensures InFolder(TreeOf(g, heap, nodes, valid, table), p)
  {
    hide Listed;
    hide Resolve;
    hide Inhabited;
    hide AllListed;
    hide TreeOf;
    hide EntryOf;
    TreeAt(g, heap, nodes, valid, table, p);
    if |p| > 1 {
      var q := p[..|p| - 1];
      ResolveFront(g, heap, nodes, valid, table, Root, p, |q|);
      TreeAt(g, heap, nodes, valid, table, q);
      ListedIsFolder(g, heap, nodes, Resolve(g, heap, nodes, valid, table, Root, q).value);
    }
  }

  /** Nothing on the map is below the path. */
  ghost predicate NothingBelow(valid: bool, table: seq<byte>, t: PathMap, p: Path) {
    forall q: Path :: |q| > |p| && SamePath(valid, table, p, q[..|p|]) ==> q !in t
  }

  lemma ChildlessIsLeaf(g: Geometry, heap: Heap, nodes: Owners, valid: bool, table: seq<byte>, p: Path, id: Id)
    requires Listed(g, heap, nodes, Root) && Inhabited(heap, nodes)
    requires Resolve(g, heap, nodes, valid, table, Root, p) == Ok(id) && forall j: nat :: Child(id, j) !in nodes
    ensures NothingBelow(valid, table, TreeOf(g, heap, nodes, valid, table), p)
  {
    hide Listed;
    hide Resolve;
    hide Inhabited;
    hide TreeOf;
    hide SamePath;
    var t := TreeOf(g, heap, nodes, valid, table);
    ResolveUp(g, heap, nodes, valid, table, Root, p);
    forall q: Path | |q| > |p| && SamePath(valid, table, p, q[..|p|])
      ensures q !in t
    {
      ResolveAlike(g, heap, nodes, valid, table, Root, p, q[..|p|]);
      ResolveJoin(g, heap, nodes, valid, table, Root, q, |p|);
      if Listed(g, heap, nodes, id) { ChildlessEnds(g, heap, nodes, valid, table, id, q[|p|..]); }
      TreeAt(g, heap, nodes, valid, table, q);
    }
  }

  /** Below a directory that lists anything some path leads on, when all names are
      proper. */
  lemma OccupiedIsBranch(w: Ground, heap: Heap, nodes: Owners, p: Path, id: Id)
    requires Listed(w.g, heap, nodes, Root) && Inhabited(heap, nodes)
    requires NamesProper(w.g, heap, nodes, w.valid, w.table) && Listed(w.g, heap, nodes, id)
    requires Resolve(w.g, heap, nodes, w.valid, w.table, Root, p) == Ok(id) && ListHere(w.g, heap, nodes, id) != []
    ensures !NothingBelow(w.valid, w.table, TreeOf(w.g, heap, nodes, w.valid, w.table), p)
  {
    hide Listed;
    hide Resolve;
    hide Inhabited;
    hide NamesProper;
    hide TreeOf;
    hide SamePath;
    hide EntryOf;
    hide ListHere;
    var g, valid, table := w.g, w.valid, w.table;
    var last := StoredSpelling(w, heap, nodes, id);
    ResolveUp(g, heap, nodes, valid, table, Root, p);
    ResolveLast(g, heap, nodes, valid, table, Root, p, last, id);
    TreeAt(g, heap, nodes, valid, table, p + [last]);
    SameTarget(g, heap, nodes, valid, table, Root, p, p);
    assert (p + [last])[..|p|] == p;
  }

  lemma StoredSpelling(w: Ground, heap: Heap, nodes: Owners, d: Id) returns (last: seq<Scalar>)
    requires NamesProper(w.g, heap, nodes, w.valid, w.table) && Listed(w.g, heap, nodes, d)
    requires ListHere(w.g, heap, nodes, d) != []
    ensures Resolve(w.g, heap, nodes, w.valid, w.table, d, [last]).Ok?
  {
    hide Listed;
    hide NamesProper;
    hide Stored;
    hide NameAt;
    hide SlotNamed;
    hide Foldable;
    hide Encoded;
    hide SlotsIn;
    hide PlacesIn;
    hide ListHere;
    var slots, locs := SlotsIn(w.g, heap, nodes, d), PlacesIn(w.g, heap, nodes, d);
    ProperHere(w, heap, nodes, d);
    var k := SomeSet(w.g, heap, nodes, d);
    StoredAt(slots, k);
    last :| Encoded(last) == Ok(NameAt(slots, k));
    FindsStored(w.valid, w.table, slots, locs, 0, k);
  }

  /** A directory that lists anything starts a set. */
  lemma SomeSet(g: Geometry, heap: Heap, nodes: Owners, d: Id) returns (k: nat)
    requires Listed(g, heap, nodes, d) && ListHere(g, heap, nodes, d) != []
    ensures k < |SlotsIn(g, heap, nodes, d)| && SlotsIn(g, heap, nodes, d)[k][0] == 0x85
  {
    hide Scannable;
    hide Stored;
    hide RecordAt;
    var slots, locs := SlotsIn(g, heap, nodes, d), PlacesIn(g, heap, nodes, d);
    if forall k :: 0 <= k < |slots| ==> slots[k][0] != 0x85 { NoRecords(slots, locs, 0, |slots|); }
    k :| 0 <= k < |slots| && slots[k][0] == 0x85;
  }

  // ----- a walk that is refused --------------------------------------------------------------------

  /** What bars the way at name `n` of a path: the names before it are directories,
      and it is a file, no name, one that cannot be folded, or, for want of room,
      missing. */
  ghost predicate Barrier(w: Ground, t: PathMap, p: Path, n: nat, e: Error) {
    && n < |p| && (forall q :: q in t && Beginning(w.valid, w.table, p[..n], q) ==> t[q] == Folder)
    && match e
       case NotDirectory => p[..n + 1] in t && t[p[..n + 1]].Bytes?
       case InvalidPath => Encoded(p[n]) == Err(e)
       case NameTooLong => Encoded(p[n]) == Err(e)
       case NoSpace => Encoded(p[n]).Ok? && p[..n + 1] !in t
       case _ => UncomparableAt(w, p, e, n)
  }

  /** The name cannot be folded; or, if not all stored names are proper, one it was
      compared with. */
  ghost predicate UncomparableAt(w: Ground, p: Path, e: Error, n: nat) {
    e in {UpcaseTableCorrupt, Corrupt} && n < |p| && Encoded(p[n]).Ok? && (w.proper ==> CannotFold(w, p, e, n))
  }

  /** The map at the last stage of a walk. */
  lemma ClimbedTree(g: Geometry, valid: bool, table: seq<byte>, a: Stage, stages: seq<Stage>, b: Stage, p: Path)
    requires Climbed(g, valid, table, a, stages, b, p)
    requires Inhabited(a.heap, a.nodes) && Inhabited(b.heap, b.nodes)
    ensures PathsKept(g, a.heap, a.nodes, b.heap, b.nodes, valid, table)
    ensures Listed(g, a.heap, a.nodes, Root) && Listed(g, b.heap, b.nodes, Root)
    ensures TreeOf(g, b.heap, b.nodes, valid, table)
         == WithFolders(valid, table, TreeOf(g, a.heap, a.nodes, valid, table), p)
    ensures forall q :: q in TreeOf(g, a.heap, a.nodes, valid, table) && Beginning(valid, table, p, q) ==>
      TreeOf(g, a.heap, a.nodes, valid, table)[q] == Folder
  {
    hide Listed;
    hide Resolve;
    hide Inhabited;
    hide Contents;
    hide TreeOf;
    hide Along;
    hide Laid;
    hide PathsKept;
    hide WithFolders;
    hide Beginning;
    ClimbedParts(g, valid, table, a, stages, b, p);
    AlongKeeps(g, valid, b.heap, b.nodes, a.heap, a.nodes, table, p, b.id);
    FoldersTree(g, a.heap, a.nodes, b.heap, b.nodes, valid, table, p);
  }

  lemma AlongKeeps(g: Geometry, valid: bool, heap: Heap, nodes: Owners, heap0: Heap, nodes0: Owners, table: seq<byte>,
                   p: Path, id: Id)
    requires Along(g, valid, heap, nodes, heap0, nodes0, table, p, id)
    ensures PathsKept(g, heap0, nodes0, heap, nodes, valid, table)
    ensures UpcaseFile in nodes && Content(heap, nodes[UpcaseFile]) == table
    ensures NamesKept(g, heap0, nodes0, heap, nodes, valid, table)
    ensures Listed(g, heap, nodes, Root)
    ensures if p == [] then id == Root else Resolve(g, heap, nodes, valid, table, Root, p) == Ok(id)
  {
    hide Resolve;
    hide Listed;
    hide NamesDistinct;
    hide NamesProper;
    hide Content;
    hide RootStands;
  }

  /** A file in the way was there before the walk. */
  lemma BarredByFile(g: Geometry, valid: bool, table: seq<byte>, a: Stage, stages: seq<Stage>, b: Stage, p: Path,
                     n: nat, k: nat)
    requires n < |p| && Climbed(g, valid, table, a, stages, b, p[..n])
    requires Inhabited(a.heap, a.nodes) && Inhabited(b.heap, b.nodes) && AllListed(g, a.heap, a.nodes)
    requires Encoded(p[n]).Ok? && Listed(g, b.heap, b.nodes, b.id)
    requires SlotNamed(valid, table, SlotsIn(g, b.heap, b.nodes, b.id), PlacesIn(g, b.heap, b.nodes, b.id), 0,
                       Encoded(p[n]).value) == Ok(Some(k))
    requires Child(b.id, k) in b.nodes && !b.nodes[Child(b.id, k)].isDir
    ensures Listed(g, a.heap, a.nodes, Root)
    ensures var t := TreeOf(g, a.heap, a.nodes, valid, table);
            p[..n + 1] in t && t[p[..n + 1]].Bytes?
  {
    hide Listed;
    hide Resolve;
    hide Inhabited;
    hide AllListed;
    hide Contents;
    hide TreeOf;
    hide Along;
    hide Climbed;
    hide SlotNamed;
    hide SlotsIn;
    hide PlacesIn;
    hide Encoded;
    hide EntryOf;
    hide RootStands;
    hide WithFolders;
    ClimbedParts(g, valid, table, a, stages, b, p[..n]);
    AlongKeeps(g, valid, b.heap, b.nodes, a.heap, a.nodes, table, p[..n], b.id);
    var x, q := Child(b.id, k), p[..n + 1];
    assert q == p[..n] + [p[n]];
    ResolveVia(g, b.heap, b.nodes, valid, table, b.id, [p[n]], Encoded(p[n]).value, k);
    ResolveLast(g, b.heap, b.nodes, valid, table, Root, p[..n], p[n], b.id);
    FileIsOld(g, valid, b.heap, b.nodes, a.nodes, table, p[..n], x);
    assert Resolve(g, a.heap, a.nodes, valid, table, Root, q) == Ok(x);
    var t := TreeOf(g, a.heap, a.nodes, valid, table);
    TreeAt(g, a.heap, a.nodes, valid, table, q);
    FolderEntry(a.heap, a.nodes, x);
  }

  /** What is new on a walk is directories. */
  lemma FileIsOld(g: Geometry, valid: bool, heap: Heap, nodes: Owners, nodes0: Owners, table: seq<byte>, p: Path, x: Id)
    requires Laid(g, valid, heap, nodes, nodes0, table, p) && x in nodes
    ensures x in nodes0 || nodes[x].isDir
  {
    hide Listed;
    hide Resolve;
    if x !in nodes0 {
      var i :| 1 <= i <= |p| && Resolve(g, heap, nodes, valid, table, Root, p[..i]) == Ok(x);
      assert LeadsToDirectory(g, valid, heap, nodes, table, p[..i]);
    }
  }

  /** What a refused walk has come to. */
  lemma HaltedTree(fs: FileSystem, w: Ground, a: Stage, stages: seq<Stage>, at: Stage, p: Path, n: nat, e: Error)
    requires w.g == fs.g && w.valid == fs.upcaseValid && n < |p|
    requires Climbed(w.g, w.valid, w.table, a, stages, at, p[..n]) && Halted(fs, w.table, at, p[n], e)
    requires Inhabited(a.heap, a.nodes) && AllListed(w.g, a.heap, a.nodes)
    requires w.proper ==> NamesProper(w.g, a.heap, a.nodes, w.valid, w.table)
    ensures Listed(w.g, a.heap, a.nodes, Root) && Listed(w.g, at.heap, at.nodes, Root)
    ensures var t := TreeOf(w.g, a.heap, a.nodes, w.valid, w.table);
            && Barrier(w, t, p, n, e)
            && TreeOf(w.g, at.heap, at.nodes, w.valid, w.table) == WithFolders(w.valid, w.table, t, p[..n])
  {
    hide NamesDistinct;
    hide Full;
    hide Wanting;
    hide RootStands;
    hide Laid;
    hide EntryOf;
    hide FileSystem.Valid;
    hide OwnOk;
    hide TreeOk;
    hide TreeBut;
    hide Listed;
    hide Resolve;
    hide Inhabited;
    hide AllListed;
    hide Contents;
    hide TreeOf;
    hide Along;
    hide Climbed;
    hide SlotNamed;
    hide SlotsIn;
    hide PlacesIn;
    hide Encoded;
    hide UncomparableAt;
    hide StillStands;
    hide WithFolders;
    hide Beginning;
    hide LeavesNoGap;
    hide HashOf;
    hide NamesProper;
    hide PathsKept;
    var name := p[n];
    ClimbedTree(w.g, w.valid, w.table, a, stages, at, p[..n]);
    if e == NoSpace {
      StillMissing(w, a, stages, at, p, n);
    } else {
      EncodingErrors(name);
      if Encoded(name).Ok? {
        BarredHere(w, a, stages, at, p, n, e);
      }
    }
  }

  /** A name that is wanting at the last stage was not on the map. */
  lemma StillMissing(w: Ground, a: Stage, stages: seq<Stage>, b: Stage, p: Path, n: nat)
    requires n < |p| && Climbed(w.g, w.valid, w.table, a, stages, b, p[..n])
    requires Wanting(w.g, b.heap, b.nodes, w.valid, w.table, b.id, p[n])
    requires Inhabited(a.heap, a.nodes)
    ensures Encoded(p[n]).Ok? && Listed(w.g, a.heap, a.nodes, Root)
    ensures p[..n + 1] !in TreeOf(w.g, a.heap, a.nodes, w.valid, w.table)
  {
    hide Listed;
    hide Resolve;
    hide Inhabited;
    hide Contents;
    hide TreeOf;
    hide Along;
    hide Climbed;
    hide SlotNamed;
    hide SlotsIn;
    hide PlacesIn;
    hide Encoded;
    hide RootStands;
    hide EntryOf;
    ClimbedParts(w.g, w.valid, w.table, a, stages, b, p[..n]);
    AlongKeeps(w.g, w.valid, b.heap, b.nodes, a.heap, a.nodes, w.table, p[..n], b.id);
    assert p[..n + 1] == p[..n] + [p[n]];
    NoneResolves(w.g, b.heap, b.nodes, w.valid, w.table, b.id, p[n]);
    ResolveLast(w.g, b.heap, b.nodes, w.valid, w.table, Root, p[..n], p[n], b.id);
    TreeAt(w.g, a.heap, a.nodes, w.valid, w.table, p[..n + 1]);
  }

  /** A name that bars the way is a file's, or cannot be folded. */
  lemma BarredHere(w: Ground, a: Stage, stages: seq<Stage>, b: Stage, p: Path, n: nat, e: Error)
    requires n < |p| && Climbed(w.g, w.valid, w.table, a, stages, b, p[..n])
    requires Barred(w.g, b.heap, b.nodes, w.valid, w.table, b.id, p[n], e) && Encoded(p[n]).Ok?
    requires Inhabited(a.heap, a.nodes) && Inhabited(b.heap, b.nodes) && AllListed(w.g, a.heap, a.nodes)
    requires w.proper ==> NamesProper(w.g, a.heap, a.nodes, w.valid, w.table)
    ensures Listed(w.g, a.heap, a.nodes, Root)
    ensures if e == NotDirectory then
              var t := TreeOf(w.g, a.heap, a.nodes, w.valid, w.table); p[..n + 1] in t && t[p[..n + 1]].Bytes?
            else UncomparableAt(w, p, e, n)
  {
    hide Listed;
    hide Resolve;
    hide Inhabited;
    hide AllListed;
    hide Contents;
    hide TreeOf;
    hide Along;
    hide Laid;
    hide Climbed;
    hide SlotNamed;
    hide SlotsIn;
    hide PlacesIn;
    hide Encoded;
    hide HashOf;
    hide NamesProper;
    hide NamesDistinct;
    var g, valid, table, units := w.g, w.valid, w.table, Encoded(p[n]).value;
    ClimbedParts(g, valid, table, a, stages, b, p[..n]);
    AlongKeeps(g, valid, b.heap, b.nodes, a.heap, a.nodes, table, p[..n], b.id);
    assert Listed(g, a.heap, a.nodes, Root) by { PathsListed(g, a.heap, a.nodes, b.heap, b.nodes, valid, table); }
    var slots, locs := SlotsIn(g, b.heap, b.nodes, b.id), PlacesIn(g, b.heap, b.nodes, b.id);
    var found := SlotNamed(valid, table, slots, locs, 0, units);
    NamedErrors(valid, table, slots, locs, 0, units);
    if found.Err? {
      if w.proper {
        ProperHere(w, b.heap, b.nodes, b.id);
        SearchFails(valid, table, slots, locs, 0, units, e);
      }
    } else if found.value.Some? {
      BarredByFile(g, valid, table, a, stages, b, p, n, found.value.value);
    }
  }
}
