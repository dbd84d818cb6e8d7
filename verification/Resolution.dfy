/** Paths over time: where every path leads while files come, grow and shrink. */
module Resolution {
  import opened Words
  import opened Errors
  import opened Geometry
  import opened Views
  import opened Volume
  import opened Extents
  import opened EntrySets
  import opened Tree
  import opened SlotIo
  import opened Meaning
  import opened Listings
  import opened Standing
  import opened Upcase
  import opened Scanning
  import opened Names
  import opened Paths

  // ----- searching a directory by name -----------------------------------------------------

  /** One step of the search, in terms of the stored names. */
  lemma NamedStep(valid: bool, table: seq<byte>, slots: seq<Slot>, locs: seq<EntryLocator>, lo: nat, wanted: seq<u16>)
    requires Stored(slots) && |slots| == |locs| && lo < |slots|
    ensures slots[lo][0] == 0x85 ==> SetAt(slots, lo)
    ensures SlotNamed(valid, table, slots, locs, lo, wanted) ==
      if slots[lo][0] != 0x85 then SlotNamed(valid, table, slots, locs, lo + 1, wanted)
      else match SameName(valid, table, NameAt(slots, lo), wanted)
           case Err(e) => Err(e)
           case Ok(true) => Ok(Some(lo))
           case Ok(false) => SlotNamed(valid, table, slots, locs, lo + 1, wanted)
  {
    hide SameName;
    hide FileSet;
    hide Decode;
    hide NameIn;
    if slots[lo][0] == 0x85 { RecordName(slots, locs, lo); }
  }

  /** Nothing is found among slots that start no set. */
  lemma {:induction false} NoneBeyond(valid: bool, table: seq<byte>, slots: seq<Slot>, locs: seq<EntryLocator>, lo: nat,
                                      wanted: seq<u16>)
    requires Stored(slots) && |slots| == |locs| && lo <= |slots|
    requires forall k :: lo <= k < |slots| ==> slots[k][0] != 0x85
    ensures SlotNamed(valid, table, slots, locs, lo, wanted) == Ok(None)
    decreases |slots| - lo
  {
    hide SameName;
    hide FileSet;
    if lo < |slots| { NoneBeyond(valid, table, slots, locs, lo + 1, wanted); }
  }

  /** A directory that stands answers every search as before. */
  lemma {:induction false} StaysNamed(valid: bool, table: seq<byte>, a: seq<Slot>, la: seq<EntryLocator>, b: seq<Slot>,
                                      lb: seq<EntryLocator>, lo: nat, wanted: seq<u16>)
    requires Stays(a, b) && |a| == |la| && |b| == |lb| && lo <= |a|
    ensures Stored(a) && Stored(b)
    ensures SlotNamed(valid, table, b, lb, lo, wanted) == SlotNamed(valid, table, a, la, lo, wanted)
    decreases |a| - lo
  {
    hide SameName;
    hide FileSet;
    hide NameAt;
    hide Decode;
    hide SlotNamed;
    if lo == |a| {
      NoneBeyond(valid, table, b, lb, lo, wanted);
      NoneBeyond(valid, table, a, la, lo, wanted);
    } else {
      assert SameAt(a, b, lo);
      NamedStep(valid, table, a, la, lo, wanted);
      NamedStep(valid, table, b, lb, lo, wanted);
      StaysNamed(valid, table, a, la, b, lb, lo + 1, wanted);
    }
  }

  /** What was found is still found in a directory that has gained a set of
      another name. */
  lemma {:induction false} GainsKeeps(valid: bool, table: seq<byte>, a: seq<Slot>, la: seq<EntryLocator>, b: seq<Slot>,
                                      lb: seq<EntryLocator>, k: nat, name: seq<u16>, lo: nat, wanted: seq<u16>)
    requires Gains(a, b, k, name) && |a| == |la| && |b| == |lb| && lo <= |a|
    requires SameName(valid, table, name, wanted) == Ok(false)
    requires SlotNamed(valid, table, a, la, lo, wanted).Ok? && SlotNamed(valid, table, a, la, lo, wanted).value.Some?
    ensures SlotNamed(valid, table, b, lb, lo, wanted) == SlotNamed(valid, table, a, la, lo, wanted)
    decreases |a| - lo
  {
    hide SameName;
    hide FileSet;
    hide NameAt;
    hide Decode;
    hide SlotNamed;
    if lo == |a| {
      NoneBeyond(valid, table, a, la, lo, wanted);
    } else {
      NamedStep(valid, table, a, la, lo, wanted);
      NamedStep(valid, table, b, lb, lo, wanted);
      if lo != k { assert SameAt(a, b, lo); }
      if a[lo][0] != 0x85 || SameName(valid, table, NameAt(a, lo), wanted) == Ok(false) {
        GainsKeeps(valid, table, a, la, b, lb, k, name, lo + 1, wanted);
      }
    }
  }

  /** What is found now, unless it is the gained set, was found before. */
  lemma {:induction false} GainsBack(valid: bool, table: seq<byte>, a: seq<Slot>, la: seq<EntryLocator>, b: seq<Slot>,
                                     lb: seq<EntryLocator>, k: nat, name: seq<u16>, lo: nat, wanted: seq<u16>)
    requires Gains(a, b, k, name) && |a| == |la| && |b| == |lb| && lo <= |a|
    requires SlotNamed(valid, table, b, lb, lo, wanted).Ok? && SlotNamed(valid, table, b, lb, lo, wanted).value.Some?
    requires SlotNamed(valid, table, b, lb, lo, wanted).value.value != k
    ensures SlotNamed(valid, table, a, la, lo, wanted) == SlotNamed(valid, table, b, lb, lo, wanted)
    decreases |a| - lo
  {
    hide SameName;
    hide FileSet;
    hide NameAt;
    hide Decode;
    hide SlotNamed;
    assert forall j :: |a| <= j < |b| && j != k ==> b[j][0] != 0x85;
    if lo == |a| {
      FoundMatches(valid, table, b, lb, lo, wanted);
    } else {
      NamedStep(valid, table, a, la, lo, wanted);
      NamedStep(valid, table, b, lb, lo, wanted);
      if lo != k { assert SameAt(a, b, lo); }
      if b[lo][0] != 0x85 || SameName(valid, table, NameAt(b, lo), wanted) == Ok(false) {
        GainsBack(valid, table, a, la, b, lb, k, name, lo + 1, wanted);
      }
    }
  }

  /** The gained set is found under its own name, if nothing was before. */
  lemma {:induction false} GainsFound(valid: bool, table: seq<byte>, a: seq<Slot>, la: seq<EntryLocator>, b: seq<Slot>,
                                      lb: seq<EntryLocator>, k: nat, name: seq<u16>, lo: nat)
    requires Gains(a, b, k, name) && |a| == |la| && |b| == |lb| && lo <= k
    requires SameName(valid, table, name, name) == Ok(true)
    requires lo <= |a| ==> SlotNamed(valid, table, a, la, lo, name) == Ok(None)
    ensures SlotNamed(valid, table, b, lb, lo, name) == Ok(Some(k))
    decreases k - lo
  {
    hide SameName;
    hide FileSet;
    hide NameAt;
    hide Decode;
    hide SlotNamed;
    NamedStep(valid, table, b, lb, lo, name);
    if lo < k {
      if lo < |a| {
        NamedStep(valid, table, a, la, lo, name);
        assert SameAt(a, b, lo);
      } else {
        assert Blank(b[lo]);
      }
      GainsFound(valid, table, a, la, b, lb, k, name, lo + 1);
    }
  }

  /** The set that is found has a matching name. */
  lemma {:induction false} FoundMatches(valid: bool, table: seq<byte>, slots: seq<Slot>, locs: seq<EntryLocator>,
                                        lo: nat, wanted: seq<u16>)
    requires Stored(slots) && |slots| == |locs| && lo <= |slots|
    requires SlotNamed(valid, table, slots, locs, lo, wanted).Ok?
    requires SlotNamed(valid, table, slots, locs, lo, wanted).value.Some?
    ensures var m := SlotNamed(valid, table, slots, locs, lo, wanted).value.value;
            lo <= m < |slots| && slots[m][0] == 0x85 && SetAt(slots, m)
            && SameName(valid, table, NameAt(slots, m), wanted) == Ok(true)
    decreases |slots| - lo
  {
    hide SameName;
    hide FileSet;
    hide NameAt;
    hide Decode;
    hide SlotNamed;
    if lo == |slots| {
      NoneBeyond(valid, table, slots, locs, lo, wanted);
    } else {
      NamedStep(valid, table, slots, locs, lo, wanted);
      if slots[lo][0] != 0x85 || SameName(valid, table, NameAt(slots, lo), wanted) == Ok(false) {
        FoundMatches(valid, table, slots, locs, lo + 1, wanted);
      }
    }
  }

  /** Nothing found: every name differs. */
  lemma {:induction false} MissedDiffers(valid: bool, table: seq<byte>, slots: seq<Slot>, locs: seq<EntryLocator>,
                                         lo: nat, wanted: seq<u16>, m: nat)
    requires Stored(slots) && |slots| == |locs| && lo <= m < |slots| && slots[m][0] == 0x85
    requires SlotNamed(valid, table, slots, locs, lo, wanted) == Ok(None)
    ensures SetAt(slots, m) && SameName(valid, table, NameAt(slots, m), wanted) == Ok(false)
    decreases |slots| - lo
  {
    hide SameName;
    hide FileSet;
    hide NameAt;
    hide Decode;
    hide SlotNamed;
    NamedStep(valid, table, slots, locs, lo, wanted);
    if lo < m { MissedDiffers(valid, table, slots, locs, lo + 1, wanted, m); }
  }

  /** Names that match can be folded, and fold alike. */
  lemma {:induction false} MatchedFolds(valid: bool, table: seq<byte>, a: seq<u16>, b: seq<u16>, k: nat)
    requires k <= |a| == |b| && MatchFrom(valid, table, a, b, k) == Ok(true)
    ensures forall i :: k <= i < |a| ==> Folded(valid, table, a[i]).Ok? && Folded(valid, table, b[i]).Ok?
    decreases |a| - k
  {
    hide Folded;
    if k < |a| { MatchedFolds(valid, table, a, b, k + 1); }
  }

  /** A name that differs from another differs from whatever matches that. */
  lemma NamesApart(valid: bool, table: seq<byte>, other: seq<u16>, name: seq<u16>, wanted: seq<u16>)
    requires SameName(valid, table, other, wanted) == Ok(true) && SameName(valid, table, other, name) == Ok(false)
    requires Foldable(valid, table, name)
    ensures SameName(valid, table, name, wanted) == Ok(false)
  {
    hide Folded;
    hide FoldedName;
    MatchedFolds(valid, table, other, wanted, 0);
    SameNameIsFolding(valid, table, other, wanted);
    SameNameIsFolding(valid, table, other, name);
    SameNameIsFolding(valid, table, name, wanted);
  }

  lemma {:induction false} HashFolds(valid: bool, table: seq<byte>, name: seq<u16>)
    requires HashOf(valid, table, name).Ok?
    ensures Foldable(valid, table, name)
  {
    hide Folded;
    if name != [] {
      var n := |name| - 1;
      HashFolds(valid, table, name[..n]);
      forall i | 0 <= i < |name|
        ensures Folded(valid, table, name[i]).Ok?
      {
        if i < n { assert name[i] == name[..n][i]; }
      }
    }
  }

  /** A name that can be hashed matches itself. */
  lemma NameMatchesItself(valid: bool, table: seq<byte>, name: seq<u16>)
    requires HashOf(valid, table, name).Ok?
    ensures SameName(valid, table, name, name) == Ok(true)
  {
    HashFolds(valid, table, name);
    SameNameIsFolding(valid, table, name, name);
  }

  // ----- paths ---------------------------------------------------------------------------------

  /** Every directory can be read. */
  ghost predicate AllListed(g: Geometry, heap: Heap, nodes: Owners) {
    forall d :: d in nodes && nodes[d].isDir ==> Listed(g, heap, nodes, d)
  }

  lemma InvAllListed(fs: FileSystem)
    requires Inv(fs)
    ensures AllListed(fs.g, fs.heap, fs.nodes)
  {
    hide FileSystem.Valid;
    hide OwnOk;
    hide TreeOk;
    hide Listed;
    forall d | d in fs.nodes && fs.nodes[d].isDir
      ensures Listed(fs.g, fs.heap, fs.nodes, d)
    {
      InvListed(fs, d);
    }
  }

  /** The same owners, files as files and directories as directories, and new
      ones where nothing was. */
  ghost predicate KindsKept(nodes0: Owners, nodes: Owners) {
    forall id :: id in nodes0 ==> id in nodes && nodes[id].isDir == nodes0[id].isDir
  }

  /** Every set of a directory belongs to an owner. */
  ghost predicate Inhabited(heap: Heap, nodes: Owners) {
    forall d, k: nat ::
      (&& d in nodes && nodes[d].isDir && Reads(heap, nodes[d].ext)
       && k < |DirSlots(heap, nodes[d].ext)| && DirSlots(heap, nodes[d].ext)[k][0] == 0x85)
      ==> Child(d, k) in nodes
  }

  lemma InvInhabited(g: Geometry, heap: Heap, nodes: Owners)
    requires TreeOk(g, heap, nodes)
    ensures Inhabited(heap, nodes)
  {
    hide SlotsOf;
    hide RecordOk;
    forall d, k: nat | d in nodes && nodes[d].isDir && Reads(heap, nodes[d].ext) && k < |DirSlots(heap, nodes[d].ext)|
      && DirSlots(heap, nodes[d].ext)[k][0] == 0x85
      ensures Child(d, k) in nodes
    {
      assert DirOk(nodes, d, SlotsOf(Flat(heap, nodes[d].ext)), g.BytesPerCluster());
    }
  }

  /** What makes a state one whose paths can be compared with a later one's. */
  ghost predicate Comparable(g: Geometry, heap0: Heap, nodes0: Owners, heap: Heap, nodes: Owners) {
    AllListed(g, heap0, nodes0) && AllListed(g, heap, nodes) && KindsKept(nodes0, nodes) && Inhabited(heap0, nodes0)
  }

  lemma ListedChild(g: Geometry, heap0: Heap, nodes0: Owners, heap: Heap, nodes: Owners, d: Id, k: nat)
    requires Comparable(g, heap0, nodes0, heap, nodes) && Listed(g, heap0, nodes0, d)
    requires k < |SlotsIn(g, heap0, nodes0, d)| && SlotsIn(g, heap0, nodes0, d)[k][0] == 0x85
    ensures Listed(g, heap0, nodes0, Child(d, k)) <==> Listed(g, heap, nodes, Child(d, k))
  {
    hide SlotsOf;
    hide Stored;
    hide Scannable;
    ReadsHere(g, heap0, nodes0, d);
    assert Child(d, k) in nodes0;
  }

  lemma ReadsHere(g: Geometry, heap: Heap, nodes: Owners, d: Id)
    requires Listed(g, heap, nodes, d)
    ensures Reads(heap, nodes[d].ext)
  {
    hide SlotsOf;
    hide Stored;
  }

  /** While all directories stand, every path leads where it led, and fails as it
      failed. */
  lemma {:induction false} ResolveStays(g: Geometry, heap0: Heap, nodes0: Owners, heap: Heap, nodes: Owners,
                                        valid: bool, table: seq<byte>, d: Id, names: seq<seq<Scalar>>)
    requires Comparable(g, heap0, nodes0, heap, nodes) && DirsStay(heap0, nodes0, heap, nodes)
    requires Listed(g, heap0, nodes0, d) && Listed(g, heap, nodes, d)
    ensures Resolve(g, heap, nodes, valid, table, d, names) == Resolve(g, heap0, nodes0, valid, table, d, names)
    decreases |names|
  {
    hide Listed;
    hide Encoded;
    hide SlotNamed;
    hide DirsStay;
    hide Comparable;
    hide SlotsIn;
    hide PlacesIn;
    if names != [] && Encoded(names[0]).Ok? {
      var units := Encoded(names[0]).value;
      SearchStays(g, heap0, nodes0, heap, nodes, valid, table, d, units);
      var found := SlotNamed(valid, table, SlotsIn(g, heap0, nodes0, d), PlacesIn(g, heap0, nodes0, d), 0, units);
      if found.Ok? && found.value.Some? {
        var k := found.value.value;
        ResolveVia(g, heap0, nodes0, valid, table, d, names, units, k);
        ResolveVia(g, heap, nodes, valid, table, d, names, units, k);
        if |names| > 1 {
          ListedChild(g, heap0, nodes0, heap, nodes, d, k);
          if Listed(g, heap0, nodes0, Child(d, k)) {
            ResolveStays(g, heap0, nodes0, heap, nodes, valid, table, Child(d, k), names[1..]);
          }
        }
      }
    }
  }

  /** A path through a found entry. */
  lemma ResolveVia(g: Geometry, heap: Heap, nodes: Owners, valid: bool, table: seq<byte>, d: Id,
                   names: seq<seq<Scalar>>, units: seq<u16>, k: nat)
    requires Listed(g, heap, nodes, d) && names != [] && Encoded(names[0]) == Ok(units)
    requires SlotNamed(valid, table, SlotsIn(g, heap, nodes, d), PlacesIn(g, heap, nodes, d), 0, units) == Ok(Some(k))
    ensures Resolve(g, heap, nodes, valid, table, d, names) ==
      if |names| == 1 then Ok(Child(d, k))
      else if !Listed(g, heap, nodes, Child(d, k)) then Err(NotDirectory)
      else Resolve(g, heap, nodes, valid, table, Child(d, k), names[1..])
  {
    hide Listed;
    hide Encoded;
    hide SlotNamed;
    hide SlotsIn;
    hide PlacesIn;
  }

  lemma SearchStays(g: Geometry, heap0: Heap, nodes0: Owners, heap: Heap, nodes: Owners, valid: bool, table: seq<byte>,
                    d: Id, units: seq<u16>)
    requires DirsStay(heap0, nodes0, heap, nodes) && Listed(g, heap0, nodes0, d) && Listed(g, heap, nodes, d)
    ensures SlotNamed(valid, table, SlotsIn(g, heap, nodes, d), PlacesIn(g, heap, nodes, d), 0, units)
         == SlotNamed(valid, table, SlotsIn(g, heap0, nodes0, d), PlacesIn(g, heap0, nodes0, d), 0, units)
  {
    hide SlotNamed;
    hide Stays;
    hide SlotsOf;
    hide Scannable;
    hide Stored;
    assert DirStays(heap0, nodes0, heap, nodes, d);
    StaysNamed(valid, table, SlotsIn(g, heap0, nodes0, d), PlacesIn(g, heap0, nodes0, d),
               SlotsIn(g, heap, nodes, d), PlacesIn(g, heap, nodes, d), 0, units);
  }

  /** The conditions under which a set named `name` has come to slot `k` of `d`. */
  ghost predicate Arrived(g: Geometry, heap0: Heap, nodes0: Owners, heap: Heap, nodes: Owners, valid: bool,
                          table: seq<byte>, d: Id, k: nat, name: seq<u16>) {
    && DirsGain(heap0, nodes0, heap, nodes, d, k, name) && Listed(g, heap0, nodes0, d) && Listed(g, heap, nodes, d)
    && SlotNamed(valid, table, SlotsIn(g, heap0, nodes0, d), PlacesIn(g, heap0, nodes0, d), 0, name) == Ok(None)
    && Foldable(valid, table, name)
  }

  /** A search that found something still finds it after an arrival. */
  lemma SearchKept(g: Geometry, heap0: Heap, nodes0: Owners, heap: Heap, nodes: Owners, valid: bool, table: seq<byte>,
                   d: Id, k: nat, name: seq<u16>, e: Id, units: seq<u16>)
    requires Arrived(g, heap0, nodes0, heap, nodes, valid, table, d, k, name) && Listed(g, heap0, nodes0, e)
    requires Listed(g, heap, nodes, e)
    ensures var found := SlotNamed(valid, table, SlotsIn(g, heap0, nodes0, e), PlacesIn(g, heap0, nodes0, e), 0, units);
            found.Ok? && found.value.Some? ==>
              SlotNamed(valid, table, SlotsIn(g, heap, nodes, e), PlacesIn(g, heap, nodes, e), 0, units) == found
  {
    hide SlotNamed;
    hide Stays;
    hide Gains;
    hide SlotsOf;
    hide Scannable;
    hide Stored;
    hide SameName;
    hide NameAt;
    var a, la := SlotsIn(g, heap0, nodes0, e), PlacesIn(g, heap0, nodes0, e);
    var b, lb := SlotsIn(g, heap, nodes, e), PlacesIn(g, heap, nodes, e);
    var found := SlotNamed(valid, table, a, la, 0, units);
    if e != d {
      assert DirStays(heap0, nodes0, heap, nodes, e);
      StaysNamed(valid, table, a, la, b, lb, 0, units);
    } else if found.Ok? && found.value.Some? {
      var m := found.value.value;
      FoundMatches(valid, table, a, la, 0, units);
      MissedDiffers(valid, table, a, la, 0, name, m);
      NamesApart(valid, table, NameAt(a, m), name, units);
      GainsKeeps(valid, table, a, la, b, lb, k, name, 0, units);
    }
  }

  /** After an arrival every path that led somewhere leads there still. */
  lemma {:induction false} ResolveKept(g: Geometry, heap0: Heap, nodes0: Owners, heap: Heap, nodes: Owners, valid: bool,
                                       table: seq<byte>, d: Id, k: nat, name: seq<u16>, e: Id, names: seq<seq<Scalar>>)
    requires Comparable(g, heap0, nodes0, heap, nodes)
    requires Arrived(g, heap0, nodes0, heap, nodes, valid, table, d, k, name)
    requires Listed(g, heap0, nodes0, e) && Listed(g, heap, nodes, e)
    requires Resolve(g, heap0, nodes0, valid, table, e, names).Ok?
    ensures Resolve(g, heap, nodes, valid, table, e, names) == Resolve(g, heap0, nodes0, valid, table, e, names)
    decreases |names|
  {
    hide Listed;
    hide Encoded;
    hide SlotNamed;
    hide Arrived;
    hide Comparable;
    var units := Encoded(names[0]).value;
    SearchKept(g, heap0, nodes0, heap, nodes, valid, table, d, k, name, e, units);
    var m := SlotNamed(valid, table, SlotsIn(g, heap0, nodes0, e), PlacesIn(g, heap0, nodes0, e), 0, units).value.value;
    if |names| > 1 {
      ListedChild(g, heap0, nodes0, heap, nodes, e, m);
      ResolveKept(g, heap0, nodes0, heap, nodes, valid, table, d, k, name, Child(e, m), names[1..]);
    }
  }

  /** What a search finds after an arrival, it found before, unless it is the
      arrival. */
  lemma SearchBack(g: Geometry, heap0: Heap, nodes0: Owners, heap: Heap, nodes: Owners, valid: bool, table: seq<byte>,
                   d: Id, k: nat, name: seq<u16>, e: Id, units: seq<u16>)
    requires Arrived(g, heap0, nodes0, heap, nodes, valid, table, d, k, name) && Listed(g, heap0, nodes0, e)
    requires Listed(g, heap, nodes, e)
    ensures var now := SlotNamed(valid, table, SlotsIn(g, heap, nodes, e), PlacesIn(g, heap, nodes, e), 0, units);
            now.Ok? && now.value.Some? && Child(e, now.value.value) != Child(d, k) ==>
              && now.value.value < |SlotsIn(g, heap0, nodes0, e)|
              && SlotsIn(g, heap0, nodes0, e)[now.value.value][0] == 0x85
              && SlotNamed(valid, table, SlotsIn(g, heap0, nodes0, e), PlacesIn(g, heap0, nodes0, e), 0, units) == now
  {
    hide SlotNamed;
    hide Stays;
    hide Gains;
    hide SlotsOf;
    hide Scannable;
    hide Stored;
    hide SameName;
    hide NameAt;
    var a, la := SlotsIn(g, heap0, nodes0, e), PlacesIn(g, heap0, nodes0, e);
    var b, lb := SlotsIn(g, heap, nodes, e), PlacesIn(g, heap, nodes, e);
    var now := SlotNamed(valid, table, b, lb, 0, units);
    if now.Ok? && now.value.Some? && Child(e, now.value.value) != Child(d, k) {
      if e != d {
        assert DirStays(heap0, nodes0, heap, nodes, e);
        StaysNamed(valid, table, a, la, b, lb, 0, units);
      } else {
        GainsBack(valid, table, a, la, b, lb, k, name, 0, units);
      }
      FoundMatches(valid, table, a, la, 0, units);
    }
  }

  /** Directories that are new start no sets, and the arrival is new. */
  ghost predicate NewAreEmpty(g: Geometry, nodes0: Owners, heap: Heap, nodes: Owners, id: Id) {
    && id !in nodes0
    && forall e :: e in nodes && nodes[e].isDir && e !in nodes0 ==>
         Listed(g, heap, nodes, e) && forall j :: 0 <= j < |SlotsIn(g, heap, nodes, e)| ==>
           SlotsIn(g, heap, nodes, e)[j][0] != 0x85
  }

  /** No path leads through an empty directory. */
  lemma EmptyEnds(g: Geometry, heap: Heap, nodes: Owners, valid: bool, table: seq<byte>, id: Id,
                  names: seq<seq<Scalar>>)
    requires Listed(g, heap, nodes, id)
    requires forall j :: 0 <= j < |SlotsIn(g, heap, nodes, id)| ==> SlotsIn(g, heap, nodes, id)[j][0] != 0x85
    ensures Resolve(g, heap, nodes, valid, table, id, names).Err?
  {
    hide Encoded;
    hide SlotNamed;
    hide SlotsIn;
    hide PlacesIn;
    hide Listed;
    if names != [] && Encoded(names[0]).Ok? {
      NoneBeyond(valid, table, SlotsIn(g, heap, nodes, id), PlacesIn(g, heap, nodes, id), 0, Encoded(names[0]).value);
    }
  }

  /** Where a path leads after an arrival it led before, unless to the arrival. */
  lemma {:induction false} ResolveBack(g: Geometry, heap0: Heap, nodes0: Owners, heap: Heap, nodes: Owners, valid: bool,
                                       table: seq<byte>, d: Id, k: nat, name: seq<u16>, e: Id, names: seq<seq<Scalar>>)
    requires Comparable(g, heap0, nodes0, heap, nodes)
    requires Arrived(g, heap0, nodes0, heap, nodes, valid, table, d, k, name)
    requires NewAreEmpty(g, nodes0, heap, nodes, Child(d, k))
    requires Listed(g, heap0, nodes0, e) && Listed(g, heap, nodes, e)
    requires Resolve(g, heap, nodes, valid, table, e, names).Ok?
    ensures var to := Resolve(g, heap, nodes, valid, table, e, names);
            to.value != Child(d, k) ==> Resolve(g, heap0, nodes0, valid, table, e, names) == to
    decreases |names|
  {
    hide Listed;
    hide Encoded;
    hide SlotNamed;
    hide Arrived;
    hide Comparable;
    hide SlotsIn;
    hide PlacesIn;
    hide NewAreEmpty;
    var units := Encoded(names[0]).value;
    SearchBack(g, heap0, nodes0, heap, nodes, valid, table, d, k, name, e, units);
    var m := SlotNamed(valid, table, SlotsIn(g, heap, nodes, e), PlacesIn(g, heap, nodes, e), 0, units).value.value;
    if |names| > 1 {
      if Child(e, m) == Child(d, k) {
        ArrivalIsEmpty(g, nodes0, heap, nodes, Child(d, k));
        EmptyEnds(g, heap, nodes, valid, table, Child(e, m), names[1..]);
      } else {
        ListedChild(g, heap0, nodes0, heap, nodes, e, m);
        ResolveBack(g, heap0, nodes0, heap, nodes, valid, table, d, k, name, Child(e, m), names[1..]);
      }
    }
  }

  lemma ArrivalIsEmpty(g: Geometry, nodes0: Owners, heap: Heap, nodes: Owners, id: Id)
    requires NewAreEmpty(g, nodes0, heap, nodes, id) && Listed(g, heap, nodes, id)
    ensures forall j :: 0 <= j < |SlotsIn(g, heap, nodes, id)| ==> SlotsIn(g, heap, nodes, id)[j][0] != 0x85
  {
    hide Stored;
    hide SlotsOf;
    hide Scannable;
  }

  /** Everything that could be reached can be reached still, at the same place, and
      only what is new can be reached besides; files are files and directories
      directories still; and the root's descriptors are where they were. */
  ghost predicate PathsKept(g: Geometry, heap0: Heap, nodes0: Owners, heap: Heap, nodes: Owners, valid: bool,
                            table: seq<byte>) {
    && Listed(g, heap0, nodes0, Root) && Listed(g, heap, nodes, Root) && RootStands(heap0, nodes0, heap, nodes)
    && KindsKept(nodes0, nodes)
    && (forall names :: Resolve(g, heap0, nodes0, valid, table, Root, names).Ok? ==>
          Resolve(g, heap, nodes, valid, table, Root, names) == Resolve(g, heap0, nodes0, valid, table, Root, names))
    && (forall names :: Resolve(g, heap, nodes, valid, table, Root, names).Ok? ==>
          || Resolve(g, heap, nodes, valid, table, Root, names).value !in nodes0
          || Resolve(g, heap0, nodes0, valid, table, Root, names)
               == Resolve(g, heap, nodes, valid, table, Root, names))
  }

  lemma PathsKeptTrans(g: Geometry, heap0: Heap, nodes0: Owners, heap1: Heap, nodes1: Owners, heap2: Heap,
                       nodes2: Owners, valid: bool, table: seq<byte>)
    requires PathsKept(g, heap0, nodes0, heap1, nodes1, valid, table)
    requires PathsKept(g, heap1, nodes1, heap2, nodes2, valid, table)
    ensures PathsKept(g, heap0, nodes0, heap2, nodes2, valid, table)
  {
    hide Resolve;
    hide Listed;
    hide RootStands;
    RootStandsTrans(heap0, nodes0, heap1, nodes1, heap2, nodes2);
  }

  lemma ArrivalKeepsPaths(g: Geometry, heap0: Heap, nodes0: Owners, heap: Heap, nodes: Owners, valid: bool,
                          table: seq<byte>, d: Id, k: nat, name: seq<u16>)
    requires Comparable(g, heap0, nodes0, heap, nodes)
    requires Arrived(g, heap0, nodes0, heap, nodes, valid, table, d, k, name)
    requires Listed(g, heap0, nodes0, Root) && Listed(g, heap, nodes, Root)
    requires NewAreEmpty(g, nodes0, heap, nodes, Child(d, k))
    ensures PathsKept(g, heap0, nodes0, heap, nodes, valid, table)
  {
    hide Resolve;
    hide Listed;
    hide Arrived;
    hide AllListed;
    hide Inhabited;
    hide RootStands;
    hide SlotsIn;
    ArrivedRoot(g, heap0, nodes0, heap, nodes, valid, table, d, k, name);
    forall names | Resolve(g, heap0, nodes0, valid, table, Root, names).Ok?
      ensures Resolve(g, heap, nodes, valid, table, Root, names) == Resolve(g, heap0, nodes0, valid, table, Root, names)
    {
      ResolveKept(g, heap0, nodes0, heap, nodes, valid, table, d, k, name, Root, names);
    }
    forall names | Resolve(g, heap, nodes, valid, table, Root, names).Ok?
      ensures Resolve(g, heap, nodes, valid, table, Root, names).value !in nodes0
              || Resolve(g, heap0, nodes0, valid, table, Root, names)
                   == Resolve(g, heap, nodes, valid, table, Root, names)
    {
      ResolveBack(g, heap0, nodes0, heap, nodes, valid, table, d, k, name, Root, names);
    }
  }

  lemma ArrivedRoot(g: Geometry, heap0: Heap, nodes0: Owners, heap: Heap, nodes: Owners, valid: bool, table: seq<byte>,
                    d: Id, k: nat, name: seq<u16>)
    requires Arrived(g, heap0, nodes0, heap, nodes, valid, table, d, k, name) && Listed(g, heap0, nodes0, Root)
    ensures RootStands(heap0, nodes0, heap, nodes)
  {
    hide DirsGain;
    hide RootStands;
    hide SlotNamed;
    hide Scannable;
    hide Stored;
    hide SlotsOf;
    GainsRoot(heap0, nodes0, heap, nodes, d, k, name);
  }

  lemma ListedReads(g: Geometry, heap: Heap, nodes: Owners, d: Id)
    requires Listed(g, heap, nodes, d)
    ensures d in nodes && nodes[d].isDir && Reads(heap, nodes[d].ext)
  {
    hide Stored;
    hide SlotsOf;
  }

  /** The arrival itself is found in its directory. */
  lemma ArrivalFound(g: Geometry, heap0: Heap, nodes0: Owners, heap: Heap, nodes: Owners, valid: bool, table: seq<byte>,
                     d: Id, k: nat, name: seq<u16>)
    requires Arrived(g, heap0, nodes0, heap, nodes, valid, table, d, k, name)
    ensures SlotNamed(valid, table, SlotsIn(g, heap, nodes, d), PlacesIn(g, heap, nodes, d), 0, name) == Ok(Some(k))
  {
    hide SlotNamed;
    hide Gains;
    hide SlotsOf;
    hide Scannable;
    hide Stored;
    hide SameName;
    SameNameIsFolding(valid, table, name, name);
    GainsFound(valid, table, SlotsIn(g, heap0, nodes0, d), PlacesIn(g, heap0, nodes0, d),
               SlotsIn(g, heap, nodes, d), PlacesIn(g, heap, nodes, d), k, name, 0);
  }

  // ----- names stay apart --------------------------------------------------------------------------

  /** No two sets of a directory have matching names. */
  ghost predicate Distinguished(valid: bool, table: seq<byte>, slots: seq<Slot>)
    requires Stored(slots)
  {
    forall j, k :: 0 <= j < |slots| && 0 <= k < |slots| && j != k && slots[j][0] == 0x85 && slots[k][0] == 0x85 ==>
      SameName(valid, table, NameAt(slots, j), NameAt(slots, k)) != Ok(true)
  }

  lemma StaysDistinguished(valid: bool, table: seq<byte>, a: seq<Slot>, b: seq<Slot>)
    requires Stays(a, b) && Distinguished(valid, table, a)
    ensures Distinguished(valid, table, b)
  {
    hide SameName;
    hide FileSet;
    hide NameAt;
    hide Stored;
    forall j, k | 0 <= j < |b| && 0 <= k < |b| && j != k && b[j][0] == 0x85 && b[k][0] == 0x85
      ensures SetAt(b, j) && SetAt(b, k) && SameName(valid, table, NameAt(b, j), NameAt(b, k)) != Ok(true)
    {
      WasThere(a, b, j);
      WasThere(a, b, k);
      StartsSet(b, j);
      StartsSet(b, k);
    }
  }

  lemma WasThere(a: seq<Slot>, b: seq<Slot>, j: nat)
    requires Stays(a, b) && j < |b| && b[j][0] == 0x85
    ensures j < |a| && SameAt(a, b, j) && a[j][0] == 0x85 && SetAt(a, j)
  {
    hide FileSet;
    hide NameAt;
    assert j >= |a| ==> Blank(b[j]);
  }

  /** A name that matches none of the others may come. */
  lemma GainsDistinguished(valid: bool, table: seq<byte>, a: seq<Slot>, la: seq<EntryLocator>, b: seq<Slot>, k: nat,
                           name: seq<u16>)
    requires Gains(a, b, k, name) && Distinguished(valid, table, a) && |a| == |la|
    requires SlotNamed(valid, table, a, la, 0, name) == Ok(None)
    ensures Distinguished(valid, table, b)
  {
    hide SameName;
    hide FileSet;
    hide NameAt;
    hide Stored;
    hide SlotNamed;
    forall i, j | 0 <= i < |b| && 0 <= j < |b| && i != j && b[i][0] == 0x85 && b[j][0] == 0x85
      ensures SetAt(b, i) && SetAt(b, j) && SameName(valid, table, NameAt(b, i), NameAt(b, j)) != Ok(true)
    {
      StartsSet(b, i);
      StartsSet(b, j);
      var other := if i == k then j else i;
      NotTheArrival(a, b, k, name, other);
      if i == k || j == k {
        MissedDiffers(valid, table, a, la, 0, name, other);
        NameSymmetric(valid, table, name, NameAt(a, other));
      } else {
        NotTheArrival(a, b, k, name, j);
      }
    }
  }

  /** Every other set was there before. */
  lemma NotTheArrival(a: seq<Slot>, b: seq<Slot>, k: nat, name: seq<u16>, j: nat)
    requires Gains(a, b, k, name) && j < |b| && j != k && b[j][0] == 0x85
    ensures j < |a| && SameAt(a, b, j) && a[j][0] == 0x85 && SetAt(a, j)
  {
    hide FileSet;
    hide NameAt;
    assert j >= |a| ==> Blank(b[j]);
  }

  lemma NameSymmetric(valid: bool, table: seq<byte>, a: seq<u16>, b: seq<u16>)
    ensures SameName(valid, table, a, b) == Ok(true) ==> SameName(valid, table, b, a) == Ok(true)
  {
    hide Folded;
    hide FoldedName;
    if SameName(valid, table, a, b) == Ok(true) {
      MatchedFolds(valid, table, a, b, 0);
      SameNameIsFolding(valid, table, a, b);
      SameNameIsFolding(valid, table, b, a);
    }
  }

  /** In every directory all names are apart, up to case. */
  ghost predicate NamesDistinct(g: Geometry, heap: Heap, nodes: Owners, valid: bool, table: seq<byte>) {
    forall d :: d in nodes && nodes[d].isDir ==>
      Listed(g, heap, nodes, d) && Distinguished(valid, table, SlotsIn(g, heap, nodes, d))
  }

  /** Directories that stand keep their names apart. */
  lemma DistinctStays(g: Geometry, heap0: Heap, nodes0: Owners, heap: Heap, nodes: Owners, valid: bool,
                      table: seq<byte>)
    requires Comparable(g, heap0, nodes0, heap, nodes) && DirsStay(heap0, nodes0, heap, nodes)
    requires NamesDistinct(g, heap0, nodes0, valid, table)
    requires forall d :: d in nodes && nodes[d].isDir ==> d in nodes0
    ensures NamesDistinct(g, heap, nodes, valid, table)
  {
    hide Stays;
    hide SlotsOf;
    hide Scannable;
    hide Stored;
    hide Distinguished;
    forall d | d in nodes && nodes[d].isDir
      ensures Listed(g, heap, nodes, d) && Distinguished(valid, table, SlotsIn(g, heap, nodes, d))
    {
      assert DirStays(heap0, nodes0, heap, nodes, d);
      StaysDistinguished(valid, table, SlotsIn(g, heap0, nodes0, d), SlotsIn(g, heap, nodes, d));
    }
  }

  /** An arrival whose name matches nothing keeps all names apart.  A directory
      that is new itself starts no set. */
  lemma DistinctKept(g: Geometry, heap0: Heap, nodes0: Owners, heap: Heap, nodes: Owners, valid: bool, table: seq<byte>,
                     d: Id, k: nat, name: seq<u16>)
    requires Comparable(g, heap0, nodes0, heap, nodes)
    requires Arrived(g, heap0, nodes0, heap, nodes, valid, table, d, k, name)
    requires NamesDistinct(g, heap0, nodes0, valid, table) && NewAreEmpty(g, nodes0, heap, nodes, Child(d, k))
    ensures NamesDistinct(g, heap, nodes, valid, table)
  {
    hide Stays;
    hide Gains;
    hide SlotsOf;
    hide Scannable;
    hide Stored;
    hide SlotNamed;
    hide NameAt;
    hide SameName;
    forall e | e in nodes && nodes[e].isDir
      ensures Listed(g, heap, nodes, e) && Distinguished(valid, table, SlotsIn(g, heap, nodes, e))
    {
      if e in nodes0 {
        if e == d {
          GainsDistinguished(valid, table, SlotsIn(g, heap0, nodes0, d), PlacesIn(g, heap0, nodes0, d),
                             SlotsIn(g, heap, nodes, d), k, name);
        } else {
          assert DirStays(heap0, nodes0, heap, nodes, e);
          StaysDistinguished(valid, table, SlotsIn(g, heap0, nodes0, e), SlotsIn(g, heap, nodes, e));
        }
      }
    }
  }

  // ----- names that a path can have ------------------------------------------------------------------

  /** A stored name that is some path's, and that can be folded. */
  ghost predicate Proper(valid: bool, table: seq<byte>, name: seq<u16>) {
    Foldable(valid, table, name) && exists spelling: seq<Scalar> :: Encoded(spelling) == Ok(name)
  }

  /** Every set's name is. */
  ghost predicate AllProper(valid: bool, table: seq<byte>, slots: seq<Slot>)
    requires Stored(slots)
  {
    forall k :: 0 <= k < |slots| && slots[k][0] == 0x85 ==> Proper(valid, table, NameAt(slots, k))
  }

  /** In every directory all names are. */
  ghost predicate NamesProper(g: Geometry, heap: Heap, nodes: Owners, valid: bool, table: seq<byte>) {
    forall d :: d in nodes && nodes[d].isDir ==>
      Listed(g, heap, nodes, d) && AllProper(valid, table, SlotsIn(g, heap, nodes, d))
  }

  lemma StaysProper(valid: bool, table: seq<byte>, a: seq<Slot>, b: seq<Slot>)
    requires Stays(a, b) && AllProper(valid, table, a)
    ensures AllProper(valid, table, b)
  {
    hide Foldable;
    hide Proper;
    hide FileSet;
    hide NameAt;
    hide Stored;
    forall k | 0 <= k < |b| && b[k][0] == 0x85
      ensures SetAt(b, k) && Proper(valid, table, NameAt(b, k))
    {
      WasThere(a, b, k);
      StartsSet(b, k);
    }
  }

  lemma GainsProper(valid: bool, table: seq<byte>, a: seq<Slot>, b: seq<Slot>, k: nat, name: seq<u16>)
    requires Gains(a, b, k, name) && AllProper(valid, table, a) && Proper(valid, table, name)
    ensures AllProper(valid, table, b)
  {
    hide Foldable;
    hide Proper;
    hide FileSet;
    hide NameAt;
    hide Stored;
    forall j | 0 <= j < |b| && b[j][0] == 0x85
      ensures SetAt(b, j) && Proper(valid, table, NameAt(b, j))
    {
      StartsSet(b, j);
      if j != k {
        assert j >= |a| ==> Blank(b[j]);
        assert SameAt(a, b, j);
        StartsSet(a, j);
      }
    }
  }

  lemma LosesProper(valid: bool, table: seq<byte>, a: seq<Slot>, b: seq<Slot>, k: nat, name: seq<u16>, lost: bool)
    requires if lost then Gains(b, a, k, name) else Stays(b, a)
    requires |a| == |b| && Stored(a) && Stored(b) && AllProper(valid, table, a)
    ensures AllProper(valid, table, b)
  {
    hide Proper;
    hide FileSet;
    hide NameAt;
    forall i | 0 <= i < |b| && b[i][0] == 0x85
      ensures SetAt(b, i) && Proper(valid, table, NameAt(b, i))
    {
      StartsSet(b, i);
      if lost { assert Blank(b[k]); }
      assert SameAt(b, a, i);
      StartsSet(a, i);
    }
  }

  /** Names that were apart are apart, and if all were proper all are. */
  ghost predicate NamesKept(g: Geometry, heap0: Heap, nodes0: Owners, heap: Heap, nodes: Owners, valid: bool,
                            table: seq<byte>) {
    && (NamesDistinct(g, heap0, nodes0, valid, table) ==> NamesDistinct(g, heap, nodes, valid, table))
    && (NamesProper(g, heap0, nodes0, valid, table) ==> NamesProper(g, heap, nodes, valid, table))
  }

  lemma NamesStay(g: Geometry, heap0: Heap, nodes0: Owners, heap: Heap, nodes: Owners, valid: bool, table: seq<byte>)
    requires Comparable(g, heap0, nodes0, heap, nodes) && DirsStay(heap0, nodes0, heap, nodes)
    requires forall d :: d in nodes && nodes[d].isDir ==> d in nodes0
    ensures NamesKept(g, heap0, nodes0, heap, nodes, valid, table)
  {
    hide Stays;
    hide SlotsOf;
    hide Scannable;
    hide Stored;
    hide Distinguished;
    hide AllProper;
    if NamesDistinct(g, heap0, nodes0, valid, table) {
      DistinctStays(g, heap0, nodes0, heap, nodes, valid, table);
    }
    if NamesProper(g, heap0, nodes0, valid, table) {
      forall d | d in nodes && nodes[d].isDir
        ensures Listed(g, heap, nodes, d) && AllProper(valid, table, SlotsIn(g, heap, nodes, d))
      {
        assert DirStays(heap0, nodes0, heap, nodes, d);
        StaysProper(valid, table, SlotsIn(g, heap0, nodes0, d), SlotsIn(g, heap, nodes, d));
      }
    }
  }

  lemma NoneImproper(valid: bool, table: seq<byte>, slots: seq<Slot>)
    requires Stored(slots) && forall j :: 0 <= j < |slots| ==> slots[j][0] != 0x85
    ensures AllProper(valid, table, slots)
  {
    hide Stored;
    hide Proper;
  }

  lemma NamesArrive(g: Geometry, heap0: Heap, nodes0: Owners, heap: Heap, nodes: Owners, valid: bool, table: seq<byte>,
                    d: Id, k: nat, name: seq<u16>)
    requires Comparable(g, heap0, nodes0, heap, nodes)
    requires Arrived(g, heap0, nodes0, heap, nodes, valid, table, d, k, name)
    requires NewAreEmpty(g, nodes0, heap, nodes, Child(d, k))
    requires exists spelling: seq<Scalar> :: Encoded(spelling) == Ok(name)
    ensures NamesKept(g, heap0, nodes0, heap, nodes, valid, table)
  {
    hide Stays;
    hide Gains;
    hide SlotsOf;
    hide Scannable;
    hide Stored;
    hide SlotNamed;
    hide Distinguished;
    hide Foldable;
    hide AllProper;
    hide Encoded;
    if NamesDistinct(g, heap0, nodes0, valid, table) {
      DistinctKept(g, heap0, nodes0, heap, nodes, valid, table, d, k, name);
    }
    if NamesProper(g, heap0, nodes0, valid, table) {
      forall e | e in nodes && nodes[e].isDir
        ensures Listed(g, heap, nodes, e) && AllProper(valid, table, SlotsIn(g, heap, nodes, e))
      {
        if e in nodes0 {
          if e == d {
            assert Proper(valid, table, name);
            GainsProper(valid, table, SlotsIn(g, heap0, nodes0, d), SlotsIn(g, heap, nodes, d), k, name);
          } else {
            assert DirStays(heap0, nodes0, heap, nodes, e);
            StaysProper(valid, table, SlotsIn(g, heap0, nodes0, e), SlotsIn(g, heap, nodes, e));
          }
        } else {
          NoneImproper(valid, table, SlotsIn(g, heap, nodes, e));
        }
      }
    }
  }

  // ----- paths after a removal -----------------------------------------------------------------------

  /** Whatever else was found is still found when a set has gone. */
  lemma {:induction false} LossKeeps(valid: bool, table: seq<byte>, a: seq<Slot>, la: seq<EntryLocator>, b: seq<Slot>,
                                     lb: seq<EntryLocator>, k: nat, name: seq<u16>, lo: nat, wanted: seq<u16>)
    requires Gains(b, a, k, name) && |b| == |a| == |la| == |lb| && lo <= |a|
    requires SlotNamed(valid, table, a, la, lo, wanted).Ok? && SlotNamed(valid, table, a, la, lo, wanted).value.Some?
    ensures SlotNamed(valid, table, a, la, lo, wanted).value.value != k ==>
      SlotNamed(valid, table, b, lb, lo, wanted) == SlotNamed(valid, table, a, la, lo, wanted)
    decreases |a| - lo
  {
    hide SameName;
    hide FileSet;
    hide NameAt;
    hide Decode;
    hide SlotNamed;
    if lo == |a| {
      NoneBeyond(valid, table, a, la, lo, wanted);
    } else {
      NamedStep(valid, table, a, la, lo, wanted);
      NamedStep(valid, table, b, lb, lo, wanted);
      if lo != k { assert SameAt(b, a, lo); }
      if a[lo][0] != 0x85 || SameName(valid, table, NameAt(a, lo), wanted) == Ok(false) {
        LossKeeps(valid, table, a, la, b, lb, k, name, lo + 1, wanted);
      }
    }
  }

  /** What matched the set that has gone matches nothing any more. */
  lemma {:induction false} LossMisses(valid: bool, table: seq<byte>, a: seq<Slot>, b: seq<Slot>, lb: seq<EntryLocator>,
                                      k: nat, name: seq<u16>, lo: nat, wanted: seq<u16>)
    requires Gains(b, a, k, name) && |b| == |a| == |lb| && lo <= |b| && Distinguished(valid, table, a)
    requires SameName(valid, table, name, wanted) == Ok(true)
    ensures SlotNamed(valid, table, b, lb, lo, wanted).Err? || SlotNamed(valid, table, b, lb, lo, wanted) == Ok(None)
    decreases |b| - lo
  {
    hide SameName;
    hide FileSet;
    hide NameAt;
    hide Decode;
    hide SlotNamed;
    hide Distinguished;
    if lo == |b| {
      NoneBeyond(valid, table, b, lb, lo, wanted);
    } else {
      NamedStep(valid, table, b, lb, lo, wanted);
      LossMisses(valid, table, a, b, lb, k, name, lo + 1, wanted);
      if b[lo][0] == 0x85 { LossDiffers(valid, table, a, b, k, name, lo, wanted); }
    }
  }

  lemma LossDiffers(valid: bool, table: seq<byte>, a: seq<Slot>, b: seq<Slot>, k: nat, name: seq<u16>, lo: nat,
                    wanted: seq<u16>)
    requires Gains(b, a, k, name) && |b| == |a| && lo < |b| && b[lo][0] == 0x85 && Distinguished(valid, table, a)
    requires SameName(valid, table, name, wanted) == Ok(true)
    ensures SetAt(b, lo) && SameName(valid, table, NameAt(b, lo), wanted) != Ok(true)
  {
    hide FileSet;
    hide NameAt;
    hide SameName;
    StartsSet(b, lo);
    assert lo == k ==> Blank(b[k]);
    assert SameAt(b, a, lo);
    StartsSet(a, lo);
    StartsSet(a, k);
    assert SameName(valid, table, NameAt(a, lo), NameAt(a, k)) != Ok(true);
    MatchTransitive(valid, table, NameAt(b, lo), wanted, name);
  }

  lemma MatchTransitive(valid: bool, table: seq<byte>, a: seq<u16>, b: seq<u16>, c: seq<u16>)
    requires SameName(valid, table, c, b) == Ok(true)
    ensures SameName(valid, table, a, b) == Ok(true) ==> SameName(valid, table, a, c) == Ok(true)
  {
    hide Folded;
    hide FoldedName;
    if SameName(valid, table, a, b) == Ok(true) {
      MatchedFolds(valid, table, a, b, 0);
      MatchedFolds(valid, table, c, b, 0);
      SameNameIsFolding(valid, table, a, b);
      SameNameIsFolding(valid, table, c, b);
      SameNameIsFolding(valid, table, a, c);
    }
  }

  /** What is found now was found before: a set whose name folds is passed by. */
  lemma {:induction false} LossBack(valid: bool, table: seq<byte>, a: seq<Slot>, la: seq<EntryLocator>, b: seq<Slot>,
                                    lb: seq<EntryLocator>, k: nat, name: seq<u16>, lo: nat, wanted: seq<u16>)
    requires Gains(b, a, k, name) && |b| == |a| == |la| == |lb| && lo <= |a|
    requires Distinguished(valid, table, a) && Foldable(valid, table, name)
    requires SlotNamed(valid, table, b, lb, lo, wanted).Ok? && SlotNamed(valid, table, b, lb, lo, wanted).value.Some?
    ensures SlotNamed(valid, table, a, la, lo, wanted) == SlotNamed(valid, table, b, lb, lo, wanted)
    decreases |a| - lo
  {
    hide SameName;
    hide FileSet;
    hide NameAt;
    hide Decode;
    hide SlotNamed;
    hide Distinguished;
    hide Foldable;
    if lo == |a| {
      NoneBeyond(valid, table, b, lb, lo, wanted);
    } else {
      NamedStep(valid, table, a, la, lo, wanted);
      NamedStep(valid, table, b, lb, lo, wanted);
      if lo != k {
        assert SameAt(b, a, lo);
      } else {
        FoundMatches(valid, table, b, lb, lo, wanted);
        LossPassed(valid, table, a, b, k, name, wanted, SlotNamed(valid, table, b, lb, lo, wanted).value.value);
      }
      if b[lo][0] != 0x85 || SameName(valid, table, NameAt(b, lo), wanted) == Ok(false) {
        LossBack(valid, table, a, la, b, lb, k, name, lo + 1, wanted);
      }
    }
  }

  lemma LossPassed(valid: bool, table: seq<byte>, a: seq<Slot>, b: seq<Slot>, k: nat, name: seq<u16>, wanted: seq<u16>,
                   m: nat)
    requires Gains(b, a, k, name) && |b| == |a| && Distinguished(valid, table, a) && Foldable(valid, table, name)
    requires m < |b| && b[m][0] == 0x85 && SetAt(b, m) && SameName(valid, table, NameAt(b, m), wanted) == Ok(true)
    ensures a[k][0] == 0x85 && SetAt(a, k) && SameName(valid, table, NameAt(a, k), wanted) == Ok(false)
    ensures b[k][0] != 0x85
  {
    hide FileSet;
    hide NameAt;
    hide Folded;
    hide FoldedName;
    assert Blank(b[k]);
    assert SameAt(b, a, m);
    StartsSet(a, m);
    StartsSet(a, k);
    assert SameName(valid, table, NameAt(a, m), NameAt(a, k)) != Ok(true);
    MatchedFolds(valid, table, NameAt(a, m), wanted, 0);
    SameNameIsFolding(valid, table, NameAt(a, m), wanted);
    SameNameIsFolding(valid, table, NameAt(a, k), wanted);
    SameNameIsFolding(valid, table, NameAt(a, m), NameAt(a, k));
  }

  /** The childless child at slot `k` of `d` has gone, and nothing else. */
  ghost predicate Departed(g: Geometry, heap0: Heap, nodes0: Owners, heap: Heap, nodes: Owners, d: Id, k: nat,
                           name: seq<u16>) {
    && AllListed(g, heap0, nodes0) && AllListed(g, heap, nodes) && Inhabited(heap0, nodes0)
    && nodes == nodes0 - {Child(d, k)} && (forall j: nat :: Child(Child(d, k), j) !in nodes0)
    && DirsGain(heap, nodes, heap0, nodes0, d, k, name)
  }

  /** A childless owner is the end of every path. */
  lemma ChildlessEnds(g: Geometry, heap0: Heap, nodes0: Owners, valid: bool, table: seq<byte>, id: Id,
                      names: seq<seq<Scalar>>)
    requires Inhabited(heap0, nodes0) && Listed(g, heap0, nodes0, id) && forall j: nat :: Child(id, j) !in nodes0
    ensures Resolve(g, heap0, nodes0, valid, table, id, names).Err?
  {
    hide Encoded;
    hide SlotNamed;
    hide SlotsOf;
    hide Scannable;
    hide Stored;
    ReadsHere(g, heap0, nodes0, id);
    var slots := SlotsIn(g, heap0, nodes0, id);
    forall m: nat | m < |slots|
      ensures slots[m][0] != 0x85
    {
      assert slots[m][0] == 0x85 ==> Child(id, m) in nodes0;
    }
    if names != [] && Encoded(names[0]).Ok? {
      NoneBeyond(valid, table, slots, PlacesIn(g, heap0, nodes0, id), 0, Encoded(names[0]).value);
    }
  }

  /** The slots of a directory on both sides of a departure. */
  lemma DepartedSlots(g: Geometry, heap0: Heap, nodes0: Owners, heap: Heap, nodes: Owners, d: Id, k: nat,
                      name: seq<u16>, e: Id)
    requires Departed(g, heap0, nodes0, heap, nodes, d, k, name) && Listed(g, heap0, nodes0, e) && e != Child(d, k)
    ensures Listed(g, heap, nodes, e) && |SlotsIn(g, heap, nodes, e)| == |SlotsIn(g, heap0, nodes0, e)|
    ensures if e == d then Gains(SlotsIn(g, heap, nodes, d), SlotsIn(g, heap0, nodes0, d), k, name)
            else Stays(SlotsIn(g, heap, nodes, e), SlotsIn(g, heap0, nodes0, e))
  {
    hide Stays;
    hide Gains;
    hide Stored;
    assert nodes[e] == nodes0[e];
    SlotCount(g, heap, nodes[e].ext);
    SlotCount(g, heap0, nodes[e].ext);
    if e != d { assert DirStays(heap, nodes, heap0, nodes0, e); }
  }

  /** One search on both sides of a departure. */
  lemma DepartedSearch(g: Geometry, heap0: Heap, nodes0: Owners, heap: Heap, nodes: Owners, valid: bool,
                       table: seq<byte>, d: Id, k: nat, name: seq<u16>, e: Id, units: seq<u16>)
    requires Departed(g, heap0, nodes0, heap, nodes, d, k, name) && Listed(g, heap0, nodes0, e) && e != Child(d, k)
    ensures Listed(g, heap, nodes, e)
    ensures var found := SlotNamed(valid, table, SlotsIn(g, heap0, nodes0, e), PlacesIn(g, heap0, nodes0, e), 0, units);
            var now := SlotNamed(valid, table, SlotsIn(g, heap, nodes, e), PlacesIn(g, heap, nodes, e), 0, units);
            found.Ok? && found.value.Some? ==>
              if Child(e, found.value.value) != Child(d, k) then now == found
              else NamesDistinct(g, heap0, nodes0, valid, table) ==> now.Err? || now == Ok(None)
  {
    hide SlotNamed;
    hide Stays;
    hide Gains;
    hide SlotsOf;
    hide Scannable;
    hide Stored;
    hide SameName;
    hide Distinguished;
    hide DirsGain;
    DepartedSlots(g, heap0, nodes0, heap, nodes, d, k, name, e);
    var a, la := SlotsIn(g, heap0, nodes0, e), PlacesIn(g, heap0, nodes0, e);
    var b, lb := SlotsIn(g, heap, nodes, e), PlacesIn(g, heap, nodes, e);
    var found := SlotNamed(valid, table, a, la, 0, units);
    if found.Ok? && found.value.Some? {
      if e != d {
        StaysNamed(valid, table, b, lb, a, la, 0, units);
      } else {
        LossKeeps(valid, table, a, la, b, lb, k, name, 0, units);
        FoundMatches(valid, table, a, la, 0, units);
        if found.value.value == k && NamesDistinct(g, heap0, nodes0, valid, table) {
          GainedName(b, a, k, name);
          LossMisses(valid, table, a, b, lb, k, name, 0, units);
        }
      }
    }
  }

  /** What one search finds after a departure, it found before. */
  lemma DepartedBack(g: Geometry, heap0: Heap, nodes0: Owners, heap: Heap, nodes: Owners, valid: bool, table: seq<byte>,
                     d: Id, k: nat, name: seq<u16>, e: Id, units: seq<u16>)
    requires Departed(g, heap0, nodes0, heap, nodes, d, k, name) && Listed(g, heap0, nodes0, e) && e != Child(d, k)
    requires NamesDistinct(g, heap0, nodes0, valid, table) && Foldable(valid, table, name)
    ensures Listed(g, heap, nodes, e)
    ensures var now := SlotNamed(valid, table, SlotsIn(g, heap, nodes, e), PlacesIn(g, heap, nodes, e), 0, units);
            now.Ok? && now.value.Some? ==>
              SlotNamed(valid, table, SlotsIn(g, heap0, nodes0, e), PlacesIn(g, heap0, nodes0, e), 0, units) == now
  {
    hide SlotNamed;
    hide Stays;
    hide Gains;
    hide SlotsOf;
    hide Scannable;
    hide Stored;
    hide SameName;
    hide Distinguished;
    hide DirsGain;
    hide Foldable;
    DepartedSlots(g, heap0, nodes0, heap, nodes, d, k, name, e);
    var a, la := SlotsIn(g, heap0, nodes0, e), PlacesIn(g, heap0, nodes0, e);
    var b, lb := SlotsIn(g, heap, nodes, e), PlacesIn(g, heap, nodes, e);
    var now := SlotNamed(valid, table, b, lb, 0, units);
    if now.Ok? && now.value.Some? {
      if e != d {
        StaysNamed(valid, table, b, lb, a, la, 0, units);
      } else {
        LossBack(valid, table, a, la, b, lb, k, name, 0, units);
      }
    }
  }

  lemma GainedName(a: seq<Slot>, b: seq<Slot>, k: nat, name: seq<u16>)
    requires Gains(a, b, k, name)
    ensures k < |b| && SetAt(b, k) && NameAt(b, k) == name
  {
    hide FileSet;
    hide NameAt;
  }

  /** After a departure every path to anywhere else leads there still, and the
      path to what has gone leads nowhere, if names were apart. */
  lemma {:induction false} ResolveWithout(g: Geometry, heap0: Heap, nodes0: Owners, heap: Heap, nodes: Owners,
                                          valid: bool, table: seq<byte>, d: Id, k: nat, name: seq<u16>, e: Id,
                                          names: seq<seq<Scalar>>)
    requires Departed(g, heap0, nodes0, heap, nodes, d, k, name) && Listed(g, heap0, nodes0, e) && e != Child(d, k)
    requires Resolve(g, heap0, nodes0, valid, table, e, names).Ok?
    ensures Listed(g, heap, nodes, e)
    ensures var to := Resolve(g, heap0, nodes0, valid, table, e, names);
            if to.value != Child(d, k) then Resolve(g, heap, nodes, valid, table, e, names) == to
            else NamesDistinct(g, heap0, nodes0, valid, table) ==> Resolve(g, heap, nodes, valid, table, e, names).Err?
    decreases |names|
  {
    hide Listed;
    hide Encoded;
    hide SlotNamed;
    hide Departed;
    hide SlotsIn;
    hide PlacesIn;
    hide NamesDistinct;
    var units := Encoded(names[0]).value;
    DepartedSearch(g, heap0, nodes0, heap, nodes, valid, table, d, k, name, e, units);
    var m := SlotNamed(valid, table, SlotsIn(g, heap0, nodes0, e), PlacesIn(g, heap0, nodes0, e), 0, units).value.value;
    if |names| > 1 {
      if Child(e, m) == Child(d, k) {
        DepartedChildless(g, heap0, nodes0, heap, nodes, d, k, name);
        ChildlessEnds(g, heap0, nodes0, valid, table, Child(d, k), names[1..]);
      } else {
        ResolveWithout(g, heap0, nodes0, heap, nodes, valid, table, d, k, name, Child(e, m), names[1..]);
        ResolveVia(g, heap, nodes, valid, table, e, names, units, m);
      }
    }
  }

  /** Where a path leads after a departure it led before. */
  lemma {:induction false} ResolveBefore(g: Geometry, heap0: Heap, nodes0: Owners, heap: Heap, nodes: Owners,
                                         valid: bool, table: seq<byte>, d: Id, k: nat, name: seq<u16>, e: Id,
                                         names: seq<seq<Scalar>>)
    requires Departed(g, heap0, nodes0, heap, nodes, d, k, name) && Listed(g, heap, nodes, e)
    requires Listed(g, heap0, nodes0, e) && e != Child(d, k)
    requires NamesDistinct(g, heap0, nodes0, valid, table) && Foldable(valid, table, name)
    requires Resolve(g, heap, nodes, valid, table, e, names).Ok?
    ensures Resolve(g, heap0, nodes0, valid, table, e, names) == Resolve(g, heap, nodes, valid, table, e, names)
    decreases |names|
  {
    hide Listed;
    hide Encoded;
    hide SlotNamed;
    hide Departed;
    hide SlotsIn;
    hide PlacesIn;
    hide NamesDistinct;
    hide Foldable;
    var units := Encoded(names[0]).value;
    DepartedBack(g, heap0, nodes0, heap, nodes, valid, table, d, k, name, e, units);
    var m := SlotNamed(valid, table, SlotsIn(g, heap, nodes, e), PlacesIn(g, heap, nodes, e), 0, units).value.value;
    if |names| > 1 {
      DepartedListed(g, heap0, nodes0, heap, nodes, d, k, name, Child(e, m));
      ResolveBefore(g, heap0, nodes0, heap, nodes, valid, table, d, k, name, Child(e, m), names[1..]);
    }
  }

  lemma DepartedListed(g: Geometry, heap0: Heap, nodes0: Owners, heap: Heap, nodes: Owners, d: Id, k: nat,
                       name: seq<u16>, e: Id)
    requires Departed(g, heap0, nodes0, heap, nodes, d, k, name) && Listed(g, heap, nodes, e)
    ensures Listed(g, heap0, nodes0, e) && e != Child(d, k)
  {
    hide SlotsOf;
    hide Scannable;
    hide Stored;
    hide DirsGain;
    hide Inhabited;
    assert e in nodes0 && nodes0[e] == nodes[e];
  }

  lemma DepartedChildless(g: Geometry, heap0: Heap, nodes0: Owners, heap: Heap, nodes: Owners, d: Id, k: nat,
                          name: seq<u16>)
    requires Departed(g, heap0, nodes0, heap, nodes, d, k, name)
    ensures Inhabited(heap0, nodes0) && forall j: nat :: Child(Child(d, k), j) !in nodes0
  {
    hide AllListed;
    hide DirsGain;
    hide Inhabited;
  }

  /** A departure keeps names apart. */
  lemma DistinctWithout(g: Geometry, heap0: Heap, nodes0: Owners, heap: Heap, nodes: Owners, valid: bool,
                        table: seq<byte>, d: Id, k: nat, name: seq<u16>)
    requires Departed(g, heap0, nodes0, heap, nodes, d, k, name) && NamesDistinct(g, heap0, nodes0, valid, table)
    ensures NamesDistinct(g, heap, nodes, valid, table)
  {
    hide Stays;
    hide Gains;
    hide SlotsOf;
    hide Scannable;
    hide Stored;
    hide Distinguished;
    hide DirsGain;
    forall e | e in nodes && nodes[e].isDir
      ensures Listed(g, heap, nodes, e) && Distinguished(valid, table, SlotsIn(g, heap, nodes, e))
    {
      assert e in nodes0 && nodes0[e] == nodes[e];
      DepartedSlots(g, heap0, nodes0, heap, nodes, d, k, name, e);
      FewerDistinguished(valid, table, SlotsIn(g, heap0, nodes0, e), SlotsIn(g, heap, nodes, e), k, name, e == d);
    }
  }

  lemma FewerDistinguished(valid: bool, table: seq<byte>, a: seq<Slot>, b: seq<Slot>, k: nat, name: seq<u16>,
                           lost: bool)
    requires if lost then Gains(b, a, k, name) else Stays(b, a)
    requires |a| == |b| && Stored(a) && Stored(b) && Distinguished(valid, table, a)
    ensures Distinguished(valid, table, b)
  {
    hide FileSet;
    hide NameAt;
    hide SameName;
    forall i, j | 0 <= i < |b| && 0 <= j < |b| && i != j && b[i][0] == 0x85 && b[j][0] == 0x85
      ensures SetAt(b, i) && SetAt(b, j) && SameName(valid, table, NameAt(b, i), NameAt(b, j)) != Ok(true)
    {
      StartsSet(b, i);
      StartsSet(b, j);
      if lost { assert Blank(b[k]); }
      assert SameAt(b, a, i) && SameAt(b, a, j);
      StartsSet(a, i);
      StartsSet(a, j);
    }
  }

  lemma NamesDepart(g: Geometry, heap0: Heap, nodes0: Owners, heap: Heap, nodes: Owners, valid: bool, table: seq<byte>,
                    d: Id, k: nat, name: seq<u16>)
    requires Departed(g, heap0, nodes0, heap, nodes, d, k, name)
    ensures NamesKept(g, heap0, nodes0, heap, nodes, valid, table)
  {
    hide Stays;
    hide Gains;
    hide SlotsOf;
    hide Scannable;
    hide Stored;
    hide Distinguished;
    hide AllProper;
    hide DirsGain;
    if NamesDistinct(g, heap0, nodes0, valid, table) {
      DistinctWithout(g, heap0, nodes0, heap, nodes, valid, table, d, k, name);
    }
    if NamesProper(g, heap0, nodes0, valid, table) {
      forall e | e in nodes && nodes[e].isDir
        ensures Listed(g, heap, nodes, e) && AllProper(valid, table, SlotsIn(g, heap, nodes, e))
      {
        assert e in nodes0 && nodes0[e] == nodes[e];
        DepartedSlots(g, heap0, nodes0, heap, nodes, d, k, name, e);
        LosesProper(valid, table, SlotsIn(g, heap0, nodes0, e), SlotsIn(g, heap, nodes, e), k, name, e == d);
      }
    }
  }

  // ----- where a search fails ------------------------------------------------------------------------

  /** Comparing a name that folds with one that does not fails as hashing that one
      does. */
  lemma {:induction false} MatchFails(valid: bool, table: seq<byte>, a: seq<u16>, b: seq<u16>, k: nat, e: Error)
    requires Foldable(valid, table, a) && k <= |a| == |b| && HashOf(valid, table, b[..k]).Ok?
    requires MatchFrom(valid, table, a, b, k) == Err(e)
    ensures HashOf(valid, table, b) == Err(e)
    decreases |b| - k
  {
    hide Folded;
    assert Folded(valid, table, a[k]).Ok?;
    assert b[..k + 1][..k] == b[..k] && b[..k + 1][k] == b[k];
    if Folded(valid, table, b[k]).Err? {
      HashStops(valid, table, b, k + 1);
    } else {
      MatchFails(valid, table, a, b, k + 1, e);
    }
  }

  /** A search among proper names fails only as hashing the wanted name does. */
  lemma {:induction false} SearchFails(valid: bool, table: seq<byte>, slots: seq<Slot>, locs: seq<EntryLocator>,
                                       lo: nat, wanted: seq<u16>, e: Error)
    requires Stored(slots) && |slots| == |locs| && lo <= |slots| && AllProper(valid, table, slots)
    requires SlotNamed(valid, table, slots, locs, lo, wanted) == Err(e)
    ensures HashOf(valid, table, wanted) == Err(e)
    decreases |slots| - lo
  {
    hide MatchFrom;
    hide FileSet;
    hide NameAt;
    hide SlotNamed;
    hide Foldable;
    if lo == |slots| {
      NoneBeyond(valid, table, slots, locs, lo, wanted);
    } else {
      NamedStep(valid, table, slots, locs, lo, wanted);
      if slots[lo][0] == 0x85 && SameName(valid, table, NameAt(slots, lo), wanted).Err? {
        assert wanted[..0] == [];
        MatchFails(valid, table, NameAt(slots, lo), wanted, 0, e);
      } else {
        SearchFails(valid, table, slots, locs, lo + 1, wanted, e);
      }
    }
  }

  /** Among proper names the name of any set finds one. */
  lemma {:induction false} FindsStored(valid: bool, table: seq<byte>, slots: seq<Slot>, locs: seq<EntryLocator>,
                                       lo: nat, k: nat)
    requires Stored(slots) && |slots| == |locs| && lo <= k < |slots| && slots[k][0] == 0x85
    requires AllProper(valid, table, slots)
    ensures var found := SlotNamed(valid, table, slots, locs, lo, NameAt(slots, k)); found.Ok? && found.value.Some?
    decreases k - lo
  {
    hide SameName;
    hide FileSet;
    hide NameAt;
    hide SlotNamed;
    hide FoldedName;
    hide Foldable;
    NamedStep(valid, table, slots, locs, lo, NameAt(slots, k));
    if slots[lo][0] == 0x85 { SameNameIsFolding(valid, table, NameAt(slots, lo), NameAt(slots, k)); }
    if lo < k { FindsStored(valid, table, slots, locs, lo + 1, k); }
  }
}
