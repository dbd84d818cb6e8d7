/** What stays in a directory while files come, grow, shrink and go: which slots
    start an entry set, the names of the sets, and every entry that is not part of
    a set, such as the volume's own descriptors. */
module Standing {
  import opened Words
  import opened Geometry
  import opened Views
  import opened Volume
  import opened Extents
  import opened EntrySets
  import opened EntryCodec
  import opened Tree
  import opened SlotIo
  import opened Meaning
  import opened Listings

  /** An entry in use that is part of no file's set. */
  predicate Fixed(slot: Slot) {
    !Spare(slot) && slot[0] != 0x85 && slot[0] != 0xc0 && slot[0] != 0xc1
  }

  /** The name a set holds. */
  function NameIn(win: seq<Slot>): seq<u16>
    requires 1 <= |win| <= 19
  {
    NameUtf16(Decode(win, seq(|win|, _ => NOWHERE)))
  }

  /** The name does not depend on where the set is. */
  lemma NameAnywhere(win: seq<Slot>, locs: seq<EntryLocator>)
    requires 1 <= |win| == |locs| <= 19
    ensures NameUtf16(Decode(win, locs)) == NameIn(win)
  {
  }

  function NameAt(slots: seq<Slot>, k: nat): seq<u16>
    requires k < |slots| && SetAt(slots, k)
  {
    NameIn(slots[k..k + SetLength(slots[k])])
  }

  lemma RecordName(slots: seq<Slot>, locs: seq<EntryLocator>, k: nat)
    requires k < |slots| == |locs| && SetAt(slots, k)
    ensures NameUtf16(RecordAt(slots, locs, k)) == NameAt(slots, k)
  {
    hide FileSet;
    SetSlots(slots, k);
    NameAnywhere(slots[k..k + SetLength(slots[k])], locs[k..k + SetLength(slots[k])]);
  }

  /** Slot `k` starts a set in both or in neither, with the same name; and it is
      the same other entry in both or in neither. */
  ghost predicate SameAt(a: seq<Slot>, b: seq<Slot>, k: nat)
    requires Stored(a) && Stored(b) && k < |a| <= |b|
  {
    && (a[k][0] == 0x85 <==> b[k][0] == 0x85)
    && (a[k][0] == 0x85 ==> NameAt(b, k) == NameAt(a, k))
    && (Fixed(a[k]) || Fixed(b[k]) ==> b[k] == a[k])
  }

  /** A slot of no set and no other entry. */
  predicate Blank(slot: Slot) {
    slot[0] != 0x85 && !Fixed(slot)
  }

  /** The directory has grown at most, and every set's name and every other entry
      is where it was. */
  ghost predicate Stays(a: seq<Slot>, b: seq<Slot>) {
    && Stored(a) && Stored(b) && |a| <= |b|
    && (forall k :: 0 <= k < |a| ==> SameAt(a, b, k))
    && (forall k :: |a| <= k < |b| ==> Blank(b[k]))
  }

  /** As `Stays`, except that a set with this name has come to slot `k`. */
  ghost predicate Gains(a: seq<Slot>, b: seq<Slot>, k: nat, name: seq<u16>) {
    && Stored(a) && Stored(b) && |a| <= |b| && k < |b|
    && (forall j :: 0 <= j < |a| && j != k ==> SameAt(a, b, j))
    && (forall j :: |a| <= j < |b| && j != k ==> Blank(b[j]))
    && (k < |a| ==> Blank(a[k]))
    && b[k][0] == 0x85 && NameAt(b, k) == name
  }

  lemma StaysRefl(a: seq<Slot>)
    requires Stored(a)
    ensures Stays(a, a)
  {
    hide FileSet;
    hide NameIn;
  }

  lemma StaysTrans(a: seq<Slot>, b: seq<Slot>, c: seq<Slot>)
    requires Stays(a, b) && Stays(b, c)
    ensures Stays(a, c)
  {
    hide FileSet;
    hide NameIn;
    hide Stored;
    forall k | 0 <= k < |a|
      ensures SameAt(a, c, k)
    {
      assert SameAt(a, b, k) && SameAt(b, c, k);
      StartsSet(a, k);
      StartsSet(b, k);
      StartsSet(c, k);
    }
    forall k | |a| <= k < |c|
      ensures Blank(c[k])
    {
      if k < |b| { assert Blank(b[k]) && SameAt(b, c, k); }
    }
  }

  lemma StartsSet(slots: seq<Slot>, k: nat)
    requires Stored(slots) && k < |slots|
    ensures slots[k][0] == 0x85 ==> SetAt(slots, k)
  {
  }

  /** Respacing free slots. */
  lemma StaysSpaced(a: seq<Slot>, b: seq<Slot>)
    requires Stored(a) && SameSets(a, b)
    ensures Stays(a, b)
  {
    hide FileSet;
    hide NameIn;
    forall k | 0 <= k < |b| && b[k][0] == 0x85
      ensures SetAt(b, k) && k < |a| && a[k] == b[k] && NameAt(b, k) == NameAt(a, k)
    {
      assert k < |a|;
      SetSlots(a, k);
      SetKept(a, b, k);
    }
    forall k | 0 <= k < |a|
      ensures SameAt(a, b, k)
    {
      if a[k][0] == 0x85 { assert b[k] == a[k]; }
    }
  }

  /** A set at slot `k` replaced by one of the same slot types and name. */
  lemma StaysRewritten(a: seq<Slot>, k: nat, win: seq<Slot>)
    requires Stored(a) && k < |a| && a[k][0] == 0x85 && |win| == SetLength(a[k]) && FileSet(win)
    requires k + |win| <= |a| && forall i :: 0 <= i < |win| ==> win[i][0] == a[k + i][0]
    requires NameIn(win) == NameAt(a, k)
    ensures Stays(a, Window(a, k, win))
  {
    hide FileSet;
    hide NameIn;
    hide Stored;
    hide Window;
    var b, w := Window(a, k, win), |win|;
    StartsSet(a, k);
    SetSlots(a, k);
    assert FileSet(win) && SetLength(win[0]) == w by { WindowSize(win); }
    RewrittenTypes(a, k, win);
    forall j | 0 <= j < |b| && b[j][0] == 0x85
      ensures a[j][0] == 0x85 && SetAt(a, j) && SetAt(b, j) && NameAt(b, j) == NameAt(a, j)
    {
      StartsSet(a, j);
      if j != k {
        SetSlots(a, j);
        SetKept(a, b, j);
      }
    }
    StoredAll(b);
    forall j | 0 <= j < |a|
      ensures SameAt(a, b, j)
    {
    }
  }

  lemma RewrittenTypes(a: seq<Slot>, k: nat, win: seq<Slot>)
    requires k + |win| <= |a| && 0 < |win| && forall i :: 0 <= i < |win| ==> win[i][0] == a[k + i][0]
    ensures var b, w := Window(a, k, win), |win|;
            && b[k..k + w] == win && b[k] == win[0]
            && (forall i :: 0 <= i < |a| && !(k <= i < k + w) ==> b[i] == a[i])
            && forall i :: 0 <= i < |a| ==> b[i][0] == a[i][0]
  {
    var b := Window(a, k, win);
    forall i | k <= i < k + |win|
      ensures b[i][0] == a[i][0]
    {
      assert b[i] == win[i - k] && win[i - k][0] == a[k + (i - k)][0];
    }
  }

  lemma StoredAll(b: seq<Slot>)
    requires forall j :: 0 <= j < |b| && b[j][0] == 0x85 ==> SetAt(b, j)
    ensures Stored(b)
  {
  }

  /** A set's stream fields rewritten in place. */
  lemma StaysPatched(a: seq<Slot>, k: nat, n: nat, noFatChain: bool, valid: u64, first: u32, length: u64)
    requires Stored(a) && k < |a| && a[k][0] == 0x85 && n == SetLength(a[k])
    requires valid <= length && (length != 0 ==> first >= 2)
    ensures k + n <= |a| && n >= 3
    ensures Stays(a, Window(a, k, PatchedSet(a[k..k + n], noFatChain, valid, first, length)))
  {
    hide FileSet;
    hide PatchedSet;
    hide Decode;
    hide Stored;
    hide Stays;
    StartsSet(a, k);
    SetSlots(a, k);
    var win := a[k..k + n];
    assert FileSet(win);
    PatchedKeeps(win, noFatChain, valid, first, length);
    var patched := PatchedSet(win, noFatChain, valid, first, length);
    assert forall i :: 0 <= i < n ==> win[i] == a[k + i];
    StaysRewritten(a, k, patched);
  }

  lemma PatchedKeeps(win: seq<Slot>, noFatChain: bool, valid: u64, first: u32, length: u64)
    requires FileSet(win) && valid <= length && (length != 0 ==> first >= 2)
    ensures var patched := PatchedSet(win, noFatChain, valid, first, length);
            && 3 <= |win| <= 19 && |patched| == |win| && FileSet(patched) && NameIn(patched) == NameIn(win)
            && forall i :: 0 <= i < |win| ==> patched[i][0] == win[i][0]
  {
    hide FileSet;
    hide Decode;
    hide PatchedSet;
    WindowSize(win);
    PatchedIsFileSet(win, noFatChain, valid, first, length);
    PatchedDecodes(win, seq(|win|, _ => NOWHERE), noFatChain, valid, first, length);
    PatchedTypes(win, noFatChain, valid, first, length);
  }

  lemma WindowSize(win: seq<Slot>)
    requires FileSet(win)
    ensures 3 <= |win| <= 19 && SetLength(win[0]) == |win|
  {
  }

  lemma PatchedTypes(win: seq<Slot>, noFatChain: bool, valid: u64, first: u32, length: u64)
    requires |win| >= 2
    ensures var patched := PatchedSet(win, noFatChain, valid, first, length);
            |patched| == |win| && forall i :: 0 <= i < |win| ==> patched[i][0] == win[i][0]
  {
    PatchStreamReads(win[1], noFatChain, valid, first, length);
    SealedStores(win[1 := PatchStream(win[1], noFatChain, valid, first, length)]);
  }

  /** A new set in free slots. */
  lemma GainsSet(a: seq<Slot>, k: nat, win: seq<Slot>)
    requires Stored(a) && FileSet(win) && k + |win| <= |a| && forall i :: k <= i < k + |win| ==> Spare(a[i])
    ensures 3 <= |win| <= 19 && Gains(a, Window(a, k, win), k, NameIn(win))
  {
    hide FileSet;
    hide NameIn;
    hide Stored;
    hide Window;
    SetOpens(win);
    var b, w := Window(a, k, win), |win|;
    InsertStored(a, k, win);
    NewSlots(a, k, win);
    forall j | 0 <= j < |a| && j != k
      ensures SameAt(a, b, j)
    {
      if k < j < k + w {
        assert Spare(a[j]);
      } else {
        assert b[j] == a[j];
        StartsSet(a, j);
        if a[j][0] == 0x85 {
          SetSlots(a, j);
          ClearOfSet(a, j, k, w);
          SetKept(a, b, j);
        }
      }
    }
  }

  /** A set does not reach into free slots. */
  lemma ClearOfSet(a: seq<Slot>, j: nat, k: nat, w: nat)
    requires j < |a| && SetAt(a, j) && k + w <= |a| && !(k <= j < k + w) && w > 0
    requires forall i :: k <= i < k + w ==> Spare(a[i])
    ensures j + SetLength(a[j]) <= k || k + w <= j
  {
    hide FileSet;
    SetSlots(a, j);
    assert Spare(a[k]);
  }

  /** The slots of the new set. */
  lemma NewSlots(a: seq<Slot>, k: nat, win: seq<Slot>)
    requires FileSet(win) && k + |win| <= |a| && |win| > 0
    ensures var b := Window(a, k, win);
            && (forall i :: 0 <= i < |a| && !(k <= i < k + |win|) ==> b[i] == a[i])
            && (forall i :: k < i < k + |win| ==> b[i][0] == 0xc0 || b[i][0] == 0xc1)
            && b[k][0] == 0x85 && SetLength(b[k]) == |win| && b[k..k + |win|] == win
  {
    var b := Window(a, k, win);
    assert forall i :: k <= i < k + |win| ==> b[i] == win[i - k];
    assert b[k..k + |win|] == win;
  }

  /** A set retired. */
  lemma LosesSet(a: seq<Slot>, k: nat)
    requires Stored(a) && k < |a| && a[k][0] == 0x85
    ensures var w := SetLength(a[k]);
            k + w <= |a| && SetAt(a, k) && Gains(Window(a, k, RetiredSet(a[k..k + w])), a, k, NameAt(a, k))
  {
    hide FileSet;
    hide NameIn;
    hide Stored;
    hide Window;
    StartsSet(a, k);
    SetSlots(a, k);
    RetireStored(a, k);
    var w := SetLength(a[k]);
    var b := Window(a, k, RetiredSet(a[k..k + w]));
    RetiredSlots(a, k);
    forall j | 0 <= j < |a| && j != k
      ensures SameAt(b, a, j)
    {
      StartsSet(a, j);
      StartsSet(b, j);
      if k < j < k + w {
        assert b[j][0] < 0x80;
      } else {
        assert b[j] == a[j];
        if b[j][0] == 0x85 {
          SetSlots(b, j);
          ClearOfSet(b, j, k, w);
          SetKept(b, a, j);
        }
      }
    }
  }

  lemma RetiredSlots(a: seq<Slot>, k: nat)
    requires k < |a| && SetAt(a, k) && 3 <= SetLength(a[k]) && k + SetLength(a[k]) <= |a|
    ensures var w := SetLength(a[k]); var b := Window(a, k, RetiredSet(a[k..k + w]));
            && (forall i :: 0 <= i < |a| && !(k <= i < k + w) ==> b[i] == a[i])
            && (forall i :: k <= i < k + w ==> b[i][0] < 0x80)
  {
    hide FileSet;
    SetSlots(a, k);
    var w := SetLength(a[k]);
    var win := RetiredSet(a[k..k + w]);
    var b := Window(a, k, win);
    forall i | k <= i < k + w
      ensures b[i][0] < 0x80
    {
      assert b[i] == win[i - k] == Retired(a[i]);
    }
  }

  // ----- all directories ---------------------------------------------------------------------

  ghost predicate Reads(heap: Heap, ext: seq<nat>) {
    forall i :: 0 <= i < |ext| ==> ext[i] < |heap|
  }

  /** Every directory is still there and stands as it did. */
  ghost predicate DirsStay(heap0: Heap, nodes0: Owners, heap: Heap, nodes: Owners) {
    forall d :: d in nodes0 && nodes0[d].isDir ==> DirStays(heap0, nodes0, heap, nodes, d)
  }

  ghost predicate DirStays(heap0: Heap, nodes0: Owners, heap: Heap, nodes: Owners, d: Id)
    requires d in nodes0
  {
    && d in nodes && nodes[d].isDir && Reads(heap0, nodes0[d].ext) && Reads(heap, nodes[d].ext)
    && Stays(DirSlots(heap0, nodes0[d].ext), DirSlots(heap, nodes[d].ext))
  }

  lemma DirsStayTrans(heap0: Heap, nodes0: Owners, heap1: Heap, nodes1: Owners, heap2: Heap, nodes2: Owners)
    requires DirsStay(heap0, nodes0, heap1, nodes1) && DirsStay(heap1, nodes1, heap2, nodes2)
    ensures DirsStay(heap0, nodes0, heap2, nodes2)
  {
    hide SlotsOf;
    hide Stays;
    forall d | d in nodes0 && nodes0[d].isDir
      ensures DirStays(heap0, nodes0, heap2, nodes2, d)
    {
      assert DirStays(heap0, nodes0, heap1, nodes1, d);
      assert DirStays(heap1, nodes1, heap2, nodes2, d);
      StaysTrans(DirSlots(heap0, nodes0[d].ext), DirSlots(heap1, nodes1[d].ext), DirSlots(heap2, nodes2[d].ext));
    }
  }

  /** In an intact tree every directory's sets are complete. */
  lemma TreeStored(g: Geometry, heap: Heap, nodes: Owners, d: Id)
    requires TreeOk(g, heap, nodes) && d in nodes && nodes[d].isDir
    ensures Reads(heap, nodes[d].ext) && Stored(DirSlots(heap, nodes[d].ext)) && ZeroTail(DirSlots(heap, nodes[d].ext))
  {
    hide SlotsOf;
    hide DirRecords;
    assert DirOk(nodes, d, SlotsOf(Flat(heap, nodes[d].ext)), g.BytesPerCluster());
    DirStored(nodes, d, DirSlots(heap, nodes[d].ext), g.BytesPerCluster());
  }

  /** They are wherever unused slots may be. */
  lemma RecordsStored(g: Geometry, heap: Heap, nodes: Owners, d: Id)
    requires TreeRecords(g, heap, nodes) && d in nodes && nodes[d].isDir
    ensures Reads(heap, nodes[d].ext) && Stored(DirSlots(heap, nodes[d].ext))
  {
    hide SlotsOf;
    hide DirRecords;
    assert DirRecords(nodes, d, SlotsOf(Flat(heap, nodes[d].ext)), g.BytesPerCluster());
    DirStored(nodes, d, DirSlots(heap, nodes[d].ext), g.BytesPerCluster());
  }

  /** The sets that a directory's records tell of are complete. */
  lemma DirStored(nodes: Owners, d: Id, slots: seq<Slot>, cb: nat)
    requires DirRecords(nodes, d, slots, cb)
    ensures Stored(slots)
  {
    forall k | 0 <= k < |slots| && slots[k][0] == 0x85
      ensures SetAt(slots, k)
    {
      var n := nodes[Child(d, k)];
      assert RecordOk(n, slots, k, cb);
      assert slots[k..k + n.count][0] == slots[k];
    }
  }

  /** Directories that keep their bytes stand. */
  lemma KeptStays(g: Geometry, heap0: Heap, heap: Heap, nodes: Owners)
    requires TreeRecords(g, heap0, nodes) && DirsKept(heap0, heap, nodes)
    ensures DirsStay(heap0, nodes, heap, nodes)
  {
    hide SlotsOf;
    hide TreeRecords;
    hide Stays;
    hide Stored;
    hide Flat;
    forall d | d in nodes && nodes[d].isDir
      ensures DirStays(heap0, nodes, heap, nodes, d)
    {
      RecordsStored(g, heap0, nodes, d);
      KeptSlots(heap0, heap, nodes, d);
      StaysRefl(DirSlots(heap0, nodes[d].ext));
    }
  }

  lemma SameStays(g: Geometry, heap: Heap, nodes: Owners)
    requires TreeRecords(g, heap, nodes)
    ensures DirsStay(heap, nodes, heap, nodes)
  {
    hide TreeRecords;
    hide DirsStay;
    assert DirsKept(heap, heap, nodes);
    KeptStays(g, heap, heap, nodes);
  }

  /** Directories that stood and then kept their bytes stand. */
  lemma StandsOn(heap0: Heap, nodes0: Owners, heap: Heap, nodes: Owners, heap': Heap)
    requires DirsStay(heap0, nodes0, heap, nodes) && DirsKept(heap, heap', nodes)
    ensures DirsStay(heap0, nodes0, heap', nodes)
  {
    hide SlotsOf;
    hide Stays;
    hide Flat;
    forall d | d in nodes0 && nodes0[d].isDir
      ensures DirStays(heap0, nodes0, heap', nodes, d)
    {
      assert DirStays(heap0, nodes0, heap, nodes, d);
      KeptSlots(heap, heap', nodes, d);
    }
  }

  /** A set named `name` has come to slot `k` of directory `d`; all else stands. */
  ghost predicate DirsGain(heap0: Heap, nodes0: Owners, heap: Heap, nodes: Owners, d: Id, k: nat, name: seq<u16>) {
    && d in nodes0 && nodes0[d].isDir && d in nodes && nodes[d].isDir
    && Reads(heap0, nodes0[d].ext) && Reads(heap, nodes[d].ext)
    && Gains(DirSlots(heap0, nodes0[d].ext), DirSlots(heap, nodes[d].ext), k, name)
    && forall e :: e in nodes0 && nodes0[e].isDir && e != d ==> DirStays(heap0, nodes0, heap, nodes, e)
  }

  lemma GainsAfter(a: seq<Slot>, b: seq<Slot>, c: seq<Slot>, k: nat, name: seq<u16>)
    requires Stays(a, b) && Gains(b, c, k, name)
    ensures Gains(a, c, k, name)
  {
    hide FileSet;
    hide NameIn;
    hide Stored;
    forall j | 0 <= j < |a| && j != k
      ensures SameAt(a, c, j)
    {
      assert SameAt(a, b, j) && SameAt(b, c, j);
      StartsSet(a, j);
      StartsSet(b, j);
      StartsSet(c, j);
    }
    if k < |a| { assert SameAt(a, b, k); }
    forall j | |a| <= j < |c| && j != k
      ensures Blank(c[j])
    {
      if j < |b| { assert Blank(b[j]) && SameAt(b, c, j); }
    }
  }

  /** Writing a new set into free slots of directory `d`. */
  lemma SetAdded(heap0: Heap, nodes0: Owners, heap: Heap, heap': Heap, nodes: Owners, nodes': Owners, d: Id, k: nat,
                 win: seq<Slot>)
    requires DirsStay(heap0, nodes0, heap, nodes) && Apart(nodes') && |heap'| == |heap|
    requires forall e :: e in nodes ==> e in nodes' && nodes'[e] == nodes[e]
    requires d in nodes0 && nodes0[d].isDir && FileSet(win)
    requires d in nodes && Reads(heap, nodes[d].ext) && k + |win| <= |DirSlots(heap, nodes[d].ext)|
    requires forall i :: k <= i < k + |win| ==> Spare(DirSlots(heap, nodes[d].ext)[i])
    requires DirSlots(heap', nodes[d].ext) == Window(DirSlots(heap, nodes[d].ext), k, win)
    requires forall c :: 0 <= c < |heap| && c !in nodes[d].ext ==> heap'[c] == heap[c]
    ensures 3 <= |win| <= 19 && DirsGain(heap0, nodes0, heap', nodes', d, k, NameIn(win))
  {
    hide SlotsOf;
    hide Stays;
    hide Gains;
    hide FileSet;
    hide NameIn;
    hide Window;
    hide Flat;
    assert DirStays(heap0, nodes0, heap, nodes, d);
    StoodStored(DirSlots(heap0, nodes0[d].ext), DirSlots(heap, nodes[d].ext));
    GainsSet(DirSlots(heap, nodes[d].ext), k, win);
    GainsAfter(DirSlots(heap0, nodes0[d].ext), DirSlots(heap, nodes[d].ext), DirSlots(heap', nodes[d].ext), k,
               NameIn(win));
    forall e | e in nodes0 && nodes0[e].isDir && e != d
      ensures DirStays(heap0, nodes0, heap', nodes', e)
    {
      assert DirStays(heap0, nodes0, heap, nodes, e);
      ApartExtents(nodes', e, d);
      FlatFrame(heap, heap', nodes[e].ext);
    }
  }

  lemma StoodStored(a: seq<Slot>, b: seq<Slot>)
    requires Stays(a, b)
    ensures Stored(a) && Stored(b)
  {
    hide SameAt;
    hide Stored;
  }

  lemma ApartExtents(nodes: Owners, a: Id, b: Id)
    requires Apart(nodes) && a in nodes && b in nodes && a != b
    ensures forall i :: 0 <= i < |nodes[a].ext| ==> nodes[a].ext[i] !in nodes[b].ext
  {
  }

  /** Retiring the set at slot `k` of directory `d`: seen backwards, a gain. */
  lemma SetRetired(g: Geometry, heap0: Heap, heap: Heap, nodes0: Owners, nodes: Owners, d: Id, k: nat)
    requires TreeOk(g, heap0, nodes0) && Apart(nodes0) && d in nodes0 && nodes0[d].isDir && |heap| == |heap0|
    requires forall e :: e in nodes ==> e in nodes0 && nodes[e] == nodes0[e]
    requires d in nodes && Reads(heap0, nodes0[d].ext)
    requires var slots := DirSlots(heap0, nodes0[d].ext);
             k < |slots| && slots[k][0] == 0x85 && k + SetLength(slots[k]) <= |slots|
             && DirSlots(heap, nodes0[d].ext) == Window(slots, k, RetiredSet(slots[k..k + SetLength(slots[k])]))
    requires forall c :: 0 <= c < |heap0| && c !in nodes0[d].ext ==> heap[c] == heap0[c]
    ensures SetAt(DirSlots(heap0, nodes0[d].ext), k)
    ensures DirsGain(heap, nodes, heap0, nodes0, d, k, NameAt(DirSlots(heap0, nodes0[d].ext), k))
  {
    hide TreeOk;
    hide SlotsOf;
    hide Stays;
    hide Gains;
    hide FileSet;
    hide NameIn;
    hide Window;
    hide Flat;
    hide Stored;
    TreeStored(g, heap0, nodes0, d);
    LosesSet(DirSlots(heap0, nodes0[d].ext), k);
    forall e | e in nodes && nodes[e].isDir && e != d
      ensures DirStays(heap, nodes, heap0, nodes0, e)
    {
      TreeStored(g, heap0, nodes0, e);
      ApartExtents(nodes0, e, d);
      FlatFrame(heap0, heap, nodes0[e].ext);
      StaysRefl(DirSlots(heap0, nodes0[e].ext));
    }
  }

  /** The later side of a loss may go on keeping its directories' bytes. */
  lemma LossGoesOn(heap: Heap, heap': Heap, nodes: Owners, heap0: Heap, nodes0: Owners, d: Id, k: nat, name: seq<u16>)
    requires DirsGain(heap, nodes, heap0, nodes0, d, k, name) && DirsKept(heap, heap', nodes)
    ensures DirsGain(heap', nodes, heap0, nodes0, d, k, name)
  {
    hide SlotsOf;
    hide Stays;
    hide Gains;
    hide Flat;
    KeptSlots(heap, heap', nodes, d);
    forall e | e in nodes && nodes[e].isDir && e != d
      ensures DirStays(heap', nodes, heap0, nodes0, e)
    {
      assert DirStays(heap, nodes, heap0, nodes0, e);
      KeptSlots(heap, heap', nodes, e);
    }
  }

  // ----- the root's descriptors ------------------------------------------------------------------

  /** The entries that are part of no set are the same in both. */
  ghost predicate FixedSame(a: seq<Slot>, b: seq<Slot>) {
    && |a| <= |b|
    && (forall k :: 0 <= k < |a| && (Fixed(a[k]) || Fixed(b[k])) ==> b[k] == a[k])
    && (forall k :: |a| <= k < |b| ==> !Fixed(b[k]))
  }

  lemma StaysFixed(a: seq<Slot>, b: seq<Slot>)
    requires Stays(a, b)
    ensures FixedSame(a, b)
  {
    hide Stored;
    hide NameAt;
    forall k | 0 <= k < |a| && (Fixed(a[k]) || Fixed(b[k]))
      ensures b[k] == a[k]
    {
      assert SameAt(a, b, k);
    }
    forall k | |a| <= k < |b|
      ensures !Fixed(b[k])
    {
      assert Blank(b[k]);
    }
  }

  lemma GainsFixed(a: seq<Slot>, b: seq<Slot>, n: nat, name: seq<u16>)
    requires Gains(a, b, n, name)
    ensures FixedSame(a, b) && (|a| == |b| ==> FixedSame(b, a))
  {
    hide Stored;
    hide NameAt;
    forall k | 0 <= k < |a| && (Fixed(a[k]) || Fixed(b[k]))
      ensures b[k] == a[k]
    {
      if k != n { assert SameAt(a, b, k); }
    }
  }

  /** The root's descriptors are where and what they were. */
  ghost predicate RootStands(heap0: Heap, nodes0: Owners, heap: Heap, nodes: Owners) {
    && Root in nodes0 && nodes0[Root].isDir && Root in nodes && nodes[Root].isDir
    && Reads(heap0, nodes0[Root].ext) && Reads(heap, nodes[Root].ext)
    && FixedSame(DirSlots(heap0, nodes0[Root].ext), DirSlots(heap, nodes[Root].ext))
  }

  lemma RootStandsTrans(heap0: Heap, nodes0: Owners, heap1: Heap, nodes1: Owners, heap2: Heap, nodes2: Owners)
    requires RootStands(heap0, nodes0, heap1, nodes1) && RootStands(heap1, nodes1, heap2, nodes2)
    ensures RootStands(heap0, nodes0, heap2, nodes2)
  {
    hide SlotsOf;
    hide Flat;
    FixedTrans(DirSlots(heap0, nodes0[Root].ext), DirSlots(heap1, nodes1[Root].ext), DirSlots(heap2, nodes2[Root].ext));
  }

  lemma FixedTrans(a: seq<Slot>, b: seq<Slot>, c: seq<Slot>)
    requires FixedSame(a, b) && FixedSame(b, c)
    ensures FixedSame(a, c)
  {
    hide Fixed;
    forall k | 0 <= k < |a| && (Fixed(a[k]) || Fixed(c[k]))
      ensures c[k] == a[k]
    {
      if Fixed(a[k]) { assert b[k] == a[k]; } else { assert c[k] == b[k]; }
    }
    forall k | |a| <= k < |b|
      ensures !Fixed(c[k])
    {
    }
  }

  lemma RootStandsRefl(heap: Heap, nodes: Owners)
    requires Root in nodes && nodes[Root].isDir && Reads(heap, nodes[Root].ext)
    ensures RootStands(heap, nodes, heap, nodes)
  {
    hide SlotsOf;
    hide Flat;
    hide Fixed;
  }

  /** They do when every directory stands, ... */
  lemma StaysRoot(heap0: Heap, nodes0: Owners, heap: Heap, nodes: Owners)
    requires DirsStay(heap0, nodes0, heap, nodes) && Root in nodes0 && nodes0[Root].isDir
    ensures RootStands(heap0, nodes0, heap, nodes)
  {
    hide SlotsOf;
    hide Flat;
    hide Stays;
    hide FixedSame;
    assert DirStays(heap0, nodes0, heap, nodes, Root);
    StaysFixed(DirSlots(heap0, nodes0[Root].ext), DirSlots(heap, nodes[Root].ext));
  }

  /** ... when a set comes ... */
  lemma GainsRoot(heap0: Heap, nodes0: Owners, heap: Heap, nodes: Owners, d: Id, k: nat, name: seq<u16>)
    requires DirsGain(heap0, nodes0, heap, nodes, d, k, name) && Root in nodes0 && nodes0[Root].isDir
    ensures RootStands(heap0, nodes0, heap, nodes)
  {
    hide SlotsOf;
    hide Flat;
    hide Stays;
    hide Gains;
    hide FixedSame;
    if d == Root {
      GainsFixed(DirSlots(heap0, nodes0[Root].ext), DirSlots(heap, nodes[Root].ext), k, name);
    } else {
      assert DirStays(heap0, nodes0, heap, nodes, Root);
      StaysFixed(DirSlots(heap0, nodes0[Root].ext), DirSlots(heap, nodes[Root].ext));
    }
  }

  /** ... and when one goes. */
  lemma LosesRoot(heap0: Heap, nodes0: Owners, heap: Heap, nodes: Owners, d: Id, k: nat, name: seq<u16>)
    requires DirsGain(heap, nodes, heap0, nodes0, d, k, name)
    requires Root in nodes && nodes[Root].isDir && Root in nodes0 && nodes0[Root].isDir
    requires Reads(heap, nodes[Root].ext) && Reads(heap0, nodes0[Root].ext)
    requires |DirSlots(heap, nodes[Root].ext)| == |DirSlots(heap0, nodes0[Root].ext)|
    ensures RootStands(heap0, nodes0, heap, nodes)
  {
    hide SlotsOf;
    hide Flat;
    hide Stays;
    hide Gains;
    hide FixedSame;
    var a, b := DirSlots(heap, nodes[Root].ext), DirSlots(heap0, nodes0[Root].ext);
    if d == Root {
      GainsFixed(a, b, k, name);
    } else {
      assert DirStays(heap, nodes, heap0, nodes0, Root);
      StaysFixed(a, b);
      SameBack(a, b);
    }
  }

  lemma SameBack(a: seq<Slot>, b: seq<Slot>)
    requires FixedSame(a, b) && |a| == |b|
    ensures FixedSame(b, a)
  {
    hide Fixed;
  }
}
