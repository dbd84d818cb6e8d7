/** The entry sets the writer produces, the stream update it applies to them,
    and the round trip through the parser. */
module EntryCodec {
  import opened Words
  import opened Errors
  import opened EntrySets

  /** What a new entry set is to say. */
  datatype NewEntrySet = NewEntrySet(
    name: seq<u16>,
    attributes: u16,
    firstCluster: u32,
    dataLength: u64,
    noFatChain: bool,
    created: ExfatTimestamp,
    modified: ExfatTimestamp,
    accessed: ExfatTimestamp)

  function Flags(noFatChain: bool): u8 { if noFatChain then 3 else 1 }

  function SlotsFor(nameLen: nat): nat { 2 + DivCeil(nameLen, 15) }

  function PrimarySlot(c: NewEntrySet, slots: nat): Slot
    requires 1 <= slots <= 256
  {
    [0x85, slots - 1, 0, 0] + Enc16(c.attributes) + [0, 0] + Enc32(c.created.dateTime)
    + Enc32(c.modified.dateTime) + Enc32(c.accessed.dateTime)
    + [c.created.tenMillis, c.modified.tenMillis, c.created.utcOffset, c.modified.utcOffset, c.accessed.utcOffset]
    + Zeros(7)
  }

  function StreamSlot(c: NewEntrySet, hash: u16): Slot
    requires |c.name| <= 255
  {
    [0xc0, Flags(c.noFatChain), 0, |c.name|] + Enc16(hash) + [0, 0] + Enc64(c.dataLength)
    + [0, 0, 0, 0] + Enc32(c.firstCluster) + Enc64(c.dataLength)
  }

  /** Byte `i` of the `index`-th name slot. */
  function NameByte(name: seq<u16>, index: nat, i: nat): byte {
    var unit := 15 * index + (i - 2) / 2;
    if i == 0 then 0xc1
    else if i == 1 || unit >= |name| then 0
    else Enc16(name[unit])[i % 2]
  }

  function NameSlot(name: seq<u16>, index: nat): Slot {
    seq(32, i requires 0 <= i < 32 => NameByte(name, index, i))
  }

  /** Slot `i` of a new set, before the checksum is stored. */
  function RawSlot(c: NewEntrySet, hash: u16, i: nat): Slot
    requires |c.name| <= 255
  {
    if i == 0 then PrimarySlot(c, SlotsFor(|c.name|))
    else if i == 1 then StreamSlot(c, hash)
    else NameSlot(c.name, i - 2)
  }

  function RawSet(c: NewEntrySet, hash: u16): (s: seq<Slot>)
    requires |c.name| <= 255
    ensures |s| == SlotsFor(|c.name|)
  {
    seq(SlotsFor(|c.name|), i requires 0 <= i < SlotsFor(|c.name|) => RawSlot(c, hash, i))
  }

  /** A set whose primary slot stores the set's checksum. */
  function Sealed(set_: seq<Slot>): (s: seq<Slot>)
    requires |set_| > 0
    ensures |s| == |set_| && s[1..] == set_[1..]
  {
    var primary: Slot := Splice(set_[0], 2, Enc16(SetSum(set_)));
    set_[0 := primary]
  }

  /** The set as it ends up on the volume. */
  function BuiltSet(c: NewEntrySet, hash: u16): (s: seq<Slot>)
    requires |c.name| <= 255
    ensures |s| == SlotsFor(|c.name|)
  {
    Sealed(RawSet(c, hash))
  }

  /** Sealing makes the stored checksum the computed one and touches nothing
      else of the set. */
  lemma SealedStores(set_: seq<Slot>)
    requires |set_| > 0
    ensures SetSum(Sealed(set_)) == SetSum(set_) == Le16(Sealed(set_)[0][2..4])
    ensures forall i :: 0 <= i < 32 && i != 2 && i != 3 ==> Sealed(set_)[0][i] == set_[0][i]
    ensures forall i :: 1 <= i < |set_| ==> Sealed(set_)[i] == set_[i]
  {
    SetSumIgnoresStored(Sealed(set_), set_);
  }

  lemma NameSlotUnit(name: seq<u16>, index: nat, u: nat)
    requires u < 15
    ensures Unit(NameSlot(name, index), u) == if 15 * index + u < |name| then name[15 * index + u] else 0
  {
    var slot, unit := NameSlot(name, index), 15 * index + u;
    var word := slot[2 + 2 * u..4 + 2 * u];
    assert (2 + 2 * u - 2) / 2 == u && (3 + 2 * u - 2) / 2 == u;
    assert (2 + 2 * u) % 2 == 0 && (3 + 2 * u) % 2 == 1;
    assert word[0] == slot[2 + 2 * u] == NameByte(name, index, 2 + 2 * u);
    assert word[1] == slot[3 + 2 * u] == NameByte(name, index, 3 + 2 * u);
    if unit < |name| {
      assert word == Enc16(name[unit]);
    } else {
      assert word == [0, 0];
    }
  }

  lemma StreamSlotReads(c: NewEntrySet, hash: u16)
    requires |c.name| <= 255
    ensures var s := StreamSlot(c, hash);
            && s[0] == 0xc0 && s[1] == Flags(c.noFatChain) && s[3] == |c.name| && Le16(s[4..6]) == hash
            && Le64(s[8..16]) == c.dataLength && Le64(s[24..32]) == c.dataLength && Le32(s[20..24]) == c.firstCluster
  {
    var s := StreamSlot(c, hash);
    assert s[4..6] == Enc16(hash);
    assert s[8..16] == Enc64(c.dataLength);
    assert s[24..32] == Enc64(c.dataLength);
    assert s[20..24] == Enc32(c.firstCluster);
  }

  lemma PrimarySlotReads(c: NewEntrySet, slots: nat)
    requires 1 <= slots <= 256
    ensures var s := PrimarySlot(c, slots);
            && s[0] == 0x85 && s[1] == slots - 1 && s[4] == c.attributes % 0x100
            && Le32(s[8..12]) == c.created.dateTime && Le32(s[12..16]) == c.modified.dateTime
            && Le32(s[16..20]) == c.accessed.dateTime
            && s[20] == c.created.tenMillis && s[21] == c.modified.tenMillis && s[22] == c.created.utcOffset
            && s[23] == c.modified.utcOffset && s[24] == c.accessed.utcOffset
  {
    var s := PrimarySlot(c, slots);
    assert s[8..12] == Enc32(c.created.dateTime);
    assert s[12..16] == Enc32(c.modified.dateTime);
    assert s[16..20] == Enc32(c.accessed.dateTime);
  }

  /** Every set the writer builds is one the parser accepts. */
  lemma BuiltIsFileSet(c: NewEntrySet, hash: u16)
    requires 1 <= |c.name| <= 255 && (c.dataLength != 0 ==> c.firstCluster >= 2)
    ensures FileSet(BuiltSet(c, hash))
  {
    var raw, built := RawSet(c, hash), BuiltSet(c, hash);
    SealedStores(raw);
    PrimarySlotReads(c, |raw|);
    StreamSlotReads(c, hash);
    assert built[1] == StreamSlot(c, hash);
    forall i | 2 <= i < |built|
      ensures built[i][0] == 0xc1 && 15 * (i - 2) < built[1][3]
    {
      assert built[i] == NameSlot(c.name, i - 2);
    }
  }

  /** The record `e` says what `c` says, with its slots at `locs`. */
  predicate Records(e: DirectoryEntry, c: NewEntrySet, locs: seq<EntryLocator>) {
    && NameUtf16(e) == c.name
    && e.isDirectory == Bit(c.attributes % 0x100, 4)
    && e.firstCluster == c.firstCluster && e.dataLength == c.dataLength && e.validLength == c.dataLength
    && e.noFatChain == c.noFatChain
    && e.created == c.created && e.modified == c.modified && e.accessed == c.accessed.(tenMillis := 0)
    && |locs| >= 2 && e.primary == locs[0] && e.stream == locs[1]
    && e.entryCount == |locs| <= |e.entryLocs| && e.entryLocs[..|locs|] == locs
  }

  /** Sealing leaves the stream and name slots as they were written. */
  lemma BuiltSlots(c: NewEntrySet, hash: u16)
    requires |c.name| <= 255
    ensures BuiltSet(c, hash)[1] == StreamSlot(c, hash)
    ensures forall i :: 2 <= i < SlotsFor(|c.name|) ==> BuiltSet(c, hash)[i] == NameSlot(c.name, i - 2)
  {
    SealedStores(RawSet(c, hash));
  }

  /** Bytes 4 and 5 of the stream slot are the hash of the name, and an update of
      the stream fields keeps them. */
  lemma HashStored(c: NewEntrySet, hash: u16, noFatChain: bool, valid: u64, first: u32, length: u64)
    requires |c.name| <= 255
    ensures var built := BuiltSet(c, hash);
            && Le16(built[1][4..6]) == hash
            && PatchedSet(built, noFatChain, valid, first, length)[1][4..6] == built[1][4..6]
  {
    var built := BuiltSet(c, hash);
    BuiltSlots(c, hash);
    StreamSlotReads(c, hash);
    PatchStreamReads(built[1], noFatChain, valid, first, length);
    SealedStores(built[1 := PatchStream(built[1], noFatChain, valid, first, length)]);
  }

  lemma UnitAt(win: seq<Slot>, name: seq<u16>, k: nat)
    requires |win| == SlotsFor(|name|) && k < |name| <= 255 && win[1][3] == |name|
    requires forall i :: 2 <= i < |win| ==> win[i] == NameSlot(name, i - 2)
    ensures NameUnit(win, k) == name[k]
  {
    NameSlotUnit(name, k / 15, k % 15);
  }

  lemma BuiltName(c: NewEntrySet, hash: u16, locs: seq<EntryLocator>)
    requires 1 <= |c.name| <= 255 && |locs| == SlotsFor(|c.name|)
    ensures NameUtf16(Decode(BuiltSet(c, hash), locs)) == c.name
  {
    BuiltSlots(c, hash);
    StreamSlotReads(c, hash);
    DecodedName(BuiltSet(c, hash), locs, c.name);
  }

  lemma DecodedName(win: seq<Slot>, locs: seq<EntryLocator>, name: seq<u16>)
    requires |win| == |locs| == SlotsFor(|name|) && 1 <= |name| <= 255 && win[1][3] == |name|
    requires forall i :: 2 <= i < |win| ==> win[i] == NameSlot(name, i - 2)
    ensures NameUtf16(Decode(win, locs)) == name
  {
    var e := Decode(win, locs);
    forall k | 0 <= k < |name|
      ensures e.name[k] == name[k]
    {
      UnitAt(win, name, k);
    }
    assert e.name[..|name|] == name;
  }

  lemma BuiltPrimary(c: NewEntrySet, hash: u16, loc: EntryLocator)
    requires |c.name| <= 255
    ensures var e := PrimaryEntry(BuiltSet(c, hash)[0], loc);
            && e.isDirectory == Bit(c.attributes % 0x100, 4)
            && e.created == c.created && e.modified == c.modified && e.accessed == c.accessed.(tenMillis := 0)
            && e.primary == loc
  {
    var raw := RawSet(c, hash);
    SealedStores(raw);
    PrimarySlotReads(c, |raw|);
    PrimaryFields(BuiltSet(c, hash)[0], raw[0], loc);
  }

  /** ... and is read back as exactly what it was built from. */
  lemma BuiltDecodes(c: NewEntrySet, hash: u16, locs: seq<EntryLocator>)
    requires 1 <= |c.name| <= 255 && |locs| == SlotsFor(|c.name|)
    ensures Records(Decode(BuiltSet(c, hash), locs), c, locs)
  {
    BuiltSlots(c, hash);
    StreamSlotReads(c, hash);
    BuiltPrimary(c, hash, locs[0]);
    BuiltName(c, hash, locs);
    FlagBits(c.noFatChain);
    DecodedPlaces(BuiltSet(c, hash), locs);
  }

  lemma DecodedPlaces(win: seq<Slot>, locs: seq<EntryLocator>)
    requires 2 <= |win| == |locs| <= 19
    ensures var e := Decode(win, locs);
            && e.stream == locs[1] && e.primary == locs[0] && e.entryCount == |locs| && |e.entryLocs| == 19
            && e.entryLocs[..|locs|] == locs
            && e.noFatChain == Bit(win[1][1], 1) && e.firstCluster == Le32(win[1][20..24])
            && e.validLength == Le64(win[1][8..16]) && e.dataLength == Le64(win[1][24..32])
  {
    assert Decode(win, locs).entryLocs[..|locs|] == locs;
  }

  lemma FlagBits(noFatChain: bool)
    ensures Bit(Flags(noFatChain), 1) == noFatChain
  {
    assert Bit(3, 1) && !Bit(1, 1);
  }

  /** The parser's view of a primary slot skips the stored checksum. */
  lemma PrimaryFields(a: Slot, b: Slot, loc: EntryLocator)
    requires forall i :: 0 <= i < 32 && i != 2 && i != 3 ==> a[i] == b[i]
    ensures PrimaryEntry(a, loc) == PrimaryEntry(b, loc)
  {
    assert a[8..12] == b[8..12] && a[12..16] == b[12..16] && a[16..20] == b[16..20];
  }

  // ----- updating the stream extension in place --------------------------------------------

  function PatchStream(slot: Slot, noFatChain: bool, valid: u64, first: u32, length: u64): Slot {
    var flagged: Slot := slot[1 := Flags(noFatChain)];
    Splice(Splice(Splice(flagged, 8, Enc64(valid)), 20, Enc32(first)), 24, Enc64(length))
  }

  /** An entry set after its stream fields were rewritten and it was resealed. */
  function PatchedSet(win: seq<Slot>, noFatChain: bool, valid: u64, first: u32, length: u64): (s: seq<Slot>)
    requires |win| >= 2
    ensures |s| == |win|
  {
    Sealed(win[1 := PatchStream(win[1], noFatChain, valid, first, length)])
  }

  lemma PatchStreamReads(slot: Slot, noFatChain: bool, valid: u64, first: u32, length: u64)
    ensures var s := PatchStream(slot, noFatChain, valid, first, length);
            && s[0] == slot[0] && s[1] == Flags(noFatChain) && s[3] == slot[3] && s[4..6] == slot[4..6]
            && Le64(s[8..16]) == valid && Le32(s[20..24]) == first && Le64(s[24..32]) == length
  {
    var s := PatchStream(slot, noFatChain, valid, first, length);
    assert s[4..6] == slot[4..6];
    assert s[8..16] == Enc64(valid);
    assert s[20..24] == Enc32(first);
    assert s[24..32] == Enc64(length);
  }

  /** Updating a file set gives a file set again ... */
  lemma PatchedIsFileSet(win: seq<Slot>, noFatChain: bool, valid: u64, first: u32, length: u64)
    requires FileSet(win) && valid <= length && (length != 0 ==> first >= 2)
    ensures FileSet(PatchedSet(win, noFatChain, valid, first, length))
  {
    PatchStreamReads(win[1], noFatChain, valid, first, length);
    SealedStores(win[1 := PatchStream(win[1], noFatChain, valid, first, length)]);
  }

  /** ... whose record differs in the stream fields only. */
  lemma PatchedDecodes(win: seq<Slot>, locs: seq<EntryLocator>, noFatChain: bool, valid: u64, first: u32, length: u64)
    requires FileSet(win) && |locs| == |win|
    ensures Decode(PatchedSet(win, noFatChain, valid, first, length), locs)
         == Decode(win, locs).(noFatChain := noFatChain, validLength := valid, firstCluster := first,
                               dataLength := length)
  {
    var patched := PatchedSet(win, noFatChain, valid, first, length);
    PatchStreamReads(win[1], noFatChain, valid, first, length);
    SealedStores(win[1 := PatchStream(win[1], noFatChain, valid, first, length)]);
    PrimaryFields(patched[0], win[0], locs[0]);
    FlagBits(noFatChain);
    assert forall k: nat :: NameUnit(patched, k) == NameUnit(win, k);
    assert Decode(patched, locs).name == Decode(win, locs).name;
  }

  // ----- round trips through the streaming parser -------------------------------------------

  /** From parser `p`, the slots report nothing before the last one, `e` at the
      last one, and leave the parser clean. */
  predicate ReportsAtLast(p: Parser, slots: seq<Slot>, locs: seq<EntryLocator>, e: DirectoryEntry)
    requires |p.entry.entryLocs| == 19 && |slots| == |locs| > 0
  {
    var front := Feed(p, slots[..|slots| - 1], locs[..|slots| - 1]);
    var all := Feed(p, slots, locs);
    && front.Ok? && front.value.found == []
    && all.Ok? && all.value.found == [e] && all.value.parser.secondaryLeft == 0
  }

  lemma FileSetReports(p: Parser, win: seq<Slot>, locs: seq<EntryLocator>)
    requires |p.entry.entryLocs| == 19 && p.secondaryLeft == 0
    requires FileSet(win) && |win| == |locs|
    ensures ReportsAtLast(p, win, locs, Decode(win, locs))
  {
    FileSetPrefix(p, win, locs);
    FileSetParses(p, win, locs);
  }

  /** A set whose stream fields were rewritten under the old checksum: it is
      reported, with the new fields, exactly if its bytes happen to have that
      checksum; otherwise the reader fails on it. */
  lemma TornParses(p: Parser, win: seq<Slot>, locs: seq<EntryLocator>, noFatChain: bool, valid: u64, first: u32,
                   length: u64)
    requires |p.entry.entryLocs| == 19 && p.secondaryLeft == 0
    requires FileSet(win) && |locs| == |win| && valid <= length && (length != 0 ==> first >= 2)
    ensures var torn := win[1 := PatchStream(win[1], noFatChain, valid, first, length)];
            if SetSum(torn) == Le16(win[0][2..4]) then
              && FileSet(torn) && Feed(p, torn, locs) == Ok(Fed(MidState(torn, locs), [Decode(torn, locs)]))
              && Decode(torn, locs) == Decode(win, locs).(noFatChain := noFatChain, validLength := valid,
                                                          firstCluster := first, dataLength := length)
            else Feed(p, torn, locs) == Err(Corrupt)
  {
    hide SetSum;
    hide Feed;
    hide Decode;
    hide PatchStream;
    var torn, n := win[1 := PatchStream(win[1], noFatChain, valid, first, length)], |win| - 1;
    PatchStreamReads(win[1], noFatChain, valid, first, length);
    assert PrefixSet(torn) && torn[0] == win[0];
    if SetSum(torn) == Le16(win[0][2..4]) {
      FileSetParses(p, torn, locs);
      TornDecodes(win, locs, noFatChain, valid, first, length);
    } else {
      assert torn == torn[..n] + [torn[n]] && locs == locs[..n] + [locs[n]];
      FeedPrefix(p, torn[..n], locs[..n]);
      PushMiddle(torn[..n], locs[..n], torn[n], locs[n]);
      FeedLast(p, torn, locs);
    }
  }

  lemma TornDecodes(win: seq<Slot>, locs: seq<EntryLocator>, noFatChain: bool, valid: u64, first: u32, length: u64)
    requires FileSet(win) && |locs| == |win|
    ensures Decode(win[1 := PatchStream(win[1], noFatChain, valid, first, length)], locs)
         == Decode(win, locs).(noFatChain := noFatChain, validLength := valid, firstCluster := first,
                               dataLength := length)
  {
    var torn := win[1 := PatchStream(win[1], noFatChain, valid, first, length)];
    PatchStreamReads(win[1], noFatChain, valid, first, length);
    FlagBits(noFatChain);
    PatchedUnits(win, noFatChain, valid, first, length);
    assert Decode(torn, locs).name == Decode(win, locs).name;
  }

  lemma PatchedUnits(win: seq<Slot>, noFatChain: bool, valid: u64, first: u32, length: u64)
    requires |win| >= 3
    ensures var torn := win[1 := PatchStream(win[1], noFatChain, valid, first, length)];
            forall k: nat :: NameUnit(torn, k) == NameUnit(win, k)
  {
    PatchStreamReads(win[1], noFatChain, valid, first, length);
  }

  /** Pushing a freshly written set, slot by slot, from any clean parser state
      reports what was written, at the last slot and not before. */
  lemma WriteThenParse(p: Parser, c: NewEntrySet, hash: u16, locs: seq<EntryLocator>)
    requires |p.entry.entryLocs| == 19 && p.secondaryLeft == 0
    requires 1 <= |c.name| <= 255 && (c.dataLength != 0 ==> c.firstCluster >= 2) && |locs| == SlotsFor(|c.name|)
    ensures exists e :: Records(e, c, locs) && ReportsAtLast(p, BuiltSet(c, hash), locs, e)
  {
    BuiltIsFileSet(c, hash);
    BuiltDecodes(c, hash, locs);
    FileSetReports(p, BuiltSet(c, hash), locs);
  }

  /** Parsing after a stream update reports the old record with only the stream
      fields changed. */
  lemma UpdateThenParse(p: Parser, win: seq<Slot>, locs: seq<EntryLocator>, e: DirectoryEntry, noFatChain: bool,
                        valid: u64, first: u32, length: u64)
    requires |p.entry.entryLocs| == 19 && p.secondaryLeft == 0
    requires FileSet(win) && |locs| == |win| && valid <= length && (length != 0 ==> first >= 2)
    requires ReportsAtLast(p, win, locs, e)
    ensures ReportsAtLast(p, PatchedSet(win, noFatChain, valid, first, length), locs,
              e.(noFatChain := noFatChain, validLength := valid, firstCluster := first, dataLength := length))
  {
    FileSetReports(p, win, locs);
    assert [e] == [Decode(win, locs)];
    assert e == [e][0] == [Decode(win, locs)][0];
    PatchedIsFileSet(win, noFatChain, valid, first, length);
    PatchedDecodes(win, locs, noFatChain, valid, first, length);
    FileSetReports(p, PatchedSet(win, noFatChain, valid, first, length), locs);
  }
}
