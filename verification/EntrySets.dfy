/** Directory entry sets: the streaming parser, and which slot sequences it
    accepts.  A set is one primary slot, one stream extension and its name slots. */
module EntrySets {
  import opened Words
  import opened Errors

  type Slot = s: seq<byte> | |s| == 32 witness seq(32, _ => 0)

  datatype EntryLocator = EntryLocator(lba: nat, offset: nat)

  const NOWHERE := EntryLocator(0, 0)

  datatype ExfatTimestamp = ExfatTimestamp(dateTime: u32, tenMillis: u8, utcOffset: u8)

  datatype DirectoryEntry = DirectoryEntry(
    isDirectory: bool,
    firstCluster: u32,
    dataLength: u64,
    validLength: u64,
    noFatChain: bool,
    created: ExfatTimestamp,
    modified: ExfatTimestamp,
    accessed: ExfatTimestamp,
    name: seq<u16>,
    nameLen: u8,
    primary: EntryLocator,
    stream: EntryLocator,
    entryLocs: seq<EntryLocator>,
    entryCount: u8)

  /** The stored part of the name. */
  function NameUtf16(e: DirectoryEntry): seq<u16> {
    if e.nameLen <= |e.name| then e.name[..e.nameLen] else e.name
  }

  datatype Parser = Parser(
    secondaryLeft: u8,
    streamSeen: bool,
    nameWritten: u8,
    expected: u16,
    checksum: u16,
    ignored: bool,
    entry: DirectoryEntry)

  const EMPTY_ENTRY: DirectoryEntry :=
    DirectoryEntry(false, 0, 0, 0, false, ExfatTimestamp(0, 0, 0x80), ExfatTimestamp(0, 0, 0x80),
                   ExfatTimestamp(0, 0, 0x80), seq(255, _ => 0), 0, NOWHERE, NOWHERE, seq(19, _ => NOWHERE), 0)

  const FRESH_PARSER: Parser := Parser(0, false, 0, 0, 0, false, EMPTY_ENTRY)

  // ----- checksum -----------------------------------------------------------------

  /** The first `n` bytes of a slot folded into the checksum; a primary slot
      skips the two bytes where the checksum itself is stored. */
  function FoldBytes(sum: u16, entry: seq<byte>, n: nat, primary: bool): u16
    requires n <= |entry|
  {
    if n == 0 then sum
    else
      var before := FoldBytes(sum, entry, n - 1, primary);
      if primary && (n - 1 == 2 || n - 1 == 3) then before else Roll16(before, entry[n - 1])
  }

  function ChecksumStep(sum: u16, entry: seq<byte>, primary: bool): u16 {
    FoldBytes(sum, entry, |entry|, primary)
  }

  /** The checksum of a whole entry set. */
  function SetSum(slots: seq<Slot>): u16 {
    if slots == [] then 0
    else ChecksumStep(SetSum(slots[..|slots| - 1]), slots[|slots| - 1], |slots| == 1)
  }

  method FoldSlot(before: u16, entry: seq<byte>, primary: bool) returns (sum: u16)
    ensures sum == ChecksumStep(before, entry, primary)
  {
    sum := before;
    for index := 0 to |entry|
      invariant sum == FoldBytes(before, entry, index, primary)
    {
      if !primary || !(index == 2 || index == 3) {
        sum := Roll16(sum, entry[index]);
      }
    }
  }

  /** The checksum does not see the two bytes that store it. */
  lemma {:induction false} FoldIgnoresStored(sum: u16, a: Slot, b: Slot, n: nat)
    requires n <= 32 && forall i :: 0 <= i < 32 && i != 2 && i != 3 ==> a[i] == b[i]
    ensures FoldBytes(sum, a, n, true) == FoldBytes(sum, b, n, true)
  {
    if n > 0 {
      FoldIgnoresStored(sum, a, b, n - 1);
    }
  }

  lemma {:induction false} SetSumIgnoresStored(a: seq<Slot>, b: seq<Slot>)
    requires |a| == |b| > 0 && a[1..] == b[1..]
    requires forall i :: 0 <= i < 32 && i != 2 && i != 3 ==> a[0][i] == b[0][i]
    ensures SetSum(a) == SetSum(b)
  {
    var n := |a|;
    if n == 1 {
      FoldIgnoresStored(0, a[0], b[0], 32);
    } else {
      assert a[..n - 1][1..] == a[1..][..n - 2] && b[..n - 1][1..] == b[1..][..n - 2];
      assert a[n - 1] == a[1..][n - 2] && b[n - 1] == b[1..][n - 2];
      SetSumIgnoresStored(a[..n - 1], b[..n - 1]);
    }
  }

  /** Rolling the same bytes on keeps sums apart ... */
  lemma {:induction false} FoldApart(a: u16, b: u16, entry: seq<byte>, n: nat, primary: bool)
    requires n <= |entry| && a != b
    ensures FoldBytes(a, entry, n, primary) != FoldBytes(b, entry, n, primary)
  {
    hide Roll16;
    if n > 0 {
      FoldApart(a, b, entry, n - 1, primary);
      RollTellsSums(FoldBytes(a, entry, n - 1, primary), FoldBytes(b, entry, n - 1, primary), entry[n - 1]);
    }
  }

  /** ... and so does one different byte. */
  lemma {:induction false} FoldTells(sum: u16, a: seq<byte>, b: seq<byte>, n: nat, primary: bool, j: nat)
    requires j < n <= |a| == |b| && b == a[j := b[j]] && a[j] != b[j] && !(primary && (j == 2 || j == 3))
    ensures FoldBytes(sum, a, n, primary) != FoldBytes(sum, b, n, primary)
  {
    hide Roll16;
    if j < n - 1 {
      FoldTells(sum, a, b, n - 1, primary, j);
      RollTellsSums(FoldBytes(sum, a, n - 1, primary), FoldBytes(sum, b, n - 1, primary), a[n - 1]);
    } else {
      FoldSame(sum, a, b, n - 1, primary);
      RollTellsBytes(FoldBytes(sum, a, n - 1, primary), a[j], b[j]);
    }
  }

  lemma {:induction false} FoldSame(sum: u16, a: seq<byte>, b: seq<byte>, n: nat, primary: bool)
    requires n <= |a| && n <= |b| && a[..n] == b[..n]
    ensures FoldBytes(sum, a, n, primary) == FoldBytes(sum, b, n, primary)
  {
    hide Roll16;
    if n > 0 {
      assert a[..n][..n - 1] == a[..n - 1] && b[..n][..n - 1] == b[..n - 1];
      assert a[n - 1] == a[..n][n - 1] && b[n - 1] == b[..n][n - 1];
      FoldSame(sum, a, b, n - 1, primary);
    }
  }

  /** Two sets that differ in one byte, not of the stored checksum, have different
      checksums. */
  lemma {:induction false} SetSumTells(win: seq<Slot>, i: nat, j: nat, b: byte)
    requires i < |win| && j < 32 && b != win[i][j] && !(i == 0 && (j == 2 || j == 3))
    ensures SetSum(win[i := win[i][j := b]]) != SetSum(win)
  {
    hide FoldBytes;
    var n, other := |win| - 1, win[i := win[i][j := b]];
    if i == n {
      assert other[..n] == win[..n];
      FoldTells(SetSum(win[..n]), win[n], other[n], 32, n == 0, j);
    } else {
      assert other[..n] == win[..n][i := win[..n][i][j := b]];
      SetSumTells(win[..n], i, j, b);
      FoldApart(SetSum(win[..n]), SetSum(other[..n]), win[n], 32, n == 0);
    }
  }

  // ----- the parser ------------------------------------------------------------------

  function PrimaryEntry(raw: Slot, loc: EntryLocator): DirectoryEntry {
    DirectoryEntry(
      Bit(raw[4], 4), 0, 0, 0, false,
      ExfatTimestamp(Le32(raw[8..12]), raw[20], raw[22]),
      ExfatTimestamp(Le32(raw[12..16]), raw[21], raw[23]),
      ExfatTimestamp(Le32(raw[16..20]), 0, raw[24]),
      seq(255, _ => 0), 0, loc, loc, seq(19, _ => NOWHERE)[0 := loc], 1)
  }

  /** The entry after its stream extension slot has been read. */
  function WithStream(e: DirectoryEntry, raw: Slot, loc: EntryLocator): DirectoryEntry
    requires e.entryCount < |e.entryLocs| && e.entryCount < 255
  {
    e.(entryLocs := e.entryLocs[e.entryCount := loc], entryCount := e.entryCount + 1, stream := loc,
       noFatChain := Bit(raw[1], 1), nameLen := raw[3], validLength := Le64(raw[8..16]),
       dataLength := Le64(raw[24..32]), firstCluster := Le32(raw[20..24]))
  }

  /** Unit `i` of a name slot. */
  function Unit(raw: Slot, i: nat): u16
    requires i < 15
  {
    Le16(raw[2 + 2 * i..4 + 2 * i])
  }

  /** The entry after one more name slot: up to fifteen units from `start` on. */
  function WithName(e: DirectoryEntry, start: nat, raw: Slot, loc: EntryLocator): DirectoryEntry
    requires e.entryCount < |e.entryLocs| && e.entryCount < 255
  {
    e.(entryLocs := e.entryLocs[e.entryCount := loc], entryCount := e.entryCount + 1,
       name := seq(|e.name|, k requires 0 <= k < |e.name| => NewUnit(e, start, raw, k)))
  }

  function NewUnit(e: DirectoryEntry, start: nat, raw: Slot, k: nat): u16
    requires k < |e.name|
  {
    if start <= k < start + 15 && k < e.nameLen then Unit(raw, k - start) else e.name[k]
  }

  /** The stream extensions the parser accepts: allocation possible, no flag it
      does not know, a name, and consistent lengths. */
  predicate StreamOk(raw: Slot) {
    && (raw[1] == 1 || raw[1] == 3)
    && raw[3] != 0
    && Le64(raw[8..16]) <= Le64(raw[24..32])
    && (Le64(raw[24..32]) != 0 ==> Le32(raw[20..24]) >= 2)
  }

  function Complete(p: Parser): Result<Option<DirectoryEntry>> {
    if !p.streamSeen || p.nameWritten < p.entry.nameLen || p.checksum != p.expected then Err(Corrupt)
    else Ok(Some(p.entry))
  }

  /** One slot: the parser afterwards, and what it reports. */
  function PushStep(p: Parser, raw: Slot, loc: EntryLocator): (Parser, Result<Option<DirectoryEntry>>)
    requires |p.entry.entryLocs| == 19
  {
    if raw[0] == 0x85 then
      if p.secondaryLeft != 0 || raw[1] < 2 then (p, Err(Corrupt))
      else (Parser(raw[1], false, 0, Le16(raw[2..4]), ChecksumStep(0, raw, true), raw[1] > 18,
                   PrimaryEntry(raw, loc)), Ok(None))
    else if p.secondaryLeft == 0 then (p, Ok(None))
    else if p.ignored then
      (p.(secondaryLeft := p.secondaryLeft - 1, ignored := p.secondaryLeft != 1), Ok(None))
    else if raw[0] == 0xc0 && !p.streamSeen && p.entry.entryCount == 1 then
      var q := p.(entry := WithStream(p.entry, raw, loc), checksum := ChecksumStep(p.checksum, raw, false),
                  streamSeen := true);
      if !StreamOk(raw) then (q, Err(Corrupt))
      else
        var q' := q.(secondaryLeft := p.secondaryLeft - 1);
        (q', if q'.secondaryLeft == 0 then Complete(q') else Ok(None))
    else if raw[0] == 0xc1 && p.streamSeen && p.nameWritten < p.entry.nameLen then
      if p.entry.entryCount >= 19 then (p, Err(Corrupt))
      else
        var q := p.(entry := WithName(p.entry, p.nameWritten, raw, loc),
                    checksum := ChecksumStep(p.checksum, raw, false),
                    nameWritten := Min(255, (p.nameWritten as int) + 15),
                    secondaryLeft := p.secondaryLeft - 1);
        (q, if q.secondaryLeft == 0 then Complete(q) else Ok(None))
    else (p.(ignored := true, secondaryLeft := p.secondaryLeft - 1), Ok(None))
  }

  /** The streaming parser: its fields are updated in place, slot by slot. */
  class EntrySet {
    var secondaryLeft: u8
    var streamSeen: bool
    var nameWritten: u8
    var expectedChecksum: u16
    var checksum: u16
    var ignored: bool
    var entry: DirectoryEntry

    constructor ()
      ensures State() == FRESH_PARSER
    {
      secondaryLeft, streamSeen, nameWritten := 0, false, 0;
      expectedChecksum, checksum, ignored, entry := 0, 0, false, EMPTY_ENTRY;
    }

    function State(): Parser
      reads this
    {
      Parser(secondaryLeft, streamSeen, nameWritten, expectedChecksum, checksum, ignored, entry)
    }

    method Push(raw: Slot, locator: EntryLocator) returns (r: Result<Option<DirectoryEntry>>)
      requires |entry.entryLocs| == 19
      modifies this
      ensures (State(), r) == PushStep(old(State()), raw, locator)
      ensures |entry.entryLocs| == 19
    {
      if raw[0] == 0x85 {
        if secondaryLeft != 0 || raw[1] < 2 { return Err(Corrupt); }
        secondaryLeft, streamSeen, nameWritten := raw[1], false, 0;
        expectedChecksum := Le16(raw[2..4]);
        checksum := FoldSlot(0, raw, true);
        ignored := raw[1] > 18;
        entry := PrimaryEntry(raw, locator);
        return Ok(None);
      }
      if secondaryLeft == 0 { return Ok(None); }
      if ignored {
        secondaryLeft := secondaryLeft - 1;
        if secondaryLeft == 0 { ignored := false; }
        return Ok(None);
      }
      if raw[0] == 0xc0 && !streamSeen && entry.entryCount == 1 {
        entry := WithStream(entry, raw, locator);
        checksum := FoldSlot(checksum, raw, false);
        streamSeen := true;
        if !StreamOk(raw) { return Err(Corrupt); }
        secondaryLeft := secondaryLeft - 1;
        return if secondaryLeft == 0 then Complete(State()) else Ok(None);
      }
      if raw[0] == 0xc1 && streamSeen && nameWritten < entry.nameLen {
        if entry.entryCount >= 19 { return Err(Corrupt); }
        var start: nat := nameWritten;
        checksum := FoldSlot(checksum, raw, false);
        entry := WithName(entry, start, raw, locator);
        nameWritten := Min(255, start + 15);
        secondaryLeft := secondaryLeft - 1;
        return if secondaryLeft == 0 then Complete(State()) else Ok(None);
      }
      ignored := true;
      secondaryLeft := secondaryLeft - 1;
      return Ok(None);
    }
  }

  // ----- what the parser accepts -------------------------------------------------------

  /** Slots of the set a primary slot announces, itself included. */
  function SetLength(primary: Slot): nat {
    (primary[1] as int) + 1
  }

  /** A beginning of a well-typed set: a primary for at most nineteen slots, an
      acceptable stream extension, and name slots while the name lasts. */
  predicate PrefixSet(win: seq<Slot>) {
    && |win| > 0 && win[0][0] == 0x85 && 2 <= win[0][1] <= 18
    && (|win| > 1 ==> win[1][0] == 0xc0 && StreamOk(win[1]))
    && (forall i :: 2 <= i < |win| ==> win[i][0] == 0xc1 && 15 * (i - 2) < win[1][3])
  }

  /** The complete sets: exactly the announced slots, enough of them for the
      name, and the stored checksum is the computed one. */
  predicate FileSet(win: seq<Slot>) {
    && PrefixSet(win)
    && |win| == SetLength(win[0])
    && win[1][3] <= 15 * (|win| - 2)
    && SetSum(win) == Le16(win[0][2..4])
  }

  /** Unit `k` of the name that the slots read so far hold. */
  function NameUnit(win: seq<Slot>, k: nat): u16
    requires |win| > 0
  {
    if |win| > 1 && k < win[1][3] && 2 + k / 15 < |win| then Unit(win[2 + k / 15], k % 15) else 0
  }

  /** The file record that the slots of a (partial) set at the given places hold. */
  function Decode(win: seq<Slot>, locs: seq<EntryLocator>): DirectoryEntry
    requires 1 <= |win| == |locs| <= 19
  {
    var e := PrimaryEntry(win[0], locs[0]);
    var all := seq(19, i requires 0 <= i < 19 => if i < |locs| then locs[i] else NOWHERE);
    var named := e.(name := seq(255, k requires 0 <= k < 255 => NameUnit(win, k)),
                    entryLocs := all, entryCount := |win|);
    if |win| == 1 then named
    else named.(stream := locs[1], noFatChain := Bit(win[1][1], 1), nameLen := win[1][3],
                validLength := Le64(win[1][8..16]), dataLength := Le64(win[1][24..32]),
                firstCluster := Le32(win[1][20..24]))
  }

  /** The parser in the middle of a well-typed set. */
  function MidState(win: seq<Slot>, locs: seq<EntryLocator>): Parser
    requires PrefixSet(win) && |win| == |locs| <= SetLength(win[0])
  {
    Parser(SetLength(win[0]) - |win|, |win| >= 2, if |win| < 2 then 0 else Min(255, 15 * (|win| - 2)),
           Le16(win[0][2..4]), SetSum(win), false, Decode(win, locs))
  }

  lemma SetSumSnoc(win: seq<Slot>, raw: Slot)
    ensures SetSum(win + [raw]) == ChecksumStep(SetSum(win), raw, win == [])
  {
    assert (win + [raw])[..|win|] == win;
  }

  /** A clean parser enters a set at its primary slot. */
  lemma PushPrimary(p: Parser, raw: Slot, loc: EntryLocator)
    requires |p.entry.entryLocs| == 19 && p.secondaryLeft == 0 && PrefixSet([raw])
    ensures PushStep(p, raw, loc) == (MidState([raw], [loc]), Ok(None))
  {
    SetSumSnoc([], raw);
    assert [] + [raw] == [raw];
    var e, d := PrimaryEntry(raw, loc), Decode([raw], [loc]);
    assert e.name == d.name;
    assert e.entryLocs == d.entryLocs;
  }

  lemma DecodeStream(win: seq<Slot>, locs: seq<EntryLocator>, raw: Slot, loc: EntryLocator)
    requires PrefixSet(win) && |win| == |locs| == 1
    ensures WithStream(Decode(win, locs), raw, loc) == Decode(win + [raw], locs + [loc])
  {
    var a, b := WithStream(Decode(win, locs), raw, loc), Decode(win + [raw], locs + [loc]);
    assert a.name == b.name;
    assert a.entryLocs == b.entryLocs;
  }

  lemma DecodeName(win: seq<Slot>, locs: seq<EntryLocator>, raw: Slot, loc: EntryLocator)
    requires PrefixSet(win) && 2 <= |win| == |locs| <= 18
    requires 15 * (|win| - 2) < win[1][3]
    ensures WithName(Decode(win, locs), 15 * (|win| - 2), raw, loc) == Decode(win + [raw], locs + [loc])
  {
    var start := 15 * (|win| - 2);
    var a, b := WithName(Decode(win, locs), start, raw, loc), Decode(win + [raw], locs + [loc]);
    forall k | 0 <= k < 255
      ensures a.name[k] == b.name[k]
    {
      if start <= k < start + 15 {
        assert k / 15 == |win| - 2 && k % 15 == k - start;
      }
    }
    assert a.name == b.name;
    assert a.entryLocs == b.entryLocs;
  }

  /** One slot in the middle of a well-typed set: it either continues the set,
      completes it, or makes the parser give the whole set up. */
  lemma PushMiddle(win: seq<Slot>, locs: seq<EntryLocator>, raw: Slot, loc: EntryLocator)
    requires PrefixSet(win) && |win| == |locs| < SetLength(win[0])
    ensures |MidState(win, locs).entry.entryLocs| == 19
    ensures var (q, r) := PushStep(MidState(win, locs), raw, loc);
            && (PrefixSet(win + [raw]) ==>
                  && q == MidState(win + [raw], locs + [loc])
                  && r == if |win| + 1 < SetLength(win[0]) then Ok(None)
                          else if FileSet(win + [raw]) then Ok(Some(Decode(win + [raw], locs + [loc])))
                          else Err(Corrupt))
            && (!PrefixSet(win + [raw]) ==>
                  && (if raw[0] == 0x85 || (|win| == 1 && raw[0] == 0xc0) then r == Err(Corrupt)
                      else r == Ok(None) && q.ignored && q.secondaryLeft == SetLength(win[0]) - |win| - 1))
            && |q.entry.entryLocs| == 19
  {
    var win', locs' := win + [raw], locs + [loc];
    SetSumSnoc(win, raw);
    assert forall i :: 0 <= i < |win| ==> win'[i] == win[i];
    if |win| == 1 {
      DecodeStream(win, locs, raw, loc);
    } else if 15 * (|win| - 2) < win[1][3] {
      DecodeName(win, locs, raw, loc);
    }
  }

  // ----- whole slot streams --------------------------------------------------------------

  datatype Fed = Fed(parser: Parser, found: seq<DirectoryEntry>)

  /** Slots pushed one after the other; parsing stops at the first error. */
  function Feed(p: Parser, slots: seq<Slot>, locs: seq<EntryLocator>): (r: Result<Fed>)
    requires |p.entry.entryLocs| == 19 && |slots| == |locs|
    ensures r.Ok? ==> |r.value.parser.entry.entryLocs| == 19
  {
    if slots == [] then Ok(Fed(p, []))
    else
      var n := |slots| - 1;
      var before := Feed(p, slots[..n], locs[..n]);
      if before.Err? then before
      else Report(before.value.found, PushStep(before.value.parser, slots[n], locs[n]))
  }

  /** A push's outcome added to the records found before it. */
  function Report(found: seq<DirectoryEntry>, out: (Parser, Result<Option<DirectoryEntry>>)): Result<Fed> {
    match out.1
    case Err(e) => Err(e)
    case Ok(None) => Ok(Fed(out.0, found))
    case Ok(Some(e)) => Ok(Fed(out.0, found + [e]))
  }

  /** Records found earlier only prefix those found later. */
  function After(found: seq<DirectoryEntry>, r: Result<Fed>): Result<Fed> {
    match r
    case Err(e) => Err(e)
    case Ok(f) => Ok(Fed(f.parser, found + f.found))
  }

  lemma AfterReport(a: seq<DirectoryEntry>, b: seq<DirectoryEntry>, out: (Parser, Result<Option<DirectoryEntry>>))
    ensures Report(a + b, out) == After(a, Report(b, out))
  {
    if out.1.Ok? && out.1.value.Some? {
      assert a + b + [out.1.value.value] == a + (b + [out.1.value.value]);
    }
  }

  lemma {:induction false} FeedConcat(p: Parser, a: seq<Slot>, la: seq<EntryLocator>, b: seq<Slot>,
                                      lb: seq<EntryLocator>)
    requires |p.entry.entryLocs| == 19 && |a| == |la| && |b| == |lb|
    ensures Feed(p, a + b, la + lb) ==
      if Feed(p, a, la).Err? then Feed(p, a, la)
      else After(Feed(p, a, la).value.found, Feed(Feed(p, a, la).value.parser, b, lb))
  {
    if b == [] {
      assert a + b == a && la + lb == la;
      assert Feed(p, a, la).Ok? ==> Feed(p, a, la).value.found + [] == Feed(p, a, la).value.found;
    } else {
      var n := |b| - 1;
      var ab, lab := a + b, la + lb;
      assert ab[..|ab| - 1] == a + b[..n] && ab[|ab| - 1] == b[n];
      assert lab[..|ab| - 1] == la + lb[..n] && lab[|ab| - 1] == lb[n];
      FeedConcat(p, a, la, b[..n], lb[..n]);
      FeedLast(p, ab, lab);
      if Feed(p, a, la).Ok? {
        var f := Feed(p, a, la).value;
        FeedLast(f.parser, b, lb);
        var h := Feed(f.parser, b[..n], lb[..n]);
        if h.Ok? { AfterReport(f.found, h.value.found, PushStep(h.value.parser, b[n], lb[n])); }
      }
    }
  }

  /** `Feed` unfolded once. */
  lemma FeedLast(p: Parser, slots: seq<Slot>, locs: seq<EntryLocator>)
    requires |p.entry.entryLocs| == 19 && |slots| == |locs| > 0
    ensures var n := |slots| - 1;
            var before := Feed(p, slots[..n], locs[..n]);
            Feed(p, slots, locs) ==
              if before.Err? then before
              else Report(before.value.found, PushStep(before.value.parser, slots[n], locs[n]))
  {
  }

  /** Feeding a beginning of a set from a clean state reports nothing. */
  lemma {:induction false} FeedPrefix(p: Parser, win: seq<Slot>, locs: seq<EntryLocator>)
    requires |p.entry.entryLocs| == 19 && p.secondaryLeft == 0
    requires PrefixSet(win) && |win| == |locs| < SetLength(win[0])
    ensures Feed(p, win, locs) == Ok(Fed(MidState(win, locs), []))
  {
    var n := |win| - 1;
    assert win == win[..n] + [win[n]] && locs == locs[..n] + [locs[n]];
    if n == 0 {
      PushPrimary(p, win[0], locs[0]);
      assert win == [win[0]] && locs == [locs[0]];
    } else {
      FeedPrefix(p, win[..n], locs[..n]);
      PushMiddle(win[..n], locs[..n], win[n], locs[n]);
    }
  }

  /** The last slot of a file set completes it. */
  lemma PushLast(win: seq<Slot>, locs: seq<EntryLocator>)
    requires FileSet(win) && |win| == |locs|
    ensures var n := |win| - 1;
            && PrefixSet(win[..n]) && |MidState(win[..n], locs[..n]).entry.entryLocs| == 19
            && PushStep(MidState(win[..n], locs[..n]), win[n], locs[n])
               == (MidState(win, locs), Ok(Some(Decode(win, locs))))
  {
    var n := |win| - 1;
    assert win == win[..n] + [win[n]] && locs == locs[..n] + [locs[n]];
    PushMiddle(win[..n], locs[..n], win[n], locs[n]);
  }

  lemma FeedOneMore(p: Parser, mid: Parser, slots: seq<Slot>, locs: seq<EntryLocator>, q: Parser, e: DirectoryEntry)
    requires |p.entry.entryLocs| == 19 && |slots| == |locs| > 0 && |mid.entry.entryLocs| == 19
    requires Feed(p, slots[..|slots| - 1], locs[..|slots| - 1]) == Ok(Fed(mid, []))
    requires PushStep(mid, slots[|slots| - 1], locs[|slots| - 1]) == (q, Ok(Some(e)))
    ensures Feed(p, slots, locs) == Ok(Fed(q, [e]))
  {
    FeedLast(p, slots, locs);
    ReportFirst(q, e);
  }

  lemma ReportFirst(q: Parser, e: DirectoryEntry)
    ensures Report([], (q, Ok(Some(e)))) == Ok(Fed(q, [e]))
  {
    var none: seq<DirectoryEntry> := [];
    assert none + [e] == [e];
  }

  /** All slots of a file set but the last are taken in silence. */
  lemma FileSetPrefix(p: Parser, win: seq<Slot>, locs: seq<EntryLocator>)
    requires |p.entry.entryLocs| == 19 && p.secondaryLeft == 0
    requires FileSet(win) && |win| == |locs|
    ensures PrefixSet(win[..|win| - 1])
    ensures Feed(p, win[..|win| - 1], locs[..|win| - 1]) == Ok(Fed(MidState(win[..|win| - 1], locs[..|win| - 1]), []))
  {
    FeedPrefix(p, win[..|win| - 1], locs[..|win| - 1]);
  }

  /** A file set is accepted from any clean state, as the record its slots
      hold, and leaves the parser clean. */
  lemma FileSetParses(p: Parser, win: seq<Slot>, locs: seq<EntryLocator>)
    requires |p.entry.entryLocs| == 19 && p.secondaryLeft == 0
    requires FileSet(win) && |win| == |locs|
    ensures Feed(p, win, locs) == Ok(Fed(MidState(win, locs), [Decode(win, locs)]))
    ensures MidState(win, locs).secondaryLeft == 0
  {
    PushLast(win, locs);
    FileSetPrefix(p, win, locs);
    FeedOneMore(p, MidState(win[..|win| - 1], locs[..|win| - 1]), win, locs, MidState(win, locs), Decode(win, locs));
  }

  /** What the parser can be doing after an error-free run from a clean state:
      nothing, giving a set up, or standing after the last `w` slots, which begin
      a well-typed set. */
  ghost predicate Standing(p: Parser, slots: seq<Slot>, locs: seq<EntryLocator>, w: nat)
    requires |slots| == |locs|
  {
    || p.secondaryLeft == 0
    || p.ignored
    || (&& 0 < w <= |slots|
        && var win, at := slots[|slots| - w..], locs[|locs| - w..];
           PrefixSet(win) && w < SetLength(win[0]) && p == MidState(win, at))
  }

  lemma OpeningStands(q: Parser, slots: seq<Slot>, locs: seq<EntryLocator>, raw: Slot, loc: EntryLocator)
    requires |q.entry.entryLocs| == 19 && |slots| == |locs| && raw[0] == 0x85
    requires PushStep(q, raw, loc).1.Ok?
    ensures Standing(PushStep(q, raw, loc).0, slots + [raw], locs + [loc], 1)
  {
    assert (slots + [raw])[|slots|..] == [raw] && (locs + [loc])[|slots|..] == [loc];
    if raw[1] <= 18 { PushPrimary(q, raw, loc); }
  }

  lemma MiddleStands(q: Parser, slots: seq<Slot>, locs: seq<EntryLocator>, v: nat, raw: Slot, loc: EntryLocator)
    requires |q.entry.entryLocs| == 19 && |slots| == |locs| && raw[0] != 0x85
    requires Standing(q, slots, locs, v) && q.secondaryLeft != 0 && !q.ignored
    requires PushStep(q, raw, loc).1.Ok?
    ensures Standing(PushStep(q, raw, loc).0, slots + [raw], locs + [loc], v + 1)
  {
    var win, at := slots[|slots| - v..], locs[|locs| - v..];
    assert (slots + [raw])[|slots| - v..] == win + [raw] && (locs + [loc])[|slots| - v..] == at + [loc];
    PushMiddle(win, at, raw, loc);
  }

  lemma {:induction false} RunStands(p: Parser, slots: seq<Slot>, locs: seq<EntryLocator>) returns (w: nat)
    requires |p.entry.entryLocs| == 19 && p.secondaryLeft == 0 && |slots| == |locs|
    requires Feed(p, slots, locs).Ok?
    ensures Standing(Feed(p, slots, locs).value.parser, slots, locs, w)
  {
    w := 0;
    if slots != [] {
      var n := |slots| - 1;
      var v := RunStands(p, slots[..n], locs[..n]);
      FeedLast(p, slots, locs);
      var q := Feed(p, slots[..n], locs[..n]).value.parser;
      assert slots == slots[..n] + [slots[n]] && locs == locs[..n] + [locs[n]];
      if slots[n][0] == 0x85 {
        w := 1;
        OpeningStands(q, slots[..n], locs[..n], slots[n], locs[n]);
      } else if q.secondaryLeft != 0 && !q.ignored {
        w := v + 1;
        MiddleStands(q, slots[..n], locs[..n], v, slots[n], locs[n]);
      }
    }
  }

  /** The parser reports a record only for the announced run of slots that end
      here: one primary, one stream extension and enough name slots, with the
      stored checksum, and the record is what those slots hold. */
  lemma ReportIsSound(p: Parser, slots: seq<Slot>, locs: seq<EntryLocator>, raw: Slot, loc: EntryLocator)
    returns (w: nat)
    requires |p.entry.entryLocs| == 19 && p.secondaryLeft == 0 && |slots| == |locs|
    requires Feed(p, slots, locs).Ok?
    requires var out := PushStep(Feed(p, slots, locs).value.parser, raw, loc).1; out.Ok? && out.value.Some?
    ensures w <= |slots|
    ensures var win, at := slots[|slots| - w..] + [raw], locs[|locs| - w..] + [loc];
            && FileSet(win)
            && PushStep(Feed(p, slots, locs).value.parser, raw, loc).1 == Ok(Some(Decode(win, at)))
  {
    w := RunStands(p, slots, locs);
    PushMiddle(slots[|slots| - w..], locs[|locs| - w..], raw, loc);
  }

  /** A set that has been given up is consumed in exactly its declared length:
      no record, one slot less to go each time, and a primary slot inside it is
      an error. */
  lemma {:induction false} IgnoredSetConsumed(p: Parser, slots: seq<Slot>, locs: seq<EntryLocator>)
    requires |p.entry.entryLocs| == 19 && |slots| == |locs| <= p.secondaryLeft && p.ignored
    ensures (forall i :: 0 <= i < |slots| ==> slots[i][0] != 0x85) <==> Feed(p, slots, locs).Ok?
    ensures Feed(p, slots, locs).Ok? ==>
      var f := Feed(p, slots, locs).value;
      && f.found == [] && f.parser.secondaryLeft == p.secondaryLeft - |slots|
      && (f.parser.secondaryLeft != 0 ==> f.parser.ignored)
  {
    if slots != [] {
      var n := |slots| - 1;
      IgnoredSetConsumed(p, slots[..n], locs[..n]);
      assert forall i :: 0 <= i < n ==> slots[..n][i] == slots[i];
    }
  }

  // ----- what becomes of a set -------------------------------------------------------------

  /** Slot `i` of a set is what the parser looks for there: a stream extension,
      then name slots while the name lasts. */
  predicate Follows(slots: seq<Slot>, i: nat)
    requires 1 <= i < |slots|
  {
    if i == 1 then slots[1][0] == 0xc0 else slots[i][0] == 0xc1 && 15 * (i - 2) < slots[1][3]
  }

  /** The slots that are errors: a primary slot that announces too little, one inside
      the set, a stream extension in its place with impossible flags or lengths, and,
      in a set with nothing foreign in it, too little name or another checksum. */
  ghost predicate Malformed(slots: seq<Slot>)
    requires |slots| > 0 && |slots| - 1 == slots[0][1]
  {
    || slots[0][1] < 2
    || (exists i :: 1 <= i < |slots| && slots[i][0] == 0x85)
    || (slots[0][1] <= 18 && slots[1][0] == 0xc0
        && (|| (slots[1][1] != 1 && slots[1][1] != 3) || slots[1][3] == 0
            || Le64(slots[1][8..16]) > Le64(slots[1][24..32])
            || (Le64(slots[1][24..32]) != 0 && Le32(slots[1][20..24]) < 2)))
    || (slots[0][1] <= 18 && (forall i :: 1 <= i < |slots| ==> Follows(slots, i))
        && (slots[1][3] > 15 * (|slots| - 2) || SetSum(slots) != Le16(slots[0][2..4])))
  }

  /** It has more than eighteen secondary slots, or one that does not fit. */
  ghost predicate Foreign(slots: seq<Slot>)
    requires |slots| > 0
  {
    slots[0][1] > 18 || exists i :: 1 <= i < |slots| && !Follows(slots, i)
  }

  /** From any clean state, a primary slot and as many slots as it announces are an
      error exactly if they are broken; otherwise they leave the parser clean, and
      are reported exactly if nothing foreign is among them. */
  lemma SetOutcome(p: Parser, slots: seq<Slot>, locs: seq<EntryLocator>)
    requires |p.entry.entryLocs| == 19 && p.secondaryLeft == 0 && |slots| == |locs|
    requires |slots| > 0 && slots[0][0] == 0x85 && |slots| - 1 == slots[0][1]
    ensures Malformed(slots) <==> Feed(p, slots, locs) == Err(Corrupt)
    ensures !Malformed(slots) ==>
      && Feed(p, slots, locs).Ok? && Feed(p, slots, locs).value.parser.secondaryLeft == 0
      && (Foreign(slots) ==> Feed(p, slots, locs).value.found == [])
      && (!Foreign(slots) ==> FileSet(slots) && Feed(p, slots, locs).value.found == [Decode(slots, locs)])
  {
    hide Decode;
    hide SetSum;
    hide MidState;
    hide PushStep;
    if slots[0][1] < 2 || slots[0][1] > 18 {
      OpensOutside(p, slots, locs);
    } else if PrefixSet(slots) {
      WholeSet(p, slots, locs);
      WholeTells(slots);
    } else {
      assert slots[..|slots|] == slots;
      var w := FirstMisfit(slots, |slots|);
      MisfitFeeds(p, slots, locs, w);
      MisfitTells(slots, w);
    }
  }

  lemma RestOf(slots: seq<Slot>, locs: seq<EntryLocator>, w: nat)
    requires |slots| == |locs| && w <= |slots|
    ensures slots == slots[..w] + slots[w..] && locs == locs[..w] + locs[w..]
    ensures forall i :: 0 <= i < |slots| - w ==> slots[w..][i] == slots[w + i]
  {
  }

  lemma {:induction false} FeedErrors(p: Parser, slots: seq<Slot>, locs: seq<EntryLocator>)
    requires |p.entry.entryLocs| == 19 && |slots| == |locs|
    ensures Feed(p, slots, locs).Err? ==> Feed(p, slots, locs).error == Corrupt
  {
    hide ChecksumStep;
    hide PrimaryEntry;
    if slots != [] {
      var n := |slots| - 1;
      FeedErrors(p, slots[..n], locs[..n]);
      FeedLast(p, slots, locs);
    }
  }

  lemma WholeTells(slots: seq<Slot>)
    requires PrefixSet(slots) && |slots| - 1 == slots[0][1]
    ensures !Foreign(slots) && (Malformed(slots) <==> !FileSet(slots))
  {
    hide SetSum;
  }

  /** All slots continue the set. */
  lemma WholeSet(p: Parser, slots: seq<Slot>, locs: seq<EntryLocator>)
    requires |p.entry.entryLocs| == 19 && p.secondaryLeft == 0 && |slots| == |locs|
    requires PrefixSet(slots) && |slots| == SetLength(slots[0])
    ensures if FileSet(slots) then Feed(p, slots, locs) == Ok(Fed(MidState(slots, locs), [Decode(slots, locs)]))
            else Feed(p, slots, locs) == Err(Corrupt)
    ensures MidState(slots, locs).secondaryLeft == 0
  {
    hide Decode;
    hide SetSum;
    hide PushStep;
    hide FileSet;
    hide StreamOk;
    if FileSet(slots) {
      FileSetParses(p, slots, locs);
    } else {
      var n := |slots| - 1;
      assert slots == slots[..n] + [slots[n]];
      FrontIsPrefix(slots, n);
      FeedPrefix(p, slots[..n], locs[..n]);
      PushMiddle(slots[..n], locs[..n], slots[n], locs[n]);
      FeedLast(p, slots, locs);
    }
  }

  lemma FrontIsPrefix(slots: seq<Slot>, n: nat)
    requires PrefixSet(slots) && 1 <= n <= |slots|
    ensures PrefixSet(slots[..n]) && slots[..n][0] == slots[0]
  {
    hide StreamOk;
  }

  /** The first slot that does not continue the set. */
  lemma {:induction false} FirstMisfit(slots: seq<Slot>, n: nat) returns (w: nat)
    requires 1 <= n <= |slots| && PrefixSet(slots[..1]) && !PrefixSet(slots[..n])
    ensures 1 <= w < n && PrefixSet(slots[..w]) && !PrefixSet(slots[..w + 1])
  {
    if PrefixSet(slots[..n - 1]) { w := n - 1; } else { w := FirstMisfit(slots, n - 1); }
  }

  /** What a slot that does not continue the set comes to, and the slots behind
      it. */
  lemma MisfitFeeds(p: Parser, slots: seq<Slot>, locs: seq<EntryLocator>, w: nat)
    requires |p.entry.entryLocs| == 19 && p.secondaryLeft == 0 && |slots| == |locs|
    requires 1 <= w < |slots| && PrefixSet(slots[..w]) && !PrefixSet(slots[..w + 1])
    requires |slots| == SetLength(slots[0])
    ensures var bad := slots[w][0] == 0x85 || (w == 1 && slots[w][0] == 0xc0)
                       || exists i :: w < i < |slots| && slots[i][0] == 0x85;
            if bad then Feed(p, slots, locs) == Err(Corrupt)
            else && Feed(p, slots, locs).Ok? && Feed(p, slots, locs).value.found == []
                 && Feed(p, slots, locs).value.parser.secondaryLeft == 0
  {
    hide Feed;
    hide Decode;
    hide SetSum;
    hide PushStep;
    FeedPrefix(p, slots[..w], locs[..w]);
    assert slots[..w + 1] == slots[..w] + [slots[w]];
    PushMiddle(slots[..w], locs[..w], slots[w], locs[w]);
    assert slots[..w + 1][..w] == slots[..w] && locs[..w + 1][..w] == locs[..w];
    FeedLast(p, slots[..w + 1], locs[..w + 1]);
    RestOf(slots, locs, w + 1);
    FeedConcat(p, slots[..w + 1], locs[..w + 1], slots[w + 1..], locs[w + 1..]);
    FeedErrors(p, slots, locs);
    if Feed(p, slots[..w + 1], locs[..w + 1]).Ok? {
      IgnoredSetConsumed(Feed(p, slots[..w + 1], locs[..w + 1]).value.parser, slots[w + 1..], locs[w + 1..]);
    }
  }

  /** What that says about the set. */
  lemma MisfitTells(slots: seq<Slot>, w: nat)
    requires 1 <= w < |slots| && |slots| - 1 == slots[0][1]
    requires PrefixSet(slots[..w]) && !PrefixSet(slots[..w + 1])
    ensures Malformed(slots) <==>
      || slots[w][0] == 0x85 || (w == 1 && slots[w][0] == 0xc0)
      || exists i :: w < i < |slots| && slots[i][0] == 0x85
    ensures !Malformed(slots) ==> Foreign(slots)
  {
    hide SetSum;
    assert forall i :: 0 <= i < w ==> slots[..w + 1][i] == slots[..w][i] == slots[i];
    assert slots[..w + 1][w] == slots[w];
    assert (w == 1 && slots[1][0] == 0xc0) || !Follows(slots, w);
  }

  lemma OpeningFeeds(p: Parser, raw: Slot, loc: EntryLocator)
    requires |p.entry.entryLocs| == 19 && p.secondaryLeft == 0 && raw[0] == 0x85
    ensures var r := Feed(p, [raw], [loc]);
            if raw[1] < 2 then r == Err(Corrupt)
            else && r.Ok? && r.value.found == [] && r.value.parser.secondaryLeft == raw[1]
                 && (r.value.parser.ignored <==> raw[1] > 18)
  {
    hide ChecksumStep;
    hide PrimaryEntry;
    assert [raw][..0] == [] && [loc][..0] == [];
    FeedLast(p, [raw], [loc]);
  }

  /** A primary slot that is refused, or whose set is given up at once. */
  lemma OpensOutside(p: Parser, slots: seq<Slot>, locs: seq<EntryLocator>)
    requires |p.entry.entryLocs| == 19 && p.secondaryLeft == 0 && |slots| == |locs|
    requires |slots| > 0 && slots[0][0] == 0x85 && |slots| - 1 == slots[0][1]
    requires slots[0][1] < 2 || slots[0][1] > 18
    ensures (slots[0][1] < 2 || exists i :: 1 <= i < |slots| && slots[i][0] == 0x85) <==>
              Feed(p, slots, locs) == Err(Corrupt)
    ensures Feed(p, slots, locs).Ok? ==>
      Feed(p, slots, locs).value.found == [] && Feed(p, slots, locs).value.parser.secondaryLeft == 0
    ensures Feed(p, slots, locs).Err? ==> Feed(p, slots, locs).error == Corrupt
  {
    hide PushStep;
    OpeningFeeds(p, slots[0], locs[0]);
    RestOf(slots, locs, 1);
    assert slots[..1] == [slots[0]] && locs[..1] == [locs[0]];
    FeedConcat(p, slots[..1], locs[..1], slots[1..], locs[1..]);
    FeedErrors(p, slots, locs);
    if slots[0][1] > 18 {
      IgnoredSetConsumed(Feed(p, [slots[0]], [locs[0]]).value.parser, slots[1..], locs[1..]);
    }
  }

  /** Between sets, slots that are no primaries are passed over. */
  lemma {:induction false} FeedBetween(p: Parser, slots: seq<Slot>, locs: seq<EntryLocator>)
    requires |p.entry.entryLocs| == 19 && p.secondaryLeft == 0 && |slots| == |locs|
    requires forall i :: 0 <= i < |slots| ==> slots[i][0] != 0x85
    ensures Feed(p, slots, locs) == Ok(Fed(p, []))
  {
    if slots != [] {
      var n := |slots| - 1;
      assert forall i :: 0 <= i < n ==> slots[..n][i] == slots[i];
      FeedBetween(p, slots[..n], locs[..n]);
      FeedLast(p, slots, locs);
    }
  }

  /** A set damaged in one byte, wherever it is, is no set any more ... */
  lemma DamagedIsNone(win: seq<Slot>, i: nat, j: nat, b: byte)
    requires FileSet(win) && i < |win| && j < 32 && b != win[i][j]
    ensures !FileSet(win[i := win[i][j := b]])
  {
    hide SetSum;
    hide PrefixSet;
    var other := win[i := win[i][j := b]];
    if i == 0 && (j == 2 || j == 3) {
      SetSumIgnoresStored(win, other);
      assert other[0][2..4] == win[0][2..4][j - 2 := b];
    } else {
      SetSumTells(win, i, j, b);
      if i == 0 { assert other[0][2..4] == win[0][2..4]; }
    }
  }

  /** ... and is not reported, unless it was the number of its slots. */
  lemma DamagedNotReported(p: Parser, win: seq<Slot>, locs: seq<EntryLocator>, i: nat, j: nat, b: byte)
    requires |p.entry.entryLocs| == 19 && p.secondaryLeft == 0 && |win| == |locs|
    requires FileSet(win) && i < |win| && j < 32 && b != win[i][j] && !(i == 0 && j == 1)
    ensures var r := Feed(p, win[i := win[i][j := b]], locs); r.Ok? ==> r.value.found == []
  {
    hide SetSum;
    hide Feed;
    hide Foreign;
    hide Malformed;
    var other := win[i := win[i][j := b]];
    if i == 0 && j == 0 {
      FeedBetween(p, other, locs);
    } else {
      DamagedIsNone(win, i, j, b);
      SetOutcome(p, other, locs);
    }
  }

  /** Slots that were taken in silence. */
  lemma FeedSilent(p: Parser, a: seq<Slot>, la: seq<EntryLocator>, b: seq<Slot>, lb: seq<EntryLocator>)
    requires |p.entry.entryLocs| == 19 && |a| == |la| && |b| == |lb|
    requires Feed(p, a, la).Ok? && Feed(p, a, la).value.found == []
    ensures Feed(p, a + b, la + lb) == Feed(Feed(p, a, la).value.parser, b, lb)
  {
    hide PushStep;
    FeedConcat(p, a, la, b, lb);
    var r := Feed(Feed(p, a, la).value.parser, b, lb);
    if r.Ok? { assert [] + r.value.found == r.value.found; }
  }

  lemma SilentThenSet(p: Parser, a: seq<Slot>, la: seq<EntryLocator>, win: seq<Slot>, lw: seq<EntryLocator>)
    requires |p.entry.entryLocs| == 19 && |a| == |la| && |win| == |lw| && FileSet(win)
    requires Feed(p, a, la).Ok? && Feed(p, a, la).value.found == [] && Feed(p, a, la).value.parser.secondaryLeft == 0
    ensures var r := Feed(p, a + win, la + lw);
            r.Ok? && r.value.found == [Decode(win, lw)] && r.value.parser.secondaryLeft == 0
  {
    hide Decode;
    hide MidState;
    hide PushStep;
    hide StreamOk;
    hide SetSum;
    hide Feed;
    FileSetParses(Feed(p, a, la).value.parser, win, lw);
    FeedSilent(p, a, la, win, lw);
  }

  /** A set with something foreign in it does not hide the one behind it. */
  lemma ForeignThenSet(p: Parser, foreign: seq<Slot>, lf: seq<EntryLocator>, win: seq<Slot>, lw: seq<EntryLocator>)
    requires |p.entry.entryLocs| == 19 && p.secondaryLeft == 0 && |foreign| == |lf| && |win| == |lw|
    requires |foreign| > 0 && foreign[0][0] == 0x85 && |foreign| - 1 == foreign[0][1]
    requires Foreign(foreign) && !Malformed(foreign) && FileSet(win)
    ensures var r := Feed(p, foreign + win, lf + lw);
            r.Ok? && r.value.found == [Decode(win, lw)] && r.value.parser.secondaryLeft == 0
  {
    hide Decode;
    hide Foreign;
    hide Malformed;
    hide PrefixSet;
    hide SetSum;
    hide PushStep;
    hide Feed;
    SetOutcome(p, foreign, lf);
    SilentThenSet(p, foreign, lf, win, lw);
  }

  /** A record never has more than nineteen slots. */
  lemma {:induction false} EntryCountBounded(p: Parser, slots: seq<Slot>, locs: seq<EntryLocator>)
    requires |p.entry.entryLocs| == 19 && p.entry.entryCount <= 19 && |slots| == |locs|
    ensures Feed(p, slots, locs).Ok? ==>
      var f := Feed(p, slots, locs).value;
      f.parser.entry.entryCount <= 19 && forall i :: 0 <= i < |f.found| ==> f.found[i].entryCount <= 19
  {
    if slots != [] {
      var n := |slots| - 1;
      EntryCountBounded(p, slots[..n], locs[..n]);
    }
  }
}
