/** Case-insensitive names: the compressed up-case table of the volume, what it
    means when fully expanded, and the comparison and hash that read it through
    its FAT chain one word at a time. */
module Upcase {
  import opened Words
  import opened Errors
  import opened EntrySets
  import opened Geometry
  import opened Views
  import opened Volume
  import opened Extents
  import opened Files
  import opened Tree
  import opened SlotIo
  import opened Growth
  import opened Meaning

  // ----- the table ------------------------------------------------------------------------

  function Word(bytes: seq<byte>, i: nat): u16
    requires 2 * i + 2 <= |bytes|
  {
    Le16(bytes[2 * i..2 * i + 2])
  }

  /** The 16-bit words of a table. */
  function WordsOf(bytes: seq<byte>): (w: seq<u16>)
    ensures |w| == |bytes| / 2
  {
    seq(|bytes| / 2, i requires 0 <= i < |bytes| / 2 => Word(bytes, i))
  }

  /** `n` units from `code` on that map to themselves. */
  function IdentityRun(code: nat, n: nat): (r: seq<nat>)
    ensures |r| == n && forall i :: 0 <= i < n ==> r[i] == code + i
  {
    seq(n, i => code + i)
  }

  /** The mappings of the units from `code` on, with every run of identity
      mappings (the marker 0xffff and a count) written out. */
  function Expand(words: seq<u16>, code: nat): seq<nat> {
    if words == [] then []
    else if words[0] != 0xffff then [words[0]] + Expand(words[1..], code + 1)
    else if |words| == 1 then []
    else IdentityRun(code, words[1]) + Expand(words[2..], code + words[1])
  }

  /** Expanding gives each unit a mapping that is a unit again. */
  lemma {:induction false} ExpandIsUnit(words: seq<u16>, code: nat, k: nat)
    requires k < |Expand(words, code)|
    ensures Expand(words, code)[k] < 0xffff || Expand(words, code)[k] == code + k
  {
    if words[0] != 0xffff {
      if k > 0 { ExpandIsUnit(words[1..], code + 1, k - 1); }
    } else {
      var n := words[1];
      if k >= n { ExpandIsUnit(words[2..], code + n, k - n); }
    }
  }

  function AsciiUpper(unit: u16): u16 {
    if 0x61 <= unit <= 0x7a then unit - 0x20 else unit
  }

  /** What a unit is folded to on a volume with this table. */
  function Folded(valid: bool, table: seq<byte>, unit: u16): (r: Result<u16>)
    ensures r.Err? ==> r.error in {UpcaseTableCorrupt, Corrupt}
  {
    if unit <= 0x7f then Ok(AsciiUpper(unit))
    else if !valid then Err(UpcaseTableCorrupt)
    else
      var all := Expand(WordsOf(table), 0);
      if unit < |all| then
        ExpandIsUnit(WordsOf(table), 0, unit);
        Ok(all[unit])
      else Err(Corrupt)
  }

  // ----- names ----------------------------------------------------------------------------

  /** Comparison of two names from unit `k` on: the first unit that cannot be
      folded, or that differs, decides. */
  function MatchFrom(valid: bool, table: seq<byte>, a: seq<u16>, b: seq<u16>, k: nat): (r: Result<bool>)
    requires k <= |a| == |b|
    ensures r.Err? ==> r.error in {UpcaseTableCorrupt, Corrupt}
    decreases |a| - k
  {
    if k == |a| then Ok(true)
    else
      var x, y := Folded(valid, table, a[k]), Folded(valid, table, b[k]);
      if x.Err? then Err(x.error)
      else if y.Err? then Err(y.error)
      else if x.value != y.value then Ok(false)
      else MatchFrom(valid, table, a, b, k + 1)
  }

  function SameName(valid: bool, table: seq<byte>, a: seq<u16>, b: seq<u16>): (r: Result<bool>)
    ensures r.Err? ==> r.error in {UpcaseTableCorrupt, Corrupt}
  {
    if |a| != |b| then Ok(false) else MatchFrom(valid, table, a, b, 0)
  }

  /** Every unit of the name can be folded. */
  ghost predicate Foldable(valid: bool, table: seq<byte>, name: seq<u16>) {
    forall i :: 0 <= i < |name| ==> Folded(valid, table, name[i]).Ok?
  }

  function FoldedName(valid: bool, table: seq<byte>, name: seq<u16>): (r: seq<u16>)
    ensures |r| == |name|
  {
    if name == [] then []
    else
      var last := Folded(valid, table, name[|name| - 1]);
      FoldedName(valid, table, name[..|name| - 1]) + [if last.Ok? then last.value else 0]
  }

  lemma {:induction false} FoldedAt(valid: bool, table: seq<byte>, name: seq<u16>, k: nat)
    requires Foldable(valid, table, name) && k < |name|
    ensures FoldedName(valid, table, name)[k] == Folded(valid, table, name[k]).value
  {
    hide Folded;
    if k < |name| - 1 {
      FoldedAt(valid, table, name[..|name| - 1], k);
    }
  }

  lemma {:induction false} MatchIsFolding(valid: bool, table: seq<byte>, a: seq<u16>, b: seq<u16>, k: nat)
    requires Foldable(valid, table, a) && Foldable(valid, table, b) && k <= |a| == |b|
    ensures MatchFrom(valid, table, a, b, k).Ok?
    ensures MatchFrom(valid, table, a, b, k).value <==>
              FoldedName(valid, table, a)[k..] == FoldedName(valid, table, b)[k..]
    decreases |a| - k
  {
    hide Folded;
    hide FoldedName;
    var x, y := FoldedName(valid, table, a), FoldedName(valid, table, b);
    if k < |a| {
      FoldedAt(valid, table, a, k);
      FoldedAt(valid, table, b, k);
      MatchIsFolding(valid, table, a, b, k + 1);
      assert x[k..] == [x[k]] + x[k + 1..] && y[k..] == [y[k]] + y[k + 1..];
      assert x[k..][0] == x[k] && y[k..][0] == y[k] && x[k..][1..] == x[k + 1..] && y[k..][1..] == y[k + 1..];
    }
  }

  /** The comparison is equality of the folded names, for all names whose units
      the table covers; hence it is an equivalence. */
  lemma SameNameIsFolding(valid: bool, table: seq<byte>, a: seq<u16>, b: seq<u16>)
    requires Foldable(valid, table, a) && Foldable(valid, table, b)
    ensures SameName(valid, table, a, b) == Ok(FoldedName(valid, table, a) == FoldedName(valid, table, b))
  {
    hide Folded;
    hide FoldedName;
    if |a| == |b| {
      MatchIsFolding(valid, table, a, b, 0);
      assert FoldedName(valid, table, a)[0..] == FoldedName(valid, table, a);
      assert FoldedName(valid, table, b)[0..] == FoldedName(valid, table, b);
    }
  }

  /** The name hash after folding in the first `n` units. */
  function HashOf(valid: bool, table: seq<byte>, name: seq<u16>): (r: Result<u16>)
    ensures r.Err? ==> r.error in {UpcaseTableCorrupt, Corrupt}
  {
    if name == [] then Ok(0)
    else
      var before := HashOf(valid, table, name[..|name| - 1]);
      var unit := Folded(valid, table, name[|name| - 1]);
      if before.Err? then before
      else if unit.Err? then Err(unit.error)
      else Ok(Roll16(Roll16(before.value, Enc16(unit.value)[0]), Enc16(unit.value)[1]))
  }

  /** The units in bytes, low byte first. */
  function UnitBytes(units: seq<u16>): seq<byte> {
    if units == [] then [] else UnitBytes(units[..|units| - 1]) + Enc16(units[|units| - 1])
  }

  /** The hash is the rolling checksum of the folded name's bytes. */
  lemma {:induction false} HashIsSum(valid: bool, table: seq<byte>, name: seq<u16>)
    requires Foldable(valid, table, name)
    ensures HashOf(valid, table, name) == Ok(ChecksumStep(0, UnitBytes(FoldedName(valid, table, name)), false))
  {
    hide Folded;
    hide Roll16;
    if name != [] {
      var n := |name| - 1;
      var folded := FoldedName(valid, table, name);
      FoldedAt(valid, table, name, n);
      assert folded[..n] == FoldedName(valid, table, name[..n]);
      HashIsSum(valid, table, name[..n]);
      var front, last := UnitBytes(folded[..n]), Enc16(folded[n]);
      var all := front + last;
      assert all[..|front|] == front[..|front|];
      FoldSame(0, front, all, |front|, false);
      assert FoldBytes(0, all, |front| + 1, false) == Roll16(FoldBytes(0, all, |front|, false), last[0]);
      assert FoldBytes(0, all, |front| + 2, false) == Roll16(FoldBytes(0, all, |front| + 1, false), last[1]);
    }
  }

  /** Names that match have the same hash. */
  lemma {:induction false} MatchingHash(valid: bool, table: seq<byte>, a: seq<u16>, b: seq<u16>)
    requires Foldable(valid, table, a) && Foldable(valid, table, b)
    requires FoldedName(valid, table, a) == FoldedName(valid, table, b)
    ensures HashOf(valid, table, a).Ok? && HashOf(valid, table, a) == HashOf(valid, table, b)
  {
    hide Folded;
    assert |a| == |b|;
    if a != [] {
      var n := |a| - 1;
      var x, y := FoldedName(valid, table, a), FoldedName(valid, table, b);
      FoldedAt(valid, table, a, n);
      FoldedAt(valid, table, b, n);
      assert x[..n] == FoldedName(valid, table, a[..n]) && y[..n] == FoldedName(valid, table, b[..n]);
      MatchingHash(valid, table, a[..n], b[..n]);
    }
  }

  // ----- the table a formatter writes ----------------------------------------------------------

  /** A table without markers maps each unit to its word, up to a final marker. */
  lemma {:induction false} PlainTable(words: seq<u16>, code: nat)
    requires words != [] && words[|words| - 1] == 0xffff
    requires forall k :: 0 <= k < |words| - 1 ==> words[k] != 0xffff
    ensures |Expand(words, code)| == |words| - 1
    ensures forall k :: 0 <= k < |words| - 1 ==> Expand(words, code)[k] == words[k]
    decreases |words|
  {
    if |words| > 1 {
      PlainTable(words[1..], code + 1);
      var rest := Expand(words[1..], code + 1);
      forall k | 0 <= k < |words| - 1
        ensures ([words[0]] + rest)[k] == words[k]
      {
        if k > 0 { assert rest[k - 1] == words[1..][k - 1] == words[k]; }
      }
    }
  }

  /** The 131072 bytes the formatter writes: ASCII upper-casing, unit by unit. */
  ghost predicate AsciiTable(table: seq<byte>) {
    |table| == 0x2_0000 && forall c: u16 :: Word(table, c) == AsciiUpper(c)
  }

  /** On a formatted volume every unit but 0xffff is folded as in ASCII, and that
      one, which reads as a run marker, is an error. */
  lemma FormattedFolding(table: seq<byte>, unit: u16)
    requires AsciiTable(table)
    ensures Folded(true, table, unit) ==
      if unit == 0xffff then Err(Corrupt) else Ok(if 0x61 <= unit <= 0x7a then unit - 0x20 else unit)
  {
    var words := WordsOf(table);
    assert forall k :: 0 <= k < |words| ==> words[k] == Word(table, k) == AsciiUpper(k);
    PlainTable(words, 0);
  }

  // ----- reading it through the FAT -------------------------------------------------------------

  /** The recorded table is where the mount found it. */
  ghost predicate TableReady(fs: FileSystem)
    reads fs
  {
    && UpcaseFile in fs.nodes
    && (fs.upcaseValid ==>
          && fs.nodes[UpcaseFile].ext != [] && fs.nodes[UpcaseFile].ext[0] == fs.upcase.firstCluster
          && fs.nodes[UpcaseFile].valid == fs.upcase.byteLength)
  }

  /** What folding relies on. */
  ghost predicate TableOk(fs: FileSystem)
    reads fs
  {
    fs.Valid() && OwnOk(fs.g, fs.fat, fs.used, fs.bm, fs.nodes) && TableReady(fs)
  }

  /** The table's bytes. */
  ghost function Table(fs: FileSystem): seq<byte>
    requires UpcaseFile in fs.nodes
    reads fs
  {
    Content(fs.heap, fs.nodes[UpcaseFile])
  }

  /** The table as a FAT-linked extent. */
  lemma TableExtent(fs: FileSystem)
    requires TableOk(fs) && fs.upcaseValid
    ensures var ext := fs.nodes[UpcaseFile].ext;
            && ext != [] && ext[0] == fs.upcase.firstCluster && InHeap(fs.g, ext) && Links(fs.fat, ext)
            && |ext| <= fs.g.clusterCount
            && fs.upcase.byteLength <= |ext| * fs.g.BytesPerCluster() == |Flat(fs.heap, ext)|
            && Table(fs) == Flat(fs.heap, ext)[..fs.upcase.byteLength]
    ensures |fs.fat| == fs.g.clusterCount + 2
  {
    hide FileSystem.Valid;
    fs.Basics();
    var n := fs.nodes[UpcaseFile];
    assert NodeOk(fs.g, fs.fat, fs.used, n);
    RecordedPrefix(fs.g, fs.heap, n, n.ext);
    ShapeFits(fs.g, fs.heap, n.ext);
    DistinctFits(fs.g, n.ext);
  }

  lemma EvenInSector(b: nat, cb: nat, size: nat)
    requires b % 2 == 0 && cb > 0 && cb % 2 == 0 && size > 0 && size % 2 == 0
    ensures 0 <= b % cb && b % cb % size + 2 <= size && b % cb % size % 2 == 0
  {
    EvenRemainder(b, cb);
    EvenRemainder(b % cb, size);
  }

  lemma EvenRemainder(x: nat, d: nat)
    requires x % 2 == 0 && d > 0 && d % 2 == 0
    ensures 0 <= x % d && x % d % 2 == 0 && x % d + 2 <= d
  {
    var e, q := d / 2, x / d;
    assert x == q * d + x % d;
    assert q * d == 2 * (q * e) by { assert d == 2 * e; }
  }

  lemma EvenPlace(g: Geometry, at: nat)
    requires g.WellFormed() && at % 2 == 0
    ensures g.BytesPerCluster() > 0 && 0 <= at % g.BytesPerCluster()
    ensures 0 <= at % g.BytesPerCluster() % g.bytesPerSector
    ensures at % g.BytesPerCluster() % g.bytesPerSector + 2 <= g.bytesPerSector
  {
    ClusterMultiple32(g);
    HalfOf32(g.BytesPerCluster());
    HalfOf32(g.bytesPerSector);
    EvenInSector(at, g.BytesPerCluster(), g.bytesPerSector);
  }

  lemma HalfOf32(x: nat)
    requires x % 32 == 0
    ensures x % 2 == 0
  {
    assert x == 2 * (x / 32 * 16);
  }

  /** Sector and offset of a table byte with an even number. */
  method LocateWord(fs: FileSystem, at: nat, ghost ext: seq<nat>)
    returns (r: Result<(nat, nat)>, ghost i: nat, ghost s: nat)
    requires fs.Valid() && at % 2 == 0 && InHeap(fs.g, ext) && Links(fs.fat, ext) && ext != []
    requires ext[0] == fs.upcase.firstCluster && |ext| <= fs.g.clusterCount && at < |ext| * fs.g.BytesPerCluster()
    modifies fs`clock, fs`scratch
    ensures fs.Valid()
    ensures r.Err? ==> r.error == Device
    ensures r.Ok? ==> r.value.1 + 2 <= fs.g.bytesPerSector && Under(fs.g, ext, at, r.value.0, r.value.1, i, s)
    ensures Honest(fs.faulty, old(fs.clock), fs.clock, r == Err(Device))
  {
    hide FileSystem.Valid;
    hide Under;
    hide Geometry.WellFormed;
    hide Geometry.BytesPerCluster;
    fs.Basics();
    i, s := 0, 0;
    UnderAt(fs.g, ext, at);
    var size: nat, clusterBytes := fs.g.bytesPerSector, fs.g.BytesPerCluster();
    var index := at / clusterBytes;
    WalkFollowsLinks(fs.g, fs.fat, ext, index);
    var cluster := fs.ClusterAt(fs.upcase.firstCluster, index);
    if cluster.Err? { return Err(cluster.error), i, s; }
    var within := at % clusterBytes;
    var base := fs.g.ClusterLba(cluster.value);
    if base.None? { return Err(Corrupt), i, s; }
    EvenPlace(fs.g, at);
    return Ok((base.value + within / size, within % size)), index, within / size;
  }

  /** One word of the table. */
  method UpcaseWord(fs: FileSystem, at: nat) returns (r: Result<u16>)
    requires TableOk(fs) && fs.upcaseValid && at % 2 == 0
    modifies fs`clock, fs`scratch
    ensures TableOk(fs)
    ensures at + 2 <= fs.upcase.byteLength ==>
      at + 2 <= |Table(fs)| && (r == Ok(Le16(Table(fs)[at..at + 2])) || r == Err(Device))
    ensures at + 2 > fs.upcase.byteLength ==> r == Err(Corrupt)
    ensures Honest(fs.faulty, old(fs.clock), fs.clock, r == Err(Device))
  {
    hide FileSystem.Valid;
    hide OwnOk;
    hide Under;
    hide Geometry.WellFormed;
    hide Geometry.BytesPerCluster;
    hide Content;
    TableExtent(fs);
    if at + 2 > fs.upcase.byteLength { return Err(Corrupt); }
    ghost var ext := fs.nodes[UpcaseFile].ext;
    var place, i, s := LocateWord(fs, at, ext);
    if place.Err? { return Err(place.error); }
    var (lba, offset) := place.value;
    if offset + 2 > fs.g.bytesPerSector { return Err(Corrupt); }
    WordUnder(fs, at, lba, offset, i, s);
    var ok := fs.ReadSector(lba);
    if !ok { return Err(Device); }
    return Ok(Le16(fs.scratch[offset..offset + 2]));
  }

  /** The table's word in its sector. */
  lemma WordUnder(fs: FileSystem, at: nat, lba: nat, offset: nat, i: nat, s: nat)
    requires TableOk(fs) && fs.upcaseValid && at + 2 <= fs.upcase.byteLength
    requires offset + 2 <= fs.g.bytesPerSector && Under(fs.g, fs.nodes[UpcaseFile].ext, at, lba, offset, i, s)
    ensures lba < |fs.disk| && |fs.disk[lba]| == fs.g.bytesPerSector && at + 2 <= |Table(fs)|
    ensures fs.disk[lba][offset..offset + 2] == Table(fs)[at..at + 2]
  {
    hide FileSystem.Valid;
    hide OwnOk;
    hide Under;
    hide Geometry.WellFormed;
    hide Geometry.BytesPerCluster;
    hide Content;
    TableExtent(fs);
    UnderReads(fs, fs.nodes[UpcaseFile].ext, at, lba, offset, i, s, 2);
    SliceOfPrefix(Flat(fs.heap, fs.nodes[UpcaseFile].ext), fs.upcase.byteLength, at);
  }

  lemma SliceOfPrefix(bytes: seq<byte>, n: nat, at: nat)
    requires at + 2 <= n <= |bytes|
    ensures bytes[..n][at..at + 2] == bytes[at..at + 2]
  {
  }

  /** Unit `unit` is found, if at all, among the mappings of the words from
      number `i` on, which start with that of unit `code`. */
  ghost predicate Pending(words: seq<u16>, i: nat, code: nat, unit: nat) {
    && i <= |words| && code <= unit
    && |Expand(words, 0)| == code + |Expand(words[i..], code)|
    && (unit < |Expand(words, 0)| ==> Expand(words, 0)[unit] == Expand(words[i..], code)[unit - code])
  }

  lemma ScanStarts(words: seq<u16>, unit: nat)
    ensures Pending(words, 0, 0, unit)
  {
    assert words[0..] == words;
  }

  /** A word that is no marker maps the next unit. */
  lemma ScanWord(words: seq<u16>, i: nat, code: nat, unit: nat)
    requires Pending(words, i, code, unit) && i < |words| && words[i] != 0xffff
    ensures code == unit ==> unit < |Expand(words, 0)| && Expand(words, 0)[unit] == words[i]
    ensures code != unit ==> Pending(words, i + 1, code + 1, unit)
  {
    assert words[i..][0] == words[i] && words[i..][1..] == words[i + 1..];
  }

  /** A marker and its count map the next units to themselves. */
  lemma ScanRun(words: seq<u16>, i: nat, code: nat, unit: nat)
    requires Pending(words, i, code, unit) && i + 1 < |words| && words[i] == 0xffff
    ensures unit < code + words[i + 1] ==> unit < |Expand(words, 0)| && Expand(words, 0)[unit] == unit
    ensures unit >= code + words[i + 1] ==> Pending(words, i + 2, code + words[i + 1], unit)
  {
    assert words[i..][0] == words[i] && words[i..][1] == words[i + 1] && words[i..][2..] == words[i + 2..];
  }

  /** Nothing follows the last word, or a marker without a count. */
  lemma ScanEnds(words: seq<u16>, i: nat, code: nat, unit: nat)
    requires Pending(words, i, code, unit)
    requires i == |words| || (i + 1 == |words| && words[i] == 0xffff)
    ensures unit >= |Expand(words, 0)|
  {
  }

  /** Fold one unit: a fixed rule for ASCII, otherwise a scan of the table that
      keeps count of the units it has passed. */
  method UpcaseUnit(fs: FileSystem, unit: u16) returns (r: Result<u16>)
    requires TableOk(fs)
    modifies fs`clock, fs`scratch
    ensures TableOk(fs)
    ensures r == Folded(fs.upcaseValid, Table(fs), unit) || r == Err(Device)
    ensures Honest(fs.faulty, old(fs.clock), fs.clock, r == Err(Device))
  {
    hide Failures;
    hide FileSystem.Valid;
    hide OwnOk;
    hide Content;
    hide WordsOf;
    hide Expand;
    hide Pending;
    WordCount(Table(fs));
    if unit <= 0x7f {
      return if 0x61 <= unit <= 0x7a then Ok(unit - 0x61 + 0x41) else Ok(unit);
    }
    if !fs.upcaseValid { return Err(UpcaseTableCorrupt); }
    TableExtent(fs);
    ghost var words := WordsOf(Table(fs));
    ScanStarts(words, unit);
    var code: nat, at: nat := 0, 0;
    ghost var i := 0;
    while at + 2 <= fs.upcase.byteLength
      invariant Honest(fs.faulty, old(fs.clock), fs.clock, false)
      invariant TableOk(fs) && Table(fs) == old(Table(fs)) && |Table(fs)| == fs.upcase.byteLength
      invariant at == 2 * i && at <= fs.upcase.byteLength && code <= unit && Pending(words, i, code, unit)
      decreases fs.upcase.byteLength - at
    {
      Even(i);
      var value := UpcaseWord(fs, at);
      if value.Err? { return Err(value.error); }
      WordHere(Table(fs), i);
      at := at + 2;
      if value.value == 0xffff {
        if at + 2 > fs.upcase.byteLength {
          ScanEnds(words, i, code, unit);
          return Err(Corrupt);
        }
        Even(i + 1);
        var skipped := UpcaseWord(fs, at);
        if skipped.Err? { return Err(skipped.error); }
        WordHere(Table(fs), i + 1);
        ScanRun(words, i, code, unit);
        at := at + 2;
        var end := code + skipped.value;
        if code <= unit < end { return Ok(unit); }
        code := end;
        i := i + 2;
      } else {
        ScanWord(words, i, code, unit);
        if code == unit { return Ok(value.value); }
        code := code + 1;
        i := i + 1;
      }
    }
    ScanEnds(words, i, code, unit);
    return Err(Corrupt);
  }

  lemma Even(i: nat)
    ensures 2 * i % 2 == 0
  {
  }

  lemma WordCount(table: seq<byte>)
    ensures |WordsOf(table)| == |table| / 2
  {
  }

  lemma WordHere(table: seq<byte>, i: nat)
    requires 2 * i + 2 <= |table|
    ensures i < |WordsOf(table)| && WordsOf(table)[i] == Le16(table[2 * i..2 * i + 2])
  {
  }

  /** Compare two names on the device. */
  method NamesMatch(fs: FileSystem, actual: seq<u16>, wanted: seq<u16>) returns (r: Result<bool>)
    requires TableOk(fs)
    modifies fs`clock, fs`scratch
    ensures TableOk(fs)
    ensures r == SameName(fs.upcaseValid, Table(fs), actual, wanted) || r == Err(Device)
    ensures Honest(fs.faulty, old(fs.clock), fs.clock, r == Err(Device))
  {
    hide FileSystem.Valid;
    hide OwnOk;
    hide Content;
    hide Folded;
    if |actual| != |wanted| { return Ok(false); }
    for k := 0 to |actual|
      invariant Honest(fs.faulty, old(fs.clock), fs.clock, false)
      invariant TableOk(fs) && Table(fs) == old(Table(fs))
      invariant SameName(fs.upcaseValid, Table(fs), actual, wanted)
             == MatchFrom(fs.upcaseValid, Table(fs), actual, wanted, k)
    {
      var left := UpcaseUnit(fs, actual[k]);
      if left.Err? { return Err(left.error); }
      var right := UpcaseUnit(fs, wanted[k]);
      if right.Err? { return Err(right.error); }
      if left.value != right.value { return Ok(false); }
    }
    return Ok(true);
  }

  /** The hash a stream extension stores for its name. */
  method UpcaseNameHash(fs: FileSystem, name: seq<u16>) returns (r: Result<u16>)
    requires TableOk(fs)
    modifies fs`clock, fs`scratch
    ensures TableOk(fs)
    ensures r == HashOf(fs.upcaseValid, Table(fs), name) || r == Err(Device)
    ensures Honest(fs.faulty, old(fs.clock), fs.clock, r == Err(Device))
  {
    hide FileSystem.Valid;
    hide OwnOk;
    hide Content;
    hide Folded;
    var sum: u16 := 0;
    for k := 0 to |name|
      invariant Honest(fs.faulty, old(fs.clock), fs.clock, false)
      invariant TableOk(fs) && Table(fs) == old(Table(fs))
      invariant HashOf(fs.upcaseValid, Table(fs), name[..k]) == Ok(sum)
    {
      assert name[..k + 1][..k] == name[..k] && name[..k + 1][k] == name[k];
      var unit := UpcaseUnit(fs, name[k]);
      if unit.Err? {
        if unit.error != Device { HashStops(fs.upcaseValid, Table(fs), name, k + 1); }
        return Err(unit.error);
      }
      var bytes := Enc16(unit.value);
      sum := Roll16(Roll16(sum, bytes[0]), bytes[1]);
    }
    assert name[..|name|] == name;
    return Ok(sum);
  }

  /** A unit that cannot be folded decides the hash of every longer name. */
  lemma {:induction false} HashStops(valid: bool, table: seq<byte>, name: seq<u16>, k: nat)
    requires k <= |name| && HashOf(valid, table, name[..k]).Err?
    ensures HashOf(valid, table, name) == HashOf(valid, table, name[..k])
  {
    hide Folded;
    if k == |name| {
      assert name[..k] == name;
    } else {
      var front := name[..|name| - 1];
      assert front[..k] == name[..k];
      HashStops(valid, table, front, k);
    }
  }
}
