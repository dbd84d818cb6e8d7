/** What a directory lists, as a function of its slots: one record per primary
    slot, in slot order; and what inserting, retiring and spacing out entry sets
    does to the listing. */
module Listings {
  import opened Errors
  import opened EntrySets
  import opened Tree

  /** A complete entry set starts at slot `k`. */
  predicate SetAt(slots: seq<Slot>, k: nat)
    requires k < |slots|
  {
    k + SetLength(slots[k]) <= |slots| && FileSet(slots[k..k + SetLength(slots[k])])
  }

  /** Every primary slot starts a complete entry set. */
  ghost predicate Stored(slots: seq<Slot>) {
    forall k :: 0 <= k < |slots| && slots[k][0] == 0x85 ==> SetAt(slots, k)
  }

  /** The slot holds no entry: it is free, or it was closed off (0x80) when the
      directory grew. */
  predicate Spare(slot: Slot) {
    slot[0] <= 0x80
  }

  /** The record whose primary slot is number `k`. */
  function RecordAt(slots: seq<Slot>, locs: seq<EntryLocator>, k: nat): DirectoryEntry
    requires k < |slots| == |locs| && SetAt(slots, k)
  {
    var n := SetLength(slots[k]);
    Decode(slots[k..k + n], locs[k..k + n])
  }

  /** The records whose primary slots are among slots `lo` to `hi`. */
  ghost function RecordsIn(slots: seq<Slot>, locs: seq<EntryLocator>, lo: nat, hi: nat): seq<DirectoryEntry>
    requires Stored(slots) && |slots| == |locs| && lo <= hi <= |slots|
    decreases hi - lo
  {
    if lo == hi then []
    else if slots[lo][0] == 0x85 then [RecordAt(slots, locs, lo)] + RecordsIn(slots, locs, lo + 1, hi)
    else RecordsIn(slots, locs, lo + 1, hi)
  }

  /** All records of a directory. */
  ghost function Listing(slots: seq<Slot>, locs: seq<EntryLocator>): seq<DirectoryEntry>
    requires Stored(slots) && |slots| == |locs|
  {
    RecordsIn(slots, locs, 0, |slots|)
  }

  lemma {:induction false} RecordsSplit(slots: seq<Slot>, locs: seq<EntryLocator>, lo: nat, mid: nat, hi: nat)
    requires Stored(slots) && |slots| == |locs| && lo <= mid <= hi <= |slots|
    ensures RecordsIn(slots, locs, lo, hi) == RecordsIn(slots, locs, lo, mid) + RecordsIn(slots, locs, mid, hi)
    decreases mid - lo
  {
    if lo < mid { RecordsSplit(slots, locs, lo + 1, mid, hi); }
  }

  lemma {:induction false} NoRecords(slots: seq<Slot>, locs: seq<EntryLocator>, lo: nat, hi: nat)
    requires Stored(slots) && |slots| == |locs| && lo <= hi <= |slots|
    requires forall i :: lo <= i < hi ==> slots[i][0] != 0x85
    ensures RecordsIn(slots, locs, lo, hi) == []
    decreases hi - lo
  {
    if lo < hi { NoRecords(slots, locs, lo + 1, hi); }
  }

  /** The slots of a set: one primary, then others that are no primaries, none
      of them spare. */
  lemma SetSlots(slots: seq<Slot>, k: nat)
    requires k < |slots| && SetAt(slots, k)
    ensures slots[k][0] == 0x85 && 3 <= SetLength(slots[k]) <= 19
    ensures forall i :: k < i < k + SetLength(slots[k]) ==> slots[i][0] == 0xc0 || slots[i][0] == 0xc1
  {
    var win := slots[k..k + SetLength(slots[k])];
    assert win[0] == slots[k];
    forall i | k < i < k + SetLength(slots[k])
      ensures slots[i][0] == 0xc0 || slots[i][0] == 0xc1
    {
      assert win[i - k] == slots[i];
    }
  }

  lemma OneRecord(slots: seq<Slot>, locs: seq<EntryLocator>, k: nat)
    requires Stored(slots) && |slots| == |locs| && k < |slots| && slots[k][0] == 0x85
    ensures k + SetLength(slots[k]) <= |slots|
    ensures RecordsIn(slots, locs, k, k + SetLength(slots[k])) == [RecordAt(slots, locs, k)]
  {
    hide FileSet;
    SetSlots(slots, k);
    NoRecords(slots, locs, k + 1, k + SetLength(slots[k]));
    assert [RecordAt(slots, locs, k)] + [] == [RecordAt(slots, locs, k)];
  }

  /** A directory that lists nothing starts no set. */
  lemma EmptyList(slots: seq<Slot>, locs: seq<EntryLocator>, k: nat)
    requires Stored(slots) && |slots| == |locs| && Listing(slots, locs) == [] && k < |slots|
    ensures slots[k][0] != 0x85
  {
    hide FileSet;
    hide Decode;
    RecordsSplit(slots, locs, 0, k, |slots|);
  }

  // ----- the parser lists exactly this -------------------------------------------------------

  /** From a clean state, the parser reports exactly the records from slot `k`
      on, in order, without an error, and ends up clean. */
  lemma {:induction false} FeedRecords(p: Parser, slots: seq<Slot>, locs: seq<EntryLocator>, k: nat)
    requires |p.entry.entryLocs| == 19 && p.secondaryLeft == 0
    requires Stored(slots) && |slots| == |locs| && k <= |slots|
    ensures var r := Feed(p, slots[k..], locs[k..]);
            r.Ok? && r.value.found == RecordsIn(slots, locs, k, |slots|) && r.value.parser.secondaryLeft == 0
    decreases |slots| - k
  {
    hide FileSet;
    hide Decode;
    hide PushStep;
    if k < |slots| {
      var n := if slots[k][0] == 0x85 then SetLength(slots[k]) else 1;
      var q := BlockFeeds(p, slots, locs, k, n);
      FeedRecords(q, slots, locs, k + n);
      FeedOn(p, q, slots, locs, k, n);
    }
  }

  /** One block of slots: a stored set, or a single slot between sets. */
  lemma BlockFeeds(p: Parser, slots: seq<Slot>, locs: seq<EntryLocator>, k: nat, n: nat) returns (q: Parser)
    requires |p.entry.entryLocs| == 19 && p.secondaryLeft == 0
    requires Stored(slots) && k < |slots| == |locs| && n == if slots[k][0] == 0x85 then SetLength(slots[k]) else 1
    ensures k + n <= |slots| && |q.entry.entryLocs| == 19 && q.secondaryLeft == 0
    ensures Feed(p, slots[k..k + n], locs[k..k + n]) == Ok(Fed(q, RecordsIn(slots, locs, k, k + n)))
  {
    hide FileSet;
    hide Decode;
    hide PushStep;
    if slots[k][0] == 0x85 {
      OneRecord(slots, locs, k);
      q := SetFeeds(p, slots, locs, k);
    } else {
      q := p;
      FeedIdle(p, slots[k], locs[k]);
      assert slots[k..k + 1] == [slots[k]] && locs[k..k + 1] == [locs[k]];
      NoRecords(slots, locs, k, k + 1);
    }
  }

  lemma FeedOn(p: Parser, q: Parser, slots: seq<Slot>, locs: seq<EntryLocator>, k: nat, n: nat)
    requires |p.entry.entryLocs| == 19 && |q.entry.entryLocs| == 19
    requires Stored(slots) && |slots| == |locs| && k + n <= |slots|
    requires Feed(p, slots[k..k + n], locs[k..k + n]) == Ok(Fed(q, RecordsIn(slots, locs, k, k + n)))
    requires Feed(q, slots[k + n..], locs[k + n..]).Ok?
    requires Feed(q, slots[k + n..], locs[k + n..]).value.found == RecordsIn(slots, locs, k + n, |slots|)
    ensures var r := Feed(p, slots[k..], locs[k..]);
            && r.Ok? && r.value.found == RecordsIn(slots, locs, k, |slots|)
            && r.value.parser == Feed(q, slots[k + n..], locs[k + n..]).value.parser
  {
    hide Stored;
    hide Feed;
    hide RecordsIn;
    assert slots[k..] == slots[k..k + n] + slots[k + n..] && locs[k..] == locs[k..k + n] + locs[k + n..];
    FeedConcat(p, slots[k..k + n], locs[k..k + n], slots[k + n..], locs[k + n..]);
    RecordsSplit(slots, locs, k, k + n, |slots|);
  }

  /** A stored set is reported as its record. */
  lemma SetFeeds(p: Parser, slots: seq<Slot>, locs: seq<EntryLocator>, k: nat) returns (q: Parser)
    requires |p.entry.entryLocs| == 19 && p.secondaryLeft == 0
    requires k < |slots| == |locs| && SetAt(slots, k)
    ensures var n := SetLength(slots[k]);
            Feed(p, slots[k..k + n], locs[k..k + n]) == Ok(Fed(q, [RecordAt(slots, locs, k)]))
    ensures |q.entry.entryLocs| == 19 && q.secondaryLeft == 0
  {
    var n := SetLength(slots[k]);
    FileSetParses(p, slots[k..k + n], locs[k..k + n]);
    q := MidState(slots[k..k + n], locs[k..k + n]);
  }

  /** Between sets the parser does nothing. */
  lemma FeedIdle(p: Parser, raw: Slot, loc: EntryLocator)
    requires |p.entry.entryLocs| == 19 && p.secondaryLeft == 0 && raw[0] != 0x85
    ensures Feed(p, [raw], [loc]) == Ok(Fed(p, []))
  {
    var none: seq<Slot>, nowhere: seq<EntryLocator> := [], [];
    assert [raw][..0] == none && [loc][..0] == nowhere;
    FeedLast(p, [raw], [loc]);
  }

  /** A scan that has consumed `n` slots has reported a beginning of the
      listing. */
  lemma FeedPart(p: Parser, slots: seq<Slot>, locs: seq<EntryLocator>, n: nat)
    requires |p.entry.entryLocs| == 19 && p.secondaryLeft == 0
    requires Stored(slots) && |slots| == |locs| && n <= |slots|
    ensures Feed(p, slots[..n], locs[..n]).Ok?
    ensures Feed(p, slots[..n], locs[..n]).value.found <= Listing(slots, locs)
  {
    hide Stored;
    hide Feed;
    hide RecordsIn;
    FeedRecords(p, slots, locs, 0);
    assert slots[0..] == slots[..n] + slots[n..] && locs[0..] == locs[..n] + locs[n..];
    FeedConcat(p, slots[..n], locs[..n], slots[n..], locs[n..]);
  }

  /** Once only spare slots remain, it has reported all of the listing. */
  lemma FeedRest(p: Parser, slots: seq<Slot>, locs: seq<EntryLocator>, n: nat)
    requires |p.entry.entryLocs| == 19 && p.secondaryLeft == 0
    requires Stored(slots) && |slots| == |locs| && n <= |slots|
    requires forall i :: n <= i < |slots| ==> Spare(slots[i])
    ensures Feed(p, slots[..n], locs[..n]).Ok?
    ensures Feed(p, slots[..n], locs[..n]).value.found == Listing(slots, locs)
    ensures Feed(p, slots[..n], locs[..n]).value.parser.secondaryLeft == 0
  {
    hide Stored;
    hide Feed;
    hide RecordsIn;
    CutStored(slots, n);
    FeedRecords(p, slots[..n], locs[..n], 0);
    assert slots[..n][0..] == slots[..n] && locs[..n][0..] == locs[..n];
    NoRecords(slots, locs, n, |slots|);
    RecordsSplit(slots, locs, 0, n, |slots|);
    CutRecords(slots, locs, n);
  }

  lemma CutRecords(slots: seq<Slot>, locs: seq<EntryLocator>, n: nat)
    requires Stored(slots) && |slots| == |locs| && n <= |slots| && Stored(slots[..n])
    ensures RecordsIn(slots[..n], locs[..n], 0, n) == RecordsIn(slots, locs, 0, n)
  {
    hide FileSet;
    SameRecords(slots[..n], locs[..n], slots, locs, 0, n);
  }

  lemma CutStored(slots: seq<Slot>, n: nat)
    requires Stored(slots) && n <= |slots| && forall i :: n <= i < |slots| ==> Spare(slots[i])
    ensures Stored(slots[..n])
  {
    hide FileSet;
    forall k | 0 <= k < n && slots[..n][k][0] == 0x85
      ensures SetAt(slots[..n], k)
    {
      SetSlots(slots, k);
      var c := SetLength(slots[k]);
      assert !Spare(slots[k + c - 1]);
      assert slots[..n][k..k + c] == slots[k..k + c];
    }
  }

  // ----- what a reader sees --------------------------------------------------------------------

  /** Number of slots before the first unused one. */
  ghost function FirstUnused(slots: seq<Slot>): (n: nat)
    ensures n <= |slots| && (forall k :: 0 <= k < n ==> slots[k][0] != 0) && (n < |slots| ==> slots[n][0] == 0)
  {
    if slots == [] then 0
    else
      var before := FirstUnused(slots[..|slots| - 1]);
      assert forall k :: 0 <= k < |slots| - 1 ==> slots[..|slots| - 1][k] == slots[k];
      if before < |slots| - 1 then before
      else if slots[|slots| - 1][0] == 0 then |slots| - 1
      else |slots|
  }

  /** The slots a reader gets to: it stops at the first unused one. */
  ghost function Front(slots: seq<Slot>): (s: seq<Slot>)
    ensures s <= slots && forall i :: 0 <= i < |s| ==> s[i][0] != 0
  {
    slots[..FirstUnused(slots)]
  }

  lemma FirstUnusedIs(slots: seq<Slot>, n: nat)
    requires n <= |slots| && (forall k :: 0 <= k < n ==> slots[k][0] != 0) && (n < |slots| ==> slots[n][0] == 0)
    ensures FirstUnused(slots) == n
  {
  }

  /** No set reaches over an unused slot. */
  lemma FrontStored(slots: seq<Slot>)
    requires Stored(slots)
    ensures Stored(Front(slots))
  {
    hide FileSet;
    var n := FirstUnused(slots);
    forall k | 0 <= k < n && slots[..n][k][0] == 0x85
      ensures SetAt(slots[..n], k)
    {
      SetSlots(slots, k);
      var c := SetLength(slots[k]);
      assert k + c <= n;
      assert slots[..n][k..k + c] == slots[k..k + c];
    }
  }

  /** The records a reader sees. */
  ghost function SeenList(slots: seq<Slot>, locs: seq<EntryLocator>): seq<DirectoryEntry>
    requires Stored(slots) && |slots| == |locs|
  {
    FrontStored(slots);
    Listing(Front(slots), locs[..|Front(slots)|])
  }

  /** They are the records of the sets before the first unused slot. */
  lemma SeenRecords(slots: seq<Slot>, locs: seq<EntryLocator>)
    requires Stored(slots) && |slots| == |locs|
    ensures SeenList(slots, locs) == RecordsIn(slots, locs, 0, FirstUnused(slots))
  {
    hide Stored;
    hide RecordsIn;
    FrontStored(slots);
    CutRecords(slots, locs, FirstUnused(slots));
  }

  /** When unused slots come last, these are all records. */
  lemma SeenAll(slots: seq<Slot>, locs: seq<EntryLocator>)
    requires Stored(slots) && |slots| == |locs| && ZeroTail(slots)
    ensures SeenList(slots, locs) == Listing(slots, locs)
  {
    hide Stored;
    hide RecordsIn;
    SeenRecords(slots, locs);
    var n := FirstUnused(slots);
    NoRecords(slots, locs, n, |slots|);
    RecordsSplit(slots, locs, 0, n, |slots|);
  }

  /** Records depend on their own slots only. */
  lemma {:induction false} SameRecords(a: seq<Slot>, la: seq<EntryLocator>, b: seq<Slot>, lb: seq<EntryLocator>,
                                       lo: nat, hi: nat)
    requires Stored(a) && |a| == |la| && Stored(b) && |b| == |lb| && lo <= hi <= |a| && hi <= |b|
    requires forall k :: lo <= k < hi ==> (a[k][0] == 0x85 <==> b[k][0] == 0x85)
    requires forall k :: lo <= k < hi && a[k][0] == 0x85 ==>
               && SetLength(a[k]) == SetLength(b[k])
               && k + SetLength(a[k]) <= |a| && k + SetLength(b[k]) <= |b|
               && a[k..k + SetLength(a[k])] == b[k..k + SetLength(a[k])]
               && la[k..k + SetLength(a[k])] == lb[k..k + SetLength(a[k])]
    ensures RecordsIn(a, la, lo, hi) == RecordsIn(b, lb, lo, hi)
    decreases hi - lo
  {
    hide FileSet;
    hide Decode;
    if lo < hi { SameRecords(a, la, b, lb, lo + 1, hi); }
  }

  // ----- changing a directory's slots ----------------------------------------------------------

  /** `b` has every entry set of `a`, in place, and none elsewhere below `|a|`;
      what is new is spare. */
  ghost predicate SameSets(a: seq<Slot>, b: seq<Slot>) {
    && |a| <= |b|
    && (forall i :: 0 <= i < |a| ==> if Spare(a[i]) then Spare(b[i]) else b[i] == a[i])
    && (forall i :: |a| <= i < |b| ==> Spare(b[i]))
  }

  lemma SetKept(a: seq<Slot>, b: seq<Slot>, k: nat)
    requires k < |a| <= |b| && SetAt(a, k)
    requires forall i :: k <= i < k + SetLength(a[k]) ==> b[i] == a[i]
    ensures SetAt(b, k) && SetLength(b[k]) == SetLength(a[k]) && k + SetLength(a[k]) <= |a|
    ensures b[k..k + SetLength(a[k])] == a[k..k + SetLength(a[k])]
  {
    hide FileSet;
    assert b[k] == a[k];
    assert b[k..k + SetLength(a[k])] == a[k..k + SetLength(a[k])];
  }

  /** Respacing unused slots, or adding some, does not show in the listing. */
  lemma SameSetsList(a: seq<Slot>, la: seq<EntryLocator>, b: seq<Slot>, lb: seq<EntryLocator>)
    requires Stored(a) && |a| == |la| && |b| == |lb| && SameSets(a, b) && la <= lb
    ensures Stored(b) && Listing(b, lb) == Listing(a, la)
  {
    hide FileSet;
    hide Decode;
    forall k | 0 <= k < |b| && b[k][0] == 0x85
      ensures SetAt(b, k) && k < |a| && SetAt(a, k) && SetLength(a[k]) == SetLength(b[k])
      ensures b[k..k + SetLength(a[k])] == a[k..k + SetLength(a[k])]
    {
      SetSlots(a, k);
      SetKept(a, b, k);
    }
    SameRecords(a, la, b, lb, 0, |a|);
    NoRecords(b, lb, |a|, |b|);
    RecordsSplit(b, lb, 0, |a|, |b|);
  }

  /** Sets on either side of a window of spare slots stay clear of it. */
  lemma ClearOf(slots: seq<Slot>, k: nat, w: nat, j: nat)
    requires Stored(slots) && k + w <= |slots| && (forall i :: k <= i < k + w ==> Spare(slots[i]))
    requires j < |slots| && slots[j][0] == 0x85 && w > 0
    ensures j + SetLength(slots[j]) <= k || k + w <= j
  {
    hide FileSet;
    SetSlots(slots, j);
    assert Spare(slots[k]) && (forall i :: j <= i < j + SetLength(slots[j]) ==> !Spare(slots[i]));
  }

  /** The two directories have the same sets outside a window, and no set
      reaches into it from outside. */
  ghost predicate SameAround(a: seq<Slot>, b: seq<Slot>, k: nat, w: nat) {
    && |a| == |b| && k + w <= |a|
    && forall j :: 0 <= j < |a| && !(k <= j < k + w) ==>
         && (a[j][0] == 0x85 <==> b[j][0] == 0x85)
         && (a[j][0] == 0x85 ==>
               && SetLength(a[j]) == SetLength(b[j]) && j + SetLength(a[j]) <= |a|
               && a[j..j + SetLength(a[j])] == b[j..j + SetLength(a[j])])
  }

  lemma RecordsAround(a: seq<Slot>, b: seq<Slot>, locs: seq<EntryLocator>, k: nat, w: nat)
    requires Stored(a) && Stored(b) && SameAround(a, b, k, w) && |locs| == |a|
    ensures RecordsIn(a, locs, 0, k) == RecordsIn(b, locs, 0, k)
    ensures RecordsIn(a, locs, k + w, |a|) == RecordsIn(b, locs, k + w, |a|)
  {
    hide FileSet;
    SameRecords(a, locs, b, locs, 0, k);
    SameRecords(a, locs, b, locs, k + w, |a|);
  }

  lemma ListInThree(slots: seq<Slot>, locs: seq<EntryLocator>, k: nat, w: nat)
    requires Stored(slots) && |slots| == |locs| && k + w <= |slots|
    ensures Listing(slots, locs) ==
              RecordsIn(slots, locs, 0, k) + RecordsIn(slots, locs, k, k + w) + RecordsIn(slots, locs, k + w, |slots|)
  {
    hide FileSet;
    hide RecordsIn;
    RecordsSplit(slots, locs, 0, k + w, |slots|);
    RecordsSplit(slots, locs, 0, k, k + w);
  }

  lemma SetOpens(win: seq<Slot>)
    requires FileSet(win)
    ensures 3 <= |win| <= 19 && win[0][0] == 0x85 && SetLength(win[0]) == |win|
  {
  }

  lemma InsertStored(slots: seq<Slot>, k: nat, win: seq<Slot>)
    requires Stored(slots) && k + |win| <= |slots| && FileSet(win)
    requires forall i :: k <= i < k + |win| ==> Spare(slots[i])
    ensures var slots' := Window(slots, k, win);
            && Stored(slots') && SameAround(slots, slots', k, |win|)
            && slots'[k][0] == 0x85 && SetLength(slots'[k]) == |win| && slots'[k..k + |win|] == win
  {
    hide FileSet;
    hide Window;
    hide SetAt;
    var slots', w := Window(slots, k, win), |win|;
    SetOpens(win);
    InsertShape(slots, k, win);
    SetHere(slots', k, win);
    forall j | 0 <= j < |slots'| && slots'[j][0] == 0x85 && j != k
      ensures SetAt(slots', j) && slots[j][0] == 0x85 && SetLength(slots'[j]) == SetLength(slots[j])
      ensures !(k <= j < k + w) && j + SetLength(slots[j]) <= |slots|
      ensures slots'[j..j + SetLength(slots[j])] == slots[j..j + SetLength(slots[j])]
    {
      InsertOther(slots, slots', k, win, j);
    }
    forall j | 0 <= j < |slots| && slots[j][0] == 0x85
      ensures slots'[j] == slots[j] && !(k <= j < k + w)
    {
      assert !(k <= j < k + w);
    }
  }

  lemma InsertShape(slots: seq<Slot>, k: nat, win: seq<Slot>)
    requires k + |win| <= |slots|
    ensures var slots' := Window(slots, k, win);
            && |slots'| == |slots| && slots'[k..k + |win|] == win
            && (forall i :: 0 <= i < |slots| && !(k <= i < k + |win|) ==> slots'[i] == slots[i])
            && (forall i :: k <= i < k + |win| ==> slots'[i] == win[i - k])
  {
  }

  lemma SetHere(slots: seq<Slot>, k: nat, win: seq<Slot>)
    requires k + |win| <= |slots| && slots[k..k + |win|] == win && FileSet(win) && |win| > 0
    ensures slots[k] == win[0] && SetAt(slots, k) && SetLength(slots[k]) == |win|
    ensures slots[k][0] == 0x85 && forall i :: k < i < k + |win| ==> slots[i][0] == 0xc0 || slots[i][0] == 0xc1
  {
    SetOpens(win);
    hide FileSet;
    assert slots[k] == slots[k..k + |win|][0];
    SetSlots(slots, k);
  }

  lemma InsertOther(slots: seq<Slot>, slots': seq<Slot>, k: nat, win: seq<Slot>, j: nat)
    requires Stored(slots) && k + |win| <= |slots| == |slots'| && |win| > 0 && j < |slots| && j != k
    requires forall i :: k <= i < k + |win| ==> Spare(slots[i])
    requires forall i :: 0 <= i < |slots| && !(k <= i < k + |win|) ==> slots'[i] == slots[i]
    requires forall i :: k < i < k + |win| ==> slots'[i][0] == 0xc0 || slots'[i][0] == 0xc1
    requires slots'[j][0] == 0x85
    ensures SetAt(slots', j) && slots[j][0] == 0x85 && SetLength(slots'[j]) == SetLength(slots[j])
    ensures !(k <= j < k + |win|) && j + SetLength(slots[j]) <= |slots|
    ensures slots'[j..j + SetLength(slots[j])] == slots[j..j + SetLength(slots[j])]
  {
    hide FileSet;
    ClearOf(slots, k, |win|, j);
    SetKept(slots, slots', j);
  }

  /** Writing an entry set over spare slots inserts exactly one record, at the
      place its primary slot has in the directory. */
  lemma InsertList(slots: seq<Slot>, locs: seq<EntryLocator>, k: nat, win: seq<Slot>)
    requires Stored(slots) && |slots| == |locs| && k + |win| <= |slots| && FileSet(win)
    requires forall i :: k <= i < k + |win| ==> Spare(slots[i])
    ensures |win| <= 19 && Stored(Window(slots, k, win))
    ensures var a, b := RecordsIn(slots, locs, 0, k), RecordsIn(slots, locs, k + |win|, |slots|);
            && Listing(slots, locs) == a + b
            && Listing(Window(slots, k, win), locs) == a + [Decode(win, locs[k..k + |win|])] + b
  {
    hide FileSet;
    hide Decode;
    hide RecordsIn;
    hide Listing;
    hide Stored;
    hide SameAround;
    hide Window;
    InsertStored(slots, k, win);
    InsertedMiddle(slots, locs, k, win);
    var slots', w := Window(slots, k, win), |win|;
    RecordsAround(slots, slots', locs, k, w);
    ListInThree(slots, locs, k, w);
    ListInThree(slots', locs, k, w);
    NothingBetween(RecordsIn(slots, locs, 0, k), RecordsIn(slots, locs, k + w, |slots|));
  }

  lemma NothingBetween<T>(a: seq<T>, b: seq<T>)
    ensures a + [] + b == a + b
  {
  }

  /** Where the new set goes there was no record, and now there is just its own. */
  lemma InsertedMiddle(slots: seq<Slot>, locs: seq<EntryLocator>, k: nat, win: seq<Slot>)
    requires Stored(slots) && |slots| == |locs| && k + |win| <= |slots| && FileSet(win)
    requires forall i :: k <= i < k + |win| ==> Spare(slots[i])
    ensures |win| <= 19 && Stored(Window(slots, k, win))
    ensures RecordsIn(slots, locs, k, k + |win|) == []
    ensures RecordsIn(Window(slots, k, win), locs, k, k + |win|) == [Decode(win, locs[k..k + |win|])]
  {
    hide FileSet;
    hide Decode;
    hide RecordsIn;
    hide Stored;
    hide SameAround;
    hide Window;
    InsertStored(slots, k, win);
    SetOpens(win);
    NoRecords(slots, locs, k, k + |win|);
    OneRecord(Window(slots, k, win), locs, k);
  }

  /** A slot with its in-use bit cleared. */
  function Retired(slot: Slot): (s: Slot)
    ensures s[0] == slot[0] % 0x80 && s[1..] == slot[1..]
  {
    slot[0 := slot[0] % 0x80]
  }

  function RetiredSet(win: seq<Slot>): (s: seq<Slot>)
    ensures |s| == |win| && forall i :: 0 <= i < |win| ==> s[i] == Retired(win[i])
  {
    seq(|win|, i requires 0 <= i < |win| => Retired(win[i]))
  }

  lemma RetireStored(slots: seq<Slot>, k: nat)
    requires Stored(slots) && k < |slots| && slots[k][0] == 0x85
    ensures k + SetLength(slots[k]) <= |slots|
    ensures var w := SetLength(slots[k]); var slots' := Window(slots, k, RetiredSet(slots[k..k + w]));
            && Stored(slots') && SameAround(slots, slots', k, w)
            && forall i :: k <= i < k + w ==> slots'[i][0] < 0x80
  {
    hide FileSet;
    var w := SetLength(slots[k]);
    SetSlots(slots, k);
    var win := slots[k..k + w];
    var slots' := Window(slots, k, RetiredSet(win));
    assert forall i :: k <= i < k + w ==> slots'[i] == RetiredSet(win)[i - k];
    forall j | 0 <= j < |slots'| && slots'[j][0] == 0x85
      ensures SetAt(slots', j) && slots[j][0] == 0x85 && SetLength(slots'[j]) == SetLength(slots[j])
      ensures !(k <= j < k + w) && j + SetLength(slots[j]) <= |slots|
      ensures slots'[j..j + SetLength(slots[j])] == slots[j..j + SetLength(slots[j])]
    {
      SetsApart(slots, k, j);
      SetKept(slots, slots', j);
    }
    SetsAround(slots, slots', k);
  }

  /** Two entry sets do not overlap. */
  lemma SetsApart(slots: seq<Slot>, k: nat, j: nat)
    requires Stored(slots) && k < |slots| && slots[k][0] == 0x85 && j < |slots| && slots[j][0] == 0x85 && j != k
    ensures j + SetLength(slots[j]) <= k || k + SetLength(slots[k]) <= j
  {
    hide FileSet;
    SetSlots(slots, j);
    SetSlots(slots, k);
    assert slots[k][0] == slots[j][0] == 0x85;
  }

  lemma SetsAround(slots: seq<Slot>, slots': seq<Slot>, k: nat)
    requires Stored(slots) && k < |slots| == |slots'| && slots[k][0] == 0x85
    requires forall i :: 0 <= i < |slots| && !(k <= i < k + SetLength(slots[k])) ==> slots'[i] == slots[i]
    ensures k + SetLength(slots[k]) <= |slots| && SameAround(slots, slots', k, SetLength(slots[k]))
  {
    hide FileSet;
    forall j | 0 <= j < |slots| && !(k <= j < k + SetLength(slots[k])) && slots[j][0] == 0x85
      ensures j + SetLength(slots[j]) <= |slots|
      ensures slots'[j..j + SetLength(slots[j])] == slots[j..j + SetLength(slots[j])]
    {
      SetsApart(slots, k, j);
      SetKept(slots, slots', j);
    }
  }

  /** Retiring an entry set removes exactly its record from the listing. */
  lemma RetireList(slots: seq<Slot>, locs: seq<EntryLocator>, k: nat)
    requires Stored(slots) && |slots| == |locs| && k < |slots| && slots[k][0] == 0x85
    ensures k + SetLength(slots[k]) <= |slots|
    ensures var w := SetLength(slots[k]); var slots' := Window(slots, k, RetiredSet(slots[k..k + w]));
            var a, b := RecordsIn(slots, locs, 0, k), RecordsIn(slots, locs, k + w, |slots|);
            && Stored(slots')
            && Listing(slots, locs) == a + [RecordAt(slots, locs, k)] + b
            && Listing(slots', locs) == a + b
  {
    hide FileSet;
    hide RecordAt;
    hide RecordsIn;
    hide SameAround;
    hide Window;
    hide RetiredSet;
    hide Stored;
    RetireStored(slots, k);
    var w := SetLength(slots[k]);
    var slots' := Window(slots, k, RetiredSet(slots[k..k + w]));
    OneRecord(slots, locs, k);
    NoRecords(slots', locs, k, k + w);
    RecordsAround(slots, slots', locs, k, w);
    ListInThree(slots, locs, k, w);
    ListInThree(slots', locs, k, w);
    assert RecordsIn(slots, locs, 0, k) + [] == RecordsIn(slots, locs, 0, k);
  }

  // ----- visiting -----------------------------------------------------------------------------

  /** What a visitor gets to see: everything up to and including the first record
      it does not want to go on after. */
  function Visit(list: seq<DirectoryEntry>, goOn: DirectoryEntry -> bool): (r: seq<DirectoryEntry>)
    ensures r <= list
  {
    if list == [] then []
    else if !goOn(list[0]) then [list[0]]
    else [list[0]] + Visit(list[1..], goOn)
  }

  /** A beginning of the list whose every record but the last was gone on after,
      and which is the whole list unless the last was not. */
  lemma {:induction false} VisitIs(list: seq<DirectoryEntry>, seen: seq<DirectoryEntry>, goOn: DirectoryEntry -> bool)
    requires seen <= list
    requires forall i :: 0 <= i && i + 1 < |seen| ==> goOn(seen[i])
    requires seen == list || (seen != [] && !goOn(seen[|seen| - 1]))
    ensures seen == Visit(list, goOn)
  {
    if seen != [] {
      if |seen| == 1 {
        if goOn(seen[0]) { assert list[1..] == []; }
      } else {
        assert seen[1..] <= list[1..];
        VisitIs(list[1..], seen[1..], goOn);
      }
    }
  }
}
