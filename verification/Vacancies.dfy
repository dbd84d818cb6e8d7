/** Where a directory has room for an entry set: which free slots are taken, how
    often the directory grows for it, and whether unused slots are left before
    others. */
module Vacancies {
  import opened EntrySets
  import opened Tree
  import opened Listings

  // ----- runs of free slots ------------------------------------------------------------------

  /** A slot that may be taken: its in-use bit is clear. */
  predicate Free(slot: Slot) {
    slot[0] < 0x80
  }

  /** The scan has reached slot `pos`, and the last `run` slots before it are
      the free ones since the last slot in use. */
  ghost predicate RunAt(slots: seq<Slot>, pos: nat, run: nat) {
    && run <= pos <= |slots|
    && (forall i :: pos - run <= i < pos ==> Free(slots[i]))
    && (run < pos ==> !Free(slots[pos - run - 1]))
  }

  /** `n` free slots from `k` on. */
  ghost predicate FreeRun(slots: seq<Slot>, k: nat, n: nat) {
    k + n <= |slots| && forall i :: k <= i < k + n ==> Free(slots[i])
  }

  ghost predicate HoldsRun(slots: seq<Slot>, wanted: nat) {
    exists k: nat :: FreeRun(slots, k, wanted)
  }

  /** No such run ends within the first `pos` slots. */
  ghost predicate NoRunIn(slots: seq<Slot>, pos: nat, wanted: nat) {
    forall k: nat :: k + wanted <= pos ==> !FreeRun(slots, k, wanted)
  }

  /** One slot further. */
  lemma RunMore(slots: seq<Slot>, pos: nat, run: nat, wanted: nat)
    requires RunAt(slots, pos, run) && pos < |slots| && NoRunIn(slots, pos, wanted) && run < wanted
    ensures Free(slots[pos]) ==> RunAt(slots, pos + 1, run + 1)
    ensures !Free(slots[pos]) ==> RunAt(slots, pos + 1, 0)
    ensures !Free(slots[pos]) || run + 1 < wanted ==> NoRunIn(slots, pos + 1, wanted)
  {
    forall k: nat | k + wanted <= pos + 1 && (!Free(slots[pos]) || run + 1 < wanted)
      ensures !FreeRun(slots, k, wanted)
    {
      if k + wanted == pos + 1 {
        if Free(slots[pos]) { assert k <= pos - run - 1 < k + wanted; }
      } else {
        assert !FreeRun(slots, k, wanted);
      }
    }
  }

  lemma RunBound(slots: seq<Slot>, n: nat, run: nat)
    requires RunAt(slots, n, run)
    ensures run <= n <= |slots|
  {
  }

  /** Number of free slots at the end. */
  ghost function EndRun(slots: seq<Slot>): (n: nat)
    ensures RunAt(slots, |slots|, n)
  {
    if slots == [] || !Free(slots[|slots| - 1]) then 0
    else
      var front := slots[..|slots| - 1];
      assert forall i :: 0 <= i < |front| ==> front[i] == slots[i];
      1 + EndRun(front)
  }

  lemma RunIsTrail(slots: seq<Slot>, run: nat)
    requires RunAt(slots, |slots|, run)
    ensures run == EndRun(slots)
  {
    var n := EndRun(slots);
    assert run < |slots| ==> !Free(slots[|slots| - run - 1]);
    assert n < |slots| ==> !Free(slots[|slots| - n - 1]);
  }

  /** The start of the first run of `wanted` free slots. */
  ghost function FirstRun(slots: seq<Slot>, wanted: nat): (k: nat)
    requires HoldsRun(slots, wanted) && wanted > 0
    ensures FreeRun(slots, k, wanted) && NoRunIn(slots, k + wanted - 1, wanted)
  {
    var m: nat :| FreeRun(slots, m, wanted);
    RunBefore(slots, wanted, m)
  }

  /** The first run that does not start after `m`. */
  ghost function RunBefore(slots: seq<Slot>, wanted: nat, m: nat): (k: nat)
    requires FreeRun(slots, m, wanted) && wanted > 0
    ensures FreeRun(slots, k, wanted) && NoRunIn(slots, k + wanted - 1, wanted)
    decreases m
  {
    if k: nat :| k < m && FreeRun(slots, k, wanted) then RunBefore(slots, wanted, k)
    else
      assert forall k: nat :: k + wanted <= m + wanted - 1 ==> !FreeRun(slots, k, wanted);
      m
  }

  lemma RunIsFirst(slots: seq<Slot>, wanted: nat, k: nat)
    requires wanted > 0 && FreeRun(slots, k, wanted) && NoRunIn(slots, k + wanted - 1, wanted)
    ensures HoldsRun(slots, wanted) && k == FirstRun(slots, wanted)
  {
    var m := FirstRun(slots, wanted);
    if m < k { assert m + wanted <= k + wanted - 1; }
    if k < m { assert k + wanted <= m + wanted - 1; }
  }

  // ----- a directory one cluster longer ----------------------------------------------------------

  /** A slot that readers must not stop at. */
  function Marked(slot: Slot): Slot {
    if slot[0] == 0 then slot[0 := 0x80] else slot
  }

  function MarkedFrom(slots: seq<Slot>, from: nat): (s: seq<Slot>)
    ensures |s| == |slots|
    ensures forall i :: 0 <= i < |s| ==> s[i] == if i >= from then Marked(slots[i]) else slots[i]
  {
    seq(|slots|, i requires 0 <= i < |slots| => if i >= from then Marked(slots[i]) else slots[i])
  }

  /** Growing respaces unused slots and adds some. */
  lemma MarkedSame(slots: seq<Slot>, from: nat, more: seq<Slot>)
    requires forall i :: 0 <= i < |more| ==> more[i][0] == 0
    ensures SameSets(slots, MarkedFrom(slots, from) + more)
  {
  }

  function ZeroSlot(): (s: Slot)
    ensures forall i :: 0 <= i < 32 ==> s[i] == 0
  {
    seq(32, _ => 0)
  }

  /** The slots of a directory that has grown by one cluster. */
  ghost function Roomier(slots: seq<Slot>, marked: nat, more: nat): (s: seq<Slot>)
    ensures |s| == |slots| + more
  {
    MarkedFrom(slots, if |slots| >= marked then |slots| - marked else 0) + seq(more, _ => ZeroSlot())
  }

  lemma RoomierSame(slots: seq<Slot>, marked: nat, more: nat)
    ensures SameSets(slots, Roomier(slots, marked, more))
  {
    MarkedSame(slots, if |slots| >= marked then |slots| - marked else 0, seq(more, _ => ZeroSlot()));
  }

  /** The slots after so many growths. */
  ghost function Roomed(slots: seq<Slot>, marked: nat, more: nat, n: nat): seq<Slot> {
    if n == 0 then slots else Roomier(Roomed(slots, marked, more, n - 1), marked, more)
  }

  /** Slots per sector and per cluster. */
  ghost predicate Sizes(marked: nat, more: nat) {
    16 <= marked <= more && marked % 16 == 0 && more % 16 == 0
  }

  // ----- the room that is found --------------------------------------------------------------------

  /** How often the directory grows, and where the set then goes. */
  datatype Finding = Finding(growths: nat, at: nat)

  /** A run at the end that one more cluster makes long enough, when only its
      first sector's slots are added. */
  ghost predicate Crosses(slots: seq<Slot>, wanted: nat, marked: nat) {
    EndRun(slots) != 0 && wanted - EndRun(slots) <= marked
  }

  /** The first run that is long enough; otherwise the run at the end, continued
      in a new cluster; otherwise the same once more in the longer directory. */
  ghost function Find(slots: seq<Slot>, wanted: nat, marked: nat, more: nat): Finding
    requires wanted > 0
  {
    if HoldsRun(slots, wanted) then Finding(0, FirstRun(slots, wanted))
    else if Crosses(slots, wanted, marked) then Finding(1, |slots| - EndRun(slots))
    else
      var longer := Roomier(slots, marked, more);
      if HoldsRun(longer, wanted) then Finding(1, FirstRun(longer, wanted))
      else Finding(2, |longer| - EndRun(longer))
  }

  /** Slots `k` to `k + wanted` can take an entry set. */
  ghost predicate Room(slots: seq<Slot>, k: nat, wanted: nat) {
    k + wanted <= |slots| && forall i :: k <= i < k + wanted ==> Spare(slots[i])
  }

  /** Once they are taken, unused slots come last. */
  ghost predicate Tight(slots: seq<Slot>, k: nat, wanted: nat) {
    && (forall i :: 0 <= i < k && i < |slots| ==> slots[i][0] != 0)
    && (forall i, j :: k + wanted <= i < j < |slots| && slots[i][0] == 0 ==> slots[j][0] == 0)
  }

  lemma FirstRunAt(slots: seq<Slot>, wanted: nat)
    requires HoldsRun(slots, wanted) && wanted > 0
    ensures RunAt(slots, FirstRun(slots, wanted) + wanted, wanted)
  {
    var k := FirstRun(slots, wanted);
    if k > 0 && Free(slots[k - 1]) { assert FreeRun(slots, k - 1, wanted); }
  }

  /** A run of free slots is room; in an intact directory nothing unused comes
      before it. */
  lemma FoundRoom(slots: seq<Slot>, n: nat, wanted: nat)
    requires RunAt(slots, n, wanted)
    ensures Room(slots, n - wanted, wanted)
    ensures ZeroTail(slots) ==> Tight(slots, n - wanted, wanted)
  {
    if ZeroTail(slots) && wanted < n { assert !Free(slots[n - wanted - 1]); }
  }

  lemma RoomierAt(slots: seq<Slot>, marked: nat, more: nat)
    requires marked <= |slots|
    ensures var s := Roomier(slots, marked, more);
            && (forall i :: |slots| <= i < |s| ==> s[i] == ZeroSlot())
            && (forall i :: 0 <= i < |slots| ==> s[i] == if i >= |slots| - marked then Marked(slots[i]) else slots[i])
  {
  }

  /** A run that reaches the end of the old clusters, continued in a new one. */
  lemma GrownRoom(slots: seq<Slot>, run: nat, wanted: nat, marked: nat, more: nat)
    requires RunAt(slots, |slots|, run) && run <= wanted <= run + more && marked <= |slots|
    ensures Room(Roomier(slots, marked, more), |slots| - run, wanted)
    ensures ZeroTail(slots) ==> Tight(Roomier(slots, marked, more), |slots| - run, wanted)
  {
    hide Roomier;
    RoomierAt(slots, marked, more);
    if ZeroTail(slots) && run < |slots| { assert !Free(slots[|slots| - run - 1]); }
  }

  /** When too little of the run is in the old last sector, no unused slot is
      left in the old clusters. */
  lemma GrownTail(slots: seq<Slot>, run: nat, marked: nat, more: nat)
    requires ZeroTail(slots) && RunAt(slots, |slots|, run) && run < marked <= |slots|
    ensures ZeroTail(Roomier(slots, marked, more))
  {
    hide Roomier;
    RoomierAt(slots, marked, more);
    var j := |slots| - run - 1;
    assert !Free(slots[j]);
    assert forall i :: 0 <= i <= j ==> slots[i][0] != 0;
  }

  /** The last cluster of the directory is still unused. */
  ghost predicate TailFree(slots: seq<Slot>, more: nat) {
    more <= |slots| && forall i :: |slots| - more <= i < |slots| ==> slots[i][0] == 0
  }

  lemma RoomierTail(slots: seq<Slot>, marked: nat, more: nat)
    ensures TailFree(Roomier(slots, marked, more), more)
  {
  }

  /** A second growth always suffices. */
  lemma SecondRun(slots: seq<Slot>, run: nat, wanted: nat, more: nat, marked: nat)
    requires TailFree(slots, more) && RunAt(slots, |slots|, run) && wanted <= 19 && more >= 16 && marked >= 16
    ensures run != 0 && wanted - run <= marked
  {
    assert run < |slots| ==> !Free(slots[|slots| - run - 1]);
  }

  lemma TailHolds(slots: seq<Slot>, more: nat, wanted: nat)
    requires TailFree(slots, more) && wanted <= more
    ensures HoldsRun(slots, wanted)
  {
    assert FreeRun(slots, |slots| - wanted, wanted);
  }

  lemma NoRunTrail(slots: seq<Slot>, wanted: nat)
    requires !HoldsRun(slots, wanted)
    ensures EndRun(slots) < wanted
  {
    if wanted <= EndRun(slots) { assert FreeRun(slots, |slots| - wanted, wanted); }
  }

  // ----- the search as it goes ------------------------------------------------------------------

  lemma RunFoundFirst(slots: seq<Slot>, wanted: nat, n: nat)
    requires 0 < wanted && RunAt(slots, n, wanted) && NoRunIn(slots, n - 1, wanted)
    ensures HoldsRun(slots, wanted) && FirstRun(slots, wanted) == n - wanted
  {
    RunIsFirst(slots, wanted, n - wanted);
  }

  lemma RunMissing(slots: seq<Slot>, wanted: nat, run: nat)
    requires RunAt(slots, |slots|, run) && NoRunIn(slots, |slots|, wanted)
    ensures !HoldsRun(slots, wanted) && run == EndRun(slots)
  {
    RunIsTrail(slots, run);
  }

  /** In the first round, or in the second: a run was found. */
  lemma FindHere(slots: seq<Slot>, wanted: nat, marked: nat, more: nat, n: nat)
    requires 0 < wanted && n <= 1 && HoldsRun(Roomed(slots, marked, more, n), wanted)
    requires n == 1 ==> !HoldsRun(slots, wanted) && !Crosses(slots, wanted, marked)
    ensures Find(slots, wanted, marked, more) == Finding(n, FirstRun(Roomed(slots, marked, more, n), wanted))
  {
    RoomedTwice(slots, marked, more);
  }

  /** None was found, so the directory has to grow. */
  lemma FindFurther(slots: seq<Slot>, wanted: nat, marked: nat, more: nat, n: nat)
    requires 0 < wanted && n <= 1 && !HoldsRun(Roomed(slots, marked, more, n), wanted)
    requires n == 1 ==> !HoldsRun(slots, wanted) && !Crosses(slots, wanted, marked)
    requires Sizes(marked, more) && wanted <= 19
    ensures n < Find(slots, wanted, marked, more).growths
    ensures Roomed(slots, marked, more, n + 1) == Roomier(Roomed(slots, marked, more, n), marked, more)
    ensures n == 1 ==> Crosses(Roomed(slots, marked, more, 1), wanted, marked)
  {
    hide Roomier;
    RoomedTwice(slots, marked, more);
    if n == 1 {
      var longer := Roomier(slots, marked, more);
      RoomierTail(slots, marked, more);
      SecondRun(longer, EndRun(longer), wanted, more, marked);
    }
  }

  /** It has grown, and the run at the end goes on in the new cluster. */
  lemma FindAcross(slots: seq<Slot>, wanted: nat, marked: nat, more: nat, n: nat)
    requires 0 < wanted && n <= 1 && !HoldsRun(Roomed(slots, marked, more, n), wanted)
    requires n == 1 ==> !HoldsRun(slots, wanted) && !Crosses(slots, wanted, marked)
    requires Crosses(Roomed(slots, marked, more, n), wanted, marked)
    ensures var now := Roomed(slots, marked, more, n);
            Find(slots, wanted, marked, more) == Finding(n + 1, |now| - EndRun(now))
  {
    hide Roomier;
    RoomedTwice(slots, marked, more);
  }

  // ----- slots that were given up ---------------------------------------------------------------

  /** From slot `k` on there are `n` slots whose in-use bit, the top bit of the first
      byte, is clear. */
  ghost predicate Vacant(slots: seq<Slot>, k: nat, n: nat) {
    k + n <= |slots| && forall i :: k <= i < k + n ==> slots[i][0] < 0x80
  }

  /** The first such place. */
  ghost predicate FirstVacant(slots: seq<Slot>, k: nat, n: nat) {
    Vacant(slots, k, n) && forall j: nat :: j < k ==> !Vacant(slots, j, n)
  }

  /** Where so many slots are vacant in a row, the first of these places is taken, and
      the directory does not grow. */
  lemma VacantTaken(slots: seq<Slot>, wanted: nat, marked: nat, more: nat, j: nat)
    requires 0 < wanted && Vacant(slots, j, wanted)
    ensures HoldsRun(slots, wanted) && Find(slots, wanted, marked, more).growths == 0
    ensures FirstVacant(slots, Find(slots, wanted, marked, more).at, wanted)
  {
    assert FreeRun(slots, j, wanted);
    var k := FirstRun(slots, wanted);
    forall i: nat | i < k
      ensures !Vacant(slots, i, wanted)
    {
      assert !FreeRun(slots, i, wanted);
    }
  }

  // ----- unused slots before others -----------------------------------------------------------------

  /** No unused slot lies before the last sector. */
  ghost predicate NoneBefore(slots: seq<Slot>, marked: nat) {
    forall i :: 0 <= i < |slots| - marked ==> slots[i][0] != 0
  }

  /** Growing a directory leaves a gap exactly if an unused slot lies before its
      last sector: only that sector's unused slots are closed off. */
  lemma RoomierGap(slots: seq<Slot>, marked: nat, more: nat)
    requires ZeroTail(slots) && 0 < marked <= |slots|
    ensures ZeroTail(Roomier(slots, marked, more)) <==> NoneBefore(slots, marked)
  {
    hide Roomier;
    RoomierAt(slots, marked, more);
    var s, last := Roomier(slots, marked, more), |slots| - 1;
    assert s[last][0] != 0;
    if i :| 0 <= i < |slots| - marked && slots[i][0] == 0 {
      assert s[i][0] == 0;
    }
  }

  /** What is found is room, and in an intact directory taking it leaves an intact
      one. */
  lemma FindFits(slots: seq<Slot>, wanted: nat, marked: nat, more: nat)
    requires Sizes(marked, more) && marked <= |slots| && 3 <= wanted <= 19
    ensures var f := Find(slots, wanted, marked, more);
            var slots' := Roomed(slots, marked, more, f.growths);
            && f.growths <= 2 && Room(slots', f.at, wanted) && (ZeroTail(slots) ==> Tight(slots', f.at, wanted))
  {
    hide Roomier;
    hide Roomed;
    hide Tight;
    hide Room;
    hide ZeroTail;
    hide FreeRun;
    hide RunAt;
    hide TailFree;
    RoomedTwice(slots, marked, more);
    if HoldsRun(slots, wanted) {
      FirstRunAt(slots, wanted);
      FoundRoom(slots, FirstRun(slots, wanted) + wanted, wanted);
    } else {
      NoRunTrail(slots, wanted);
      if Crosses(slots, wanted, marked) {
        GrownRoom(slots, EndRun(slots), wanted, marked, more);
      } else {
        if ZeroTail(slots) { GrownTail(slots, EndRun(slots), marked, more); }
        LongerFits(slots, wanted, marked, more);
      }
    }
  }

  lemma RoomedTwice(slots: seq<Slot>, marked: nat, more: nat)
    ensures Roomed(slots, marked, more, 0) == slots
    ensures Roomed(slots, marked, more, 1) == Roomier(slots, marked, more)
    ensures Roomed(slots, marked, more, 2) == Roomier(Roomier(slots, marked, more), marked, more)
  {
    hide Roomier;
    assert Roomed(slots, marked, more, 1) == Roomier(Roomed(slots, marked, more, 0), marked, more);
    assert Roomed(slots, marked, more, 2) == Roomier(Roomed(slots, marked, more, 1), marked, more);
  }

  /** The second round. */
  lemma LongerFits(slots: seq<Slot>, wanted: nat, marked: nat, more: nat)
    requires Sizes(marked, more) && marked <= |slots| && 3 <= wanted <= 19
    ensures var longer := Roomier(slots, marked, more);
            if HoldsRun(longer, wanted) then
              && Room(longer, FirstRun(longer, wanted), wanted)
              && (ZeroTail(longer) ==> Tight(longer, FirstRun(longer, wanted), wanted))
            else
              && Crosses(longer, wanted, marked)
              && Room(Roomier(longer, marked, more), |longer| - EndRun(longer), wanted)
              && (ZeroTail(longer) ==> Tight(Roomier(longer, marked, more), |longer| - EndRun(longer), wanted))
  {
    hide Roomier;
    hide Tight;
    hide Room;
    hide ZeroTail;
    hide FreeRun;
    hide RunAt;
    hide TailFree;
    var longer := Roomier(slots, marked, more);
    if HoldsRun(longer, wanted) {
      FirstRunAt(longer, wanted);
      FoundRoom(longer, FirstRun(longer, wanted) + wanted, wanted);
    } else {
      NoRunTrail(longer, wanted);
      RoomierTail(slots, marked, more);
      SecondRun(longer, EndRun(longer), wanted, more, marked);
      GrownRoom(longer, EndRun(longer), wanted, marked, more);
    }
  }

  /** Two growths are only needed when clusters have one sector of sixteen slots,
      and then the first leaves no gap. */
  lemma TwiceGrown(slots: seq<Slot>, wanted: nat, marked: nat, more: nat)
    requires Sizes(marked, more) && marked <= |slots| && 3 <= wanted <= 19
    requires ZeroTail(slots) && Find(slots, wanted, marked, more).growths == 2
    ensures NoneBefore(slots, marked) && ZeroTail(Roomier(slots, marked, more))
    ensures ZeroTail(Roomier(Roomier(slots, marked, more), marked, more))
  {
    hide Roomier;
    var longer := Roomier(slots, marked, more);
    NoRunTrail(slots, wanted);
    GrownTail(slots, EndRun(slots), marked, more);
    RoomierGap(slots, marked, more);
    RoomierAt(slots, marked, more);
    RoomierTail(slots, marked, more);
    if wanted <= more { TailHolds(longer, more, wanted); }
    assert more == 16 && marked == 16;
    assert longer[|slots| - 1][0] != 0;
    RoomierGap(longer, marked, more);
  }

  /** Growing an intact directory as far as is found necessary, or less far,
      leaves a gap exactly if it grows at all and an unused slot lies before its
      last sector. */
  lemma FindGap(slots: seq<Slot>, wanted: nat, marked: nat, more: nat, n: nat)
    requires Sizes(marked, more) && marked <= |slots| && 3 <= wanted <= 19
    requires ZeroTail(slots) && n <= Find(slots, wanted, marked, more).growths
    ensures ZeroTail(Roomed(slots, marked, more, n)) <==> n == 0 || NoneBefore(slots, marked)
  {
    hide Roomier;
    hide ZeroTail;
    hide NoneBefore;
    hide Roomed;
    RoomedTwice(slots, marked, more);
    RoomierGap(slots, marked, more);
    FindFits(slots, wanted, marked, more);
    if n == 2 { TwiceGrown(slots, wanted, marked, more); }
  }

  /** A directory that has to grow does so behind a closed slot. */
  lemma BeyondClosed(slots: seq<Slot>, marked: nat, more: nat, wanted: nat, c: nat)
    requires Sizes(marked, more) && c + marked <= |slots| && 0 < wanted && !HoldsRun(slots, wanted)
    requires !Free(slots[c])
    ensures c < Find(slots, wanted, marked, more).at
  {
    hide Roomier;
    var longer := Roomier(slots, marked, more);
    RoomierAt(slots, marked, more);
    assert !Free(longer[c]);
    assert forall k: nat :: k + wanted <= c && FreeRun(longer, k, wanted) ==> FreeRun(slots, k, wanted);
  }

  /** The gap is too narrow for any set: a later one goes behind it, unless there
      is a run of free slots before it. */
  lemma GapStays(slots: seq<Slot>, wanted: nat, marked: nat, more: nat, next: nat)
    requires Sizes(marked, more) && marked <= |slots| && 3 <= wanted <= 19 && 3 <= next <= 19
    requires ZeroTail(slots) && !HoldsRun(slots, wanted) && !NoneBefore(slots, marked)
    ensures var slots' := Roomier(slots, marked, more);
            && Find(slots, wanted, marked, more).growths == 1
            && FirstUnused(slots') == FirstUnused(slots) < |slots| - marked
            && (FirstUnused(slots') < Find(slots', next, marked, more).at <==> NoRunIn(slots, |slots| - marked, next))
  {
    hide Roomier;
    hide Find;
    var slots', z := Roomier(slots, marked, more), FirstUnused(slots);
    GapWide(slots, wanted, marked, more);
    RoomierAt(slots, marked, more);
    FirstUnusedIs(slots', z);
    RunsAtGap(slots, marked, more, next);
    FindAtGap(slots', marked, more, next, z, |slots| - marked);
    assert NoRunIn(slots, |slots| - marked, next) <==> NoRunIn(slots', |slots| - marked, next);
  }

  /** Behind the gap everything is unused, and less than a set's length of it is
      before the last sector. */
  lemma GapWide(slots: seq<Slot>, wanted: nat, marked: nat, more: nat)
    requires Sizes(marked, more) && marked <= |slots| && 3 <= wanted <= 19
    requires ZeroTail(slots) && !HoldsRun(slots, wanted) && !NoneBefore(slots, marked)
    ensures var z := FirstUnused(slots);
            && z < |slots| - marked && (forall i :: z <= i < |slots| ==> slots[i][0] == 0)
            && |slots| - z <= EndRun(slots) < wanted && EndRun(slots) - marked < 3
    ensures Find(slots, wanted, marked, more).growths == 1
  {
    hide HoldsRun;
    hide NoneBefore;
    hide ZeroTail;
    hide RunAt;
    hide Roomier;
    NoRunTrail(slots, wanted);
    ZeroBehind(slots, marked);
    RunReaches(slots, FirstUnused(slots));
  }

  lemma ZeroBehind(slots: seq<Slot>, marked: nat)
    requires ZeroTail(slots) && !NoneBefore(slots, marked)
    ensures FirstUnused(slots) < |slots| - marked
    ensures forall i :: FirstUnused(slots) <= i < |slots| ==> slots[i][0] == 0
  {
    hide FirstUnused;
    var z := FirstUnused(slots);
    var i :| 0 <= i < |slots| - marked && slots[i][0] == 0;
    assert z <= i && slots[z][0] == 0;
  }

  /** Free slots up to the end are part of the run there. */
  lemma RunReaches(slots: seq<Slot>, z: nat)
    requires z <= |slots| && forall i :: z <= i < |slots| ==> slots[i][0] == 0
    ensures |slots| - z <= EndRun(slots)
  {
    assert EndRun(slots) < |slots| ==> !Free(slots[|slots| - EndRun(slots) - 1]);
  }

  /** The runs of the grown directory that start at the gap or before. */
  lemma RunsAtGap(slots: seq<Slot>, marked: nat, more: nat, next: nat)
    requires marked <= |slots| && 0 < marked && 3 <= next
    requires forall i :: |slots| - marked <= i < |slots| ==> slots[i][0] == 0
    requires EndRun(slots) - marked < 3
    ensures var slots', c := Roomier(slots, marked, more), |slots| - marked;
            && !Free(slots'[c]) && slots'[c][0] != 0
            && (forall k: nat :: k + next <= c ==> (FreeRun(slots', k, next) <==> FreeRun(slots, k, next)))
            && (forall k: nat :: k + next <= c && FreeRun(slots, k, next) ==> k + EndRun(slots) < |slots|)
  {
    hide Roomier;
    RoomierAt(slots, marked, more);
    var slots', c := Roomier(slots, marked, more), |slots| - marked;
    forall k: nat | k + next <= c && FreeRun(slots, k, next)
      ensures k + EndRun(slots) < |slots|
    {
    }
  }

  /** Where a set goes in a directory with slot `z` unused and slot `c` closed. */
  lemma FindAtGap(slots: seq<Slot>, marked: nat, more: nat, next: nat, z: nat, c: nat)
    requires Sizes(marked, more) && 3 <= next <= 19 && z < c && c + marked <= |slots| && !Free(slots[c])
    requires forall k: nat :: k + next <= c && FreeRun(slots, k, next) ==> k <= z
    ensures z < Find(slots, next, marked, more).at <==> NoRunIn(slots, c, next)
  {
    hide Roomier;
    if HoldsRun(slots, next) {
      var k := FirstRun(slots, next);
      if k <= z {
        assert k + next <= c;
      } else if k + next > c {
        forall m: nat | m + next <= c
          ensures !FreeRun(slots, m, next)
        {
          assert m + next <= k + next - 1;
        }
      }
    } else {
      BeyondClosed(slots, marked, more, next, c);
    }
  }
}
