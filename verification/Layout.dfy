/** The formatter's layout iteration: FAT length and cluster count depend on
    each other, and eight rounds look for a length that agrees with itself.
    For which partition sizes does that succeed? */
module Layout {
  import opened Words
  import opened Errors

  const FAT_OFFSET: u32 := 24

  function ClusterSectors(sectors: u64): u32 {
    if sectors >= 1_048_576 then 64
    else if sectors >= 131_072 then 16
    else 1
  }

  /** The partition sizes the formatter lets through. */
  predicate Formattable(sectors: u64) {
    536 <= sectors <= U32_MAX
  }

  /** Clusters that remain in the heap when the FAT takes `fat` sectors. */
  function Clusters(sectors: u64, spc: u32, fat: nat): nat
    requires spc > 0 && FAT_OFFSET + fat <= sectors
  {
    (sectors - FAT_OFFSET - fat) / spc
  }

  /** FAT sectors the clusters left over by a `fat`-sector FAT call for. */
  function Needed(sectors: u64, spc: u32, fat: nat): nat
    requires spc > 0 && FAT_OFFSET + fat <= sectors
  {
    DivCeil((Clusters(sectors, spc, fat) + 2) * 4, 512)
  }

  /** `fat` sectors are exactly what the remaining clusters need. */
  predicate Consistent(sectors: u64, spc: u32, fat: nat)
    requires spc > 0
  {
    FAT_OFFSET + fat <= sectors && Needed(sectors, spc, fat) == fat
  }

  /** The partition sizes for which no FAT length is consistent: one residue
      class, hit by one partition size in every `128 * spc + 1`. */
  predicate Skipped(sectors: u64, spc: u32)
    requires spc > 0 && FAT_OFFSET <= sectors
  {
    (sectors - FAT_OFFSET + spc) % (128 * spc + 1) == 0
  }

  /** The only candidate for a consistent FAT length. */
  function Candidate(sectors: u64, spc: u32): nat
    requires spc > 0 && FAT_OFFSET <= sectors
  {
    (sectors - FAT_OFFSET + spc) / (128 * spc + 1) + 1
  }

  /** `left` heap sectors call for a FAT of exactly `y` sectors:
      `128 * spc * y - 129 * spc <= left < 128 * spc * y - spc`, written out for
      the three cluster sizes so that it is linear. */
  predicate InBand(spc: u32, left: int, y: int) {
    if spc == 1 then 128 * y - 129 <= left < 128 * y - 1
    else if spc == 16 then 2048 * y - 2064 <= left < 2048 * y - 16
    else 8192 * y - 8256 <= left < 8192 * y - 64
  }

  /** `Needed` inverted: the band of heap sizes that call for `y` sectors. */
  lemma NeededBand(sectors: u64, spc: u32, fat: nat, y: nat)
    requires spc in {1, 16, 64} && FAT_OFFSET + fat <= sectors
    ensures Needed(sectors, spc, fat) == y <==> InBand(spc, sectors - FAT_OFFSET - fat, y)
  {
    if spc == 1 {
    } else if spc == 16 {
    } else {
    }
  }

  /** Where the candidate lies, again linear for each cluster size. */
  lemma CandidateBand(sectors: u64, spc: u32)
    requires spc in {1, 16, 64} && FAT_OFFSET <= sectors
    ensures var x, t := Candidate(sectors, spc), sectors - FAT_OFFSET + spc;
            if spc == 1 then 129 * x - 129 <= t < 129 * x && (Skipped(sectors, spc) <==> t == 129 * x - 129)
            else if spc == 16 then 2049 * x - 2049 <= t < 2049 * x && (Skipped(sectors, spc) <==> t == 2049 * x - 2049)
            else 8193 * x - 8193 <= t < 8193 * x && (Skipped(sectors, spc) <==> t == 8193 * x - 8193)
  {
    if spc == 1 {
    } else if spc == 16 {
    } else {
    }
  }

  /** A consistent FAT length exists exactly when the partition size avoids one
      residue class, and it is then unique. */
  lemma ConsistentExactly(sectors: u64, fat: nat)
    requires Formattable(sectors)
    ensures var spc := ClusterSectors(sectors);
            Consistent(sectors, spc, fat) <==> !Skipped(sectors, spc) && fat == Candidate(sectors, spc)
  {
    var spc := ClusterSectors(sectors);
    CandidateFits(sectors);
    CandidateBand(sectors, spc);
    if FAT_OFFSET + fat <= sectors {
      NeededBand(sectors, spc, fat, fat);
    }
  }

  lemma CandidateFits(sectors: u64)
    requires Formattable(sectors)
    ensures var spc := ClusterSectors(sectors);
            1 <= Candidate(sectors, spc) <= 524_288 && FAT_OFFSET + Candidate(sectors, spc) + 70 <= sectors
  {
  }

  /** A partition size that layout rejects although it is large enough. */
  lemma SkippedSizeExists()
    ensures Formattable(539) && Skipped(539, ClusterSectors(539))
  {
  }

  /** One round moves any starting guess next to the candidate. */
  lemma FirstRound(sectors: u64)
    requires Formattable(sectors) && !Skipped(sectors, ClusterSectors(sectors))
    ensures var spc := ClusterSectors(sectors); var x := Candidate(sectors, spc);
            x <= Needed(sectors, spc, 1) <= x + 65
  {
    var spc := ClusterSectors(sectors);
    CandidateBand(sectors, spc);
    NeededBand(sectors, spc, 1, Needed(sectors, spc, 1));
  }

  lemma CloseRound(sectors: u64, fat: nat)
    requires Formattable(sectors) && !Skipped(sectors, ClusterSectors(sectors))
    requires var x := Candidate(sectors, ClusterSectors(sectors)); x - 65 <= fat <= x + 65
    ensures FAT_OFFSET + fat <= sectors
    ensures var spc := ClusterSectors(sectors); var x := Candidate(sectors, spc);
            x - 1 <= Needed(sectors, spc, fat) <= x + 1
  {
    CandidateFits(sectors);
    var spc := ClusterSectors(sectors);
    CandidateBand(sectors, spc);
    NeededBand(sectors, spc, fat, Needed(sectors, spc, fat));
  }

  /** Next to the candidate a round can overshoot to one side only. */
  lemma LastRounds(sectors: u64, fat: nat)
    requires Formattable(sectors) && !Skipped(sectors, ClusterSectors(sectors))
    requires var x := Candidate(sectors, ClusterSectors(sectors)); x - 1 <= fat <= x + 1
    ensures FAT_OFFSET + fat <= sectors
    ensures var spc := ClusterSectors(sectors); var x := Candidate(sectors, spc);
            var next := Needed(sectors, spc, fat);
            && (fat == x ==> next == x)
            && (fat == x + 1 ==> next == x || (next == x - 1 && Needed(sectors, spc, x - 1) == x))
            && (fat == x - 1 ==> next == x || (next == x + 1 && Needed(sectors, spc, x + 1) == x))
  {
    CandidateFits(sectors);
    var spc := ClusterSectors(sectors);
    var x := Candidate(sectors, spc);
    CandidateBand(sectors, spc);
    NeededBand(sectors, spc, fat, x);
    NeededBand(sectors, spc, fat, x - 1);
    NeededBand(sectors, spc, fat, x + 1);
    NeededBand(sectors, spc, x - 1, x);
    NeededBand(sectors, spc, x + 1, x);
    CloseRound(sectors, fat);
  }

  /** What the guess is known to be after `round` rounds, if a consistent length
      exists: near it, then next to it on the side that converges, then equal. */
  predicate OnTrack(sectors: u64, round: nat, fat: nat)
    requires Formattable(sectors)
  {
    var spc := ClusterSectors(sectors);
    var x := Candidate(sectors, spc);
    && round < 5
    && (round == 0 ==> fat == 1)
    && (round == 1 ==> x - 65 <= fat <= x + 65)
    && (round >= 2 ==> x - 1 <= fat <= x + 1)
    && (round == 3 && fat != x ==> FAT_OFFSET + fat <= sectors && Needed(sectors, spc, fat) == x)
    && (round == 4 ==> fat == x)
  }

  lemma {:induction false} Advance(sectors: u64, round: nat, fat: nat)
    requires Formattable(sectors) && !Skipped(sectors, ClusterSectors(sectors))
    requires OnTrack(sectors, round, fat)
    ensures FAT_OFFSET + fat <= sectors
    ensures var next := Needed(sectors, ClusterSectors(sectors), fat);
            OnTrack(sectors, round + 1, next) || next == fat
  {
    CandidateFits(sectors);
    if round == 0 {
      FirstRound(sectors);
    } else if round == 1 {
      CloseRound(sectors, fat);
    } else {
      LastRounds(sectors, fat);
    }
  }

  /** Eight rounds from a guess of one sector: success exactly on the partition
      sizes outside the skipped class, with the one consistent layout. */
  method ComputeLayout(sectors: u64, spc: u32) returns (r: Result<(u32, u32, u32)>)
    requires Formattable(sectors) && spc == ClusterSectors(sectors)
    ensures r.Ok? <==> !Skipped(sectors, spc)
    ensures r.Ok? ==>
      var (fat, heap, clusters) := r.value;
      && Consistent(sectors, spc, fat)
      && heap == FAT_OFFSET + fat
      && clusters == Clusters(sectors, spc, fat)
    ensures r.Err? ==> r.error == Corrupt && forall fat: nat :: !Consistent(sectors, spc, fat)
  {
    hide Skipped;
    hide OnTrack;
    hide Consistent;
    StartsOnTrack(sectors);
    var fat: nat := 1;
    for round := 0 to 8
      invariant Skipped(sectors, spc) || OnTrack(sectors, round, fat)
    {
      if !Skipped(sectors, spc) { Advance(sectors, round, fat); }
      var heap := FAT_OFFSET + fat;
      if heap > sectors {
        NoneConsistent(sectors);
        return Err(Corrupt);
      }
      var clusters := (sectors - heap) / spc;
      var needed := DivCeil((clusters + 2) * 4, 512);
      if needed == fat {
        Settled(sectors, fat);
        LayoutFits(sectors, fat);
        return Ok((fat, heap, clusters));
      }
      fat := needed;
    }
    FewRounds(sectors, 8, fat);
    NoneConsistent(sectors);
    return Err(Corrupt);
  }

  lemma StartsOnTrack(sectors: u64)
    requires Formattable(sectors)
    ensures OnTrack(sectors, 0, 1)
  {
  }

  lemma FewRounds(sectors: u64, round: nat, fat: nat)
    requires Formattable(sectors)
    ensures OnTrack(sectors, round, fat) ==> round < 5
  {
  }

  lemma Settled(sectors: u64, fat: nat)
    requires Formattable(sectors) && FAT_OFFSET + fat <= sectors && Needed(sectors, ClusterSectors(sectors), fat) == fat
    ensures Consistent(sectors, ClusterSectors(sectors), fat) && !Skipped(sectors, ClusterSectors(sectors))
  {
    ConsistentExactly(sectors, fat);
  }

  lemma LayoutFits(sectors: u64, fat: nat)
    requires Formattable(sectors) && FAT_OFFSET + fat <= sectors
    ensures 0 <= Clusters(sectors, ClusterSectors(sectors), fat) <= sectors
  {
    var spc := ClusterSectors(sectors);
    if spc == 1 {
    } else if spc == 16 {
    } else {
    }
  }

  lemma NoneConsistent(sectors: u64)
    requires Formattable(sectors) && Skipped(sectors, ClusterSectors(sectors))
    ensures forall fat: nat :: !Consistent(sectors, ClusterSectors(sectors), fat)
  {
    forall fat: nat ensures !Consistent(sectors, ClusterSectors(sectors), fat) {
      ConsistentExactly(sectors, fat);
    }
  }
}
