/** Byte strings stored in a sequence of clusters. */
module Extents {
  import opened Words
  import opened Geometry
  import opened Views

  /** Every cluster of the extent exists and has the full cluster length. */
  ghost predicate Fits(heap: Heap, ext: seq<nat>, cb: nat) {
    forall i :: 0 <= i < |ext| ==> ext[i] < |heap| && |heap[ext[i]]| == cb
  }

  /** The bytes of an extent, cluster after cluster. */
  ghost function Flat(heap: Heap, ext: seq<nat>): seq<byte>
    requires forall i :: 0 <= i < |ext| ==> ext[i] < |heap|
  {
    if ext == [] then [] else Flat(heap, ext[..|ext| - 1]) + heap[ext[|ext| - 1]]
  }

  lemma {:induction false} FlatLength(heap: Heap, ext: seq<nat>, cb: nat)
    requires Fits(heap, ext, cb)
    ensures |Flat(heap, ext)| == |ext| * cb
  {
    if ext != [] {
      FlatLength(heap, ext[..|ext| - 1], cb);
      assert (|ext| - 1) * cb + cb == |ext| * cb;
    }
  }

  lemma ChunkInside(i: nat, n: nat, cb: nat)
    requires i < n
    ensures 0 <= i * cb && i * cb + cb <= n * cb
  {
    MulMonotone(i + 1, n, cb);
    MulMonotone(0, i, cb);
    assert (i + 1) * cb == i * cb + cb;
  }

  /** Cluster `i` of the extent is the `i`-th chunk of its bytes. */
  lemma {:induction false} FlatChunk(heap: Heap, ext: seq<nat>, cb: nat, i: nat)
    requires Fits(heap, ext, cb) && i < |ext|
    ensures |Flat(heap, ext)| == |ext| * cb && 0 <= i * cb && i * cb + cb <= |ext| * cb
    ensures Flat(heap, ext)[i * cb..i * cb + cb] == heap[ext[i]]
  {
    FlatLength(heap, ext, cb);
    ChunkInside(i, |ext|, cb);
    var front := ext[..|ext| - 1];
    FlatLength(heap, front, cb);
    if i < |front| {
      ChunkInside(i, |front|, cb);
      FlatChunk(heap, front, cb, i);
      assert Flat(heap, ext)[i * cb..i * cb + cb] == Flat(heap, front)[i * cb..i * cb + cb];
    }
  }

  /** A byte range that stays inside one cluster. */
  lemma FlatSlice(heap: Heap, ext: seq<nat>, cb: nat, i: nat, w: nat, n: nat)
    requires Fits(heap, ext, cb) && i < |ext| && w + n <= cb
    ensures 0 <= i * cb && i * cb + w + n <= |ext| * cb == |Flat(heap, ext)|
    ensures Flat(heap, ext)[i * cb + w..i * cb + w + n] == heap[ext[i]][w..w + n]
  {
    FlatChunk(heap, ext, cb, i);
    SliceOfSlice(Flat(heap, ext), i * cb, i * cb + cb, w, n);
  }

  /** The cluster index and offset of a byte position. */
  lemma Position(p: nat, cb: nat, n: nat)
    requires cb > 0 && p < n * cb
    ensures 0 <= p / cb < n && 0 <= p % cb < cb && p / cb * cb + p % cb == p
  {
    QuotientBelow(p, cb, n);
  }

  /** Clusters outside the extent do not matter to it. */
  lemma {:induction false} FlatFrame(heap: Heap, heap': Heap, ext: seq<nat>)
    requires forall i :: 0 <= i < |ext| ==> ext[i] < |heap| && ext[i] < |heap'| && heap'[ext[i]] == heap[ext[i]]
    ensures Flat(heap', ext) == Flat(heap, ext)
  {
    if ext != [] {
      FlatFrame(heap, heap', ext[..|ext| - 1]);
    }
  }

  lemma {:induction false} FlatPrefix(heap: Heap, ext: seq<nat>, cb: nat, k: nat)
    requires Fits(heap, ext, cb) && k <= |ext|
    ensures 0 <= k * cb <= |Flat(heap, ext)|
    ensures Flat(heap, ext[..k]) == Flat(heap, ext)[..k * cb]
  {
    FlatLength(heap, ext, cb);
    MulMonotone(k, |ext|, cb);
    MulMonotone(0, k, cb);
    if k == |ext| {
      assert ext[..k] == ext;
    } else {
      var front := ext[..|ext| - 1];
      FlatPrefix(heap, front, cb, k);
      assert front[..k] == ext[..k];
    }
  }

  /** Overwriting a range inside one cluster overwrites that range of the
      extent's bytes. */
  lemma {:induction false} FlatPut(heap: Heap, ext: seq<nat>, cb: nat, i: nat, w: nat, data: seq<byte>)
    requires Fits(heap, ext, cb) && Distinct(ext) && i < |ext| && w + |data| <= cb
    ensures 0 <= i * cb && i * cb + w + |data| <= |ext| * cb == |Flat(heap, ext)|
    ensures var heap' := heap[ext[i] := Splice(heap[ext[i]], w, data)];
            Flat(heap', ext) == Splice(Flat(heap, ext), i * cb + w, data)
  {
    FlatLength(heap, ext, cb);
    ChunkInside(i, |ext|, cb);
    var n := |ext| - 1;
    var front := ext[..n];
    FlatLength(heap, front, cb);
    if i == n {
      var heap' := heap[ext[i] := Splice(heap[ext[i]], w, data)];
      FlatFrame(heap, heap', front);
      SpliceRight(Flat(heap, front), heap[ext[i]], w, data);
    } else {
      ChunkInside(i, n, cb);
      FlatPut(heap, front, cb, i, w, data);
      FlatPutFront(heap, ext, cb, i, w, data);
    }
  }

  lemma FlatPutFront(heap: Heap, ext: seq<nat>, cb: nat, i: nat, w: nat, data: seq<byte>)
    requires Fits(heap, ext, cb) && Distinct(ext) && i < |ext| - 1 && w + |data| <= cb
    requires 0 <= i * cb && i * cb + w + |data| <= |Flat(heap, ext[..|ext| - 1])|
    requires var heap' := heap[ext[i] := Splice(heap[ext[i]], w, data)];
             Flat(heap', ext[..|ext| - 1]) == Splice(Flat(heap, ext[..|ext| - 1]), i * cb + w, data)
    ensures var heap' := heap[ext[i] := Splice(heap[ext[i]], w, data)];
            i * cb + w + |data| <= |Flat(heap, ext)| &&
            Flat(heap', ext) == Splice(Flat(heap, ext), i * cb + w, data)
  {
    var n := |ext| - 1;
    assert ext[i] != ext[n];
    SpliceLeft(Flat(heap, ext[..n]), heap[ext[n]], i * cb + w, data);
  }

  lemma SpliceRight(a: seq<byte>, b: seq<byte>, w: nat, data: seq<byte>)
    requires w + |data| <= |b|
    ensures Splice(a + b, |a| + w, data) == a + Splice(b, w, data)
  {
  }

  lemma SpliceLeft(a: seq<byte>, b: seq<byte>, p: nat, data: seq<byte>)
    requires p + |data| <= |a|
    ensures Splice(a + b, p, data) == Splice(a, p, data) + b
  {
  }

  lemma SpliceAgain<T>(s: seq<T>, p: nat, a: seq<T>, b: seq<T>)
    requires p + |a| + |b| <= |s|
    ensures Splice(Splice(s, p, a), p + |a|, b) == Splice(s, p, a + b)
  {
  }
}
