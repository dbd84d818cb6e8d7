/** Machine words, little-endian codecs, single-bit updates and the rotating
    checksums that every on-disk structure of the volume is built from. */
module Words {

  type byte = x: int | 0 <= x < 0x100
  type u8 = byte
  type u16 = x: int | 0 <= x < 0x1_0000
  type u32 = x: int | 0 <= x < 0x1_0000_0000
  type u64 = x: int | 0 <= x < 0x1_0000_0000_0000_0000

  const U32_MAX: u32 := 0xffff_ffff
  const U64_MAX: u64 := 0xffff_ffff_ffff_ffff

  datatype Option<+T> = None | Some(value: T)

  // ----- ceiling division -------------------------------------------------

  function DivCeil(x: nat, d: nat): nat
    requires d > 0
  {
    if x % d == 0 then x / d else x / d + 1
  }

  function Min(a: nat, b: nat): nat {
    if a <= b then a else b
  }

  /** `n` zero bytes. */
  function Zeros(n: nat): (z: seq<byte>)
    ensures |z| == n && forall i :: 0 <= i < n ==> z[i] == 0
  {
    seq(n, _ => 0)
  }

  // ----- splicing ----------------------------------------------------------

  /** `s` with the window that starts at `off` overwritten by `data`. */
  function Splice<T>(s: seq<T>, off: nat, data: seq<T>): (r: seq<T>)
    requires off + |data| <= |s|
    ensures |r| == |s|
    ensures r[off..off + |data|] == data
    ensures forall i :: 0 <= i < |s| && !(off <= i < off + |data|) ==> r[i] == s[i]
    ensures forall i :: off <= i < off + |data| ==> r[i] == data[i - off]
  {
    s[..off] + data + s[off + |data|..]
  }

  lemma SliceOfSlice<T>(s: seq<T>, lo: nat, hi: nat, w: nat, n: nat)
    requires lo + w + n <= hi <= |s|
    ensures s[lo..hi][w..w + n] == s[lo + w..lo + w + n]
  {
    var a, b := s[lo..hi][w..w + n], s[lo + w..lo + w + n];
    assert |a| == |b| && forall k :: 0 <= k < n ==> a[k] == s[lo..hi][w + k] == s[lo + w + k] == b[k];
  }

  /** Writing into a window that is then written back. */
  lemma SpliceWindow<T>(s: seq<T>, at: nat, n: nat, off: nat, data: seq<T>)
    requires at + n <= |s| && off + |data| <= n
    ensures Splice(s, at, Splice(s[at..at + n], off, data)) == Splice(s, at + off, data)
  {
    var a, b := Splice(s, at, Splice(s[at..at + n], off, data)), Splice(s, at + off, data);
    forall k | 0 <= k < |s|
      ensures a[k] == b[k]
    {
      if at <= k < at + n { assert s[at..at + n][k - at] == s[k]; }
    }
  }

  // ----- little-endian words -----------------------------------------------

  function Le16(b: seq<byte>): u16
    requires |b| == 2
  {
    (b[0] as int) + (b[1] as int) * 0x100
  }

  function Le32(b: seq<byte>): u32
    requires |b| == 4
  {
    (Le16(b[..2]) as int) + (Le16(b[2..]) as int) * 0x1_0000
  }

  function Le64(b: seq<byte>): u64
    requires |b| == 8
  {
    (Le32(b[..4]) as int) + (Le32(b[4..]) as int) * 0x1_0000_0000
  }

  function Enc16(v: u16): (b: seq<byte>)
    ensures |b| == 2 && Le16(b) == v
  {
    [v % 0x100, v / 0x100]
  }

  function Enc32(v: u32): (b: seq<byte>)
    ensures |b| == 4 && Le32(b) == v
  {
    var lo, hi := v % 0x1_0000, v / 0x1_0000;
    var b := Enc16(lo) + Enc16(hi);
    assert b[..2] == Enc16(lo) && b[2..] == Enc16(hi);
    b
  }

  function Enc64(v: u64): (b: seq<byte>)
    ensures |b| == 8 && Le64(b) == v
  {
    var lo, hi := v % 0x1_0000_0000, v / 0x1_0000_0000;
    var b := Enc32(lo) + Enc32(hi);
    assert b[..4] == Enc32(lo) && b[4..] == Enc32(hi);
    b
  }

  // ----- bits ----------------------------------------------------------------

  function Pow2(i: nat): (p: nat)
    ensures p >= 1
  {
    if i == 0 then 1 else 2 * Pow2(i - 1)
  }

  /** Bit `i` of `b`, counted from the low end. */
  predicate Bit(b: nat, i: nat) {
    if i == 0 then b % 2 == 1 else Bit(b / 2, i - 1)
  }

  /** `b | 1 << i` and `b & !(1 << i)`: bit `i` of `b` forced to `on`. */
  function PutBit(b: nat, i: nat, on: bool): (r: nat)
    ensures Bit(r, i) == on
  {
    if i == 0 then b / 2 * 2 + (if on then 1 else 0) else PutBit(b / 2, i - 1, on) * 2 + b % 2
  }

  /** Writing one bit of a word leaves every other bit alone. */
  lemma {:induction false} PutBitKeepsOthers(b: nat, i: nat, on: bool, j: nat)
    requires i != j
    ensures Bit(PutBit(b, i, on), j) == Bit(b, j)
  {
    if i > 0 && j > 0 {
      PutBitKeepsOthers(b / 2, i - 1, on, j - 1);
    }
  }

  /** Writing a bit inside the width keeps the word inside the width. */
  lemma {:induction false} PutBitFits(b: nat, i: nat, on: bool, width: nat)
    requires b < Pow2(width) && i < width
    ensures PutBit(b, i, on) < Pow2(width)
  {
    var half := Pow2(width - 1);
    assert Pow2(width) == 2 * half;
    assert b / 2 < half;
    if i > 0 {
      PutBitFits(b / 2, i - 1, on, width - 1);
      assert PutBit(b, i, on) == PutBit(b / 2, i - 1, on) * 2 + b % 2;
    }
  }

  function PutByteBit(b: byte, i: nat, on: bool): (r: byte)
    requires i < 8
    ensures Bit(r, i) == on
    ensures forall j :: 0 <= j && j != i ==> Bit(r, j) == Bit(b, j)
  {
    assert Pow2(8) == 256;
    PutBitFits(b, i, on, 8);
    assert forall j :: 0 <= j && j != i ==> Bit(PutBit(b, i, on), j) == Bit(b, j) by {
      forall j | 0 <= j && j != i
        ensures Bit(PutBit(b, i, on), j) == Bit(b, j)
      {
        PutBitKeepsOthers(b, i, on, j);
      }
    }
    PutBit(b, i, on)
  }

  /** `(b & ((1 << n) - 1)).count_ones()`: the set bits among the low `n`. */
  function LowOnes(b: byte, n: nat): (c: nat)
    ensures c <= n
  {
    if n == 0 then 0 else LowOnes(b, n - 1) + if Bit(b, n - 1) then 1 else 0
  }

  // ----- rotating checksums ---------------------------------------------------

  /** `sum.rotate_right(1).wrapping_add(b)` on 16 bits. */
  function Roll16(sum: u16, b: byte): u16 {
    (sum / 2 + sum % 2 * 0x8000 + b) % 0x1_0000
  }

  /** `sum.rotate_right(1).wrapping_add(b)` on 32 bits. */
  function Roll32(sum: u32, b: byte): u32 {
    (sum / 2 + sum % 2 * 0x8000_0000 + b) % 0x1_0000_0000
  }

  /** A roll tells sums apart ... */
  lemma RollTellsSums(a: u16, b: u16, x: byte)
    ensures Roll16(a, x) == Roll16(b, x) ==> a == b
  {
    RollSplits(a, x);
    RollSplits(b, x);
  }

  /** ... and bytes. */
  lemma RollTellsBytes(a: u16, x: byte, y: byte)
    ensures Roll16(a, x) == Roll16(a, y) ==> x == y
  {
    RollSplits(a, x);
    RollSplits(a, y);
  }

  lemma RollSplits(a: u16, x: byte)
    ensures var turned := a / 2 + a % 2 * 0x8000;
            turned < 0x1_0000 && (Roll16(a, x) == turned + x || Roll16(a, x) == turned + x - 0x1_0000)
  {
  }

  /** The 32-bit rolling checksum of a byte string, last byte folded last. */
  function Sum32(sum: u32, bytes: seq<byte>): u32 {
    if bytes == [] then sum else Roll32(Sum32(sum, bytes[..|bytes| - 1]), bytes[|bytes| - 1])
  }

  lemma {:induction false} Sum32Concat(sum: u32, a: seq<byte>, b: seq<byte>)
    ensures Sum32(sum, a + b) == Sum32(Sum32(sum, a), b)
  {
    if b == [] {
      assert a + b == a;
    } else {
      var front := b[..|b| - 1];
      assert (a + b)[..|a + b| - 1] == a + front;
      Sum32Concat(sum, a, front);
    }
  }
}
