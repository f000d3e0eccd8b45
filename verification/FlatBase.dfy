/** Bit arithmetic, little-endian scalars and padding: include/flatbuffers/base.h. */
module FlatBase {
  import opened Arithmetic
  import opened Powers

  /** One uint8_t. */
  type byte = x: int | 0 <= x < 256

  /** FLATBUFFERS_MAX_BUFFER_SIZE: offsets are signed 32 bit. */
  const MAX_BUFFER_SIZE: nat := 0x7FFF_FFFF

  const SIZE_T_LIMIT: nat := 0x1_0000_0000_0000_0000

  predicate IsPow2(n: nat)
    decreases n
  {
    n == 1 || (n > 1 && n % 2 == 0 && IsPow2(n / 2))
  }

  function Log2(n: nat): (k: nat)
    requires IsPow2(n)
    ensures Pow2(k) == n
    decreases n
  {
    if n == 1 then 0 else 1 + Log2(n / 2)
  }

  /** Of two powers of two the smaller divides the larger. */
  lemma {:induction false} Pow2Divides(a: nat, b: nat)
    requires IsPow2(a) && IsPow2(b) && a <= b
    ensures b % a == 0
    decreases a
  {
    if a > 1 {
      Pow2Divides(a / 2, b / 2);
      var q := (b / 2) / (a / 2);
      assert b / 2 == q * (a / 2);
      assert b == q * a;
      MultipleMod(q, a);
    }
  }

  // ----- bitwise operators on unsigned words

  /** Bitwise and, bit by bit. */
  function And(a: nat, b: nat): nat
    decreases a
  {
    if a == 0 then 0 else (if a % 2 == 1 && b % 2 == 1 then 1 else 0) + 2 * And(a / 2, b / 2)
  }

  /** Bitwise complement of a 64-bit word. */
  function Not64(x: nat): (r: nat)
    requires x < SIZE_T_LIMIT
    ensures r < SIZE_T_LIMIT
  {
    SIZE_T_LIMIT - 1 - x
  }

  lemma ModDouble(a: nat, m: nat)
    requires m > 0
    ensures a % (2 * m) == 2 * ((a / 2) % m) + a % 2
  {
    var q, r := (a / 2) / m, (a / 2) % m;
    assert a / 2 == q * m + r;
    MulTwo(q, m);
    ModUnique(a, 2 * m, q, 2 * r + a % 2);
  }

  lemma MulTwo(q: int, m: int)
    ensures q * (2 * m) == 2 * (q * m)
  {
  }

  /** Masking with 2^k - 1 is the remainder. */
  lemma {:induction false} AndLowMask(a: nat, k: nat)
    ensures And(a, Pow2(k) - 1) == a % Pow2(k)
    decreases k
  {
    if k == 0 {
      AndZero(a);
    } else {
      var m := Pow2(k - 1);
      AndLowMask(a / 2, k - 1);
      ModDouble(a, m);
      AndOddMask(a, m);
    }
  }

  lemma AndOddMask(a: nat, m: nat)
    requires m > 0
    ensures And(a, 2 * m - 1) == a % 2 + 2 * And(a / 2, m - 1)
  {
    assert (2 * m - 1) % 2 == 1 && (2 * m - 1) / 2 == m - 1;
  }

  lemma AndEvenMask(a: nat, b: nat)
    ensures And(a, 2 * b) == 2 * And(a / 2, b)
  {
    assert (2 * b) % 2 == 0 && (2 * b) / 2 == b;
  }

  lemma AndZero(a: nat)
    ensures And(a, 0) == 0
  {
  }

  /** Masking an n-bit word with 2^n - 2^k rounds down to a multiple of 2^k. */
  lemma {:induction false} AndHighMask(a: nat, n: nat, k: nat)
    requires k <= n && a < Pow2(n)
    ensures Pow2(k) <= Pow2(n)
    ensures And(a, Pow2(n) - Pow2(k)) == a - a % Pow2(k)
    decreases k
  {
    hide And, Pow2;
    Pow2Monotone(k, n);
    if k == 0 {
      Pow2Zero();
      AndFullMask(a, n);
    } else {
      Pow2Next(n);
      Pow2Next(k);
      AndHighMask(a / 2, n - 1, k - 1);
      HalfMask(a, Pow2(n - 1) - Pow2(k - 1), Pow2(k - 1));
    }
  }

  lemma AndFullMask(a: nat, n: nat)
    requires a < Pow2(n)
    ensures And(a, Pow2(n) - 1) == a - a % 1
  {
    AndLowMask(a, n);
    ModUnique(a, Pow2(n), 0, a);
  }

  lemma HalfMask(a: nat, b: nat, m: nat)
    requires m > 0 && And(a / 2, b) == a / 2 - (a / 2) % m
    ensures And(a, 2 * b) == a - a % (2 * m)
  {
    ModDouble(a, m);
    AndEvenMask(a, b);
  }

  lemma Pow2Values()
    ensures Pow2(3) == 8 && Pow2(64) == SIZE_T_LIMIT
  {
    Pow2Small();
    hide Pow2;
    Pow2Sum(4, 4);
    Pow2Sum(8, 8);
    Pow2Sum(16, 16);
    Pow2Sum(32, 32);
  }

  /** The mask `x & ~(8 - 1)` on size_t rounds down to a multiple of 8, the alignment of the largest scalar. */
  function MaskEight(x: nat): (r: nat)
    requires x < SIZE_T_LIMIT
    ensures r == x - x % 8
  {
    Pow2Values();
    AndHighMask(x, 64, 3);
    And(x, Not64(8 - 1))
  }

  // ----- PaddingBytes

  /** The padding expression of base.h, on 64-bit words. */
  function PaddingBytes(bufSize: nat, scalarSize: nat): nat
    requires bufSize < SIZE_T_LIMIT && 0 < scalarSize <= SIZE_T_LIMIT
  {
    And((Not64(bufSize) + 1) % SIZE_T_LIMIT, scalarSize - 1)
  }

  predicate Aligned(x: int, size: nat) {
    size > 0 && x % size == 0
  }

  ghost predicate IsPadding(x: nat, size: nat, p: nat) {
    p < size && Aligned(x + p, size)
  }

  /** The least padding that brings x to a multiple of size. */
  ghost function LeastPadding(x: nat, size: nat): nat
    requires size > 0
  {
    SomePadding(x, size);
    var p: nat :| IsPadding(x, size, p); p
  }

  lemma LeastPaddingAligns(x: nat, size: nat)
    requires size > 0
    ensures LeastPadding(x, size) < size && Aligned(x + LeastPadding(x, size), size)
  {
  }

  lemma SomePadding(x: nat, size: nat)
    requires size > 0
    ensures exists p: nat :: IsPadding(x, size, p)
  {
    var q, r := x / size, x % size;
    assert x == q * size + r;
    if r == 0 {
      assert IsPadding(x, size, 0);
    } else {
      assert x + (size - r) == (q + 1) * size;
      ModUnique(x + (size - r), size, q + 1, 0);
      assert IsPadding(x, size, size - r);
    }
  }

  /** Any other padding that aligns is at least as long. */
  lemma LeastPaddingLeast(x: nat, size: nat, t: nat)
    requires size > 0 && x <= t && Aligned(t, size)
    ensures x + LeastPadding(x, size) <= t
  {
    LeastPaddingAligns(x, size);
    hide LeastPadding;
    var p := LeastPadding(x, size);
    if t < x + p {
      ModAdd(x + p, t, size);
      ModUnique(x + p - t, size, 0, x + p - t);
    }
  }

  /** Two's complement negation of a size_t. */
  lemma NegatedWord(x: nat)
    requires x < SIZE_T_LIMIT
    ensures (Not64(x) + 1) % SIZE_T_LIMIT == if x == 0 then 0 else SIZE_T_LIMIT - x
  {
  }

  lemma NegationAligns(x: nat, neg: nat, s: nat)
    requires IsPow2(s) && s <= SIZE_T_LIMIT
    requires if x == 0 then neg == 0 else x + neg == SIZE_T_LIMIT
    ensures Aligned(x + neg, s)
  {
    Pow2Values();
    IsPow2OfPow2(64);
    Pow2Divides(s, SIZE_T_LIMIT);
    if x == 0 { ModUnique(0, s, 0, 0); }
  }

  /** When x + neg is a multiple of s, neg mod s is the padding of x. */
  lemma RemainderAligns(x: nat, neg: nat, s: nat)
    requires s > 0 && Aligned(x + neg, s)
    ensures Aligned(x + neg % s, s)
  {
    var p := neg % s;
    ModUnique(neg - p, s, neg / s, 0);
    ModAdd(x + neg, neg - p, s);
    assert (x + neg) - (neg - p) == x + p;
  }

  /** For a power-of-two scalar size the bit expression is the least padding that aligns the buffer. */
  lemma PaddingIsLeast(bufSize: nat, scalarSize: nat)
    requires bufSize < SIZE_T_LIMIT && IsPow2(scalarSize) && scalarSize <= SIZE_T_LIMIT
    ensures PaddingBytes(bufSize, scalarSize) == LeastPadding(bufSize, scalarSize)
  {
    hide And, Not64, LeastPadding;
    var neg := (Not64(bufSize) + 1) % SIZE_T_LIMIT;
    NegatedWord(bufSize);
    AndLowMask(neg, Log2(scalarSize));
    NegationAligns(bufSize, neg, scalarSize);
    RemainderAligns(bufSize, neg, scalarSize);
    LeastPaddingAligns(bufSize, scalarSize);
    PaddingUnique(bufSize, scalarSize, neg % scalarSize, LeastPadding(bufSize, scalarSize));
  }

  lemma PaddingUnique(x: nat, size: nat, p: nat, q: nat)
    requires p < size && q < size && Aligned(x + p, size) && Aligned(x + q, size)
    ensures p == q
  {
    ModAdd(x + p, x + q, size);
    if p > q {
      ModUnique(x + p - (x + q), size, 0, p - q);
    } else if q > p {
      ModAdd(x + q, x + p, size);
      ModUnique(x + q - (x + p), size, 0, q - p);
    }
  }

  lemma IsPow2OfPow2(k: nat)
    ensures IsPow2(Pow2(k))
  {
  }

  // ----- little-endian scalars

  function Pow256(n: nat): (r: nat)
    ensures r > 0
  {
    if n == 0 then 1 else 256 * Pow256(n - 1)
  }

  /** The n low bytes of v, least significant first (WriteScalar on a little-endian machine). */
  function ToLE(v: nat, n: nat): (s: seq<byte>)
    ensures |s| == n
    decreases n
  {
    if n == 0 then [] else [v % 256] + ToLE(v / 256, n - 1)
  }

  function FromLE(s: seq<byte>): nat {
    if s == [] then 0 else s[0] + 256 * FromLE(s[1..])
  }

  lemma {:induction false} FromLEBound(s: seq<byte>)
    ensures FromLE(s) < Pow256(|s|)
  {
    if s != [] { FromLEBound(s[1..]); }
  }

  /** Writing then reading a scalar that fits gives the scalar back. */
  lemma {:induction false} FromToLE(v: nat, n: nat)
    requires v < Pow256(n)
    ensures FromLE(ToLE(v, n)) == v
    decreases n
  {
    if n > 0 {
      FromToLE(v / 256, n - 1);
      assert ToLE(v, n)[1..] == ToLE(v / 256, n - 1);
    }
  }

  lemma {:induction false} ToFromLE(s: seq<byte>)
    ensures ToLE(FromLE(s), |s|) == s
    decreases |s|
  {
    if s != [] {
      ToFromLE(s[1..]);
      var v := FromLE(s);
      assert v % 256 == s[0] && v / 256 == FromLE(s[1..]);
    }
  }

  function Zeros(n: nat): (s: seq<byte>)
    ensures |s| == n && forall k | 0 <= k < n :: s[k] == 0
  {
    seq(n, _ => 0)
  }

  lemma ZeroLE(n: nat)
    ensures ToLE(0, n) == Zeros(n)
  {
    if n > 0 {
      ZeroLE(n - 1);
    }
  }

  lemma Pow256Values()
    ensures Pow256(1) == 0x100 && Pow256(2) == 0x1_0000 && Pow256(4) == 0x1_0000_0000
  {
    assert Pow256(3) == 0x100_0000;
  }

  /** The scalar widths of the format itself, voffset_t and uoffset_t: the values of their bytes, and the bytes of a
      value. */
  function U16(a: byte, b: byte): (v: nat)
    ensures v < 0x1_0000
  {
    Pow256Values();
    FromLEBound([a, b]);
    FromLE([a, b])
  }

  function U32(a: byte, b: byte, c: byte, d: byte): (v: nat)
    ensures v < 0x1_0000_0000
  {
    Pow256Values();
    FromLEBound([a, b, c, d]);
    FromLE([a, b, c, d])
  }

  ghost function LE16(v: nat): (s: seq<byte>)
    requires v < 0x1_0000
    ensures |s| == 2 && U16(s[0], s[1]) == v
  {
    TwoBytes(v);
    var s: seq<byte> :| |s| == 2 && U16(s[0], s[1]) == v; s
  }

  ghost function LE32(v: nat): (s: seq<byte>)
    requires v < 0x1_0000_0000
    ensures |s| == 4 && U32(s[0], s[1], s[2], s[3]) == v
  {
    FourBytes(v);
    var s: seq<byte> :| |s| == 4 && U32(s[0], s[1], s[2], s[3]) == v; s
  }

  lemma TwoBytes(v: nat)
    requires v < 0x1_0000
    ensures exists s: seq<byte> :: |s| == 2 && U16(s[0], s[1]) == v
  {
    Pow256Values();
    FromToLE(v, 2);
    var s := ToLE(v, 2);
    U16IsFromLE(s);
    assert U16(s[0], s[1]) == v;
  }

  lemma FourBytes(v: nat)
    requires v < 0x1_0000_0000
    ensures exists s: seq<byte> :: |s| == 4 && U32(s[0], s[1], s[2], s[3]) == v
  {
    Pow256Values();
    FromToLE(v, 4);
    var s := ToLE(v, 4);
    U32IsFromLE(s);
    assert U32(s[0], s[1], s[2], s[3]) == v;
  }

  lemma U32IsFromLE(s: seq<byte>)
    requires |s| == 4
    ensures FromLE(s) == U32(s[0], s[1], s[2], s[3])
  {
    assert s == [s[0], s[1], s[2], s[3]];
  }

  lemma U16IsFromLE(s: seq<byte>)
    requires |s| == 2
    ensures FromLE(s) == U16(s[0], s[1])
  {
    assert s == [s[0], s[1]];
  }

  /** The general encoding and the fixed-width ones agree. */
  lemma ToLEIsLE16(v: nat)
    requires v < 0x1_0000
    ensures ToLE(v, 2) == LE16(v)
  {
    U16IsFromLE(LE16(v));
    ToFromLE(LE16(v));
  }

  lemma ToLEIsLE32(v: nat)
    requires v < 0x1_0000_0000
    ensures ToLE(v, 4) == LE32(v)
  {
    U32IsFromLE(LE32(v));
    ToFromLE(LE32(v));
  }

  /** The bit pattern of an soffset_t. */
  function EncodeSigned32(v: int): (r: nat)
    requires -0x8000_0000 <= v < 0x8000_0000
    ensures r < 0x1_0000_0000
  {
    if v < 0 then v + 0x1_0000_0000 else v
  }

  function DecodeSigned32(r: nat): (v: int)
    requires r < 0x1_0000_0000
    ensures -0x8000_0000 <= v < 0x8000_0000
  {
    if r >= 0x8000_0000 then r - 0x1_0000_0000 else r
  }
}
