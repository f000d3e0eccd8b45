/** Mixed-radix numbering of coordinates: the two linear orders of an n-dimensional index space, and strides. */
module Radix {
  import opened Arithmetic

  function Size(shape: seq<nat>): nat {
    if shape == [] then 1 else shape[0] * Size(shape[1..])
  }

  predicate ValidCoord(shape: seq<nat>, c: seq<nat>) {
    |c| == |shape| && forall i | 0 <= i < |c| :: c[i] < shape[i]
  }

  predicate Positive(shape: seq<nat>) {
    forall i | 0 <= i < |shape| :: shape[i] > 0
  }

  /** The strided offset of a coordinate. */
  function Dot(c: seq<nat>, strides: seq<int>): int
    requires |c| == |strides|
  {
    if c == [] then 0 else c[0] * strides[0] + Dot(c[1..], strides[1..])
  }

  /** The number of a coordinate when the last axis runs fastest. */
  function RavelC(shape: seq<nat>, c: seq<nat>): nat
    requires |c| == |shape|
  {
    if c == [] then 0 else c[0] * Size(shape[1..]) + RavelC(shape[1..], c[1..])
  }

  /** The number of a coordinate when the first axis runs fastest. */
  function RavelF(shape: seq<nat>, c: seq<nat>): nat
    requires |c| == |shape|
  {
    if c == [] then 0 else c[0] + shape[0] * RavelF(shape[1..], c[1..])
  }

  function UnravelC(shape: seq<nat>, k: nat): (c: seq<nat>)
    requires k < Size(shape)
    ensures |c| == |shape|
  {
    if shape == [] then [] else
      var n := Size(shape[1..]);
      QuotientInRange(k, shape[0], n);
      [k / n] + UnravelC(shape[1..], k % n)
  }

  function UnravelF(shape: seq<nat>, k: nat): (c: seq<nat>)
    requires k < Size(shape)
    ensures |c| == |shape|
  {
    if shape == [] then [] else
      QuotientInRange(k, Size(shape[1..]), shape[0]);
      [k % shape[0]] + UnravelF(shape[1..], k / shape[0])
  }

  function StridesC(shape: seq<nat>): (s: seq<nat>)
    ensures |s| == |shape|
  {
    if shape == [] then [] else [Size(shape[1..])] + StridesC(shape[1..])
  }

  /** The strides of the order in which the first axis runs fastest, with unit as the smallest stride. */
  function StridesF(shape: seq<nat>, unit: nat): (s: seq<nat>)
    ensures |s| == |shape|
  {
    if shape == [] then [] else [unit] + StridesF(shape[1..], unit * shape[0])
  }

  // ----- sizes

  lemma {:induction false} SizePositive(shape: seq<nat>)
    ensures Size(shape) > 0 <==> Positive(shape)
  {
    if shape != [] {
      SizePositive(shape[1..]);
      assert Positive(shape) <==> shape[0] > 0 && Positive(shape[1..]);
      if shape[0] > 0 && Size(shape[1..]) > 0 {
        MulMonotone(1, shape[0], Size(shape[1..]));
      }
    }
  }

  lemma {:induction false} SizeAppend(a: seq<nat>, b: seq<nat>)
    ensures Size(a + b) == Size(a) * Size(b)
  {
    if a == [] {
      assert a + b == b;
    } else {
      SizeAppend(a[1..], b);
      assert (a + b)[1..] == a[1..] + b;
      assert a[0] * (Size(a[1..]) * Size(b)) == (a[0] * Size(a[1..])) * Size(b);
    }
  }

  lemma SizeFrom(shape: seq<nat>, d: nat)
    requires d < |shape|
    ensures Size(shape[d..]) == shape[d] * Size(shape[d + 1..]) && shape[0..] == shape
  {
    assert shape[d..][1..] == shape[d + 1..];
  }

  // ----- bijections

  lemma TailValid(shape: seq<nat>, c: seq<nat>)
    requires ValidCoord(shape, c) && shape != []
    ensures ValidCoord(shape[1..], c[1..]) && c[0] < shape[0]
  {
  }

  /** Ravelling a valid coordinate stays below the size, and unravelling gives the coordinate back. */
  lemma {:induction false} RavelCInverse(shape: seq<nat>, c: seq<nat>)
    requires ValidCoord(shape, c)
    ensures RavelC(shape, c) < Size(shape) && UnravelC(shape, RavelC(shape, c)) == c
  {
    if shape != [] {
      TailValid(shape, c);
      RavelCInverse(shape[1..], c[1..]);
      CombineInRange(c[0], RavelC(shape[1..], c[1..]), shape[0], Size(shape[1..]));
      DivModUnique(c[0], RavelC(shape[1..], c[1..]), Size(shape[1..]));
    }
  }

  lemma {:induction false} RavelFInverse(shape: seq<nat>, c: seq<nat>)
    requires ValidCoord(shape, c)
    ensures RavelF(shape, c) < Size(shape) && UnravelF(shape, RavelF(shape, c)) == c
  {
    if shape != [] {
      TailValid(shape, c);
      var r := RavelF(shape[1..], c[1..]);
      RavelFInverse(shape[1..], c[1..]);
      CombineInRange(r, c[0], Size(shape[1..]), shape[0]);
      DivModUnique(r, c[0], shape[0]);
      assert RavelF(shape, c) == r * shape[0] + c[0];
    }
  }

  /** Unravelling a number below the size gives a valid coordinate, and ravelling gives the number back. */
  lemma {:induction false} UnravelCInverse(shape: seq<nat>, k: nat)
    requires k < Size(shape)
    ensures ValidCoord(shape, UnravelC(shape, k)) && RavelC(shape, UnravelC(shape, k)) == k
  {
    if shape != [] {
      var n := Size(shape[1..]);
      QuotientInRange(k, shape[0], n);
      UnravelCInverse(shape[1..], k % n);
      assert UnravelC(shape, k)[1..] == UnravelC(shape[1..], k % n);
    }
  }

  lemma {:induction false} UnravelFInverse(shape: seq<nat>, k: nat)
    requires k < Size(shape)
    ensures ValidCoord(shape, UnravelF(shape, k)) && RavelF(shape, UnravelF(shape, k)) == k
  {
    if shape != [] {
      var q, r := k / shape[0], k % shape[0];
      QuotientInRange(k, Size(shape[1..]), shape[0]);
      UnravelFInverse(shape[1..], q);
      var tail := UnravelF(shape[1..], q);
      assert UnravelF(shape, k) == [r] + tail;
      FirstFastest(shape, r, tail);
    }
  }

  lemma FirstFastest(shape: seq<nat>, r: nat, tail: seq<nat>)
    requires shape != [] && r < shape[0] && ValidCoord(shape[1..], tail)
    ensures ValidCoord(shape, [r] + tail) && RavelF(shape, [r] + tail) == r + shape[0] * RavelF(shape[1..], tail)
  {
    assert ([r] + tail)[1..] == tail;
  }

  lemma RavelCInjective(shape: seq<nat>, c: seq<nat>, d: seq<nat>)
    requires ValidCoord(shape, c) && ValidCoord(shape, d) && RavelC(shape, c) == RavelC(shape, d)
    ensures c == d
  {
    RavelCInverse(shape, c);
    RavelCInverse(shape, d);
  }

  lemma RavelFInjective(shape: seq<nat>, c: seq<nat>, d: seq<nat>)
    requires ValidCoord(shape, c) && ValidCoord(shape, d) && RavelF(shape, c) == RavelF(shape, d)
    ensures c == d
  {
    RavelFInverse(shape, c);
    RavelFInverse(shape, d);
  }

  // ----- strides

  lemma {:induction false} DotStridesC(shape: seq<nat>, c: seq<nat>)
    requires |c| == |shape|
    ensures Dot(c, StridesC(shape)) == RavelC(shape, c)
  {
    if shape != [] {
      DotStridesC(shape[1..], c[1..]);
      assert StridesC(shape)[1..] == StridesC(shape[1..]);
    }
  }

  lemma ScaleDigits(unit: nat, k: nat, n: nat, r: nat)
    ensures k * unit + (unit * n) * r == unit * (k + n * r)
  {
    assert (unit * n) * r == unit * (n * r);
  }

  lemma {:induction false} DotStridesF(shape: seq<nat>, unit: nat, c: seq<nat>)
    requires |c| == |shape|
    ensures Dot(c, StridesF(shape, unit)) == unit * RavelF(shape, c)
  {
    if shape != [] {
      var r := RavelF(shape[1..], c[1..]);
      DotStridesF(shape[1..], unit * shape[0], c[1..]);
      assert StridesF(shape, unit)[1..] == StridesF(shape[1..], unit * shape[0]);
      ScaleDigits(unit, c[0], shape[0], r);
    }
  }

  // ----- concatenation

  lemma {:induction false} DotAppend(c: seq<nat>, s: seq<int>, d: seq<nat>, t: seq<int>)
    requires |c| == |s| && |d| == |t|
    ensures Dot(c + d, s + t) == Dot(c, s) + Dot(d, t)
  {
    if c == [] {
      assert c + d == d && s + t == t;
    } else {
      DotAppend(c[1..], s[1..], d, t);
      assert (c + d)[1..] == c[1..] + d && (s + t)[1..] == s[1..] + t;
    }
  }

  lemma {:induction false} RavelCAppend(s: seq<nat>, c: seq<nat>, t: seq<nat>, d: seq<nat>)
    requires |c| == |s| && |d| == |t|
    ensures RavelC(s + t, c + d) == RavelC(s, c) * Size(t) + RavelC(t, d)
  {
    if c == [] {
      assert c + d == d && s + t == t;
    } else {
      RavelCAppend(s[1..], c[1..], t, d);
      SizeAppend(s[1..], t);
      assert (c + d)[1..] == c[1..] + d && (s + t)[1..] == s[1..] + t;
      RegroupProduct(c[0], Size(s[1..]), RavelC(s[1..], c[1..]), Size(t));
    }
  }

  // ----- one axis more at the end

  lemma SplitLast<S>(s: seq<S>)
    requires |s| > 0
    ensures s == s[..|s| - 1] + [s[|s| - 1]]
  {
  }

  lemma SizeSnoc(s: seq<nat>, n: nat)
    ensures Size(s + [n]) == Size(s) * n
  {
    SizeAppend(s, [n]);
    SizeOne(n);
  }

  lemma SizeOne(n: nat)
    ensures Size([n]) == n
  {
    assert Size([n]) == n * Size([]);
  }

  lemma RavelCSnoc(s: seq<nat>, c: seq<nat>, n: nat, k: nat)
    requires |c| == |s|
    ensures RavelC(s + [n], c + [k]) == RavelC(s, c) * n + k
  {
    hide RavelC;
    RavelCAppend(s, c, [n], [k]);
    SizeOne(n);
    RavelCOne(n, k);
  }

  lemma RavelCOne(n: nat, k: nat)
    ensures RavelC([n], [k]) == k
  {
    assert RavelC([n], [k]) == k * Size([]) + RavelC([], []);
  }

  lemma {:induction false} RavelFSnoc(s: seq<nat>, c: seq<nat>, n: nat, k: nat)
    requires |c| == |s|
    ensures RavelF(s + [n], c + [k]) == RavelF(s, c) + k * Size(s)
  {
    if c == [] {
      assert RavelF([n], [k]) == k + n * RavelF([], []);
    } else {
      RavelFSnoc(s[1..], c[1..], n, k);
      assert (s + [n])[1..] == s[1..] + [n] && (c + [k])[1..] == c[1..] + [k];
      DistributeDigit(s[0], RavelF(s[1..], c[1..]), k, Size(s[1..]));
    }
  }

  lemma DistributeDigit(n: nat, r: nat, k: nat, m: nat)
    ensures n * (r + k * m) == n * r + k * (n * m)
  {
    assert n * (k * m) == k * (n * m);
  }

  lemma DotSnoc(c: seq<nat>, s: seq<int>, k: nat, t: int)
    requires |c| == |s|
    ensures Dot(c + [k], s + [t]) == Dot(c, s) + k * t
  {
    DotAppend(c, s, [k], [t]);
    assert Dot([k], [t]) == k * t + Dot([], []);
  }

  lemma {:induction false} SizeGrows(shape: seq<nat>, d: nat)
    requires d < |shape|
    ensures Size(shape[..d + 1]) == Size(shape[..d]) * shape[d]
  {
    hide Size;
    assert shape[..d + 1] == shape[..d] + [shape[d]];
    SizeSnoc(shape[..d], shape[d]);
  }
}
