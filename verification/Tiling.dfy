/** What the copy loop of tilei does to coordinates: blas/cpu/NDArray.cpp. */
module Tiling {
  import opened Arithmetic
  import opened Radix
  import opened Strides
  /** The axis along which neighbouring elements are adjacent in the buffer. */
  function FastAxis(order: char, rank: nat): (a: nat)
    requires rank > 0
    ensures a < rank
  {
    if order == 'c' then rank - 1 else 0
  }

  /** Ones on the left up to n axes. */
  function PadTo(s: seq<nat>, n: nat): (r: seq<nat>)
    ensures |r| == if |s| < n then n else |s|
  {
    if |s| < n then seq(n - |s|, _ => 1) + s else s
  }

  function Tiled(shape: seq<nat>, reps: seq<nat>): (r: seq<nat>)
    requires |shape| == |reps|
    ensures |r| == |shape|
  {
    seq(|shape|, i requires 0 <= i < |shape| => shape[i] * reps[i])
  }

  /** With axes counted from the last one, each size is the old size times its count; missing sizes and counts are 1. */
  ghost predicate TiledAxes(t: seq<nat>, shape: seq<nat>, reps: seq<nat>) {
    var n := if |shape| < |reps| then |reps| else |shape|;
    && |t| == n
    && forall i | 0 <= i < n ::
         t[i] == (if i >= n - |shape| then shape[i - (n - |shape|)] else 1)
                 * (if i >= n - |reps| then reps[i - (n - |reps|)] else 1)
  }

  lemma TiledIsTiled(shape: seq<nat>, reps: seq<nat>)
    ensures TiledAxes(Tiled(PadTo(shape, |reps|), PadTo(reps, |shape|)), shape, reps)
  {
  }

  /** What tiling means: the element of the small array that a coordinate of the large one repeats. */
  function Wrapped(c: seq<nat>, shape: seq<nat>): (r: seq<nat>)
    requires |c| == |shape| && Positive(shape)
    ensures ValidCoord(shape, r)
  {
    seq(|shape|, i requires 0 <= i < |shape| => c[i] % shape[i])
  }

  /** Where the copy loop takes element p of the new buffer from: whole rows of the old buffer in turn, starting
      over at its end, each row rep times. */
  function TileSource(step: nat, rep: nat, length: nat, p: nat): int {
    if step * rep == 0 || length == 0 then 0 else (p / (step * rep) * step) % length + p % (step * rep) % step
  }

  /** The axes other than the fast one, the fastest of them last. */
  function Outer<S>(order: char, s: seq<S>): (r: seq<S>)
    requires |s| > 0
    ensures |r| == |s| - 1
  {
    if order == 'c' then s[..|s| - 1] else Rev(s[1..])
  }

  function Rev<S>(s: seq<S>): (r: seq<S>)
    ensures |r| == |s|
  {
    if s == [] then [] else Rev(s[1..]) + [s[0]]
  }

  lemma {:induction false} RevAt<S>(s: seq<S>, k: nat)
    requires k < |s|
    ensures Rev(s)[|s| - 1 - k] == s[k]
  {
    if k > 0 { RevAt(s[1..], k - 1); }
  }

  lemma {:induction false} RavelRev(shape: seq<nat>, c: seq<nat>)
    requires |c| == |shape|
    ensures RavelF(shape, c) == RavelC(Rev(shape), Rev(c)) && Size(Rev(shape)) == Size(shape)
  {
    if c != [] {
      RavelRev(shape[1..], c[1..]);
      RavelCSnoc(Rev(shape[1..]), Rev(c[1..]), shape[0], c[0]);
      SizeSnoc(Rev(shape[1..]), shape[0]);
    }
  }

  /** A position in the buffer is a row and a place in the row. */
  lemma RavelOuter(order: char, shape: seq<nat>, c: seq<nat>)
    requires |c| == |shape| > 0
    ensures var a := FastAxis(order, |shape|);
      && Ravel(order, shape, c) == RavelC(Outer(order, shape), Outer(order, c)) * shape[a] + c[a]
      && Size(shape) == Size(Outer(order, shape)) * shape[a]
  {
    if order == 'c' {
      var n := |shape| - 1;
      assert shape == shape[..n] + [shape[n]] && c == c[..n] + [c[n]];
      RavelCSnoc(shape[..n], c[..n], shape[n], c[n]);
      SizeSnoc(shape[..n], shape[n]);
    } else {
      RavelRev(shape[1..], c[1..]);
    }
  }

  lemma SizeOuter(order: char, shape: seq<nat>)
    requires |shape| > 0
    ensures Size(shape) == Size(Outer(order, shape)) * shape[FastAxis(order, |shape|)]
  {
    RavelOuter(order, shape, shape);
  }

  lemma {:induction false} PaddedSize(s: seq<nat>, n: nat)
    ensures Size(PadTo(s, n)) == Size(s)
  {
    if |s| < n {
      var ones := seq(n - |s|, _ => 1);
      AllOnes(ones);
      SizeAppend(ones, s);
    }
  }

  lemma {:induction false} ProductOne(q: seq<nat>)
    requires Size(q) == 1
    ensures forall k | 0 <= k < |q| :: q[k] == 1
  {
    SizePositive(q);
    forall k | 0 <= k < |q|
      ensures q[k] == 1
    {
      if q[k] > 1 { Repeated(q, k); }
    }
  }

  /** rows of the small array along axis a, and how often they are repeated as wholes. */
  ghost predicate TileCounts(p: seq<nat>, r: seq<nat>, a: nat, rows: nat, times: nat) {
    && |p| == |r| && a < |p|
    && Size(p) == rows * p[a]
    && Size(Tiled(p, r)) == Size(p) * Size(r) == rows * times * (p[a] * r[a])
    && (Size(Tiled(p, r)) > 0 ==> Size(p) > 0)
    && (Size(r) == 1 ==> Tiled(p, r) == p && r[a] == 1)
  }

  /** The sizes tilei computes with, after padding shape and repetition counts to the same number of axes. */
  lemma TileSizes(order: char, p: seq<nat>, r: seq<nat>)
    requires |p| == |r| > 0 && Size(r) > 0
    ensures TileCounts(p, r, FastAxis(order, |p|), Size(Outer(order, p)), Size(Outer(order, r)))
  {
    hide Size, Outer;
    var a := FastAxis(order, |p|);
    SizeOuter(order, p);
    SizeOuter(order, r);
    TiledSize(p, r);
    RegroupFour(Size(Outer(order, p)), p[a], Size(Outer(order, r)), r[a]);
    if Size(r) == 1 {
      ProductOne(r);
      assert Tiled(p, r) == p;
    }
  }

  lemma PaddedAxes(order: char, shape: seq<nat>, reps: seq<nat>)
    requires |shape| > 0
    ensures var p, r := PadTo(shape, |reps|), PadTo(reps, |shape|);
      var a := FastAxis(order, |p|);
      && |p| == |r| && Size(p) == Size(shape) && Size(r) == Size(reps)
      && p[a] == (if order == 'c' || |reps| <= |shape| then shape[FastAxis(order, |shape|)] else 1)
      && (|reps| > 0 && (order == 'c' || |reps| >= |shape|) ==> r[a] == reps[FastAxis(order, |reps|)])
      && (|reps| < |shape| && order != 'c' ==> r[a] == 1)
      && (|reps| <= |shape| ==> p == shape) && (reps == [] ==> Size(reps) == 1)
  {
    PaddedSize(shape, |reps|);
    PaddedSize(reps, |shape|);
  }

  /** For order 'f' and more repetition counts than axes the loop steps by the first count only, but copies whole
      columns that many times: unless columns have length 1, its last round writes past the end of the new buffer. */
  lemma ColumnsOverrun(shape: seq<nat>, reps: seq<nat>)
    requires |reps| > |shape| > 0 && Positive(shape) && Positive(reps)
    ensures var length := Size(Tiled(PadTo(shape, |reps|), reps));
      && length >= reps[0] && length % reps[0] == 0
      && (length - reps[0] + reps[0] * shape[0] > length <==> shape[0] > 1)
  {
    var p := PadTo(shape, |reps|);
    PaddedSize(shape, |reps|);
    SizePositive(p);
    SizePositive(shape);
    SizePositive(reps);
    TiledSize(p, reps);
    TiledTail(p, reps);
    var rest := Size(Tiled(p, reps)[1..]);
    assert Size(Tiled(p, reps)) == reps[0] * rest;
    MultipleMod(rest, reps[0]);
    ColumnTooLong(reps[0], rest, shape[0]);
  }

  lemma ColumnTooLong(n: nat, rest: nat, column: nat)
    requires n > 0 && n * rest > 0 && column > 0
    ensures n * rest >= n && (n * rest - n + n * column > n * rest <==> column > 1)
  {
    if column > 1 { MulMonotone(2, column, n); }
    if rest > 0 { MulMonotone(1, rest, n); }
  }

  /** From place i on, n places of s hold the row over and over. */
  ghost predicate RowRepeated<T>(s: seq<T>, i: nat, row: seq<T>, n: nat) {
    |row| > 0 && i + n <= |s| && forall t | 0 <= t < n :: s[i + t] == row[t % |row|]
  }

  lemma NothingRepeated<T>(s: seq<T>, i: nat, row: seq<T>)
    requires |row| > 0 && i <= |s|
    ensures RowRepeated(s, i, row, 0)
  {
  }

  lemma RowRepeatedAt<T>(s: seq<T>, i: nat, row: seq<T>, n: nat)
    requires RowRepeated(s, i, row, n)
    ensures i + n <= |s| && |row| > 0 && forall t | 0 <= t < n :: s[i + t] == row[t % |row|]
  {
  }

  lemma OneRowMore<T>(before: seq<T>, after: seq<T>, i: nat, row: seq<T>, copies: nat, n: nat)
    requires RowRepeated(before, i, row, n) && n == |row| * copies
    requires |after| == |before| && i + n + |row| <= |after|
    requires (forall p | 0 <= p < i + n :: after[p] == before[p]) && after[i + n..i + n + |row|] == row
    ensures RowRepeated(after, i, row, n + |row|)
  {
    forall t | 0 <= t < n + |row|
      ensures after[i + t] == row[t % |row|]
    {
      if t >= n {
        DivModUnique(copies, t - n, |row|);
        assert after[i + t] == after[i + n..i + n + |row|][t - n];
      }
    }
  }

  /** Without repetition nothing moves. */
  lemma NothingMoves<T>(buffer: seq<T>, step: nat, rows: nat)
    requires |buffer| == rows * step
    ensures RowsCopied(buffer, buffer, step, 1)
  {
    forall p | 0 <= p < |buffer|
      ensures TileSource(step, 1, |buffer|, p) == p
    {
      QuotientInRange(p, rows, step);
      RowSource(rows, step, 1, p / step, p % step, |buffer|, p);
      DivModUnique(0, p / step, rows);
      DivModUnique(0, p % step, step);
    }
  }

  lemma RowFits(row: nat, rowsNew: nat, rows: nat, step: nat, stepNew: nat)
    requires row * stepNew < rowsNew * stepNew && rows * step > 0
    ensures row < rowsNew && row * stepNew + stepNew <= rowsNew * stepNew && rows > 0 && step > 0 && stepNew > 0
    ensures (row % rows) * step + step <= rows * step
  {
    if row >= rowsNew { MulMonotone(rowsNew, row, stepNew); }
    MulMonotone(row + 1, rowsNew, stepNew);
    if rows == 0 || step == 0 || stepNew == 0 {
      assert false;
    }
    MulMonotone(row % rows + 1, rows, step);
  }

  lemma CopyFits(copies: nat, rep: nat, step: nat)
    requires step * copies < step * rep
    ensures copies < rep && step * copies + step <= step * rep && step * (copies + 1) == step * copies + step
  {
    if copies >= rep { MulMonotone(rep, copies, step); }
    MulMonotone(copies + 1, rep, step);
  }

  lemma NextRow(row: nat, rows: nat, step: nat)
    requires rows > 0 && step > 0
    ensures ((row + 1) % rows) * step ==
      if (row % rows) * step + step == rows * step then 0 else (row % rows) * step + step
  {
    NextTurn(row, rows);
    NextPosition(row % rows, rows, step);
  }

  lemma NextTurn(row: nat, rows: nat)
    requires rows > 0
    ensures (row + 1) % rows == if row % rows + 1 == rows then 0 else row % rows + 1
  {
    var q, t := row / rows, row % rows;
    assert row == q * rows + t && (q + 1) * rows == q * rows + rows;
    if t + 1 == rows {
      DivModUnique(q + 1, 0, rows);
    } else {
      DivModUnique(q, t + 1, rows);
    }
  }

  lemma NextPosition(turn: nat, rows: nat, step: nat)
    requires turn < rows && step > 0
    ensures turn * step + step == (turn + 1) * step
    ensures turn * step + step == rows * step <==> turn + 1 == rows
  {
    if turn + 1 < rows { MulMonotone(turn + 2, rows, step); }
  }

  /** Row by row: which row of the old buffer, and where in it. */
  lemma RowSource(rows: nat, step: nat, rep: nat, row: nat, t: nat, length: nat, p: nat)
    requires rows > 0 && step > 0 && t < step * rep
    requires length == rows * step && p == row * (step * rep) + t
    ensures TileSource(step, rep, length, p) == (row % rows) * step + t % step < length
  {
    DivModUnique(row, t, step * rep);
    SplitMod(row, 0, rows, step);
    CombineInRange(row % rows, t % step, rows, step);
  }

  /** Every element of the new buffer is the one that the copy loop brings there. */
  ghost predicate RowsCopied<T>(newBuff: seq<T>, buffer: seq<T>, step: nat, rep: nat) {
    forall p | 0 <= p < |newBuff| ::
      0 <= TileSource(step, rep, |buffer|, p) < |buffer| && newBuff[p] == buffer[TileSource(step, rep, |buffer|, p)]
  }

  lemma NothingCopied<T>(newBuff: seq<T>, buffer: seq<T>, step: nat, rep: nat)
    requires newBuff == []
    ensures RowsCopied(newBuff, buffer, step, rep)
  {
  }

  /** Repetition along any axis but the last needs all axes before it to have size 1. */
  ghost predicate SequentialC(shape: seq<nat>, reps: seq<nat>)
    requires |shape| == |reps|
  {
    forall j, k | 0 <= j < k < |shape| && reps[k] > 1 :: shape[j] == 1
  }

  lemma TiledTail(shape: seq<nat>, reps: seq<nat>)
    requires |shape| == |reps| && shape != []
    ensures Tiled(shape, reps)[0] == shape[0] * reps[0]
    ensures Tiled(shape, reps)[1..] == Tiled(shape[1..], reps[1..])
  {
  }

  lemma {:induction false} TiledSize(shape: seq<nat>, reps: seq<nat>)
    requires |shape| == |reps|
    ensures Size(Tiled(shape, reps)) == Size(shape) * Size(reps)
  {
    if shape != [] {
      TiledTail(shape, reps);
      TiledSize(shape[1..], reps[1..]);
      RegroupFour(shape[0], reps[0], Size(shape[1..]), Size(reps[1..]));
    }
  }

  lemma RegroupFour(a: nat, b: nat, m: nat, n: nat)
    ensures (a * b) * (m * n) == (a * m) * (b * n)
  {
    assert (a * b) * (m * n) == a * (b * (m * n));
    assert b * (m * n) == m * (b * n);
    assert (a * m) * (b * n) == a * (m * (b * n));
  }

  /** In rows: the number of a coordinate's row in the large array, taken modulo the number of rows of the small
      one, is the number of the wrapped coordinate's row, for all coordinates exactly if the repetition is
      sequential. */
  lemma RowsWrap(shape: seq<nat>, reps: seq<nat>)
    requires |shape| == |reps| && Positive(shape) && Positive(reps)
    ensures Size(shape) > 0
    ensures SequentialC(shape, reps) <==>
      forall c | ValidCoord(Tiled(shape, reps), c) ::
        RavelC(Tiled(shape, reps), c) % Size(shape) == RavelC(shape, Wrapped(c, shape))
  {
    SizePositive(shape);
    if SequentialC(shape, reps) {
      forall c | ValidCoord(Tiled(shape, reps), c)
        ensures RavelC(Tiled(shape, reps), c) % Size(shape) == RavelC(shape, Wrapped(c, shape))
      {
        RowWraps(shape, reps, c);
      }
    } else {
      var c := MisplacedRow(shape, reps);
    }
  }

  lemma RavelCHead(shape: seq<nat>, c: seq<nat>)
    requires |c| == |shape| && shape != []
    ensures Size(shape) == shape[0] * Size(shape[1..])
    ensures RavelC(shape, c) == c[0] * Size(shape[1..]) + RavelC(shape[1..], c[1..])
  {
  }

  /** One axis at a time. */
  lemma WrapStep(shape: seq<nat>, reps: seq<nat>, c: seq<nat>)
    requires |shape| == |reps| && Positive(shape) && Positive(reps) && shape != [] && |c| == |shape|
    requires ValidCoord(Tiled(shape[1..], reps[1..]), c[1..])
    ensures var s, q, d := shape[1..], reps[1..], c[1..];
      && Size(shape) == shape[0] * Size(s) && Size(s) > 0 && Positive(s)
      && RavelC(Tiled(shape, reps), c) == c[0] * (Size(s) * Size(q)) + RavelC(Tiled(s, q), d)
      && RavelC(Tiled(s, q), d) < Size(s) * Size(q)
      && RavelC(shape, Wrapped(c, shape)) == (c[0] % shape[0]) * Size(s) + RavelC(s, Wrapped(d, s))
      && RavelC(s, Wrapped(d, s)) < Size(s)
  {
    hide RavelC, Size;
    var s, q := shape[1..], reps[1..];
    SizePositive(s);
    TiledTail(shape, reps);
    TiledSize(s, q);
    RavelCHead(Tiled(shape, reps), c);
    RavelCHead(shape, Wrapped(c, shape));
    RavelCInverse(Tiled(s, q), c[1..]);
    RavelCInverse(s, Wrapped(c[1..], s));
    assert Wrapped(c, shape)[1..] == Wrapped(c[1..], s);
  }

  lemma {:induction false} RowWraps(shape: seq<nat>, reps: seq<nat>, c: seq<nat>)
    requires |shape| == |reps| && Positive(shape) && Positive(reps) && SequentialC(shape, reps)
    requires ValidCoord(Tiled(shape, reps), c) && Size(shape) > 0
    ensures RavelC(Tiled(shape, reps), c) % Size(shape) == RavelC(shape, Wrapped(c, shape))
  {
    hide RavelC, Size;
    if shape == [] {
      NoAxes();
    } else {
      var s, q := shape[1..], reps[1..];
      TiledTail(shape, reps);
      WrapStep(shape, reps, c);
      RowWraps(s, q, c[1..]);
      if shape[0] != 1 { AllOnes(q); }
      FirstAxisWraps(c[0], RavelC(Tiled(s, q), c[1..]), shape[0], Size(s), Size(q));
    }
  }

  lemma FirstAxisWraps(a: nat, k: nat, m: nat, n: nat, q: nat)
    requires m > 0 && n > 0 && k < n * q && (m == 1 || q == 1)
    ensures m * n > 0 && (a * (n * q) + k) % (m * n) == (a % m) * n + k % n
  {
    if m == 1 {
      UnitAxis(a, k, n, q);
    } else {
      SplitMod(a, k, m, n);
      DivModUnique(0, k, n);
    }
  }

  lemma UnitAxis(a: nat, k: nat, n: nat, q: nat)
    requires n > 0
    ensures (a * (n * q) + k) % (1 * n) == (a % 1) * n + k % n
  {
    SkipMultiple(a * q, n, k);
    RegroupProduct(a, q, 0, n);
  }

  lemma NoAxes()
    ensures Size([]) == 1 && RavelC([], []) == 0
  {
  }

  lemma {:induction false} AllOnes(q: seq<nat>)
    requires Positive(q) && forall k | 0 <= k < |q| :: q[k] <= 1
    ensures Size(q) == 1
  {
    if q != [] { AllOnes(q[1..]); }
  }

  /** Otherwise some row is taken from the wrong place. */
  lemma {:induction false} MisplacedRow(shape: seq<nat>, reps: seq<nat>) returns (c: seq<nat>)
    requires |shape| == |reps| && Positive(shape) && Positive(reps) && !SequentialC(shape, reps) && Size(shape) > 0
    ensures ValidCoord(Tiled(shape, reps), c)
    ensures RavelC(Tiled(shape, reps), c) % Size(shape) != RavelC(shape, Wrapped(c, shape))
  {
    hide RavelC, Size;
    var s, q := shape[1..], reps[1..];
    TiledTail(shape, reps);
    MulMonotone(1, shape[0], reps[0]);
    SizePositive(s);
    var d;
    if SequentialC(s, q) {
      d := SecondRound(s, q);
      SmallMod(Size(s), shape[0]);
    } else {
      d := MisplacedRow(s, q);
      ModOfMod(RavelC(Tiled(s, q), d), shape[0], Size(s));
    }
    c := [0] + d;
    FirstZero(shape, reps, d);
  }

  lemma FirstZero(shape: seq<nat>, reps: seq<nat>, d: seq<nat>)
    requires |shape| == |reps| && Positive(shape) && Positive(reps) && shape != []
    requires ValidCoord(Tiled(shape[1..], reps[1..]), d)
    ensures var s, q, c := shape[1..], reps[1..], [0] + d;
      && ValidCoord(Tiled(shape, reps), c) && Size(shape) == shape[0] * Size(s)
      && RavelC(Tiled(shape, reps), c) == RavelC(Tiled(s, q), d)
      && RavelC(shape, Wrapped(c, shape)) == RavelC(s, Wrapped(d, s)) < Size(s)
  {
    hide RavelC, Size, Tiled, Wrapped, Positive;
    var c := [0] + d;
    assert c[1..] == d;
    FirstZeroValid(shape, reps, d);
    WrapStep(shape, reps, c);
    DivModUnique(0, 0, shape[0]);
    ZeroTimes(Size(shape[1..]) * Size(reps[1..]));
    ZeroTimes(Size(shape[1..]));
  }

  lemma FirstZeroValid(shape: seq<nat>, reps: seq<nat>, d: seq<nat>)
    requires |shape| == |reps| && Positive(shape) && Positive(reps) && shape != []
    requires ValidCoord(Tiled(shape[1..], reps[1..]), d)
    ensures ValidCoord(Tiled(shape, reps), [0] + d) && shape[0] > 0 && Positive(shape[1..])
  {
    MulMonotone(1, shape[0], reps[0]);
  }

  lemma ZeroTimes(n: nat)
    ensures 0 * n == 0
  {
  }

  lemma SmallMod(n: nat, m: nat)
    requires n > 0
    ensures m > 1 ==> m * n > n && n % (m * n) == n
  {
    if m > 1 {
      MulMonotone(2, m, n);
      DivModUnique(0, n, m * n);
    }
  }

  lemma {:induction false} Repeated(q: seq<nat>, k: nat)
    requires Positive(q) && k < |q| && q[k] > 1
    ensures Size(q) > 1
  {
    SizePositive(q[1..]);
    if k > 0 {
      Repeated(q[1..], k - 1);
      MulMonotone(1, q[0], Size(q[1..]));
    } else {
      MulMonotone(2, q[0], Size(q[1..]));
    }
  }

  /** The first row of the large array at which the source starts over. */
  lemma SecondRound(s: seq<nat>, q: seq<nat>) returns (d: seq<nat>)
    requires |s| == |q| && Positive(s) && Positive(q) && exists k :: 0 <= k < |q| && q[k] > 1
    ensures Size(s) > 0 && ValidCoord(Tiled(s, q), d) && RavelC(Tiled(s, q), d) == Size(s)
  {
    hide RavelC, Size, UnravelC;
    SizePositive(s);
    var k :| 0 <= k < |q| && q[k] > 1;
    Repeated(q, k);
    TiledSize(s, q);
    MulMonotone(2, Size(q), Size(s));
    d := UnravelC(Tiled(s, q), Size(s));
    UnravelCInverse(Tiled(s, q), Size(s));
  }

  // ----- what the copy loop makes of coordinates

  /** No axis that is repeated lies between the fast axis and an axis longer than 1. */
  ghost predicate Sequential(order: char, shape: seq<nat>, reps: seq<nat>)
    requires |shape| == |reps|
  {
    if order == 'c'
    then forall j, k | 0 <= j < k < |shape| - 1 && reps[k] > 1 :: shape[j] == 1
    else forall j, k | 1 <= k < j < |shape| && reps[k] > 1 :: shape[j] == 1
  }

  /** Every coordinate of the new array finds the element that tiling puts there. */
  ghost predicate TilesRight(order: char, shape: seq<nat>, reps: seq<nat>)
    requires |shape| == |reps| > 0 && Positive(shape)
  {
    var a := FastAxis(order, |shape|);
    forall c | ValidCoord(Tiled(shape, reps), c) ::
      TileSource(shape[a], reps[a], Size(shape), Ravel(order, Tiled(shape, reps), c))
        == Ravel(order, shape, Wrapped(c, shape))
  }

  /** The copy loop tiles exactly if the repetition is sequential; in particular for every matrix. */
  lemma TilingIff(order: char, shape: seq<nat>, reps: seq<nat>)
    requires |shape| == |reps| > 0 && Positive(shape) && Positive(reps)
    ensures TilesRight(order, shape, reps) <==> Sequential(order, shape, reps)
    ensures |shape| <= 2 ==> TilesRight(order, shape, reps)
  {
    var s, q := Outer(order, shape), Outer(order, reps);
    OuterSequential(order, shape, reps);
    OuterPositive(order, shape);
    OuterPositive(order, reps);
    RowsWrap(s, q);
    if SequentialC(s, q) {
      forall c | ValidCoord(Tiled(shape, reps), c)
        ensures TileSource(shape[FastAxis(order, |shape|)], reps[FastAxis(order, |shape|)], Size(shape),
          Ravel(order, Tiled(shape, reps), c)) == Ravel(order, shape, Wrapped(c, shape))
      {
        SourceOfCoord(order, shape, reps, c);
      }
    } else {
      var o := MisplacedRow(s, q);
      var c := Join(order, shape, reps, o);
      SourceOfCoord(order, shape, reps, c);
      SameRow(RavelC(Tiled(s, q), o) % Size(s), RavelC(s, Wrapped(o, s)), shape[FastAxis(order, |shape|)]);
    }
  }

  lemma SameRow(a: nat, b: nat, n: nat)
    requires n > 0 && a != b
    ensures a * n != b * n
  {
    if a < b { MulMonotone(a + 1, b, n); } else { MulMonotone(b + 1, a, n); }
  }

  function OuterIndex(order: char, n: nat, k: nat): nat
    requires k + 1 < n
  {
    if order == 'c' then k else n - 1 - k
  }

  lemma OuterAt<S>(order: char, s: seq<S>, k: nat)
    requires k + 1 < |s|
    ensures Outer(order, s)[k] == s[OuterIndex(order, |s|, k)]
  {
    if order != 'c' { RevAt(s[1..], |s| - 2 - k); }
  }

  lemma OuterPositive(order: char, s: seq<nat>)
    requires |s| > 0 && Positive(s)
    ensures Positive(Outer(order, s))
  {
    forall k | 0 <= k < |s| - 1
      ensures Outer(order, s)[k] > 0
    {
      OuterAt(order, s, k);
    }
  }

  lemma OuterSequential(order: char, shape: seq<nat>, reps: seq<nat>)
    requires |shape| == |reps| > 0
    ensures Sequential(order, shape, reps) <==> SequentialC(Outer(order, shape), Outer(order, reps))
  {
    hide Rev;
    var n := |shape|;
    if order != 'c' {
      hide Outer;
      if Sequential(order, shape, reps) {
        forall j, k | 0 <= j < k < n - 1 && Outer(order, reps)[k] > 1
          ensures Outer(order, shape)[j] == 1
        {
          OuterAt(order, reps, k);
          OuterAt(order, shape, j);
        }
      }
      if SequentialC(Outer(order, shape), Outer(order, reps)) {
        forall j, k | 1 <= k < j < n && reps[k] > 1
          ensures shape[j] == 1
        {
          OuterAt(order, reps, n - 1 - k);
          OuterAt(order, shape, n - 1 - j);
        }
      }
    }
  }

  lemma OuterTiled(order: char, shape: seq<nat>, reps: seq<nat>)
    requires |shape| == |reps| > 0
    ensures Outer(order, Tiled(shape, reps)) == Tiled(Outer(order, shape), Outer(order, reps))
  {
    forall k | 0 <= k < |shape| - 1
      ensures Outer(order, Tiled(shape, reps))[k] == Tiled(Outer(order, shape), Outer(order, reps))[k]
    {
      OuterAt(order, Tiled(shape, reps), k);
      OuterAt(order, shape, k);
      OuterAt(order, reps, k);
    }
  }

  lemma OuterWrapped(order: char, c: seq<nat>, shape: seq<nat>)
    requires |c| == |shape| > 0 && Positive(shape)
    ensures Positive(Outer(order, shape))
    ensures Outer(order, Wrapped(c, shape)) == Wrapped(Outer(order, c), Outer(order, shape))
  {
    OuterPositive(order, shape);
    forall k | 0 <= k < |shape| - 1
      ensures Outer(order, Wrapped(c, shape))[k] == Wrapped(Outer(order, c), Outer(order, shape))[k]
    {
      OuterAt(order, Wrapped(c, shape), k);
      OuterAt(order, c, k);
      OuterAt(order, shape, k);
    }
  }

  lemma OuterValid(order: char, shape: seq<nat>, c: seq<nat>)
    requires ValidCoord(shape, c) && |shape| > 0
    ensures ValidCoord(Outer(order, shape), Outer(order, c))
  {
    forall k | 0 <= k < |shape| - 1
      ensures Outer(order, c)[k] < Outer(order, shape)[k]
    {
      OuterAt(order, c, k);
      OuterAt(order, shape, k);
    }
  }

  /** Where an element comes from and where tiling takes it from, in rows. */
  lemma SourceOfCoord(order: char, shape: seq<nat>, reps: seq<nat>, c: seq<nat>)
    requires |shape| == |reps| > 0 && Positive(shape) && Positive(reps) && ValidCoord(Tiled(shape, reps), c)
    ensures var s, q, o, a := Outer(order, shape), Outer(order, reps), Outer(order, c), FastAxis(order, |shape|);
      && Positive(s) && Size(s) > 0 && ValidCoord(Tiled(s, q), o)
      && TileSource(shape[a], reps[a], Size(shape), Ravel(order, Tiled(shape, reps), c))
           == (RavelC(Tiled(s, q), o) % Size(s)) * shape[a] + c[a] % shape[a]
      && Ravel(order, shape, Wrapped(c, shape)) == RavelC(s, Wrapped(o, s)) * shape[a] + c[a] % shape[a]
  {
    hide Ravel, RavelC, Size, Outer, TileSource;
    var s, a := Outer(order, shape), FastAxis(order, |shape|);
    OuterTiled(order, shape, reps);
    OuterWrapped(order, c, shape);
    OuterValid(order, Tiled(shape, reps), c);
    SizePositive(s);
    RavelOuter(order, Tiled(shape, reps), c);
    RavelOuter(order, shape, Wrapped(c, shape));
    RowSource(Size(s), shape[a], reps[a], RavelC(Tiled(s, Outer(order, reps)), Outer(order, c)), c[a], Size(shape),
              Ravel(order, Tiled(shape, reps), c));
  }

  /** A coordinate with the given outer part. */
  lemma Join(order: char, shape: seq<nat>, reps: seq<nat>, o: seq<nat>) returns (c: seq<nat>)
    requires |shape| == |reps| > 0 && Positive(shape) && Positive(reps)
    requires ValidCoord(Tiled(Outer(order, shape), Outer(order, reps)), o)
    ensures ValidCoord(Tiled(shape, reps), c) && Outer(order, c) == o
  {
    var n := |shape|;
    c := if order == 'c' then o + [0] else [0] + Rev(o);
    forall i | 0 <= i < n
      ensures c[i] < Tiled(shape, reps)[i]
    {
      if i == FastAxis(order, n) {
        MulMonotone(1, shape[i], reps[i]);
      } else {
        JoinAt(order, shape, reps, o, i);
      }
    }
    forall k | 0 <= k < n - 1
      ensures Outer(order, c)[k] == o[k]
    {
      OuterAt(order, c, k);
      if order != 'c' { RevAt(o, k); }
    }
  }

  lemma JoinAt(order: char, shape: seq<nat>, reps: seq<nat>, o: seq<nat>, i: nat)
    requires |shape| == |reps| > 0 && ValidCoord(Tiled(Outer(order, shape), Outer(order, reps)), o)
    requires i < |shape| && i != FastAxis(order, |shape|)
    ensures (if order == 'c' then o[i] else Rev(o)[i - 1]) < shape[i] * reps[i]
  {
    var k := OuterIndex(order, |shape|, if order == 'c' then i else |shape| - 1 - i);
    if order == 'c' {
      OuterAt(order, shape, i);
      OuterAt(order, reps, i);
    } else {
      RevAt(o, |o| - i);
      OuterAt(order, shape, |shape| - 1 - i);
      OuterAt(order, reps, |shape| - 1 - i);
    }
  }

  /** For the shapes a method can be given: all axes non-empty, and sequential as every matrix is. */
  lemma TiledIfSequential<T>(order: char, shape: seq<nat>, reps: seq<nat>, buffer: seq<T>, newBuff: seq<T>)
    requires |shape| == |reps| > 0 && Positive(shape) && Size(reps) > 0
    requires |buffer| == Size(shape) && |newBuff| == Size(Tiled(shape, reps))
    requires var a := FastAxis(order, |shape|); RowsCopied(newBuff, buffer, shape[a], reps[a])
    ensures Sequential(order, shape, reps) || |shape| <= 2 ==> ElementsTiled(order, shape, reps, buffer, newBuff)
  {
    SizePositive(reps);
    TiledElements(order, shape, reps, buffer, newBuff);
  }

  /** The same of the elements: a sequential repetition puts every element where tiling wants it; any other one
      misplaces some element, which shows as soon as the elements differ. */
  lemma TiledElements<T>(order: char, shape: seq<nat>, reps: seq<nat>, buffer: seq<T>, newBuff: seq<T>)
    requires |shape| == |reps| > 0 && Positive(shape) && Positive(reps)
    requires |buffer| == Size(shape) && |newBuff| == Size(Tiled(shape, reps))
    requires var a := FastAxis(order, |shape|); RowsCopied(newBuff, buffer, shape[a], reps[a])
    ensures Sequential(order, shape, reps) ==> ElementsTiled(order, shape, reps, buffer, newBuff)
    ensures !Sequential(order, shape, reps) && (forall i, j | 0 <= i < j < |buffer| :: buffer[i] != buffer[j]) ==>
      !ElementsTiled(order, shape, reps, buffer, newBuff)
  {
    TilingIff(order, shape, reps);
    forall c | ValidCoord(Tiled(shape, reps), c)
      ensures RavelIn(order, Tiled(shape, reps), c) && RavelIn(order, shape, Wrapped(c, shape))
    {
      OffsetIsRavel(order, Tiled(shape, reps), c);
      OffsetIsRavel(order, shape, Wrapped(c, shape));
    }
  }

  predicate RavelIn(order: char, shape: seq<nat>, c: seq<nat>)
    requires |c| == |shape|
  {
    Ravel(order, shape, c) < Size(shape)
  }

  ghost predicate ElementsTiled<T>(order: char, shape: seq<nat>, reps: seq<nat>, buffer: seq<T>, newBuff: seq<T>)
    requires |shape| == |reps| > 0 && Positive(shape)
  {
    forall c | ValidCoord(Tiled(shape, reps), c) ::
      && RavelIn(order, Tiled(shape, reps), c) && RavelIn(order, shape, Wrapped(c, shape))
      && Ravel(order, Tiled(shape, reps), c) < |newBuff| && Ravel(order, shape, Wrapped(c, shape)) < |buffer|
      && newBuff[Ravel(order, Tiled(shape, reps), c)] == buffer[Ravel(order, shape, Wrapped(c, shape))]
  }
}