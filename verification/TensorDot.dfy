/** Tensor contraction by permuting, reshaping and multiplying matrices: tensorDot in blas/cpu/NDArrayFactory.cpp.
    permute, reshapei and the matrix product are taken by their index meaning, the elements as reals. */
module TensorDot {
  import opened Sequences
  import opened Arithmetic
  import opened Radix

  /** A tensor with its elements listed in C order. */
  datatype Tensor = Tensor(shape: seq<nat>, data: seq<real>)

  /** An exception, the use of a null pointer, or a result. */
  datatype Outcome = Threw(message: string) | Crashed | Returned(tensor: Tensor)

  predicate Valid(t: Tensor) {
    |t.data| == Size(t.shape)
  }

  function At(t: Tensor, c: seq<nat>): real
    requires Valid(t) && ValidCoord(t.shape, c)
  {
    RavelCInverse(t.shape, c);
    t.data[RavelC(t.shape, c)]
  }

  // ----- permuting axes

  /** Every axis exactly once. */
  predicate Permutation(axes: seq<nat>, rank: nat) {
    && (forall i | 0 <= i < |axes| :: axes[i] < rank)
    && (forall i, j | 0 <= i < j < |axes| :: axes[i] != axes[j])
    && (forall x | 0 <= x < rank :: x in axes)
  }

  function IndexOf(axes: seq<nat>, x: nat): (i: nat)
    requires x in axes
    ensures i < |axes| && axes[i] == x
  {
    if axes[0] == x then 0 else 1 + IndexOf(axes[1..], x)
  }

  /** The sizes, or coordinates, along the given axes. */
  function Pick(s: seq<nat>, axes: seq<nat>): (r: seq<nat>)
    requires forall i | 0 <= i < |axes| :: axes[i] < |s|
    ensures |r| == |axes| && forall i | 0 <= i < |axes| :: r[i] == s[axes[i]]
  {
    seq(|axes|, i requires 0 <= i < |axes| => s[axes[i]])
  }

  /** The coordinate that has value v[i] along axes[i]. */
  function Place(axes: seq<nat>, rank: nat, v: seq<nat>): (c: seq<nat>)
    requires Permutation(axes, rank) && |v| == |axes|
    ensures |c| == rank && forall i | 0 <= i < |v| :: c[axes[i]] == v[i]
  {
    seq(rank, x requires 0 <= x < rank => v[IndexOf(axes, x)])
  }

  lemma PlaceValid(shape: seq<nat>, axes: seq<nat>, v: seq<nat>)
    requires Permutation(axes, |shape|) && ValidCoord(Pick(shape, axes), v)
    ensures ValidCoord(shape, Place(axes, |shape|, v))
  {
    forall x | 0 <= x < |shape|
      ensures Place(axes, |shape|, v)[x] < shape[x]
    {
      assert axes[IndexOf(axes, x)] == x;
    }
  }

  /** permute: axis i of the result is axis axes[i] of the argument. */
  function Permuted(t: Tensor, axes: seq<nat>): (r: Tensor)
    requires Valid(t) && Permutation(axes, |t.shape|)
    ensures Valid(r) && r.shape == Pick(t.shape, axes)
  {
    var shape := Pick(t.shape, axes);
    Tensor(shape, seq(Size(shape), k requires 0 <= k < Size(shape) =>
      UnravelCInverse(shape, k);
      PlaceValid(t.shape, axes, UnravelC(shape, k));
      At(t, Place(axes, |t.shape|, UnravelC(shape, k)))))
  }

  lemma PermutedAt(t: Tensor, axes: seq<nat>, v: seq<nat>)
    requires Valid(t) && Permutation(axes, |t.shape|) && ValidCoord(Pick(t.shape, axes), v)
    ensures ValidCoord(t.shape, Place(axes, |t.shape|, v))
      && At(Permuted(t, axes), v) == At(t, Place(axes, |t.shape|, v))
  {
    PlaceValid(t.shape, axes, v);
    RavelCInverse(Pick(t.shape, axes), v);
  }

  /** reshapei in C order keeps the listing of the elements. */
  function Reshaped(t: Tensor, shape: seq<nat>): (r: Tensor)
    requires Valid(t) && Size(shape) == Size(t.shape)
    ensures Valid(r)
  {
    Tensor(shape, t.data)
  }

  // ----- the matrix product

  predicate Matrix(t: Tensor) {
    Valid(t) && |t.shape| == 2
  }

  function Entry(t: Tensor, i: nat, j: nat): real
    requires Matrix(t) && i < t.shape[0] && j < t.shape[1]
  {
    At(t, [i, j])
  }

  /** The sum of the first n products of row i and column j. */
  function Products(a: Tensor, b: Tensor, i: nat, j: nat, n: nat): real
    requires Matrix(a) && Matrix(b) && i < a.shape[0] && j < b.shape[1] && n <= a.shape[1] && n <= b.shape[0]
  {
    if n == 0 then 0.0 else Products(a, b, i, j, n - 1) + Entry(a, i, n - 1) * Entry(b, n - 1, j)
  }

  function MatMul(a: Tensor, b: Tensor): (c: Tensor)
    requires Matrix(a) && Matrix(b) && a.shape[1] == b.shape[0]
    ensures Matrix(c) && c.shape == [a.shape[0], b.shape[1]]
  {
    var m, n := a.shape[0], b.shape[1];
    SizeOfMatrix(m, n);
    Tensor([m, n], seq(m * n, k requires 0 <= k < m * n =>
      QuotientInRange(k, m, n);
      Products(a, b, k / n, k % n, a.shape[1])))
  }

  lemma SizeOfMatrix(m: nat, n: nat)
    ensures Size([m, n]) == m * n
  {
    assert [m] + [n] == [m, n];
    SizeOne(m);
    SizeSnoc([m], n);
  }

  lemma RavelMatrix(m: nat, n: nat, i: nat, j: nat)
    ensures RavelC([m, n], [i, j]) == i * n + j
  {
    assert [m] + [n] == [m, n] && [i] + [j] == [i, j];
    RavelCOne(m, i);
    RavelCSnoc([m], [i], n, j);
  }

  lemma MatMulEntry(a: Tensor, b: Tensor, i: nat, j: nat)
    requires Matrix(a) && Matrix(b) && a.shape[1] == b.shape[0] && i < a.shape[0] && j < b.shape[1]
    ensures Entry(MatMul(a, b), i, j) == Products(a, b, i, j, a.shape[1])
  {
    var m, n := a.shape[0], b.shape[1];
    RavelMatrix(m, n, i, j);
    CombineInRange(i, j, m, n);
    DivModUnique(i, j, n);
  }

  // ----- the axis lists

  /** std::find over axes 0 .. rank - 1: those that are not contracted. */
  function Free(rank: nat, axes: seq<int>): (list: seq<nat>)
    ensures forall i | 0 <= i < |list| :: list[i] < rank && list[i] !in axes
    ensures forall i, j | 0 <= i < j < |list| :: list[i] < list[j]
    ensures forall x | 0 <= x < rank && x !in axes :: x in list
  {
    if rank == 0 then [] else
      var list := Free(rank - 1, axes);
      if rank - 1 in axes then list else list + [rank - 1]
  }

  /** Free axes and contracted axes, in either order, make a permutation of all axes. */
  lemma AxesPermute(rank: nat, axes: seq<nat>)
    requires Distinct(axes) && InRange(axes, rank)
    ensures Permutation(Free(rank, axes) + axes, rank) && Permutation(axes + Free(rank, axes), rank)
  {
  }

  lemma PickAppend(s: seq<nat>, x: seq<nat>, y: seq<nat>)
    requires InRange(x, |s|) && InRange(y, |s|)
    ensures InRange(x + y, |s|) && Pick(s, x + y) == Pick(s, x) + Pick(s, y)
  {
  }

  // ----- contraction

  /** What permute and the product of matrices need: distinct axes, and contracted index spaces of the same size. */
  predicate Contractible(a: Tensor, b: Tensor, axesA: seq<nat>, axesB: seq<nat>) {
    && Valid(a) && Valid(b)
    && InRange(axesA, |a.shape|) && InRange(axesB, |b.shape|) && Distinct(axesA) && Distinct(axesB)
    && Size(Pick(a.shape, axesA)) == Size(Pick(b.shape, axesB))
  }

  function FreeShape(t: Tensor, axes: seq<nat>): seq<nat> {
    Pick(t.shape, Free(|t.shape|, axes))
  }

  /** The coordinate with value v on the free axes and d on the contracted ones. */
  function Joined(t: Tensor, axes: seq<nat>, v: seq<nat>, d: seq<nat>): (c: seq<nat>)
    requires InRange(axes, |t.shape|) && Distinct(axes) && ValidCoord(FreeShape(t, axes), v)
      && ValidCoord(Pick(t.shape, axes), d)
    ensures ValidCoord(t.shape, c)
    ensures forall i | 0 <= i < |d| :: c[axes[i]] == d[i]
    ensures forall i | 0 <= i < |v| :: c[Free(|t.shape|, axes)[i]] == v[i]
  {
    var free := Free(|t.shape|, axes);
    AxesPermute(|t.shape|, axes);
    PickAppend(t.shape, free, axes);
    PlaceValid(t.shape, free + axes, v + d);
    PlaceAppend(free, axes, |t.shape|, v, d);
    Place(free + axes, |t.shape|, v + d)
  }

  lemma PlaceAppend(x: seq<nat>, y: seq<nat>, rank: nat, v: seq<nat>, d: seq<nat>)
    requires Permutation(x + y, rank) && |v| == |x| && |d| == |y|
    ensures InRange(x, rank) && forall i | 0 <= i < |v| :: Place(x + y, rank, v + d)[x[i]] == v[i]
    ensures InRange(y, rank) && forall i | 0 <= i < |d| :: Place(x + y, rank, v + d)[y[i]] == d[i]
  {
    forall i | 0 <= i < |x|
      ensures x[i] < rank && Place(x + y, rank, v + d)[x[i]] == v[i]
    {
      assert (x + y)[i] == x[i] && (v + d)[i] == v[i];
    }
    forall i | 0 <= i < |y|
      ensures y[i] < rank && Place(x + y, rank, v + d)[y[i]] == d[i]
    {
      assert (x + y)[|x| + i] == y[i] && (v + d)[|x| + i] == d[i];
    }
  }

  /** The order in which the two lists of axes are put together does not matter. */
  lemma PlaceSwap(x: seq<nat>, y: seq<nat>, rank: nat, v: seq<nat>, d: seq<nat>)
    requires Permutation(x + y, rank) && Permutation(y + x, rank) && |v| == |x| && |d| == |y|
    ensures Place(x + y, rank, v + d) == Place(y + x, rank, d + v)
  {
    PlaceAppend(x, y, rank, v, d);
    PlaceAppend(y, x, rank, d, v);
    forall k | 0 <= k < rank
      ensures Place(x + y, rank, v + d)[k] == Place(y + x, rank, d + v)[k]
    {
      assert k in x + y;
      if k in x {
        var i :| 0 <= i < |x| && x[i] == k;
      } else {
        var i :| 0 <= i < |y| && y[i] == k;
      }
    }
  }

  /** The sum over the first n contracted coordinates, numbered alike in both operands. For axes paired up with equal
      sizes, coordinates with the same number are the same. */
  function Contraction(a: Tensor, b: Tensor, axesA: seq<nat>, axesB: seq<nat>, u: seq<nat>, v: seq<nat>, n: nat): real
    requires Contractible(a, b, axesA, axesB) && ValidCoord(FreeShape(a, axesA), u)
      && ValidCoord(FreeShape(b, axesB), v)
    requires n <= Size(Pick(a.shape, axesA))
  {
    hide UnravelC, RavelC, Size, Pick, Free;
    if n == 0 then 0.0 else
      var d, e := UnravelC(Pick(a.shape, axesA), n - 1), UnravelC(Pick(b.shape, axesB), n - 1);
      UnravelCInverse(Pick(a.shape, axesA), n - 1);
      UnravelCInverse(Pick(b.shape, axesB), n - 1);
      Contraction(a, b, axesA, axesB, u, v, n - 1) + At(a, Joined(a, axesA, u, d)) * At(b, Joined(b, axesB, v, e))
  }

  // ----- the operands as matrices

  /** The first operand: free axes in front, then reshaped to two dimensions. */
  function LeftMatrix(a: Tensor, axes: seq<nat>): (m: Tensor)
    requires Valid(a) && Distinct(axes) && InRange(axes, |a.shape|)
    ensures Matrix(m) && m.shape == [Size(FreeShape(a, axes)), Size(Pick(a.shape, axes))]
  {
    var free := Free(|a.shape|, axes);
    AxesPermute(|a.shape|, axes);
    PickAppend(a.shape, free, axes);
    SizeAppend(Pick(a.shape, free), Pick(a.shape, axes));
    SizeOfMatrix(Size(Pick(a.shape, free)), Size(Pick(a.shape, axes)));
    Reshaped(Permuted(a, free + axes), [Size(Pick(a.shape, free)), Size(Pick(a.shape, axes))])
  }

  /** The second operand: free axes last. */
  function RightMatrix(b: Tensor, axes: seq<nat>): (m: Tensor)
    requires Valid(b) && Distinct(axes) && InRange(axes, |b.shape|)
    ensures Matrix(m) && m.shape == [Size(Pick(b.shape, axes)), Size(FreeShape(b, axes))]
  {
    var free := Free(|b.shape|, axes);
    AxesPermute(|b.shape|, axes);
    PickAppend(b.shape, axes, free);
    SizeAppend(Pick(b.shape, axes), Pick(b.shape, free));
    SizeOfMatrix(Size(Pick(b.shape, axes)), Size(Pick(b.shape, free)));
    Reshaped(Permuted(b, axes + free), [Size(Pick(b.shape, axes)), Size(Pick(b.shape, free))])
  }

  /** Reshaping a tensor whose axes fall into two groups to a matrix: the numbers of the two parts of a coordinate
      are its row and column. */
  lemma TwoGroups(t: Tensor, s: seq<nat>, r: seq<nat>, v: seq<nat>, d: seq<nat>)
    requires Valid(t) && t.shape == s + r && ValidCoord(s, v) && ValidCoord(r, d)
    ensures Size([Size(s), Size(r)]) == Size(t.shape)
    ensures RavelC(s, v) < Size(s) && RavelC(r, d) < Size(r) && ValidCoord(t.shape, v + d)
    ensures Entry(Reshaped(t, [Size(s), Size(r)]), RavelC(s, v), RavelC(r, d)) == At(t, v + d)
  {
    hide RavelC, Size;
    SizeAppend(s, r);
    SizeOfMatrix(Size(s), Size(r));
    RavelCInverse(s, v);
    RavelCInverse(r, d);
    RavelCAppend(s, v, r, d);
    ValidAppend(s, r, v, d);
    hide Entry, ValidCoord;
    EntryIs(Reshaped(t, [Size(s), Size(r)]), Size(s), Size(r), RavelC(s, v), RavelC(r, d));
  }

  lemma ValidAppend(s: seq<nat>, r: seq<nat>, v: seq<nat>, d: seq<nat>)
    requires ValidCoord(s, v) && ValidCoord(r, d)
    ensures ValidCoord(s + r, v + d)
  {
  }

  lemma EntryIs(m: Tensor, rows: nat, columns: nat, i: nat, j: nat)
    requires Valid(m) && m.shape == [rows, columns] && i < rows && j < columns
    ensures 0 <= i * columns + j < |m.data| && Entry(m, i, j) == m.data[i * columns + j]
  {
    RavelMatrix(rows, columns, i, j);
    RavelCInverse(m.shape, [i, j]);
  }

  lemma LeftEntry(a: Tensor, axes: seq<nat>, u: seq<nat>, d: seq<nat>)
    requires Valid(a) && Distinct(axes) && InRange(axes, |a.shape|)
    requires ValidCoord(FreeShape(a, axes), u) && ValidCoord(Pick(a.shape, axes), d)
    ensures RavelC(FreeShape(a, axes), u) < Size(FreeShape(a, axes))
      && RavelC(Pick(a.shape, axes), d) < Size(Pick(a.shape, axes))
    ensures Entry(LeftMatrix(a, axes), RavelC(FreeShape(a, axes), u), RavelC(Pick(a.shape, axes), d))
      == At(a, Joined(a, axes, u, d))
  {
    hide RavelC, Size, Permuted, Place, Free, Pick;
    var free := Free(|a.shape|, axes);
    AxesPermute(|a.shape|, axes);
    PickAppend(a.shape, free, axes);
    TwoGroups(Permuted(a, free + axes), Pick(a.shape, free), Pick(a.shape, axes), u, d);
    PermutedAt(a, free + axes, u + d);
  }

  lemma RightEntry(b: Tensor, axes: seq<nat>, v: seq<nat>, d: seq<nat>)
    requires Valid(b) && Distinct(axes) && InRange(axes, |b.shape|)
    requires ValidCoord(FreeShape(b, axes), v) && ValidCoord(Pick(b.shape, axes), d)
    ensures RavelC(FreeShape(b, axes), v) < Size(FreeShape(b, axes))
      && RavelC(Pick(b.shape, axes), d) < Size(Pick(b.shape, axes))
    ensures Entry(RightMatrix(b, axes), RavelC(Pick(b.shape, axes), d), RavelC(FreeShape(b, axes), v))
      == At(b, Joined(b, axes, v, d))
  {
    hide RavelC, Size, Permuted, Place, Free, Pick;
    var free := Free(|b.shape|, axes);
    AxesPermute(|b.shape|, axes);
    PickAppend(b.shape, axes, free);
    PickAppend(b.shape, free, axes);
    TwoGroups(Permuted(b, axes + free), Pick(b.shape, axes), Pick(b.shape, free), d, v);
    PermutedAt(b, axes + free, d + v);
    PlaceSwap(free, axes, |b.shape|, v, d);
  }

  /** The matrix entries' product sums are the contraction. */
  lemma {:induction false} ProductsContract(a: Tensor, b: Tensor, axesA: seq<nat>, axesB: seq<nat>, u: seq<nat>,
      v: seq<nat>, n: nat)
    requires Contractible(a, b, axesA, axesB) && ValidCoord(FreeShape(a, axesA), u)
      && ValidCoord(FreeShape(b, axesB), v)
    requires n <= Size(Pick(a.shape, axesA))
    ensures RavelC(FreeShape(a, axesA), u) < Size(FreeShape(a, axesA))
      && RavelC(FreeShape(b, axesB), v) < Size(FreeShape(b, axesB))
    ensures Products(LeftMatrix(a, axesA), RightMatrix(b, axesB), RavelC(FreeShape(a, axesA), u),
      RavelC(FreeShape(b, axesB), v), n)
         == Contraction(a, b, axesA, axesB, u, v, n)
  {
    hide RavelC, Size, UnravelC, Free, Pick, LeftMatrix, RightMatrix, Joined, At, Entry;
    RavelCInverse(FreeShape(a, axesA), u);
    RavelCInverse(FreeShape(b, axesB), v);
    if n > 0 {
      ProductsContract(a, b, axesA, axesB, u, v, n - 1);
      UnravelCInverse(Pick(a.shape, axesA), n - 1);
      UnravelCInverse(Pick(b.shape, axesB), n - 1);
      LeftEntry(a, axesA, u, UnravelC(Pick(a.shape, axesA), n - 1));
      RightEntry(b, axesB, v, UnravelC(Pick(b.shape, axesB), n - 1));
    }
  }

  /** What tensorDot computes for a contraction, written with the operations it calls. */
  function Dotted(a: Tensor, b: Tensor, axesA: seq<nat>, axesB: seq<nat>): (c: Tensor)
    requires Contractible(a, b, axesA, axesB)
    ensures Valid(c) && c.shape == FreeShape(a, axesA) + FreeShape(b, axesB)
  {
    SizeAppend(FreeShape(a, axesA), FreeShape(b, axesB));
    SizeOfMatrix(Size(FreeShape(a, axesA)), Size(FreeShape(b, axesB)));
    Reshaped(MatMul(LeftMatrix(a, axesA), RightMatrix(b, axesB)), FreeShape(a, axesA) + FreeShape(b, axesB))
  }

  /** Every element of the result is the sum over all contracted coordinates of the products of the operands'
      elements. */
  lemma DotContracts(a: Tensor, b: Tensor, axesA: seq<nat>, axesB: seq<nat>, u: seq<nat>, v: seq<nat>)
    requires Contractible(a, b, axesA, axesB) && ValidCoord(FreeShape(a, axesA), u)
      && ValidCoord(FreeShape(b, axesB), v)
    ensures ValidCoord(FreeShape(a, axesA) + FreeShape(b, axesB), u + v)
    ensures At(Dotted(a, b, axesA, axesB), u + v) == Contraction(a, b, axesA, axesB, u, v, Size(Pick(a.shape, axesA)))
  {
    hide RavelC, Size, Free, Pick, LeftMatrix, RightMatrix, Contraction, MatMul, Entry, Products;
    var s, r := FreeShape(a, axesA), FreeShape(b, axesB);
    ProductsContract(a, b, axesA, axesB, u, v, Size(Pick(a.shape, axesA)));
    MatMulEntry(LeftMatrix(a, axesA), RightMatrix(b, axesB), RavelC(s, u), RavelC(r, v));
    TwoGroups(Dotted(a, b, axesA, axesB), s, r, u, v);
  }

  // ----- the function itself

  /** sizeAt. */
  function SizeAt(shape: seq<nat>, axis: int): nat
    requires -|shape| <= axis < |shape|
  {
    if axis >= 0 then shape[axis] else shape[|shape| + axis]
  }

  /** The first n axes name axes of both tensors, negative ones counted from the end, and the two sizes agree. */
  ghost predicate AxesMatch(a: Tensor, b: Tensor, axes0: seq<int>, axes1: seq<int>, n: nat)
    requires n <= |axes0| && n <= |axes1|
  {
    forall i | 0 <= i < n ::
      && -|a.shape| <= axes0[i] < |a.shape| && -|b.shape| <= axes1[i] < |b.shape|
      && a.shape[if axes0[i] < 0 then axes0[i] + |a.shape| else axes0[i]]
           == b.shape[if axes1[i] < 0 then axes1[i] + |b.shape| else axes1[i]]
  }

  /** The loop looks at as many axes as the shorter list has. */
  ghost predicate Validated(a: Tensor, b: Tensor, axes0: seq<int>, axes1: seq<int>) {
    && (|axes0| <= |axes1| ==> AxesMatch(a, b, axes0, axes1, |axes0|))
    && (|axes1| <= |axes0| ==> AxesMatch(a, b, axes0, axes1, |axes1|))
  }

  /** The first n axes are counted from the front, the others are as they were. */
  ghost predicate Normalised(was: seq<int>, now: seq<int>, rank: nat, n: nat) {
    && n <= |was| == |now|
    && (forall i | 0 <= i < n :: 0 <= now[i] < rank && (now[i] == was[i] || now[i] == was[i] + rank))
    && (forall i | n <= i < |was| :: now[i] == was[i])
  }

  /** What the loop makes of both lists. */
  ghost predicate BothNormalised(a: Tensor, b: Tensor, was0: seq<int>, was1: seq<int>, now0: seq<int>, now1: seq<int>) {
    && (|was0| <= |was1| ==> Normalised(was0, now0, |a.shape|, |was0|) && Normalised(was1, now1, |b.shape|, |was0|))
    && (|was1| <= |was0| ==> Normalised(was0, now0, |a.shape|, |was1|) && Normalised(was1, now1, |b.shape|, |was1|))
  }

  predicate AllNat(s: seq<int>) {
    forall i | 0 <= i < |s| :: s[i] >= 0
  }

  /** If validation succeeds, what it leaves is fit for permute and the product. */
  ghost predicate Usable(a: Tensor, b: Tensor, axes0: seq<int>, axes1: seq<int>) {
    forall x, y | Validated(a, b, axes0, axes1) && BothNormalised(a, b, axes0, axes1, x, y) ::
      AllNat(x) && AllNat(y) && Contractible(a, b, x, y)
  }

  method Normalise(axes: array<int>, i: nat, rank: nat)
    requires i < axes.Length && 0 <= axes[i] + rank && axes[i] < rank
    modifies axes
    ensures 0 <= axes[i] < rank && (axes[i] == old(axes[i]) || axes[i] == old(axes[i]) + rank)
    ensures axes[..] == old(axes[..])[i := axes[i]]
  {
    if axes[i] < 0 {
      axes[i] := axes[i] + rank;
    }
  }

  lemma NormalisedNext(was: seq<int>, now: seq<int>, rank: nat, i: nat, x: int)
    requires Normalised(was, now, rank, i) && i < |was| && 0 <= x < rank && (x == was[i] || x == was[i] + rank)
    ensures Normalised(was, now[i := x], rank, i + 1)
  {
  }

  /** The validation loop; it normalises the caller's axes as it goes. */
  method ValidateAxes(a: Tensor, b: Tensor, axes0: array<int>, axes1: array<int>) returns (error: string)
    requires axes0 != axes1
    modifies axes0, axes1
    ensures error == "" <==> Validated(a, b, old(axes0[..]), old(axes1[..]))
    ensures error == "" ==> BothNormalised(a, b, old(axes0[..]), old(axes1[..]), axes0[..], axes1[..])
  {
    ghost var was0, was1 := axes0[..], axes1[..];
    var validationLength := if axes0.Length < axes1.Length then axes0.Length else axes1.Length;
    for i := 0 to validationLength
      invariant Normalised(was0, axes0[..], |a.shape|, i) && Normalised(was1, axes1[..], |b.shape|, i)
      invariant AxesMatch(a, b, was0, was1, i)
    {
      NotYetNormalised(was0, axes0[..], |a.shape|, i);
      NotYetNormalised(was1, axes1[..], |b.shape|, i);
      hide Normalised, AxesMatch, Validated;
      AxisChecked(a, b, was0, was1, i);
      if !(-|a.shape| <= axes0[i] < |a.shape|) || !(-|b.shape| <= axes1[i] < |b.shape|) {
        return "Bad size index requested";
      }
      if SizeAt(a.shape, axes0[i]) != SizeAt(b.shape, axes1[i]) {
        return "Size of the given axes at each dimension must be the same size.";
      }
      ghost var now0, now1 := axes0[..], axes1[..];
      Normalise(axes0, i, |a.shape|);
      Normalise(axes1, i, |b.shape|);
      NormalisedNext(was0, now0, |a.shape|, i, axes0[i]);
      NormalisedNext(was1, now1, |b.shape|, i, axes1[i]);
    }
    hide Normalised, AxesMatch;
    return "";
  }

  /** One round: the next axes are good, or validation fails. */
  lemma AxisChecked(a: Tensor, b: Tensor, axes0: seq<int>, axes1: seq<int>, i: nat)
    requires i < |axes0| && i < |axes1| && AxesMatch(a, b, axes0, axes1, i)
    ensures var good := -|a.shape| <= axes0[i] < |a.shape| && -|b.shape| <= axes1[i] < |b.shape|
      && SizeAt(a.shape, axes0[i]) == SizeAt(b.shape, axes1[i]);
      if good then AxesMatch(a, b, axes0, axes1, i + 1) else !Validated(a, b, axes0, axes1)
  {
  }

  lemma NotYetNormalised(was: seq<int>, now: seq<int>, rank: nat, i: nat)
    requires Normalised(was, now, rank, i) && i < |was|
    ensures |now| == |was| && now[i] == was[i]
  {
  }

  lemma FreeStep(rank: nat, axes: seq<int>)
    ensures Free(rank, axes) ==
      if rank == 0 then [] else Free(rank - 1, axes) + if rank - 1 in axes then [] else [rank - 1]
  {
    if rank > 0 && rank - 1 in axes { assert Free(rank - 1, axes) + [] == Free(rank - 1, axes); }
  }

  /** The loop with std::find. */
  method FreeAxes(rank: nat, axes: seq<int>) returns (list: seq<nat>)
    ensures list == Free(rank, axes)
  {
    hide Free;
    list := [];
    FreeStep(0, axes);
    for i := 0 to rank
      invariant list == Free(i, axes)
    {
      FreeStep(i + 1, axes);
      if i !in axes {
        list := list + [i];
      }
    }
  }

  /** The loops that multiply up the sizes of the contracted axes. */
  method ProductOfSizes(shape: seq<nat>, axes: seq<nat>) returns (n: nat)
    requires InRange(axes, |shape|) && Distinct(axes)
    ensures n == Size(Pick(shape, axes))
  {
    DistinctFit(axes, |shape|);
    n := 1;
    var length := if |shape| < |axes| then |shape| else |axes|;
    for i := 0 to length
      invariant n == Size(Pick(shape, axes)[..i])
    {
      SizeGrows(Pick(shape, axes), i);
      n := n * shape[axes[i]];
    }
    assert Pick(shape, axes)[..length] == Pick(shape, axes);
  }

  /** reshapei infers a dimension given as -1 from the length and the product of the positive ones. */
  function Inferred(length: nat, other: nat): nat {
    if other >= 1 then length / other else length
  }

  lemma InferredIs(rows: nat, n: nat)
    requires n >= 1
    ensures Inferred(rows * n, n) == rows
  {
    DivModUnique(rows, 0, n);
  }

  method OldShape(shape: seq<nat>, list: seq<nat>) returns (r: seq<nat>)
    requires InRange(list, |shape|)
    ensures r == if list == [] then [1] else Pick(shape, list)
  {
    if |list| == 0 {
      return [1];
    }
    r := list;
    for i := 0 to |r|
      invariant |r| == |list| && forall k | 0 <= k < |r| :: r[k] == if k < i then shape[list[k]] else list[k]
    {
      r := r[i := shape[r[i]]];
    }
  }

  // ----- mmulHelper on two matrices

  predicate IsVector(t: Tensor)
    requires Matrix(t)
  {
    |t.data| != 1 && (t.shape[0] == 1 || t.shape[1] == 1)
  }

  predicate IsMatrix(t: Tensor)
    requires Matrix(t)
  {
    t.shape[0] != 1 && t.shape[1] != 1
  }

  /** nd4j_dot over the two buffers. */
  function FlatDot(x: seq<real>, y: seq<real>, n: nat): real
    requires n <= |x| && n <= |y|
  {
    if n == 0 then 0.0 else FlatDot(x, y, n - 1) + x[n - 1] * y[n - 1]
  }

  /** mmulHelper without a result to write to: the branch for a matrix and a vector writes through that null
      pointer, and when no branch applies it is returned. */
  function MmulHelper(a: Tensor, b: Tensor): (r: Outcome)
    requires Matrix(a) && Matrix(b) && a.shape[1] == b.shape[0]
    ensures r.Returned? ==> Valid(r.tensor)
  {
    if IsVector(a) && IsVector(b) then
      if |a.data| != |b.data| then Threw("A length != B length") else
        SizeOfMatrix(1, 1);
        Returned(Tensor([1, 1], [FlatDot(a.data, b.data, |a.data|)]))
    else if IsMatrix(a) && IsVector(b) then Crashed
    else if (IsMatrix(a) && IsMatrix(b)) || (IsVector(a) && IsMatrix(b)) then Returned(MatMul(a, b))
    else Crashed
  }

  /** The dot product of a row and a column is their only entry. */
  lemma {:induction false} DotIsProduct(a: Tensor, b: Tensor, n: nat)
    requires Matrix(a) && Matrix(b) && a.shape[0] == 1 && b.shape[1] == 1 && a.shape[1] == b.shape[0] && n <= a.shape[1]
    ensures |a.data| == |b.data| == a.shape[1] && FlatDot(a.data, b.data, n) == Products(a, b, 0, 0, n)
  {
    SizeOfMatrix(1, a.shape[1]);
    SizeOfMatrix(b.shape[0], 1);
    assert a.shape == [1, a.shape[1]] && b.shape == [b.shape[0], 1];
    if n > 0 {
      DotIsProduct(a, b, n - 1);
      RavelMatrix(1, a.shape[1], 0, n - 1);
      RavelMatrix(b.shape[0], 1, n - 1, 0);
    }
  }

  /** When mmulHelper returns the product: the columns of the first matrix are at least two, and the second one is
      not a column unless the first one is a row. */
  predicate Multiplies(rows: nat, n: nat, columns: nat) {
    n >= 2 && (columns != 1 || rows == 1)
  }

  lemma MmulCases(a: Tensor, b: Tensor)
    requires Matrix(a) && Matrix(b) && a.shape[1] == b.shape[0]
    ensures var rows, n, columns := a.shape[0], a.shape[1], b.shape[1];
      && (Multiplies(rows, n, columns) ==> MmulHelper(a, b) == Returned(MatMul(a, b)))
      && (n > 0 && !Multiplies(rows, n, columns) && MmulHelper(a, b).Returned? ==>
            rows * columns != 1 && MmulHelper(a, b).tensor.shape == [1, 1])
      && (n > 0 && !Multiplies(rows, n, columns) ==>
            (MmulHelper(a, b).Crashed? <==> n != 1 || rows == 1 || columns == 1))
      && (rows == n == columns == 0 ==> MmulHelper(a, b) == Returned(MatMul(a, b)))
  {
    var rows, n, columns := a.shape[0], a.shape[1], b.shape[1];
    assert a.shape == [rows, n] && b.shape == [n, columns];
    SizeOfMatrix(rows, n);
    SizeOfMatrix(n, columns);
    if rows == 1 && columns == 1 {
      DotIsProduct(a, b, n);
      OneEntry(MatMul(a, b));
      MatMulEntry(a, b, 0, 0);
    }
    NotOne(rows, columns);
    NotOne(rows, n);
    NotOne(n, columns);
  }

  lemma NotOne(m: nat, n: nat)
    ensures m * n == 1 <==> m == 1 && n == 1
    ensures n == 1 ==> m * n == m
    ensures m == 1 ==> m * n == n
  {
    if m > 1 && n > 0 { MulMonotone(1, n, m); }
    if n > 1 && m > 0 { MulMonotone(1, m, n); }
  }

  lemma OneEntry(c: Tensor)
    requires Matrix(c) && c.shape == [1, 1]
    ensures c == Tensor([1, 1], [Entry(c, 0, 0)])
  {
    SizeOfMatrix(1, 1);
    RavelMatrix(1, 1, 0, 0);
  }

  // ----- the result

  /** The part of the result's shape that an operand contributes: its free sizes, or a single 1. */
  function KeptShape(t: Tensor, axes: seq<nat>): seq<nat> {
    if Free(|t.shape|, axes) == [] then [1] else FreeShape(t, axes)
  }

  /** A coordinate of that part without the single 0. */
  function Bare(t: Tensor, axes: seq<nat>, u: seq<nat>): (r: seq<nat>)
    requires ValidCoord(KeptShape(t, axes), u)
    ensures ValidCoord(FreeShape(t, axes), r)
  {
    if Free(|t.shape|, axes) == [] then [] else u
  }

  lemma BareNumber(t: Tensor, axes: seq<nat>, u: seq<nat>)
    requires ValidCoord(KeptShape(t, axes), u)
    ensures RavelC(KeptShape(t, axes), u) == RavelC(FreeShape(t, axes), Bare(t, axes, u))
  {
    if Free(|t.shape|, axes) == [] {
      assert u == [0];
      RavelCOne(1, 0);
      assert RavelC([], []) == 0;
    }
  }

  lemma KeptSize(t: Tensor, axes: seq<nat>)
    ensures Size(KeptShape(t, axes)) == Size(FreeShape(t, axes))
  {
    SizeOne(1);
    SizeOfNone();
  }

  lemma SizeOfNone()
    ensures Size([]) == 1
  {
  }

  /** Every element of c is the contraction at its free coordinates. */
  ghost predicate IsContraction(c: Tensor, a: Tensor, b: Tensor, x: seq<nat>, y: seq<nat>)
    requires Contractible(a, b, x, y) && Valid(c) && c.shape == KeptShape(a, x) + KeptShape(b, y)
  {
    forall u, v | ValidCoord(KeptShape(a, x), u) && ValidCoord(KeptShape(b, y), v) ::
      && ValidCoord(c.shape, u + v)
      && At(c, u + v) == Contraction(a, b, x, y, Bare(a, x, u), Bare(b, y, v), Size(Pick(a.shape, x)))
  }

  /** Giving operands without free axes an axis of size 1 does not matter to the elements. */
  lemma KeptContracts(c: Tensor, a: Tensor, b: Tensor, x: seq<nat>, y: seq<nat>)
    requires Contractible(a, b, x, y) && c == Tensor(KeptShape(a, x) + KeptShape(b, y), Dotted(a, b, x, y).data)
    ensures Valid(c) && IsContraction(c, a, b, x, y)
  {
    hide RavelC, Size, Contraction, Dotted, KeptShape, Free, Pick, Bare;
    var s, r := KeptShape(a, x), KeptShape(b, y);
    KeptSize(a, x);
    KeptSize(b, y);
    SizeAppend(s, r);
    SizeAppend(FreeShape(a, x), FreeShape(b, y));
    forall u, v | ValidCoord(s, u) && ValidCoord(r, v)
      ensures ValidCoord(c.shape, u + v)
      ensures At(c, u + v) == Contraction(a, b, x, y, Bare(a, x, u), Bare(b, y, v), Size(Pick(a.shape, x)))
    {
      BareNumber(a, x, u);
      BareNumber(b, y, v);
      RavelCAppend(s, u, r, v);
      RavelCAppend(FreeShape(a, x), Bare(a, x, u), FreeShape(b, y), Bare(b, y, v));
      assert ValidCoord(c.shape, u + v);
      DotContracts(a, b, x, y, Bare(a, x, u), Bare(b, y, v));
    }
  }

  /** Without elements there is nothing to compare. */
  lemma EmptyContracts(c: Tensor, a: Tensor, b: Tensor, x: seq<nat>, y: seq<nat>)
    requires Contractible(a, b, x, y) && Valid(c) && c.shape == KeptShape(a, x) + KeptShape(b, y) && Size(c.shape) == 0
    ensures IsContraction(c, a, b, x, y)
  {
    hide RavelC, Size, Contraction, KeptShape, Bare;
    forall u, v | ValidCoord(KeptShape(a, x), u) && ValidCoord(KeptShape(b, y), v)
      ensures !ValidCoord(c.shape, u + v)
    {
      SizePositive(c.shape);
      NoneValid(c.shape, u + v);
    }
    forall u, v | ValidCoord(KeptShape(a, x), u) && ValidCoord(KeptShape(b, y), v)
      ensures ValidCoord(c.shape, u + v)
    {
    }
  }

  lemma NoneValid(s: seq<nat>, c: seq<nat>)
    requires Size(s) == 0
    ensures !ValidCoord(s, c)
  {
    SizePositive(s);
  }

  // ----- the whole function

  /** When the function returns at all: where the matrices multiply, or contracted and free coordinates are both
      missing. */
  predicate Returns(rows: nat, n: nat, columns: nat) {
    Multiplies(rows, n, columns) || (n == 0 && rows * columns == 0)
  }

  /** Whatever is returned is the contraction over the axes that validation leaves; and something is returned exactly
      if validation succeeds and the free and contracted sizes are such that mmulHelper has a branch for them. */
  method TensorDot(a: Tensor, b: Tensor, axes0: array<int>, axes1: array<int>) returns (r: Outcome)
    requires Valid(a) && Valid(b) && axes0 != axes1 && Usable(a, b, axes0[..], axes1[..])
    modifies axes0, axes1
    ensures !Validated(a, b, old(axes0[..]), old(axes1[..])) ==> r.Threw?
    ensures Validated(a, b, old(axes0[..]), old(axes1[..])) ==>
      && BothNormalised(a, b, old(axes0[..]), old(axes1[..]), axes0[..], axes1[..])
      && ContractionOutcome(r, a, b, axes0[..], axes1[..])
  {
    hide Validated, Contractible, BothNormalised, ContractionOutcome;
    var error := ValidateAxes(a, b, axes0, axes1);
    if error != "" {
      return Threw(error);
    }
    assert AllNat(axes0[..]) && AllNat(axes1[..]) && Contractible(a, b, axes0[..], axes1[..]);
    r := Contract(a, b, axes0[..], axes1[..]);
  }

  /** What tensorDot makes of good axes; the exception is that of mmulHelper or reshapei. */
  ghost predicate ContractionOutcome(r: Outcome, a: Tensor, b: Tensor, x: seq<int>, y: seq<int>) {
    && AllNat(x) && AllNat(y) && Contractible(a, b, x, y)
    && var rows, n, columns := Size(FreeShape(a, x)), Size(Pick(a.shape, x)), Size(FreeShape(b, y));
    && (r.Returned? <==> Returns(rows, n, columns))
    && (r.Threw? <==> !Returns(rows, n, columns) && (n == 0 || (n == 1 && rows != 1 && columns != 1)))
    && (r.Returned? ==>
          Valid(r.tensor) && r.tensor.shape == KeptShape(a, x) + KeptShape(b, y) && IsContraction(r.tensor, a, b, x, y))
  }

  lemma PermutedSizes(t: Tensor, axes: seq<nat>)
    requires Valid(t) && Distinct(axes) && InRange(axes, |t.shape|)
    ensures var free := Free(|t.shape|, axes);
      var rows, n := Size(FreeShape(t, axes)), Size(Pick(t.shape, axes));
      && Permutation(free + axes, |t.shape|) && Permutation(axes + free, |t.shape|)
      && |Permuted(t, free + axes).data| == |Permuted(t, axes + free).data| == rows * n
      && (n > 0 ==> Inferred(rows * n, n) == rows) && Inferred(0, 0) == 0
  {
    hide Size, Permutation, Free, Pick, Permuted, Distinct;
    var free := Free(|t.shape|, axes);
    AxesPermute(|t.shape|, axes);
    PickAppend(t.shape, free, axes);
    PickAppend(t.shape, axes, free);
    SizeAppend(Pick(t.shape, free), Pick(t.shape, axes));
    SizeAppend(Pick(t.shape, axes), Pick(t.shape, free));
    if Size(Pick(t.shape, axes)) > 0 { InferredIs(Size(FreeShape(t, axes)), Size(Pick(t.shape, axes))); }
  }

  /** The free axes in front, in as many rows as reshapei infers. */
  ghost predicate LeftPrepared(a: Tensor, axes: seq<nat>, m: Tensor)
    requires Valid(a) && InRange(axes, |a.shape|)
  {
    var n, order := Size(Pick(a.shape, axes)), Free(|a.shape|, axes) + axes;
    && Permutation(order, |a.shape|)
    && m == Tensor([Inferred(Size(FreeShape(a, axes)) * n, n), n], Permuted(a, order).data)
  }

  /** The free axes last, in as many columns. */
  ghost predicate RightPrepared(b: Tensor, axes: seq<nat>, m: Tensor)
    requires Valid(b) && InRange(axes, |b.shape|)
  {
    var n, order := Size(Pick(b.shape, axes)), axes + Free(|b.shape|, axes);
    && Permutation(order, |b.shape|)
    && m == Tensor([n, Inferred(Size(FreeShape(b, axes)) * n, n)], Permuted(b, order).data)
  }

  /** The first operand: permuted and reshaped to a matrix, and its part of the result's shape. */
  method LeftOperand(a: Tensor, axes: seq<nat>) returns (aT: Tensor, oldShapeA: seq<nat>)
    requires Valid(a) && Distinct(axes) && InRange(axes, |a.shape|)
    ensures LeftPrepared(a, axes, aT) && oldShapeA == KeptShape(a, axes)
  {
    hide Permutation, Size, Free, Pick, Permuted, KeptShape;
    var listA := FreeAxes(|a.shape|, axes);
    PermutedSizes(a, axes);
    var newAxesA := listA + axes;
    var n2 := ProductOfSizes(a.shape, axes);
    oldShapeA := OldShape(a.shape, listA);
    OldShapes(a, axes, oldShapeA);
    aT := Permuted(a, newAxesA);
    var rows := Inferred(|aT.data|, n2);
    MatrixFits(Size(FreeShape(a, axes)), n2);
    aT := Reshaped(aT, [rows, n2]);
  }

  /** The second operand. */
  method RightOperand(b: Tensor, axes: seq<nat>) returns (bT: Tensor, oldShapeB: seq<nat>)
    requires Valid(b) && Distinct(axes) && InRange(axes, |b.shape|)
    ensures RightPrepared(b, axes, bT) && oldShapeB == KeptShape(b, axes)
  {
    hide Permutation, Size, Free, Pick, Permuted, KeptShape;
    var listB := FreeAxes(|b.shape|, axes);
    PermutedSizes(b, axes);
    var newAxesB := axes + listB;
    var n3 := ProductOfSizes(b.shape, axes);
    oldShapeB := OldShape(b.shape, listB);
    OldShapes(b, axes, oldShapeB);
    bT := Permuted(b, newAxesB);
    var columns := Inferred(|bT.data|, n3);
    MatrixFits(Size(FreeShape(b, axes)), n3);
    bT := Reshaped(bT, [n3, columns]);
  }

  /** The inferred dimension makes up for the whole length. */
  lemma MatrixFits(rows: nat, n: nat)
    ensures var m := Inferred(rows * n, n); Size([m, n]) == Size([n, m]) == rows * n
  {
    var m := Inferred(rows * n, n);
    if n > 0 { InferredIs(rows, n); }
    SizeOfMatrix(m, n);
    SizeOfMatrix(n, m);
  }

  /** tensorDot after validation. */
  method Contract(a: Tensor, b: Tensor, axes0: seq<nat>, axes1: seq<nat>) returns (r: Outcome)
    requires Contractible(a, b, axes0, axes1)
    ensures ContractionOutcome(r, a, b, axes0, axes1)
  {
    hide Permutation, Size, Free, Pick, Permuted, MmulHelper, IsContraction, Returns, KeptShape, FreeShape, Operands;
    var aT, oldShapeA := LeftOperand(a, axes0);
    var bT, oldShapeB := RightOperand(b, axes1);
    MatricesAre(a, b, axes0, axes1, aT, bT);
    OperandsFit(a, b, axes0, axes1, aT, bT);
    var c := MmulHelper(aT, bT);
    OutcomeOf(a, b, axes0, axes1, aT, bT, c);
    if !c.Returned? {
      return c;
    }
    var aPlusB := oldShapeA + oldShapeB;
    if Size(aPlusB) != Size(c.tensor.shape) {
      return Threw("Bad shape!");
    }
    r := Returned(Reshaped(c.tensor, aPlusB));
  }

  lemma OperandsFit(a: Tensor, b: Tensor, x: seq<nat>, y: seq<nat>, left: Tensor, right: Tensor)
    requires Contractible(a, b, x, y) && Operands(a, b, x, y, left, right)
    ensures Matrix(left) && Matrix(right) && left.shape[1] == right.shape[0]
  {
  }

  lemma OldShapes(t: Tensor, axes: seq<nat>, kept: seq<nat>)
    requires kept == if Free(|t.shape|, axes) == [] then [1] else FreeShape(t, axes)
    ensures kept == KeptShape(t, axes)
  {
  }

  /** The operands of mmulHelper, unless nothing is contracted over. */
  ghost predicate Operands(a: Tensor, b: Tensor, x: seq<nat>, y: seq<nat>, left: Tensor, right: Tensor)
    requires Contractible(a, b, x, y)
  {
    && Matrix(left) && Matrix(right) && left.shape[1] == right.shape[0]
    && (if Size(Pick(a.shape, x)) > 0 then left == LeftMatrix(a, x) && right == RightMatrix(b, y)
        else left.shape == [0, 0] && right.shape == [0, 0])
  }

  lemma MatricesAre(a: Tensor, b: Tensor, x: seq<nat>, y: seq<nat>, left: Tensor, right: Tensor)
    requires Contractible(a, b, x, y)
    requires LeftPrepared(a, x, left) && RightPrepared(b, y, right)
    ensures Operands(a, b, x, y, left, right)
  {
    hide Size, Free, Pick, Permuted, Permutation;
    var n := Size(Pick(a.shape, x));
    PermutedSizes(a, x);
    PermutedSizes(b, y);
    SizeOfMatrix(left.shape[0], n);
    SizeOfMatrix(n, right.shape[1]);
  }

  /** What becomes of the outcome of mmulHelper. */
  lemma OutcomeOf(a: Tensor, b: Tensor, x: seq<nat>, y: seq<nat>, left: Tensor, right: Tensor, c: Outcome)
    requires Contractible(a, b, x, y) && Operands(a, b, x, y, left, right) && c == MmulHelper(left, right)
    ensures var rows, n, columns := Size(FreeShape(a, x)), Size(Pick(a.shape, x)), Size(FreeShape(b, y));
      var shape := KeptShape(a, x) + KeptShape(b, y);
      && (Returns(rows, n, columns) <==>
        c.Returned? && Size(shape) == Size(c.tensor.shape))
      && (c.Crashed? <==> !Returns(rows, n, columns) && n != 0 && (n != 1 || rows == 1 || columns == 1))
      && (c.Returned? && Size(shape) == Size(c.tensor.shape) ==>
            Valid(Tensor(shape, c.tensor.data)) && IsContraction(Tensor(shape, c.tensor.data), a, b, x, y))
  {
    hide Size, Free, Pick, MatMul, MmulHelper, IsContraction, LeftMatrix, RightMatrix, KeptShape, Dotted;
    var rows, n, columns := Size(FreeShape(a, x)), Size(Pick(a.shape, x)), Size(FreeShape(b, y));
    var shape := KeptShape(a, x) + KeptShape(b, y);
    MmulCases(left, right);
    KeptSize(a, x);
    KeptSize(b, y);
    SizeAppend(KeptShape(a, x), KeptShape(b, y));
    SizeOfMatrix(1, 1);
    if Multiplies(rows, n, columns) {
      SizeOfMatrix(rows, columns);
      DottedIs(a, b, x, y);
      KeptContracts(Tensor(shape, c.tensor.data), a, b, x, y);
    } else if n == 0 {
      SizeOfMatrix(0, 0);
      if rows * columns == 0 { EmptyContracts(Tensor(shape, c.tensor.data), a, b, x, y); }
    }
  }

  lemma DottedIs(a: Tensor, b: Tensor, x: seq<nat>, y: seq<nat>)
    requires Contractible(a, b, x, y)
    ensures Dotted(a, b, x, y).data == MatMul(LeftMatrix(a, x), RightMatrix(b, y)).data
  {
  }
}
