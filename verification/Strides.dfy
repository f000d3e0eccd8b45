/** Dense strides and what contiguity means, for blas/cpu/NDArray.cpp. */
module Strides {
  import opened Radix

  /** The strides updateStrides gives: anything other than 'c' is treated as 'f'. */
  function DenseStrides(order: char, shape: seq<nat>): (s: seq<nat>)
    ensures |s| == |shape|
  {
    if order == 'c' then StridesC(shape) else StridesF(shape, 1)
  }

  function Ravel(order: char, shape: seq<nat>, c: seq<nat>): nat
    requires |c| == |shape|
  {
    if order == 'c' then RavelC(shape, c) else RavelF(shape, c)
  }

  /** Each stride is the next one times the size of the next axis. */
  lemma StridesCStep(shape: seq<nat>, d: nat)
    requires d < |shape| - 1
    ensures StridesC(shape)[d] == StridesC(shape)[d + 1] * shape[d + 1]
  {
    hide StridesC, Size;
    StrideCAt(shape, d);
    StrideCAt(shape, d + 1);
    SizeFrom(shape, d + 1);
  }

  /** The shape information with the last j strides filled in and the head as it was. */
  ghost predicate LastStrides(info: seq<int>, head: seq<int>, rank: nat, j: nat, shape: seq<nat>) {
    && 1 <= j <= rank == |shape| && |info| == 2 * rank + 4 && info[..rank + 1] == head && head[1..] == shape
    && info[2 * rank + 1 - j..2 * rank + 1] == StridesC(shape)[rank - j..]
  }

  lemma LastStride(info: seq<int>, rank: nat, shape: seq<nat>)
    requires rank == |shape| > 0 && |info| == 2 * rank + 4 && info[1..rank + 1] == shape && info[2 * rank] == 1
    ensures LastStrides(info, info[..rank + 1], rank, 1, shape)
  {
    hide StridesC;
    StrideCAt(shape, rank - 1);
  }

  /** One step of the loop for 'c'. */
  lemma StrideStored(info: seq<int>, head: seq<int>, rank: nat, j: nat, shape: seq<nat>)
    requires LastStrides(info, head, rank, j, shape) && j < rank
    ensures |info| == 2 * rank + 4
    ensures LastStrides(info[2 * rank - j := info[2 * rank - j + 1] * info[rank + 1 - j]], head, rank, j + 1, shape)
  {
    hide StridesC;
    var next, size := info[2 * rank - j + 1], info[rank + 1 - j];
    var t := info[2 * rank - j := next * size];
    assert next == StridesC(shape)[rank - j..][0];
    assert size == head[1..][rank - j];
    StridesCStep(shape, rank - j - 1);
    assert t[2 * rank - j..2 * rank + 1] == [next * size] + info[2 * rank + 1 - j..2 * rank + 1];
  }

  /** Each stride is the previous one times the size of the previous axis. */
  lemma StridesFStep(shape: seq<nat>, d: nat)
    requires 1 <= d < |shape|
    ensures StridesF(shape, 1)[d] == StridesF(shape, 1)[d - 1] * shape[d - 1]
  {
    StrideFAt(shape, 1, d - 1);
    StrideFAt(shape, 1, d);
    SizeGrows(shape, d - 1);
  }

  lemma {:induction false} StrideCAt(shape: seq<nat>, d: nat)
    requires d < |shape|
    ensures StridesC(shape)[d] == Size(shape[d + 1..])
  {
    if d > 0 {
      StrideCAt(shape[1..], d - 1);
      assert shape[1..][d..] == shape[d + 1..];
    }
  }

  lemma {:induction false} StrideFAt(shape: seq<nat>, unit: nat, d: nat)
    requires d < |shape|
    ensures StridesF(shape, unit)[d] == unit * Size(shape[..d])
  {
    if d == 0 {
      assert shape[..0] == [];
    } else {
      StrideFAt(shape[1..], unit * shape[0], d - 1);
      assert shape[..d][1..] == shape[1..][..d - 1];
      assert (unit * shape[0]) * Size(shape[1..][..d - 1]) == unit * (shape[0] * Size(shape[1..][..d - 1]));
    }
  }

  /** With the strides of updateStrides the offset of a coordinate is its number in that order, so offsets are a
      bijection from coordinates to [0, length). */
  lemma DenseOffsets(order: char, shape: seq<nat>, c: seq<nat>)
    requires ValidCoord(shape, c)
    ensures Dot(c, DenseStrides(order, shape)) == Ravel(order, shape, c) < Size(shape)
    ensures forall d | ValidCoord(shape, d) ::
      Dot(d, DenseStrides(order, shape)) == Dot(c, DenseStrides(order, shape)) ==> d == c
  {
    OffsetIsRavel(order, shape, c);
    forall d | ValidCoord(shape, d) && Dot(d, DenseStrides(order, shape)) == Dot(c, DenseStrides(order, shape))
      ensures d == c
    {
      OffsetIsRavel(order, shape, d);
      if order == 'c' { RavelCInjective(shape, c, d); } else { RavelFInjective(shape, c, d); }
    }
  }

  lemma OffsetIsRavel(order: char, shape: seq<nat>, c: seq<nat>)
    requires ValidCoord(shape, c)
    ensures Dot(c, DenseStrides(order, shape)) == Ravel(order, shape, c) < Size(shape)
  {
    if order == 'c' {
      DotStridesC(shape, c);
      RavelCInverse(shape, c);
    } else {
      DotStridesF(shape, 1, c);
      RavelFInverse(shape, c);
    }
  }

  /** ... onto: every offset below the length is that of some coordinate. */
  lemma DenseOnto(order: char, shape: seq<nat>, k: nat)
    requires k < Size(shape)
    ensures exists c :: ValidCoord(shape, c) && Dot(c, DenseStrides(order, shape)) == k
  {
    var c := if order == 'c' then UnravelC(shape, k) else UnravelF(shape, k);
    if order == 'c' { UnravelCInverse(shape, k); } else { UnravelFInverse(shape, k); }
    OffsetIsRavel(order, shape, c);
  }

  // ----- contiguity

  /** The strides are those of C order on every axis whose size is not 1. */
  ghost predicate UnitsAside(shape: seq<nat>, strides: seq<int>)
    requires |shape| == |strides|
  {
    forall k | 0 <= k < |shape| && shape[k] != 1 :: strides[k] == Size(shape[k + 1..])
  }

  /** The same from axis d on, whose sizes have product z. */
  ghost predicate UnitsFrom(shape: seq<nat>, strides: seq<int>, d: nat, z: nat) {
    && |shape| == |strides| && d <= |shape| && z == Size(shape[d..])
    && forall k | d <= k < |shape| && shape[k] != 1 :: strides[k] == Size(shape[k + 1..])
  }

  lemma NothingScanned(shape: seq<nat>, strides: seq<int>)
    requires |shape| == |strides|
    ensures UnitsFrom(shape, strides, |shape|, 1)
  {
  }

  lemma AxisScanned(shape: seq<nat>, strides: seq<int>, d: nat, z: nat)
    requires UnitsFrom(shape, strides, d + 1, z)
    ensures d < |shape| == |strides|
    ensures shape[d] == 1 ==> UnitsFrom(shape, strides, d, z)
    ensures shape[d] != 1 && strides[d] == z ==> UnitsFrom(shape, strides, d, z * shape[d])
    ensures shape[d] != 1 && strides[d] != z ==> !UnitsAside(shape, strides)
  {
    hide Size;
    SizeFrom(shape, d);
  }

  lemma AllScanned(shape: seq<nat>, strides: seq<int>, z: nat)
    requires UnitsFrom(shape, strides, 0, z)
    ensures UnitsAside(shape, strides)
  {
  }

  /** What isContiguous decides: on a shape without empty axes, whether the buffer offset of every coordinate is
      its number in C order, whatever the strides of axes of size 1. */
  lemma ContiguousMeansCOrder(shape: seq<nat>, strides: seq<int>)
    requires |shape| == |strides|
    ensures UnitsAside(shape, strides) ==> forall c | ValidCoord(shape, c) :: Dot(c, strides) == RavelC(shape, c)
    ensures Positive(shape) && (forall c | ValidCoord(shape, c) :: Dot(c, strides) == RavelC(shape, c)) ==>
      UnitsAside(shape, strides)
  {
    if UnitsAside(shape, strides) {
      forall c | ValidCoord(shape, c)
        ensures Dot(c, strides) == RavelC(shape, c)
      {
        ContiguousOffset(shape, strides, c);
      }
    }
    if Positive(shape) && forall c | ValidCoord(shape, c) :: Dot(c, strides) == RavelC(shape, c) {
      forall k | 0 <= k < |shape| && shape[k] != 1
        ensures strides[k] == Size(shape[k + 1..])
      {
        UnitOffset(shape, strides, k);
        assert ValidCoord(shape, Unit(|shape|, k));
      }
    }
  }

  lemma {:induction false} ContiguousOffset(shape: seq<nat>, strides: seq<int>, c: seq<nat>)
    requires |shape| == |strides| && UnitsAside(shape, strides) && ValidCoord(shape, c)
    ensures Dot(c, strides) == RavelC(shape, c)
  {
    if shape != [] {
      TailValid(shape, c);
      forall k | 0 <= k < |shape| - 1 && shape[1..][k] != 1
        ensures strides[1..][k] == Size(shape[1..][k + 1..])
      {
        assert shape[1..][k + 1..] == shape[k + 2..];
        assert strides[k + 1] == Size(shape[k + 2..]);
      }
      ContiguousOffset(shape[1..], strides[1..], c[1..]);
      assert shape[0] == 1 ==> c[0] == 0;
    }
  }

  /** The coordinate that is 1 on axis k and 0 elsewhere. */
  function Unit(n: nat, k: nat): (c: seq<nat>)
    ensures |c| == n
  {
    seq(n, i => if i == k then 1 else 0)
  }

  lemma {:induction false} UnitOffset(shape: seq<nat>, strides: seq<int>, k: nat)
    requires |shape| == |strides| && k < |shape|
    ensures Dot(Unit(|shape|, k), strides) == strides[k] && RavelC(shape, Unit(|shape|, k)) == Size(shape[k + 1..])
  {
    var c := Unit(|shape|, k);
    if k == 0 {
      ZeroOffset(shape[1..], strides[1..], c[1..]);
    } else {
      UnitOffset(shape[1..], strides[1..], k - 1);
      assert c[1..] == Unit(|shape| - 1, k - 1);
      assert shape[1..][k..] == shape[k + 1..];
    }
  }

  lemma {:induction false} ZeroOffset(shape: seq<nat>, strides: seq<int>, c: seq<nat>)
    requires |shape| == |strides| == |c| && forall i | 0 <= i < |c| :: c[i] == 0
    ensures Dot(c, strides) == 0 && RavelC(shape, c) == 0
  {
    if c != [] { ZeroOffset(shape[1..], strides[1..], c[1..]); }
  }
}
