/** Iterating two or three strided operands in step: the Prepare functions and the ND4J_RAW_ITER_*_NEXT macros of
    include/pairwise_util.h. Data pointers are element positions. */
module RawIterator {
  import opened Arithmetic
  import opened Radix

  // ----- what preparing does to one operand

  /** The axes reversed are those along which the first operand has a negative stride. */
  function PreparedStrides(stridesA: seq<int>, strides: seq<int>): (r: seq<int>)
    requires |stridesA| == |strides|
    ensures |r| == |strides|
  {
    seq(|strides|, i requires 0 <= i < |strides| => if stridesA[i] < 0 then -strides[i] else strides[i])
  }

  function PreparedBase(shape: seq<nat>, stridesA: seq<int>, strides: seq<int>, data: int): int
    requires |shape| == |stridesA| == |strides|
  {
    if shape == [] then data else
      var n := |shape| - 1;
      var base := PreparedBase(shape[..n], stridesA[..n], strides[..n], data);
      if stridesA[n] < 0 then base + ToLast(strides[n], shape[n]) else base
  }

  /** From the first element of an axis to its last. */
  function ToLast(stride: int, size: int): int {
    stride * (size - 1)
  }

  /** The coordinate of the original operands that a coordinate of the prepared ones stands for. */
  function Mirror(shape: seq<nat>, stridesA: seq<int>, c: seq<nat>): (r: seq<nat>)
    requires |shape| == |stridesA| && ValidCoord(shape, c)
    ensures ValidCoord(shape, r)
  {
    seq(|c|, i requires 0 <= i < |c| => if stridesA[i] < 0 then shape[i] - 1 - c[i] else c[i])
  }

  lemma MirrorInvolution(shape: seq<nat>, stridesA: seq<int>, c: seq<nat>)
    requires |shape| == |stridesA| && ValidCoord(shape, c)
    ensures Mirror(shape, stridesA, Mirror(shape, stridesA, c)) == c
  {
  }

  lemma DotLast(c: seq<nat>, strides: seq<int>)
    requires |c| == |strides| > 0
    ensures var n := |c| - 1; Dot(c, strides) == Dot(c[..n], strides[..n]) + c[n] * strides[n]
  {
    hide Dot;
    var n := |c| - 1;
    assert c == c[..n] + [c[n]] && strides == strides[..n] + [strides[n]];
    DotSnoc(c[..n], strides[..n], c[n], strides[n]);
  }

  /** The prepared operand has the element of c where the original has the element of Mirror(c). */
  lemma {:induction false} PreparedAddress(shape: seq<nat>, stridesA: seq<int>, strides: seq<int>, data: int,
      c: seq<nat>)
    requires |shape| == |stridesA| == |strides| && ValidCoord(shape, c)
    ensures PreparedBase(shape, stridesA, strides, data) + Dot(c, PreparedStrides(stridesA, strides))
         == data + Dot(Mirror(shape, stridesA, c), strides)
  {
    if shape != [] {
      var n := |shape| - 1;
      var s, a, t, d := shape[..n], stridesA[..n], strides[..n], c[..n];
      hide Dot, Mirror, PreparedStrides;
      PreparedAddress(s, a, t, data, d);
      DotLast(c, PreparedStrides(stridesA, strides));
      DotLast(Mirror(shape, stridesA, c), strides);
      LastPrepared(shape, stridesA, strides, c);
      Reversed(strides[n], shape[n], c[n]);
    } else {
      assert Dot(c, PreparedStrides(stridesA, strides)) == 0 && Dot(Mirror(shape, stridesA, c), strides) == 0;
    }
  }

  /** All axes but the last, and the last. */
  lemma LastPrepared(shape: seq<nat>, stridesA: seq<int>, strides: seq<int>, c: seq<nat>)
    requires |shape| == |stridesA| == |strides| > 0 && ValidCoord(shape, c)
    ensures var n := |shape| - 1;
      && PreparedStrides(stridesA, strides)[..n] == PreparedStrides(stridesA[..n], strides[..n])
      && PreparedStrides(stridesA, strides)[n] == (if stridesA[n] < 0 then -strides[n] else strides[n])
      && Mirror(shape, stridesA, c)[..n] == Mirror(shape[..n], stridesA[..n], c[..n])
      && Mirror(shape, stridesA, c)[n] == if stridesA[n] < 0 then shape[n] - 1 - c[n] else c[n]
  {
  }

  lemma Reversed(stride: int, size: int, k: int)
    ensures ToLast(stride, size) + k * -stride == (size - 1 - k) * stride
  {
  }

  // ----- the odometer

  /** The next coordinate, first axis fastest, and whether all axes wrapped around. */
  function Next(shape: seq<nat>, c: seq<nat>): (r: (seq<nat>, bool))
    requires |shape| == |c|
    ensures |r.0| == |c|
  {
    if c == [] then ([], true)
    else if c[0] + 1 == shape[0] then
      var (t, wrapped) := Next(shape[1..], c[1..]);
      ([0] + t, wrapped)
    else ([c[0] + 1] + c[1..], false)
  }

  function Origin(n: nat): (c: seq<nat>)
    ensures |c| == n
  {
    seq(n, _ => 0)
  }

  /** The odometer counts: it steps from each number to the next and wraps exactly at the last one, to zero. */
  lemma {:induction false} NextCounts(shape: seq<nat>, c: seq<nat>)
    requires ValidCoord(shape, c)
    ensures var (d, wrapped) := Next(shape, c);
      && ValidCoord(shape, d)
      && (wrapped <==> RavelF(shape, c) + 1 == Size(shape))
      && (wrapped ==> d == Origin(|shape|))
      && (!wrapped ==> RavelF(shape, d) == RavelF(shape, c) + 1)
  {
    if c != [] {
      var s, t := shape[1..], c[1..];
      TailValid(shape, c);
      NextCounts(s, t);
      RavelFInverse(s, t);
      var r := RavelF(s, t);
      if c[0] + 1 == shape[0] {
        var (d, wrapped) := Next(s, t);
        assert ([0] + d)[1..] == d;
        NextRound(shape[0], r, Size(s));
      } else {
        assert ([c[0] + 1] + t)[1..] == t;
        CombineInRange(r, c[0] + 1, Size(s), shape[0]);
      }
    }
  }

  lemma NextRound(m: nat, r: nat, n: nat)
    requires m > 0
    ensures m - 1 + m * r + 1 == m * (r + 1)
    ensures m * (r + 1) == m * n <==> r + 1 == n
  {
    if r + 1 != n { SameMultiple(m, r + 1, n); }
  }

  lemma SameMultiple(m: nat, a: nat, b: nat)
    requires m > 0 && a != b
    ensures m * a != m * b
  {
    if a < b { MulMonotone(a + 1, b, m); } else { MulMonotone(b + 1, a, m); }
  }

  lemma {:induction false} ZerosFirst(shape: seq<nat>)
    requires Positive(shape)
    ensures ValidCoord(shape, Origin(|shape|)) && RavelF(shape, Origin(|shape|)) == 0 < Size(shape)
  {
    if shape != [] {
      ZerosFirst(shape[1..]);
      assert Origin(|shape|)[1..] == Origin(|shape| - 1);
    }
    SizePositive(shape);
  }

  lemma {:induction false} DotZeros(strides: seq<int>)
    ensures Dot(Origin(|strides|), strides) == 0
  {
    if strides != [] {
      DotZeros(strides[1..]);
      assert Origin(|strides|)[1..] == Origin(|strides| - 1);
    }
  }

  /** The iteration comes to an end only on a shape without empty axes; on any other the last macro line never sees
      all axes wrapped. */
  lemma {:induction false} WrapsOnlyPositive(shape: seq<nat>, c: seq<nat>)
    requires |shape| == |c| && Next(shape, c).1
    ensures Positive(shape)
  {
    if c != [] { WrapsOnlyPositive(shape[1..], c[1..]); }
  }

  lemma {:induction false} DotUpdate(c: seq<nat>, strides: seq<int>, i: nat, v: nat)
    requires |c| == |strides| && i < |c|
    ensures Dot(c[i := v], strides) == Dot(c, strides) + (v - c[i]) * strides[i]
  {
    if i > 0 {
      DotUpdate(c[1..], strides[1..], i - 1, v);
      assert c[i := v][1..] == c[1..][i - 1 := v];
    } else {
      assert c[0 := v][1..] == c[1..];
    }
  }

  /** The inner loop has zeroed the first i coordinates of what was c, and the rest of the work is the same on the
      other axes. */
  ghost predicate Carrying(shape: seq<nat>, c: seq<nat>, i: nat, coord: seq<nat>) {
    && |shape| == |c| == |coord| && i <= |c| && coord[i..] == c[i..]
    && (forall k | 0 <= k < i :: coord[k] == 0 && c[k] + 1 == shape[k])
  }

  lemma {:induction false} CarriedNext(shape: seq<nat>, c: seq<nat>, i: nat)
    requires |shape| == |c| && i <= |c| && forall k | 0 <= k < i :: c[k] + 1 == shape[k]
    ensures Next(shape, c).0 == Origin(i) + Next(shape[i..], c[i..]).0 && Next(shape, c).1 == Next(shape[i..], c[i..]).1
  {
    if i > 0 {
      CarriedNext(shape[1..], c[1..], i - 1);
      assert shape[1..][i - 1..] == shape[i..] && c[1..][i - 1..] == c[i..];
      assert [0] + Origin(i - 1) == Origin(i);
      assert [0] + (Origin(i - 1) + Next(shape[i..], c[i..]).0) == Origin(i) + Next(shape[i..], c[i..]).0;
    } else {
      assert shape[0..] == shape && c[0..] == c;
    }
  }

  /** Where the inner loop stops: all axes wrapped, or one stepped. */
  lemma CarryEnds(shape: seq<nat>, c: seq<nat>, i: nat, coord: seq<nat>)
    requires Carrying(shape, c, i, coord)
    ensures i == |c| ==> Next(shape, c) == (coord, true)
    ensures i < |c| && c[i] + 1 != shape[i] ==> Next(shape, c) == (coord[i := coord[i] + 1], false)
  {
    hide Next;
    CarriedNext(shape, c, i);
    NextHere(shape[i..], c[i..]);
    assert coord[..i] == Origin(i);
    if i == |c| {
      assert coord == Origin(i) + [];
    } else {
      assert coord[i] == coord[i..][0] == c[i];
      StepAt(coord, i, coord[i] + 1);
    }
  }

  lemma StepAt(s: seq<nat>, i: nat, v: nat)
    requires i < |s|
    ensures s[i := v] == s[..i] + ([v] + s[i..][1..])
  {
  }

  lemma NextHere(shape: seq<nat>, c: seq<nat>)
    requires |shape| == |c|
    ensures c == [] ==> Next(shape, c) == ([], true)
    ensures c != [] && c[0] + 1 != shape[0] ==> Next(shape, c) == ([c[0] + 1] + c[1..], false)
  {
  }

  // ----- preparing

  /** One operand after i rounds of the loop over the axes. */
  ghost predicate PreparedUpTo(shape: seq<nat>, stridesA: seq<int>, strides: seq<int>, data: int, i: nat, out: seq<int>,
      outData: int) {
    && |shape| == |stridesA| == |strides| == |out| && i <= |shape|
    && out[..i] == PreparedStrides(stridesA[..i], strides[..i]) && out[i..] == strides[i..]
    && outData == PreparedBase(shape[..i], stridesA[..i], strides[..i], data)
  }

  lemma PreparedStart(shape: seq<nat>, stridesA: seq<int>, strides: seq<int>, data: int)
    requires |shape| == |stridesA| == |strides|
    ensures PreparedUpTo(shape, stridesA, strides, data, 0, strides, data)
  {
  }

  lemma PreparedStep(shape: seq<nat>, stridesA: seq<int>, strides: seq<int>, data: int, i: nat, out: seq<int>,
      outData: int)
    requires PreparedUpTo(shape, stridesA, strides, data, i, out, outData) && i < |shape|
    ensures out[i] == strides[i]
    ensures stridesA[i] < 0 ==>
      PreparedUpTo(shape, stridesA, strides, data, i + 1, out[i := -strides[i]], outData + ToLast(strides[i], shape[i]))
    ensures stridesA[i] >= 0 ==> PreparedUpTo(shape, stridesA, strides, data, i + 1, out, outData)
  {
    assert out[i] == out[i..][0];
    assert shape[..i + 1][..i] == shape[..i] && stridesA[..i + 1][..i] == stridesA[..i]
      && strides[..i + 1][..i] == strides[..i];
    if stridesA[i] < 0 {
      assert out[i := -strides[i]][..i + 1] == out[..i] + [-strides[i]];
      assert out[i := -strides[i]][i + 1..] == out[i..][1..];
    } else {
      assert out[..i + 1] == out[..i] + [strides[i]];
      assert out[i + 1..] == out[i..][1..];
    }
  }

  /** The outcome for one operand. */
  ghost predicate Prepared(shape: seq<nat>, stridesA: seq<int>, strides: seq<int>, data: int, out: seq<int>,
      outData: int) {
    && |shape| == |stridesA| == |strides|
    && out == PreparedStrides(stridesA, strides) && outData == PreparedBase(shape, stridesA, strides, data)
  }

  lemma PreparedEnd(shape: seq<nat>, stridesA: seq<int>, strides: seq<int>, data: int, out: seq<int>, outData: int)
    requires PreparedUpTo(shape, stridesA, strides, data, |shape|, out, outData)
    ensures Prepared(shape, stridesA, strides, data, out, outData)
  {
    assert shape[..|shape|] == shape && stridesA[..|shape|] == stridesA && strides[..|shape|] == strides
      && out[..|shape|] == out;
  }

  /** One operand reduced to nothing, as on an empty axis. */
  predicate NoElements(outNdim: nat, outShape: seq<nat>, outStrides: seq<int>) {
    outNdim == 1 && |outShape| > 0 && |outStrides| > 0 && outShape[0] == 0 && outStrides[0] == 0
  }

  method CopyStrides(strides: seq<int>, out: array<int>)
    requires |strides| <= out.Length
    modifies out
    ensures out[..|strides|] == strides
  {
    for i := 0 to |strides|
      invariant out[..i] == strides[..i]
    {
      out[i] := strides[i];
      assert out[..i + 1] == out[..i] + [strides[i]];
    }
  }

  method CopyShape(shape: seq<nat>, out: array<nat>)
    requires |shape| <= out.Length
    modifies out
    ensures out[..|shape|] == shape
  {
    for i := 0 to |shape|
      invariant out[..i] == shape[..i]
    {
      out[i] := shape[i];
      assert out[..i + 1] == out[..i] + [shape[i]];
    }
  }

  method PrepareTwoRawArrayIter(
      shape: seq<nat>, dataA: int, stridesA: seq<int>, dataB: int, stridesB: seq<int>,
      outShape: array<nat>, outStridesA: array<int>, outStridesB: array<int>)
    returns (outNdim: nat, outDataA: int, outDataB: int)
    requires |shape| == |stridesA| == |stridesB|
    requires |shape| <= outShape.Length && |shape| <= outStridesA.Length && |shape| <= outStridesB.Length
    requires outStridesA != outStridesB
    modifies outShape, outStridesA, outStridesB
    ensures Positive(shape) ==> outNdim == |shape| && outShape[..outNdim] == shape
    ensures Positive(shape) ==> Prepared(shape, stridesA, stridesA, dataA, outStridesA[..|shape|], outDataA)
    ensures Positive(shape) ==> Prepared(shape, stridesA, stridesB, dataB, outStridesB[..|shape|], outDataB)
    ensures !Positive(shape) ==>
      NoElements(outNdim, outShape[..], outStridesA[..]) && NoElements(outNdim, outShape[..], outStridesB[..])
  {
    hide PreparedUpTo, Prepared;
    var ndim := |shape|;
    CopyShape(shape, outShape);
    CopyStrides(stridesA, outStridesA);
    CopyStrides(stridesB, outStridesB);
    outDataA, outDataB := dataA, dataB;
    PreparedStart(shape, stridesA, stridesA, dataA);
    PreparedStart(shape, stridesA, stridesB, dataB);
    var i := 0;
    while i < ndim
      invariant 0 <= i <= ndim && Positive(shape[..i]) && outShape[..ndim] == shape
      invariant PreparedUpTo(shape, stridesA, stridesA, dataA, i, outStridesA[..ndim], outDataA)
      invariant PreparedUpTo(shape, stridesA, stridesB, dataB, i, outStridesB[..ndim], outDataB)
    {
      PreparedStep(shape, stridesA, stridesA, dataA, i, outStridesA[..ndim], outDataA);
      PreparedStep(shape, stridesA, stridesB, dataB, i, outStridesB[..ndim], outDataB);
      var strideEntryA, strideEntryB, shapeEntry := outStridesA[i], outStridesB[i], outShape[i];
      if strideEntryA < 0 {
        outDataA := outDataA + ToLast(strideEntryA, shapeEntry);
        outDataB := outDataB + ToLast(strideEntryB, shapeEntry);
        Store(outStridesA, ndim, i, -strideEntryA);
        Store(outStridesB, ndim, i, -strideEntryB);
      }
      // an empty axis makes everything empty
      if shapeEntry == 0 {
        outNdim, outShape[0], outStridesA[0], outStridesB[0] := 1, 0, 0, 0;
        return;
      }
      assert shape[..i + 1] == shape[..i] + [shapeEntry];
      i := i + 1;
    }
    assert shape[..ndim] == shape;
    PreparedEnd(shape, stridesA, stridesA, dataA, outStridesA[..ndim], outDataA);
    PreparedEnd(shape, stridesA, stridesB, dataB, outStridesB[..ndim], outDataB);
    outNdim := ndim;
  }

  method PrepareThreeRawArrayIter(
      shape: seq<nat>, dataA: int, stridesA: seq<int>, dataB: int, stridesB: seq<int>, dataC: int, stridesC: seq<int>,
      outShape: array<nat>, outStridesA: array<int>, outStridesB: array<int>, outStridesC: array<int>)
    returns (outNdim: nat, outDataA: int, outDataB: int, outDataC: int)
    requires |shape| == |stridesA| == |stridesB| == |stridesC|
    requires 1 <= outShape.Length && |shape| <= outShape.Length
    requires 1 <= outStridesA.Length && |shape| <= outStridesA.Length
    requires 1 <= outStridesB.Length && |shape| <= outStridesB.Length
    requires 1 <= outStridesC.Length && |shape| <= outStridesC.Length
    requires outStridesA != outStridesB && outStridesA != outStridesC && outStridesB != outStridesC
    modifies outShape, outStridesA, outStridesB, outStridesC
    ensures shape == [] ==>
      outNdim == 1 && outShape[0] == 1 && outStridesA[0] == outStridesB[0] == outStridesC[0] == 0
      && outDataA == dataA && outDataB == dataB && outDataC == dataC
    ensures shape != [] && (Positive(shape) || |shape| == 1) ==> outNdim == |shape| && outShape[..outNdim] == shape
    ensures shape != [] && (Positive(shape) || |shape| == 1) ==>
      Prepared(shape, stridesA, stridesA, dataA, outStridesA[..|shape|], outDataA)
    ensures shape != [] && (Positive(shape) || |shape| == 1) ==>
      Prepared(shape, stridesA, stridesB, dataB, outStridesB[..|shape|], outDataB)
    ensures shape != [] && (Positive(shape) || |shape| == 1) ==>
      Prepared(shape, stridesA, stridesC, dataC, outStridesC[..|shape|], outDataC)
    ensures !Positive(shape) && |shape| > 1 ==>
      NoElements(outNdim, outShape[..], outStridesA[..]) && NoElements(outNdim, outShape[..], outStridesB[..])
      && NoElements(outNdim, outShape[..], outStridesC[..])
  {
    var ndim := |shape|;
    if ndim == 0 {
      outShape[0] := 1;
      outStridesA[0], outStridesB[0], outStridesC[0] := 0, 0, 0;
      return 1, dataA, dataB, dataC;
    } else if ndim == 1 {
      outShape[0] := shape[0];
      var oneA := OneAxis(shape[0], stridesA[0], stridesA[0], dataA);
      outStridesA[0] := oneA.1;
      var oneB := OneAxis(shape[0], stridesA[0], stridesB[0], dataB);
      outStridesB[0] := oneB.1;
      var oneC := OneAxis(shape[0], stridesA[0], stridesC[0], dataC);
      outStridesC[0] := oneC.1;
      OneAxisPrepared(shape, stridesA, stridesA, dataA);
      OneAxisPrepared(shape, stridesA, stridesB, dataB);
      OneAxisPrepared(shape, stridesA, stridesC, dataC);
      return 1, oneA.0, oneB.0, oneC.0;
    }
    outNdim, outDataA, outDataB, outDataC :=
      ReverseThree(shape, dataA, stridesA, dataB, stridesB, dataC, stridesC, outShape, outStridesA, outStridesB,
        outStridesC);
  }

  /** The general case of PrepareThreeRawArrayIter. */
  method ReverseThree(
      shape: seq<nat>, dataA: int, stridesA: seq<int>, dataB: int, stridesB: seq<int>, dataC: int, stridesC: seq<int>,
      outShape: array<nat>, outStridesA: array<int>, outStridesB: array<int>, outStridesC: array<int>)
    returns (outNdim: nat, outDataA: int, outDataB: int, outDataC: int)
    requires |shape| == |stridesA| == |stridesB| == |stridesC| > 1
    requires |shape| <= outShape.Length && |shape| <= outStridesA.Length && |shape| <= outStridesB.Length
      && |shape| <= outStridesC.Length
    requires outStridesA != outStridesB && outStridesA != outStridesC && outStridesB != outStridesC
    modifies outShape, outStridesA, outStridesB, outStridesC
    ensures Positive(shape) ==> outNdim == |shape| && outShape[..outNdim] == shape
    ensures Positive(shape) ==> Prepared(shape, stridesA, stridesA, dataA, outStridesA[..|shape|], outDataA)
    ensures Positive(shape) ==> Prepared(shape, stridesA, stridesB, dataB, outStridesB[..|shape|], outDataB)
    ensures Positive(shape) ==> Prepared(shape, stridesA, stridesC, dataC, outStridesC[..|shape|], outDataC)
    ensures !Positive(shape) ==>
      NoElements(outNdim, outShape[..], outStridesA[..]) && NoElements(outNdim, outShape[..], outStridesB[..])
      && NoElements(outNdim, outShape[..], outStridesC[..])
  {
    hide PreparedUpTo, Prepared;
    var ndim := |shape|;
    CopyShape(shape, outShape);
    CopyStrides(stridesA, outStridesA);
    CopyStrides(stridesB, outStridesB);
    CopyStrides(stridesC, outStridesC);
    outDataA, outDataB, outDataC := dataA, dataB, dataC;
    PreparedStart(shape, stridesA, stridesA, dataA);
    PreparedStart(shape, stridesA, stridesB, dataB);
    PreparedStart(shape, stridesA, stridesC, dataC);
    var i := 0;
    while i < ndim
      invariant 0 <= i <= ndim && Positive(shape[..i]) && outShape[..ndim] == shape
      invariant PreparedUpTo(shape, stridesA, stridesA, dataA, i, outStridesA[..ndim], outDataA)
      invariant PreparedUpTo(shape, stridesA, stridesB, dataB, i, outStridesB[..ndim], outDataB)
      invariant PreparedUpTo(shape, stridesA, stridesC, dataC, i, outStridesC[..ndim], outDataC)
    {
      PreparedStep(shape, stridesA, stridesA, dataA, i, outStridesA[..ndim], outDataA);
      PreparedStep(shape, stridesA, stridesB, dataB, i, outStridesB[..ndim], outDataB);
      PreparedStep(shape, stridesA, stridesC, dataC, i, outStridesC[..ndim], outDataC);
      var strideEntryA, strideEntryB, strideEntryC, shapeEntry :=
        outStridesA[i], outStridesB[i], outStridesC[i], outShape[i];
      if strideEntryA < 0 {
        outDataA := outDataA + ToLast(strideEntryA, shapeEntry);
        outDataB := outDataB + ToLast(strideEntryB, shapeEntry);
        outDataC := outDataC + ToLast(strideEntryC, shapeEntry);
        Store(outStridesA, ndim, i, -strideEntryA);
        Store(outStridesB, ndim, i, -strideEntryB);
        Store(outStridesC, ndim, i, -strideEntryC);
      }
      // an empty axis makes everything empty
      if shapeEntry == 0 {
        outNdim, outShape[0] := 1, 0;
        outStridesA[0], outStridesB[0], outStridesC[0] := 0, 0, 0;
        return;
      }
      assert shape[..i + 1] == shape[..i] + [shapeEntry];
      i := i + 1;
    }
    assert shape[..ndim] == shape;
    PreparedEnd(shape, stridesA, stridesA, dataA, outStridesA[..ndim], outDataA);
    PreparedEnd(shape, stridesA, stridesB, dataB, outStridesB[..ndim], outDataB);
    PreparedEnd(shape, stridesA, stridesC, dataC, outStridesC[..ndim], outDataC);
    outNdim := ndim;
  }

  method Store(out: array<int>, ndim: nat, i: nat, v: int)
    requires i < ndim <= out.Length
    modifies out
    ensures out[..ndim] == old(out[..ndim])[i := v]
  {
    out[i] := v;
  }

  /** The special case of one axis, for one operand: the first operand's stride comes out positive. */
  function OneAxis(size: nat, strideA: int, stride: int, data: int): (r: (int, int)) {
    if strideA >= 0 then (data, stride) else (data + ToLast(stride, size), -stride)
  }

  lemma OneAxisPrepared(shape: seq<nat>, stridesA: seq<int>, strides: seq<int>, data: int)
    requires |shape| == |stridesA| == |strides| == 1
    ensures var (d, t) := OneAxis(shape[0], stridesA[0], strides[0], data);
      Prepared(shape, stridesA, strides, data, [t], d)
  {
    assert PreparedBase(shape[..0], stridesA[..0], strides[..0], data) == data;
  }

  // ----- iterating

  /** ND4J_RAW_ITER_TWO_NEXT up to the test of its while: the coordinate moves on, and each pointer by exactly the
      difference of the strided offsets. */
  method RawIterTwoNext(
      shape: seq<nat>, coord: array<nat>, dataA: int, stridesA: seq<int>, dataB: int, stridesB: seq<int>)
    returns (newA: int, newB: int, wrapped: bool)
    requires |shape| == coord.Length == |stridesA| == |stridesB|
    modifies coord
    ensures (coord[..], wrapped) == Next(shape, old(coord[..]))
    ensures newA - Dot(coord[..], stridesA) == dataA - Dot(old(coord[..]), stridesA)
    ensures newB - Dot(coord[..], stridesB) == dataB - Dot(old(coord[..]), stridesB)
  {
    hide Next, Dot;
    newA, newB := dataA, dataB;
    var ndim := |shape|;
    var idim := 0;
    while idim < ndim
      invariant 0 <= idim <= ndim && Carrying(shape, old(coord[..]), idim, coord[..])
      invariant newA - Dot(coord[..], stridesA) == dataA - Dot(old(coord[..]), stridesA)
      invariant newB - Dot(coord[..], stridesB) == dataB - Dot(old(coord[..]), stridesB)
    {
      ghost var c := coord[..];
      CarryStep(shape, old(coord[..]), idim, c);
      CarryEnds(shape, old(coord[..]), idim, c);
      coord[idim] := coord[idim] + 1;
      if coord[idim] == shape[idim] {
        DotUpdate(c, stridesA, idim, 0);
        DotUpdate(c, stridesB, idim, 0);
        WrapBack(c[idim], shape[idim], stridesA[idim]);
        WrapBack(c[idim], shape[idim], stridesB[idim]);
        coord[idim] := 0;
        assert coord[..] == c[idim := 0];
        newA := newA - ToLast(stridesA[idim], shape[idim]);
        newB := newB - ToLast(stridesB[idim], shape[idim]);
      } else {
        DotUpdate(c, stridesA, idim, c[idim] + 1);
        DotUpdate(c, stridesB, idim, c[idim] + 1);
        assert coord[..] == c[idim := c[idim] + 1];
        newA := newA + stridesA[idim];
        newB := newB + stridesB[idim];
        wrapped := false;
        return;
      }
      idim := idim + 1;
    }
    CarryEnds(shape, old(coord[..]), ndim, coord[..]);
    wrapped := true;
  }

  lemma WrapBack(k: nat, size: nat, stride: int)
    requires k + 1 == size
    ensures (0 - k) * stride == -ToLast(stride, size)
  {
  }

  lemma CarryStep(shape: seq<nat>, c: seq<nat>, i: nat, coord: seq<nat>)
    requires Carrying(shape, c, i, coord) && i < |c|
    ensures coord[i] == c[i] && (c[i] + 1 == shape[i] ==> Carrying(shape, c, i + 1, coord[i := 0]))
  {
    assert coord[i] == coord[i..][0] == c[i..][0];
    assert coord[i := 0][i + 1..] == coord[i..][1..] && c[i..][1..] == c[i + 1..];
  }

  method RawIterThreeNext(
      shape: seq<nat>, coord: array<nat>, dataA: int, stridesA: seq<int>, dataB: int, stridesB: seq<int>, dataC: int,
      stridesC: seq<int>)
    returns (newA: int, newB: int, newC: int, wrapped: bool)
    requires |shape| == coord.Length == |stridesA| == |stridesB| == |stridesC|
    modifies coord
    ensures (coord[..], wrapped) == Next(shape, old(coord[..]))
    ensures newA - Dot(coord[..], stridesA) == dataA - Dot(old(coord[..]), stridesA)
    ensures newB - Dot(coord[..], stridesB) == dataB - Dot(old(coord[..]), stridesB)
    ensures newC - Dot(coord[..], stridesC) == dataC - Dot(old(coord[..]), stridesC)
  {
    hide Next, Dot;
    newA, newB, newC := dataA, dataB, dataC;
    var ndim := |shape|;
    var idim := 0;
    while idim < ndim
      invariant 0 <= idim <= ndim && Carrying(shape, old(coord[..]), idim, coord[..])
      invariant newA - Dot(coord[..], stridesA) == dataA - Dot(old(coord[..]), stridesA)
      invariant newB - Dot(coord[..], stridesB) == dataB - Dot(old(coord[..]), stridesB)
      invariant newC - Dot(coord[..], stridesC) == dataC - Dot(old(coord[..]), stridesC)
    {
      ghost var c := coord[..];
      CarryStep(shape, old(coord[..]), idim, c);
      CarryEnds(shape, old(coord[..]), idim, c);
      coord[idim] := coord[idim] + 1;
      if coord[idim] == shape[idim] {
        DotUpdate(c, stridesA, idim, 0);
        DotUpdate(c, stridesB, idim, 0);
        DotUpdate(c, stridesC, idim, 0);
        WrapBack(c[idim], shape[idim], stridesA[idim]);
        WrapBack(c[idim], shape[idim], stridesB[idim]);
        WrapBack(c[idim], shape[idim], stridesC[idim]);
        coord[idim] := 0;
        assert coord[..] == c[idim := 0];
        newA := newA - ToLast(stridesA[idim], shape[idim]);
        newB := newB - ToLast(stridesB[idim], shape[idim]);
        newC := newC - ToLast(stridesC[idim], shape[idim]);
      } else {
        DotUpdate(c, stridesA, idim, c[idim] + 1);
        DotUpdate(c, stridesB, idim, c[idim] + 1);
        DotUpdate(c, stridesC, idim, c[idim] + 1);
        assert coord[..] == c[idim := c[idim] + 1];
        newA := newA + stridesA[idim];
        newB := newB + stridesB[idim];
        newC := newC + stridesC[idim];
        wrapped := false;
        return;
      }
      idim := idim + 1;
    }
    CarryEnds(shape, old(coord[..]), ndim, coord[..]);
    wrapped := true;
  }

  /** The whole loop over two operands, recording the pointers at each visit: visit k is at the strided offset of the
      mixed-radix digits of k, there is one visit for each coordinate, and afterwards the pointers are back at their
      bases. */
  method VisitTwo(shape: seq<nat>, baseA: int, stridesA: seq<int>, baseB: int, stridesB: seq<int>)
    returns (visits: seq<(int, int)>, dataA: int, dataB: int)
    requires Positive(shape) && |shape| == |stridesA| == |stridesB|
    ensures |visits| == Size(shape) && dataA == baseA && dataB == baseB
    ensures forall k | 0 <= k < |visits| ::
      visits[k] == (baseA + Dot(UnravelF(shape, k), stridesA), baseB + Dot(UnravelF(shape, k), stridesB))
  {
    hide Next, Dot, RavelF, UnravelF;
    var coord := new nat[|shape|](_ => 0);
    assert coord[..] == Origin(|shape|);
    ZerosFirst(shape);
    DotZeros(stridesA);
    DotZeros(stridesB);
    visits, dataA, dataB := [], baseA, baseB;
    while true
      invariant ValidCoord(shape, coord[..]) && RavelF(shape, coord[..]) == |visits| < Size(shape)
      invariant dataA == baseA + Dot(coord[..], stridesA) && dataB == baseB + Dot(coord[..], stridesB)
      invariant forall k | 0 <= k < |visits| ::
        visits[k] == (baseA + Dot(UnravelF(shape, k), stridesA), baseB + Dot(UnravelF(shape, k), stridesB))
      decreases Size(shape) - |visits|
    {
      RavelFInverse(shape, coord[..]);
      NextCounts(shape, coord[..]);
      visits := visits + [(dataA, dataB)];
      var wrapped;
      dataA, dataB, wrapped := RawIterTwoNext(shape, coord, dataA, stridesA, dataB, stridesB);
      if wrapped {
        break;
      }
      RavelFInverse(shape, coord[..]);
    }
  }

  method VisitThree(shape: seq<nat>, baseA: int, stridesA: seq<int>, baseB: int, stridesB: seq<int>, baseC: int,
      stridesC: seq<int>)
    returns (visits: seq<(int, int, int)>, dataA: int, dataB: int, dataC: int)
    requires Positive(shape) && |shape| == |stridesA| == |stridesB| == |stridesC|
    ensures |visits| == Size(shape) && dataA == baseA && dataB == baseB && dataC == baseC
    ensures forall k | 0 <= k < |visits| ::
      visits[k] == (baseA + Dot(UnravelF(shape, k), stridesA), baseB + Dot(UnravelF(shape, k), stridesB),
        baseC + Dot(UnravelF(shape, k), stridesC))
  {
    hide Next, Dot, RavelF, UnravelF;
    var coord := new nat[|shape|](_ => 0);
    assert coord[..] == Origin(|shape|);
    ZerosFirst(shape);
    DotZeros(stridesA);
    DotZeros(stridesB);
    DotZeros(stridesC);
    visits, dataA, dataB, dataC := [], baseA, baseB, baseC;
    while true
      invariant ValidCoord(shape, coord[..]) && RavelF(shape, coord[..]) == |visits| < Size(shape)
      invariant dataA == baseA + Dot(coord[..], stridesA) && dataB == baseB + Dot(coord[..], stridesB)
      invariant dataC == baseC + Dot(coord[..], stridesC)
      invariant forall k | 0 <= k < |visits| ::
        visits[k] == (baseA + Dot(UnravelF(shape, k), stridesA), baseB + Dot(UnravelF(shape, k), stridesB),
          baseC + Dot(UnravelF(shape, k), stridesC))
      decreases Size(shape) - |visits|
    {
      RavelFInverse(shape, coord[..]);
      NextCounts(shape, coord[..]);
      visits := visits + [(dataA, dataB, dataC)];
      var wrapped;
      dataA, dataB, dataC, wrapped := RawIterThreeNext(shape, coord, dataA, stridesA, dataB, stridesB, dataC, stridesC);
      if wrapped {
        break;
      }
      RavelFInverse(shape, coord[..]);
    }
  }

  // ----- preparing, then iterating

  /** The original coordinate that visit k is at. */
  function VisitedAt(shape: seq<nat>, stridesA: seq<int>, k: nat): (c: seq<nat>)
    requires |shape| == |stridesA| && k < Size(shape)
    ensures ValidCoord(shape, c)
  {
    UnravelFInverse(shape, k);
    Mirror(shape, stridesA, UnravelF(shape, k))
  }

  /** Every original coordinate has exactly one visit. */
  lemma VisitedOnce(shape: seq<nat>, stridesA: seq<int>, c: seq<nat>)
    requires |shape| == |stridesA| && ValidCoord(shape, c)
    ensures var k := RavelF(shape, Mirror(shape, stridesA, c));
      && k < Size(shape) && VisitedAt(shape, stridesA, k) == c
      && forall j: nat | j < Size(shape) && VisitedAt(shape, stridesA, j) == c :: j == k
  {
    var m := Mirror(shape, stridesA, c);
    RavelFInverse(shape, m);
    MirrorInvolution(shape, stridesA, c);
    forall j: nat | j < Size(shape) && VisitedAt(shape, stridesA, j) == c
      ensures j == RavelF(shape, m)
    {
      UnravelFInverse(shape, j);
      MirrorInvolution(shape, stridesA, UnravelF(shape, j));
    }
  }

  /** Visit k of the prepared operand, in terms of the original one. */
  lemma VisitAddress(shape: seq<nat>, stridesA: seq<int>, strides: seq<int>, data: int, k: nat)
    requires |shape| == |stridesA| == |strides| && k < Size(shape)
    ensures PreparedBase(shape, stridesA, strides, data) + Dot(UnravelF(shape, k), PreparedStrides(stridesA, strides))
         == data + Dot(VisitedAt(shape, stridesA, k), strides)
  {
    UnravelFInverse(shape, k);
    PreparedAddress(shape, stridesA, strides, data, UnravelF(shape, k));
  }

  /** Prepared and iterated, the operands are visited together at their original addresses, one visit for each
      coordinate (VisitedOnce), with all strides of the first operand non-negative. */
  method PrepareAndVisitTwo(shape: seq<nat>, dataA: int, stridesA: seq<int>, dataB: int, stridesB: seq<int>)
    returns (visits: seq<(int, int)>)
    requires Positive(shape) && |shape| == |stridesA| == |stridesB|
    ensures |visits| == Size(shape)
    ensures forall k | 0 <= k < |visits| ::
      visits[k] == (dataA + Dot(VisitedAt(shape, stridesA, k), stridesA),
        dataB + Dot(VisitedAt(shape, stridesA, k), stridesB))
  {
    hide Dot, UnravelF, VisitedAt, PreparedStrides, PreparedBase, Size;
    var outShape, outA, outB := new nat[|shape|], new int[|shape|], new int[|shape|];
    var ndim, baseA, baseB := PrepareTwoRawArrayIter(shape, dataA, stridesA, dataB, stridesB, outShape, outA, outB);
    var endA, endB;
    visits, endA, endB := VisitTwo(outShape[..ndim], baseA, outA[..ndim], baseB, outB[..ndim]);
    forall k | 0 <= k < |visits|
      ensures visits[k] == (dataA + Dot(VisitedAt(shape, stridesA, k), stridesA),
        dataB + Dot(VisitedAt(shape, stridesA, k), stridesB))
    {
      VisitAddress(shape, stridesA, stridesA, dataA, k);
      VisitAddress(shape, stridesA, stridesB, dataB, k);
    }
  }

  /** ... and so for three operands; without axes there is a single visit. */
  method PrepareAndVisitThree(shape: seq<nat>, dataA: int, stridesA: seq<int>, dataB: int, stridesB: seq<int>,
      dataC: int, stridesC: seq<int>)
    returns (visits: seq<(int, int, int)>)
    requires Positive(shape) && |shape| == |stridesA| == |stridesB| == |stridesC|
    ensures |visits| == Size(shape)
    ensures forall k | 0 <= k < |visits| ::
      visits[k] == (dataA + Dot(VisitedAt(shape, stridesA, k), stridesA),
        dataB + Dot(VisitedAt(shape, stridesA, k), stridesB),
        dataC + Dot(VisitedAt(shape, stridesA, k), stridesC))
  {
    hide Dot, UnravelF, VisitedAt, PreparedStrides, PreparedBase, Size;
    var n := if |shape| == 0 then 1 else |shape|;
    var outShape, outA, outB, outC := new nat[n], new int[n], new int[n], new int[n];
    var ndim, baseA, baseB, baseC :=
      PrepareThreeRawArrayIter(shape, dataA, stridesA, dataB, stridesB, dataC, stridesC, outShape, outA, outB, outC);
    var endA, endB, endC;
    visits, endA, endB, endC := VisitThree(outShape[..ndim], baseA, outA[..ndim], baseB, outB[..ndim], baseC,
      outC[..ndim]);
    if shape == [] {
      ScalarVisit(outShape[..ndim], outA[..ndim]);
      ScalarVisit(outShape[..ndim], outB[..ndim]);
      ScalarVisit(outShape[..ndim], outC[..ndim]);
      NoAxes(stridesA, stridesA);
      NoAxes(stridesA, stridesB);
      NoAxes(stridesA, stridesC);
      assert visits[0] == (dataA, dataB, dataC);
    } else {
      forall k | 0 <= k < |visits|
        ensures visits[k] == (dataA + Dot(VisitedAt(shape, stridesA, k), stridesA),
          dataB + Dot(VisitedAt(shape, stridesA, k), stridesB),
          dataC + Dot(VisitedAt(shape, stridesA, k), stridesC))
      {
        VisitAddress(shape, stridesA, stridesA, dataA, k);
        VisitAddress(shape, stridesA, stridesB, dataB, k);
        VisitAddress(shape, stridesA, stridesC, dataC, k);
      }
    }
  }

  lemma NoAxes(stridesA: seq<int>, strides: seq<int>)
    requires stridesA == [] && strides == []
    ensures Size([]) == 1 && Dot(VisitedAt([], stridesA, 0), strides) == 0
  {
  }

  lemma ScalarVisit(shape: seq<nat>, strides: seq<int>)
    requires shape == [1] && strides == [0]
    ensures Size(shape) == 1 && Dot(UnravelF(shape, 0), strides) == 0
  {
    assert Size(shape) == 1 * Size(shape[1..]);
  }
}
