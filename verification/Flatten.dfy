/** Copying a tensor of any strides into a linear buffer in a given order: flattenGeneric in
    blas/cpu/NativeOps.cpp. What shape.h supplies is taken by its index meaning: ind2sub and ind2subC unravel a number
    in 'f' and 'c' order, getOffset is the strided offset, tadOffset numbers the remaining axes in 'c' order. */
module Flatten {
  import opened Sequences
  import opened Arithmetic
  import opened Radix

  function Unravel(order: char, shape: seq<nat>, k: nat): (c: seq<nat>)
    requires k < Size(shape)
    ensures |c| == |shape|
  {
    if order == 'f' then UnravelF(shape, k) else UnravelC(shape, k)
  }

  /** The position of a coordinate in the flattened array. */
  function Position(order: char, shape: seq<nat>, c: seq<nat>): nat
    requires |c| == |shape|
  {
    if order == 'f' then RavelF(shape, c) else RavelC(shape, c)
  }

  lemma PositionInverse(order: char, shape: seq<nat>, c: seq<nat>)
    requires ValidCoord(shape, c)
    ensures Position(order, shape, c) < Size(shape) && Unravel(order, shape, Position(order, shape, c)) == c
  {
    if order == 'f' { RavelFInverse(shape, c); } else { RavelCInverse(shape, c); }
  }

  lemma UnravelInverse(order: char, shape: seq<nat>, k: nat)
    requires k < Size(shape)
    ensures ValidCoord(shape, Unravel(order, shape, k)) && Position(order, shape, Unravel(order, shape, k)) == k
  {
    if order == 'f' { UnravelFInverse(shape, k); } else { UnravelCInverse(shape, k); }
  }

  /** Every element of the input lies in its buffer. */
  ghost predicate InBounds(shape: seq<nat>, strides: seq<int>, length: nat)
    requires |shape| == |strides|
  {
    forall c | ValidCoord(shape, c) :: 0 <= Dot(c, strides) < length
  }

  /** What a positive element-wise stride says: in the array's own order the elements are that far apart. */
  ghost predicate EvenlySpaced(order: char, shape: seq<nat>, strides: seq<int>, ews: int)
    requires |shape| == |strides|
  {
    forall k: nat | k < Size(shape) :: Dot(Unravel(order, shape, k), strides) == k * ews
  }

  /** The slot of position k. */
  function SlotAt(offset: nat, step: nat, k: nat): nat {
    offset + k * step
  }

  lemma SlotsApart(offset: nat, step: nat, j: nat, k: nat)
    requires step > 0 && j < k
    ensures SlotAt(offset, step, j) < SlotAt(offset, step, k)
  {
    MulMonotone(j + 1, k, step);
  }

  /** Slot p of the result holds the input element of coordinate c. */
  ghost predicate Placed<T>(strides: seq<int>, input: seq<T>, result: seq<T>, c: seq<nat>, p: int)
    requires |c| == |strides|
  {
    0 <= p < |result| && 0 <= Dot(c, strides) < |input| && result[p] == input[Dot(c, strides)]
  }

  /** Every coordinate's element is at its position. */
  ghost predicate Flattened<T>(order: char, shape: seq<nat>, strides: seq<int>, input: seq<T>, result: seq<T>,
      offset: nat, step: nat)
    requires |shape| == |strides|
  {
    forall c | ValidCoord(shape, c) ::
      Placed(strides, input, result, c, SlotAt(offset, step, Position(order, shape, c)))
  }

  ghost predicate PlacedUpTo<T>(order: char, shape: seq<nat>, strides: seq<int>, input: seq<T>, result: seq<T>,
      offset: nat, step: nat, n: nat)
    requires |shape| == |strides|
  {
    n <= Size(shape)
    && forall k: nat | k < n :: Placed(strides, input, result, Unravel(order, shape, k), SlotAt(offset, step, k))
  }

  /** Nothing but the n slots of the result has changed. */
  ghost predicate OnlySlots<T>(before: seq<T>, after: seq<T>, offset: nat, step: nat, n: nat) {
    |after| == |before|
    && forall p | 0 <= p < |after| && (forall k: nat | k < n :: p != SlotAt(offset, step, k)) :: after[p] == before[p]
  }

  lemma AllPlaced<T>(order: char, shape: seq<nat>, strides: seq<int>, input: seq<T>, result: seq<T>, offset: nat,
      step: nat)
    requires |shape| == |strides| && PlacedUpTo(order, shape, strides, input, result, offset, step, Size(shape))
    ensures Flattened(order, shape, strides, input, result, offset, step)
  {
    hide SlotAt, Placed, Position, Unravel;
    forall c | ValidCoord(shape, c)
      ensures Placed(strides, input, result, c, SlotAt(offset, step, Position(order, shape, c)))
    {
      PositionInverse(order, shape, c);
    }
  }

  /** Writing slot n leaves the earlier slots alone. */
  lemma PlaceNext<T>(order: char, shape: seq<nat>, strides: seq<int>, input: seq<T>, before: seq<T>, result: seq<T>,
      offset: nat, step: nat, n: nat)
    requires |shape| == |strides| && InBounds(shape, strides, |input|) && n < Size(shape) && step > 0
    requires PlacedUpTo(order, shape, strides, input, result, offset, step, n)
      && OnlySlots(before, result, offset, step, n)
    requires SlotAt(offset, step, n) < |result|
    ensures 0 <= Dot(Unravel(order, shape, n), strides) < |input|
    ensures var r := result[SlotAt(offset, step, n) := input[Dot(Unravel(order, shape, n), strides)]];
      && PlacedUpTo(order, shape, strides, input, r, offset, step, n + 1)
      && OnlySlots(before, r, offset, step, n + 1)
  {
    hide SlotAt, Dot, Unravel, Size;
    UnravelInverse(order, shape, n);
    var c := Unravel(order, shape, n);
    var r := result[SlotAt(offset, step, n) := input[Dot(c, strides)]];
    forall k: nat | k < n + 1
      ensures Placed(strides, input, r, Unravel(order, shape, k), SlotAt(offset, step, k))
    {
      if k < n {
        assert Placed(strides, input, result, Unravel(order, shape, k), SlotAt(offset, step, k));
        SlotsApart(offset, step, k, n);
      }
    }
    forall p | 0 <= p < |r| && (forall k: nat | k < n + 1 :: p != SlotAt(offset, step, k))
      ensures r[p] == before[p]
    {
      assert p != SlotAt(offset, step, n);
      assert forall k: nat | k < n :: p != SlotAt(offset, step, k);
    }
  }

  lemma NonePlaced<T>(order: char, shape: seq<nat>, strides: seq<int>, input: seq<T>, result: seq<T>, offset: nat,
      step: nat)
    requires |shape| == |strides|
    ensures PlacedUpTo(order, shape, strides, input, result, offset, step, 0)
      && OnlySlots(result, result, offset, step, 0)
  {
  }

  predicate SlotsFit(shape: seq<nat>, offset: nat, step: nat, length: nat) {
    forall k: nat | k < Size(shape) :: SlotAt(offset, step, k) < length
  }

  /** The whole of flattenGeneric. Only the copy by element-wise strides heeds the stride of the result; all other
      branches write densely. */
  method FlattenGeneric<T>(
      offset: nat, order: char, result: array<T>, resultEws: int,
      input: array<T>, inputOrder: char, inputEws: int, shape: seq<nat>, strides: seq<int>)
    requires result != input && |shape| == |strides| > 0 && InBounds(shape, strides, input.Length)
    requires inputEws >= 1 ==> EvenlySpaced(inputOrder, shape, strides, inputEws)
    requires var even := inputOrder == order && resultEws >= 1 && inputEws >= 1;
      SlotsFit(shape, offset, if even then resultEws else 1, result.Length)
    modifies result
    ensures inputOrder == order && resultEws >= 1 && inputEws >= 1 ==>
      && Flattened(order, shape, strides, input[..], result[..], offset, resultEws)
      && OnlySlots(old(result[..]), result[..], offset, resultEws, Size(shape))
    ensures inputOrder != order || resultEws < 1 || inputEws < 1 ==>
      && Flattened(order, shape, strides, input[..], result[..], offset, 1)
      && OnlySlots(old(result[..]), result[..], offset, 1, Size(shape))
  {
    hide Flattened, PlacedUpTo, OnlySlots;
    if inputOrder == order {
      if resultEws >= 1 && inputEws >= 1 {
        // with both strides 1 this is a memcpy
        CopyEvenly(offset, order, result, resultEws, input, inputEws, shape, strides);
      } else {
        CopyByCoordinate(offset, order, result, input, shape, strides);
      }
    } else {
      CopyByTad(offset, order, result, input, shape, strides);
    }
    ghost var step := if inputOrder == order && resultEws >= 1 && inputEws >= 1 then resultEws else 1;
    AllPlaced(order, shape, strides, input[..], result[..], offset, step);
  }

  /** Both operands stepped through by their element-wise strides. */
  method CopyEvenly<T>(
      offset: nat, order: char, result: array<T>, resultEws: nat, input: array<T>, inputEws: nat, shape: seq<nat>,
      strides: seq<int>)
    requires result != input && |shape| == |strides| && InBounds(shape, strides, input.Length)
    requires resultEws >= 1 && EvenlySpaced(order, shape, strides, inputEws)
    requires SlotsFit(shape, offset, resultEws, result.Length)
    modifies result
    ensures PlacedUpTo(order, shape, strides, input[..], result[..], offset, resultEws, Size(shape))
    ensures OnlySlots(old(result[..]), result[..], offset, resultEws, Size(shape))
  {
    hide PlacedUpTo, OnlySlots;
    var len := Size(shape);
    NonePlaced(order, shape, strides, input[..], result[..], offset, resultEws);
    for i := 0 to len
      invariant PlacedUpTo(order, shape, strides, input[..], result[..], offset, resultEws, i)
      invariant OnlySlots(old(result[..]), result[..], offset, resultEws, i)
    {
      PlaceNext(order, shape, strides, input[..], old(result[..]), result[..], offset, resultEws, i);
      assert Dot(Unravel(order, shape, i), strides) == i * inputEws;
      Put(result, SlotAt(offset, resultEws, i), input[i * inputEws]);
    }
  }

  /** Same order, no usable element-wise stride: one coordinate after the other. */
  method CopyByCoordinate<T>(offset: nat, order: char, result: array<T>, input: array<T>, shape: seq<nat>,
      strides: seq<int>)
    requires result != input && |shape| == |strides| && InBounds(shape, strides, input.Length)
    requires SlotsFit(shape, offset, 1, result.Length)
    modifies result
    ensures PlacedUpTo(order, shape, strides, input[..], result[..], offset, 1, Size(shape))
    ensures OnlySlots(old(result[..]), result[..], offset, 1, Size(shape))
  {
    hide PlacedUpTo, OnlySlots;
    var idx, len := 0, Size(shape);
    NonePlaced(order, shape, strides, input[..], result[..], offset, 1);
    for i := 0 to len
      invariant idx == i
      invariant PlacedUpTo(order, shape, strides, input[..], result[..], offset, 1, i)
      invariant OnlySlots(old(result[..]), result[..], offset, 1, i)
    {
      PlaceNext(order, shape, strides, input[..], old(result[..]), result[..], offset, 1, i);
      var coord := if order == 'f' then UnravelF(shape, i) else UnravelC(shape, i);
      assert SlotAt(offset, 1, i) == offset + idx;
      Put(result, offset + idx, input[Dot(coord, strides)]);
      idx := idx + 1;
    }
  }

  // ----- the mixed-order branch

  /** The axes other than the one the sub-arrays (TADs) run along. */
  function Rest<S>(order: char, s: seq<S>): (r: seq<S>)
    requires |s| > 0
    ensures |r| == |s| - 1
  {
    if order == 'f' then s[1..] else s[..|s| - 1]
  }

  function Dimension(order: char, rank: nat): (d: nat)
    requires rank > 0
    ensures d < rank
  {
    if order == 'f' then 0 else rank - 1
  }

  /** Where TAD i begins, with TADs numbered in C order. */
  function TadOffset(order: char, shape: seq<nat>, strides: seq<int>, i: nat): int
    requires |shape| == |strides| > 0 && i < Size(Rest(order, shape))
  {
    Dot(UnravelC(Rest(order, shape), i), Rest(order, strides))
  }

  /** Which block of the result TAD i becomes. */
  function Block(order: char, rest: seq<nat>, i: nat): nat
    requires i < Size(rest)
  {
    if order == 'f' then RavelF(rest, UnravelC(rest, i)) else i
  }

  /** Which TAD a block of the result comes from. */
  function TadOf(order: char, rest: seq<nat>, b: nat): nat
    requires b < Size(rest)
  {
    if order == 'f' then RavelC(rest, UnravelF(rest, b)) else b
  }

  /** Block is a bijection on TAD numbers, with inverse TadOf. */
  lemma BlockBijection(order: char, rest: seq<nat>, i: nat)
    requires i < Size(rest)
    ensures Block(order, rest, i) < Size(rest) && TadOf(order, rest, Block(order, rest, i)) == i
    ensures TadOf(order, rest, i) < Size(rest) && Block(order, rest, TadOf(order, rest, i)) == i
  {
    UnravelCInverse(rest, i);
    UnravelFInverse(rest, i);
    RavelFInverse(rest, UnravelC(rest, i));
    RavelCInverse(rest, UnravelF(rest, i));
  }

  lemma SizeRest(order: char, shape: seq<nat>)
    requires |shape| > 0
    ensures Size(shape) == Size(Rest(order, shape)) * shape[Dimension(order, |shape|)]
  {
    hide Size;
    if order == 'f' {
      SizeFrom(shape, 0);
    } else {
      SplitLast(shape);
      SizeSnoc(shape[..|shape| - 1], shape[|shape| - 1]);
    }
  }

  /** The length of a TAD. */
  function TadLength(order: char, shape: seq<nat>): nat
    requires |shape| > 0
  {
    shape[Dimension(order, |shape|)]
  }

  function PositionIn(order: char, shape: seq<nat>, i: nat, j: nat): nat
    requires |shape| > 0 && i < Size(Rest(order, shape))
  {
    Block(order, Rest(order, shape), i) * TadLength(order, shape) + j
  }

  /** Element j of TAD i is the element of position b * length + j of the result, where b is the TAD's block. */
  lemma TadElement(order: char, shape: seq<nat>, strides: seq<int>, i: nat, j: nat)
    requires |shape| == |strides| > 0 && i < Size(Rest(order, shape)) && j < TadLength(order, shape)
    ensures PositionIn(order, shape, i, j) < Size(shape)
    ensures Dot(Unravel(order, shape, PositionIn(order, shape, i, j)), strides)
         == TadOffset(order, shape, strides, i) + j * strides[Dimension(order, |shape|)]
  {
    hide Dot, UnravelC, UnravelF, RavelC, RavelF, Size, ValidCoord;
    var rest := Rest(order, shape);
    UnravelCInverse(rest, i);
    if order == 'f' {
      FirstCoordinate(shape, strides, UnravelC(rest, i), j, PositionIn(order, shape, i, j));
    } else {
      LastCoordinate(shape, strides, UnravelC(rest, i), j, PositionIn(order, shape, i, j));
    }
  }

  lemma FirstCoordinate(shape: seq<nat>, strides: seq<int>, c: seq<nat>, j: nat, k: nat)
    requires |shape| == |strides| > 0 && ValidCoord(shape[1..], c) && j < shape[0]
    requires k == RavelF(shape[1..], c) * shape[0] + j
    ensures
      && k < Size(shape) && UnravelF(shape, k) == [j] + c
      && Dot([j] + c, strides) == Dot(c, strides[1..]) + j * strides[0]
  {
    hide UnravelF, Size, RavelF;
    FirstFastest(shape, j, c);
    RavelFInverse(shape, [j] + c);
    DotFirst(j, c, strides);
  }

  lemma DotFirst(j: nat, c: seq<nat>, strides: seq<int>)
    requires |c| + 1 == |strides|
    ensures Dot([j] + c, strides) == Dot(c, strides[1..]) + j * strides[0]
  {
    assert ([j] + c)[1..] == c;
  }

  lemma LastCoordinate(shape: seq<nat>, strides: seq<int>, c: seq<nat>, j: nat, k: nat)
    requires |shape| == |strides| > 0 && ValidCoord(shape[..|shape| - 1], c) && j < shape[|shape| - 1]
    requires k == RavelC(shape[..|shape| - 1], c) * shape[|shape| - 1] + j
    ensures var n := |shape| - 1;
      && k < Size(shape) && UnravelC(shape, k) == c + [j]
      && Dot(c + [j], strides) == Dot(c, strides[..n]) + j * strides[n]
  {
    hide UnravelC, RavelC, Size, Dot;
    var n := |shape| - 1;
    SplitLast(shape);
    SplitLast(strides);
    RavelCSnoc(shape[..n], c, shape[n], j);
    assert ValidCoord(shape, c + [j]);
    RavelCInverse(shape, c + [j]);
    DotSnoc(c, strides[..n], j, strides[n]);
  }

  /** The block that position k of the result lies in. */
  function BlockAt(order: char, shape: seq<nat>, k: nat): nat
    requires |shape| > 0
  {
    if TadLength(order, shape) == 0 then 0 else k / TadLength(order, shape)
  }

  /** Every position lies in the block of exactly one TAD, at some place in it. */
  lemma PositionInTad(order: char, shape: seq<nat>, k: nat)
    requires |shape| > 0 && k < Size(shape)
    ensures BlockAt(order, shape, k) < Size(Rest(order, shape))
    ensures var i := TadOf(order, Rest(order, shape), BlockAt(order, shape, k));
      var j := k - BlockAt(order, shape, k) * TadLength(order, shape);
      i < Size(Rest(order, shape)) && 0 <= j < TadLength(order, shape) && k == PositionIn(order, shape, i, j)
  {
    SizeRest(order, shape);
    QuotientInRange(k, Size(Rest(order, shape)), TadLength(order, shape));
    BlockBijection(order, Rest(order, shape), BlockAt(order, shape, k));
  }

  /** Position k belongs to one of the first i TADs. */
  predicate TadBefore(order: char, shape: seq<nat>, k: nat, i: nat)
    requires |shape| > 0
  {
    BlockAt(order, shape, k) < Size(Rest(order, shape))
      && TadOf(order, Rest(order, shape), BlockAt(order, shape, k)) < i
  }

  /** The elements of the first i TADs are in place. */
  ghost predicate TadsPlaced<T>(order: char, shape: seq<nat>, strides: seq<int>, input: seq<T>, result: seq<T>,
      offset: nat, i: nat)
    requires |shape| == |strides| > 0
  {
    forall k: nat | k < Size(shape) && TadBefore(order, shape, k, i) ::
      Placed(strides, input, result, Unravel(order, shape, k), SlotAt(offset, 1, k))
  }

  /** What copying one TAD does to the result. */
  ghost predicate TadWritten<T>(input: seq<T>, before: seq<T>, result: seq<T>, base: int, from: int, stride: int,
      length: nat) {
    && |before| == |result|
    && (forall j: nat | j < length :: ElementAt(input, result, base + j, from + j * stride))
    && (forall p | 0 <= p < |result| && !(base <= p < base + length) :: result[p] == before[p])
  }

  predicate ElementAt<T(==)>(input: seq<T>, result: seq<T>, p: int, q: int) {
    0 <= p < |result| && 0 <= q < |input| && result[p] == input[q]
  }

  /** Copying TAD i into its block. */
  lemma PlaceTad<T>(order: char, shape: seq<nat>, strides: seq<int>, input: seq<T>, before: seq<T>, result: seq<T>,
      offset: nat, i: nat)
    requires |shape| == |strides| > 0 && i < Size(Rest(order, shape))
    requires TadsPlaced(order, shape, strides, input, before, offset, i)
    requires TadWritten(input, before, result, offset + PositionIn(order, shape, i, 0),
      TadOffset(order, shape, strides, i), strides[Dimension(order, |shape|)], TadLength(order, shape))
    ensures TadsPlaced(order, shape, strides, input, result, offset, i + 1)
  {
    hide Dot, Unravel, Size, TadOffset, Block, BlockAt, TadOf, PositionIn, TadWritten, Placed;
    forall k: nat | k < Size(shape) && TadBefore(order, shape, k, i + 1)
      ensures Placed(strides, input, result, Unravel(order, shape, k), SlotAt(offset, 1, k))
    {
      PositionInTad(order, shape, k);
      var i', j := TadOf(order, Rest(order, shape), BlockAt(order, shape, k)),
        k - BlockAt(order, shape, k) * TadLength(order, shape);
      if i' == i {
        WrittenInTad(order, shape, strides, input, before, result, offset, i, j);
      } else {
        KeptOutsideTad(order, shape, strides, input, before, result, offset, i, i', j, Unravel(order, shape, k));
      }
    }
  }

  lemma WrittenInTad<T>(order: char, shape: seq<nat>, strides: seq<int>, input: seq<T>, before: seq<T>, result: seq<T>,
      offset: nat, i: nat, j: nat)
    requires |shape| == |strides| > 0 && i < Size(Rest(order, shape)) && j < TadLength(order, shape)
    requires TadWritten(input, before, result, offset + PositionIn(order, shape, i, 0),
      TadOffset(order, shape, strides, i), strides[Dimension(order, |shape|)], TadLength(order, shape))
    ensures PositionIn(order, shape, i, j) < Size(shape)
    ensures Placed(strides, input, result, Unravel(order, shape, PositionIn(order, shape, i, j)),
      SlotAt(offset, 1, PositionIn(order, shape, i, j)))
  {
    hide Dot, Unravel, Size, TadOffset, Block;
    TadElement(order, shape, strides, i, j);
    assert ElementAt(input, result, offset + PositionIn(order, shape, i, 0) + j,
                     TadOffset(order, shape, strides, i) + j * strides[Dimension(order, |shape|)]);
  }

  lemma KeptOutsideTad<T>(order: char, shape: seq<nat>, strides: seq<int>, input: seq<T>, before: seq<T>,
      result: seq<T>, offset: nat, i: nat, i': nat, j: nat, c: seq<nat>)
    requires |shape| == |strides| == |c| > 0 && i < Size(Rest(order, shape)) && j < TadLength(order, shape)
    requires TadWritten(input, before, result, offset + PositionIn(order, shape, i, 0),
      TadOffset(order, shape, strides, i), strides[Dimension(order, |shape|)], TadLength(order, shape))
    requires i' < Size(Rest(order, shape)) && i' != i
    requires Placed(strides, input, before, c, SlotAt(offset, 1, PositionIn(order, shape, i', j)))
    ensures Placed(strides, input, result, c, SlotAt(offset, 1, PositionIn(order, shape, i', j)))
  {
    hide Dot, Size, TadOffset, Block;
    BlockBijection(order, Rest(order, shape), i);
    BlockBijection(order, Rest(order, shape), i');
    BlocksApart(Block(order, Rest(order, shape), i), Block(order, Rest(order, shape), i'), j, TadLength(order, shape));
  }

  lemma BlocksApart(b: nat, b': nat, j: nat, n: nat)
    requires b != b' && j < n
    ensures !(b * n <= b' * n + j < b * n + n)
  {
    if b < b' { MulMonotone(b + 1, b', n); } else { MulMonotone(b' + 1, b, n); }
  }

  /** The loop over TADs, each copied whole to where its block of the result begins. */
  method CopyByTad<T>(offset: nat, order: char, result: array<T>, input: array<T>, shape: seq<nat>, strides: seq<int>)
    requires result != input && |shape| == |strides| > 0 && InBounds(shape, strides, input.Length)
    requires SlotsFit(shape, offset, 1, result.Length)
    modifies result
    ensures PlacedUpTo(order, shape, strides, input[..], result[..], offset, 1, Size(shape))
    ensures OnlySlots(old(result[..]), result[..], offset, 1, Size(shape))
  {
    hide TadsPlaced, OnlySlots, PlacedUpTo, TadOffset, TadWritten, RavelF, UnravelC, Size, SlotsFit, InBounds;
    var dimension := Dimension(order, |shape|);
    var stride, tadShape := strides[dimension], shape[dimension];
    var numTads := NumTads(order, shape);
    NoTads(order, shape, strides, input[..], result[..], offset);
    for i := 0 to numTads
      invariant TadsPlaced(order, shape, strides, input[..], result[..], offset, i)
      invariant OnlySlots(old(result[..]), result[..], offset, 1, Size(shape))
    {
      var block := i;
      if order == 'f' {
        block := CIndexToFIndex(shape[1..], i);
      }
      var resultOffset := block * tadShape;
      var tadOffset := TadOffset(order, shape, strides, i);
      TadFits(order, shape, strides, input.Length, result.Length, offset, i);
      ghost var before := result[..];
      CopyTad(result, offset + resultOffset, input, tadOffset, stride, tadShape);
      PlaceTad(order, shape, strides, input[..], before, result[..], offset, i);
      TadSlots(order, shape, old(result[..]), before, result[..], input[..], tadOffset, stride, offset, i);
    }
    AllTads(order, shape, strides, input[..], result[..], offset);
  }

  lemma NoTads<T>(order: char, shape: seq<nat>, strides: seq<int>, input: seq<T>, result: seq<T>, offset: nat)
    requires |shape| == |strides| > 0
    ensures TadsPlaced(order, shape, strides, input, result, offset, 0)
    ensures OnlySlots(result, result, offset, 1, Size(shape))
  {
  }

  lemma AllTads<T>(order: char, shape: seq<nat>, strides: seq<int>, input: seq<T>, result: seq<T>, offset: nat)
    requires |shape| == |strides| > 0
    requires TadsPlaced(order, shape, strides, input, result, offset, Size(Rest(order, shape)))
    ensures PlacedUpTo(order, shape, strides, input, result, offset, 1, Size(shape))
  {
    hide Placed, SlotAt, Unravel, Size, TadOf, BlockAt, PositionIn;
    forall k: nat | k < Size(shape)
      ensures TadBefore(order, shape, k, Size(Rest(order, shape)))
    {
      PositionInTad(order, shape, k);
    }
  }

  /** A TAD and its block lie inside the buffers. */
  lemma TadFits(order: char, shape: seq<nat>, strides: seq<int>, inputLength: nat, resultLength: nat, offset: nat,
      i: nat)
    requires |shape| == |strides| > 0 && InBounds(shape, strides, inputLength) && i < Size(Rest(order, shape))
    requires SlotsFit(shape, offset, 1, resultLength)
    ensures forall j: nat | j < TadLength(order, shape) ::
      0 <= TadOffset(order, shape, strides, i) + j * strides[Dimension(order, |shape|)] < inputLength
    ensures TadLength(order, shape) > 0 ==>
      offset + PositionIn(order, shape, i, 0) + TadLength(order, shape) <= resultLength
  {
    hide Dot, Unravel, Size, TadOffset, Block;
    forall j: nat | j < TadLength(order, shape)
      ensures 0 <= TadOffset(order, shape, strides, i) + j * strides[Dimension(order, |shape|)] < inputLength
    {
      TadElement(order, shape, strides, i, j);
      UnravelInverse(order, shape, PositionIn(order, shape, i, j));
    }
    if TadLength(order, shape) > 0 {
      TadElement(order, shape, strides, i, TadLength(order, shape) - 1);
      assert SlotAt(offset, 1, PositionIn(order, shape, i, TadLength(order, shape) - 1)) < resultLength;
    }
  }

  lemma TadSlots<T>(order: char, shape: seq<nat>, first: seq<T>, before: seq<T>, result: seq<T>, input: seq<T>,
      from: int, stride: int, offset: nat, i: nat)
    requires |shape| > 0 && i < Size(Rest(order, shape)) && OnlySlots(first, before, offset, 1, Size(shape))
    requires TadWritten(input, before, result, offset + PositionIn(order, shape, i, 0), from, stride,
      TadLength(order, shape))
    ensures OnlySlots(first, result, offset, 1, Size(shape))
  {
    hide Size, Block;
    forall p | 0 <= p < |result| && (forall k: nat | k < Size(shape) :: p != SlotAt(offset, 1, k))
      ensures result[p] == first[p]
    {
      var base := offset + PositionIn(order, shape, i, 0);
      if base <= p < base + TadLength(order, shape) {
        SlotInTad(order, shape, offset, i, p - base);
      }
    }
  }

  lemma SlotInTad(order: char, shape: seq<nat>, offset: nat, i: nat, j: nat)
    requires |shape| > 0 && i < Size(Rest(order, shape)) && j < TadLength(order, shape)
    ensures exists k: nat :: k < Size(shape) && offset + PositionIn(order, shape, i, 0) + j == SlotAt(offset, 1, k)
  {
    PositionInRange(order, shape, i, j);
    assert offset + PositionIn(order, shape, i, 0) + j == SlotAt(offset, 1, PositionIn(order, shape, i, j));
  }

  lemma PositionInRange(order: char, shape: seq<nat>, i: nat, j: nat)
    requires |shape| > 0 && i < Size(Rest(order, shape)) && j < TadLength(order, shape)
    ensures PositionIn(order, shape, i, j) < Size(shape)
  {
    TadElement(order, shape, shape, i, j);
  }

  method NumTads(order: char, shape: seq<nat>) returns (numTads: nat)
    requires |shape| > 0
    ensures numTads == Size(Rest(order, shape))
  {
    var dimension := Dimension(order, |shape|);
    numTads := 1;
    for i := 0 to |shape|
      invariant i <= dimension ==> numTads == Size(shape[..i])
      invariant i > dimension ==> numTads == Size(shape[..dimension] + shape[dimension + 1..i])
    {
      if i != dimension {
        numTads := numTads * shape[i];
      }
      if i < dimension {
        SizeGrows(shape, i);
      } else if i > dimension {
        SizeSnoc(shape[..dimension] + shape[dimension + 1..i], shape[i]);
        assert shape[..dimension] + shape[dimension + 1..i + 1]
          == shape[..dimension] + shape[dimension + 1..i] + [shape[i]];
      } else {
        assert shape[..dimension] + shape[dimension + 1..i + 1] == shape[..dimension];
      }
    }
    assert shape[..dimension] + shape[dimension + 1..|shape|] == Rest(order, shape);
  }

  /** The inner loop over one TAD. */
  method CopyTad<T>(result: array<T>, base: nat, input: array<T>, from: int, stride: int, length: nat)
    requires result != input && (length > 0 ==> base + length <= result.Length)
    requires forall j: nat | j < length :: 0 <= from + j * stride < input.Length
    modifies result
    ensures TadWritten(input[..], old(result[..]), result[..], base, from, stride, length)
  {
    for j := 0 to length
      invariant forall k: nat | k < j :: result[base + k] == input[from + k * stride]
      invariant forall p | 0 <= p < result.Length && !(base <= p < base + j) :: result[p] == old(result[p])
    {
      result[base + j] := input[from + j * stride];
    }
  }

  // ----- C index to F index

  /** The coordinates of a C index, one axis at a time from the last. */
  lemma {:induction false} UnravelCAt(shape: seq<nat>, i: nat, d: nat)
    requires i < Size(shape) && d < |shape|
    ensures Size(shape[d + 1..]) > 0 && shape[d] > 0
    ensures UnravelC(shape, i)[d] == (i / Size(shape[d + 1..])) % shape[d]
  {
    var n := Size(shape[1..]);
    QuotientInRange(i, shape[0], n);
    if d == 0 {
      DivModUnique(0, i / n, shape[0]);
    } else {
      UnravelCAt(shape[1..], i % n, d - 1);
      assert shape[1..][d..] == shape[d + 1..];
      var m := Size(shape[d + 1..]);
      assert shape[1..] == shape[1..d] + shape[d..] && shape[d..][1..] == shape[d + 1..];
      SizeAppend(shape[1..d], shape[d..]);
      DigitOfRemainder(i, Size(shape[1..d]), shape[d], m, n);
    }
  }

  /** A digit does not depend on the higher digits. */
  lemma DigitOfRemainder(i: nat, a: nat, b: nat, m: nat, n: nat)
    requires m > 0 && b > 0 && n > 0 && n == a * (b * m)
    ensures (i % n) / m % b == (i / m) % b
  {
    DigitOfParts(i, i / n, i % n, a, b, m, n);
  }

  lemma DigitOfParts(i: nat, q: nat, r: nat, a: nat, b: nat, m: nat, n: nat)
    requires m > 0 && b > 0 && n == a * (b * m) && i == q * n + r
    ensures r / m % b == (i / m) % b
  {
    var y, t, u := q * a, r / m, r % m;
    var x := y * b + t;
    assert r == t * m + u;
    HigherDigits(q, a, b, m, n, t, x);
    LowDigit(i, x, m, u, y, b, t);
  }

  lemma LowDigit(i: nat, x: nat, m: nat, u: nat, y: nat, b: nat, t: nat)
    requires u < m && b > 0 && i == x * m + u && x == y * b + t
    ensures (i / m) % b == t % b
  {
    DivModUnique(x, u, m);
    SkipMultiple(y, b, t);
  }

  lemma HigherDigits(q: nat, a: nat, b: nat, m: nat, n: nat, t: nat, x: nat)
    requires n == a * (b * m) && x == (q * a) * b + t
    ensures q * n + t * m == x * m
  {
    assert q * n == (q * a) * (b * m) == ((q * a) * b) * m;
  }

  /** The number in F order of the coordinate with number i in C order. */
  method CIndexToFIndex(shape: seq<nat>, i: nat) returns (fIndex: nat)
    requires i < Size(shape)
    ensures fIndex == RavelF(shape, UnravelC(shape, i))
  {
    var cIndexCoordinates := CCoordinates(shape, i);
    fIndex := FIndex(shape, cIndexCoordinates);
  }

  /** The first loop: the coordinates of a C index. */
  method CCoordinates(shape: seq<nat>, i: nat) returns (c: array<nat>)
    requires i < Size(shape)
    ensures c[..] == UnravelC(shape, i)
  {
    hide Size, UnravelC;
    var rank := |shape|;
    c := new nat[rank];
    var divisor, dim := 1, rank;
    SizeOfNone(shape[rank..]);
    while dim > 0
      invariant 0 <= dim <= rank && divisor == Size(shape[dim..])
      invariant forall d | dim <= d < rank :: c[d] == UnravelC(shape, i)[d]
    {
      UnravelCAt(shape, i, dim - 1);
      SizeFrom(shape, dim - 1);
      c[dim - 1] := (i / divisor) % shape[dim - 1];
      divisor := divisor * shape[dim - 1];
      dim := dim - 1;
    }
    assert c[..] == UnravelC(shape, i);
  }

  lemma SizeOfNone(s: seq<nat>)
    requires s == []
    ensures Size(s) == 1
  {
  }

  /** The second loop: the F index of the coordinates. */
  method FIndex(shape: seq<nat>, c: array<nat>) returns (fIndex: nat)
    requires c.Length == |shape|
    ensures fIndex == RavelF(shape, c[..])
  {
    hide Size, RavelF;
    var rank := |shape|;
    fIndex := 0;
    var multiplier := 1;
    NothingRavelled(shape, c[..]);
    for dim := 0 to rank
      invariant fIndex == RavelF(shape[..dim], c[..dim]) && multiplier == Size(shape[..dim])
    {
      RavelFGrows(shape, c[..], dim);
      SizeGrows(shape, dim);
      assert c[..][..dim] == c[..dim] && c[..][..dim + 1] == c[..dim + 1];
      fIndex := fIndex + c[dim] * multiplier;
      multiplier := multiplier * shape[dim];
    }
    assert shape[..rank] == shape && c[..rank] == c[..];
  }

  lemma NothingRavelled(shape: seq<nat>, c: seq<nat>)
    requires |c| == |shape|
    ensures RavelF(shape[..0], c[..0]) == 0 && Size(shape[..0]) == 1
  {
  }

  lemma RavelFGrows(shape: seq<nat>, c: seq<nat>, d: nat)
    requires |c| == |shape| && d < |c|
    ensures RavelF(shape[..d + 1], c[..d + 1]) == RavelF(shape[..d], c[..d]) + c[d] * Size(shape[..d])
  {
    assert shape[..d + 1] == shape[..d] + [shape[d]] && c[..d + 1] == c[..d] + [c[d]];
    RavelFSnoc(shape[..d], c[..d], shape[d], c[d]);
  }
}
