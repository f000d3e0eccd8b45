/** Strides, contiguity and tiling of a tensor, in place: blas/cpu/NDArray.cpp. */
module NDArrays {
  import opened Arithmetic
  import opened Radix
  import opened Strides
  import opened Tiling

  class NDArray<T(0)> {
    /** rank, shape, strides, 0, element-wise stride, order */
    var shapeInfo: array<int>
    var buffer: array<T>

    ghost predicate Valid()
      reads this, shapeInfo
    {
      && shapeInfo.Length >= 4 && shapeInfo.Length == 2 * shapeInfo[0] + 4
      && forall i | 1 <= i <= shapeInfo[0] :: shapeInfo[i] >= 0
    }

    function Rank(): nat
      requires Valid()
      reads this, shapeInfo
    {
      shapeInfo[0]
    }

    function Shape(): (s: seq<nat>)
      requires Valid()
      reads this, shapeInfo
      ensures |s| == Rank()
    {
      shapeInfo[1..Rank() + 1]
    }

    function Strides(): (s: seq<int>)
      requires Valid()
      reads this, shapeInfo
      ensures |s| == Rank()
    {
      shapeInfo[Rank() + 1..2 * Rank() + 1]
    }

    function Order(): int
      requires Valid()
      reads this, shapeInfo
    {
      shapeInfo[2 * Rank() + 3]
    }

    /** The buffer holds the elements in the given order without gaps. */
    ghost predicate Dense(order: char)
      reads this, shapeInfo, buffer
    {
      Valid() && Order() == order as int && (order == 'c' || order == 'f')
      && Strides() == DenseStrides(order, Shape()) && buffer.Length == Size(Shape())
    }

    constructor (info: array<int>, buffer: array<T>)
      ensures this.shapeInfo == info && this.buffer == buffer
    {
      this.shapeInfo, this.buffer := info, buffer;
    }

    /** For an array of rank 0 and order 'c' the "last stride" is the rank itself. */
    method UpdateStrides(order: char)
      requires Valid()
      modifies shapeInfo
      ensures order == 'c' && old(Rank()) == 0 ==> shapeInfo[..] == [1, 0, 1, order as int]
      ensures order != 'c' || old(Rank()) > 0 ==>
        Valid() && Shape() == old(Shape()) && Strides() == DenseStrides(order, old(Shape()))
        && shapeInfo[2 * Rank() + 1..] == [0, 1, order as int]
    {
      hide StridesC, StridesF, LastStrides;
      ghost var shape := Shape();
      var rank := Rank();
      if order == 'c' {
        SetStridesC(shapeInfo, rank, shape);
      } else {
        FillStridesF(shapeInfo, rank, shape);
      }
      assert order != 'c' || rank > 0 ==> shapeInfo[rank + 1..2 * rank + 1] == DenseStrides(order, shape);
      hide DenseStrides;
      ghost var head := shapeInfo[..rank + 1];
      FillTail(shapeInfo, rank, order);
      if order != 'c' || rank > 0 {
        assert shapeInfo[0] == head[0] && shapeInfo[1..rank + 1] == head[1..];
        Shaped(rank, shape);
      }
    }

    /** The rank and the axis sizes determine Rank and Shape. */
    lemma Shaped(rank: nat, shape: seq<nat>)
      requires shapeInfo.Length == 2 * rank + 4 && shapeInfo[0] == rank && shapeInfo[1..rank + 1] == shape
      ensures Valid() && Rank() == rank && Shape() == shape
    {
      forall i | 1 <= i <= rank
        ensures shapeInfo[i] >= 0
      {
        assert shapeInfo[i] == shape[i - 1];
      }
    }

    static method FillTail(shapeInfo: array<int>, rank: nat, order: char)
      requires shapeInfo.Length == 2 * rank + 4
      modifies shapeInfo
      ensures shapeInfo[..rank + 1] == old(shapeInfo[..rank + 1])
      ensures shapeInfo[rank + 1..2 * rank + 1] == old(shapeInfo[rank + 1..2 * rank + 1])
      ensures shapeInfo[2 * rank + 1..] == [0, 1, order as int]
    {
      shapeInfo[2 * rank + 1] := 0;
      shapeInfo[2 * rank + 2] := 1;
      shapeInfo[2 * rank + 3] := order as int;
    }

    /** Unity as the last stride, the others from it towards the front. */
    static method SetStridesC(shapeInfo: array<int>, rank: nat, ghost shape: seq<nat>)
      requires shapeInfo.Length == 2 * rank + 4 && shapeInfo[1..rank + 1] == shape
      modifies shapeInfo
      ensures rank == 0 ==> shapeInfo[0] == 1
      ensures rank > 0 ==>
        shapeInfo[..rank + 1] == old(shapeInfo[..rank + 1]) && shapeInfo[rank + 1..2 * rank + 1] == StridesC(shape)
    {
      hide StridesC;
      shapeInfo[2 * rank] := 1;
      if rank > 0 {
        assert shapeInfo[..rank + 1] == old(shapeInfo[..rank + 1]);
        LastStride(shapeInfo[..], rank, shape);
        FillStridesC(shapeInfo, rank, shape);
        assert StridesC(shape)[0..] == StridesC(shape);
      }
    }

    /** The loop for 'c': the strides from the unit at the end towards the front. */
    static method FillStridesC(shapeInfo: array<int>, rank: nat, ghost shape: seq<nat>)
      requires shapeInfo.Length == 2 * rank + 4 && LastStrides(shapeInfo[..], shapeInfo[..rank + 1], rank, 1, shape)
      modifies shapeInfo
      ensures LastStrides(shapeInfo[..], old(shapeInfo[..rank + 1]), rank, rank, shape)
    {
      ghost var head := shapeInfo[..rank + 1];
      var j := 1;
      while j < rank
        invariant 1 <= j && LastStrides(shapeInfo[..], head, rank, j, shape)
      {
        StrideStored(shapeInfo[..], head, rank, j, shape);
        shapeInfo[2 * rank - j] := shapeInfo[2 * rank - j + 1] * shapeInfo[rank + 1 - j];
        j := j + 1;
      }
    }

    /** Unity as the first stride, the others from it towards the back. */
    static method FillStridesF(shapeInfo: array<int>, rank: nat, ghost shape: seq<nat>)
      requires shapeInfo.Length == 2 * rank + 4 && shapeInfo[1..rank + 1] == shape
      modifies shapeInfo
      ensures shapeInfo[..rank + 1] == old(shapeInfo[..rank + 1])
        && shapeInfo[rank + 1..2 * rank + 1] == StridesF(shape, 1)
    {
      hide StridesF;
      if rank > 0 { StrideFAt(shape, 1, 0); assert shape[..0] == []; }
      shapeInfo[rank + 1] := 1;
      assert shapeInfo[..rank + 1] == old(shapeInfo[..rank + 1]);
      var j := rank + 1;
      while j < 2 * rank
        invariant rank + 1 <= j && (rank > 0 ==> j <= 2 * rank)
        invariant shapeInfo[..rank + 1] == old(shapeInfo[..rank + 1])
        invariant rank > 0 ==> shapeInfo[rank + 1..j + 1] == StridesF(shape, 1)[..j - rank]
      {
        ghost var d := j - rank;
        StridesFStep(shape, d);
        assert shape[d - 1] == old(shapeInfo[..rank + 1])[d];
        ghost var done := shapeInfo[rank + 1..j + 1];
        assert done[d - 1] == StridesF(shape, 1)[d - 1];
        shapeInfo[j + 1] := shapeInfo[j] * shapeInfo[j - rank];
        assert shapeInfo[rank + 1..j + 2] == done + [StridesF(shape, 1)[d]];
        assert shapeInfo[..rank + 1] == old(shapeInfo[..rank + 1]);
        j := j + 1;
      }
    }

    method IsContiguous() returns (yes: bool)
      requires Valid()
      ensures yes <==> UnitsAside(Shape(), Strides())
    {
      hide UnitsFrom, UnitsAside;
      ghost var shape, strides := Shape(), Strides();
      var z: nat := 1;
      var d := Rank() - 1;
      NothingScanned(shape, strides);
      while d >= 0
        invariant -1 <= d < |shape| && UnitsFrom(shape, strides, d + 1, z)
      {
        AxisScanned(shape, strides, d, z);
        if Shape()[d] != 1 {
          if Strides()[d] == z {
            z := z * Shape()[d];
          } else {
            return false;
          }
        }
        d := d - 1;
      }
      AllScanned(shape, strides, z);
      return true;
    }

    /** A new shape with the strides of the given order. */
    method Install(order: char, shape: seq<nat>)
      requires |shape| > 0
      modifies this`shapeInfo
      ensures Valid() && fresh(shapeInfo) && Shape() == shape
      ensures Strides() == DenseStrides(order, shape) && Order() == order as int
    {
      var info := new int[2 * |shape| + 4];
      info[0] := |shape|;
      forall i | 0 <= i < |shape| {
        info[1 + i] := shape[i];
      }
      shapeInfo := info;
      assert Shape() == shape;
      UpdateStrides(order);
      assert Order() == shapeInfo[2 * Rank() + 1..][2];
    }

    /** The copy loop stays inside the new buffer: for order 'f' and more repetition counts than axes only if columns
        have length 1, or nothing is copied. */
    ghost predicate CopiesInside(order: char, reps: seq<nat>)
      requires Valid() && Rank() > 0
      reads this, shapeInfo
    {
      order == 'f' && |reps| > Rank() ==> Shape()[0] == 1 || Size(Shape()) == 0 || Size(reps) <= 1
    }

    /** Repeats the array: throws on a zero repetition count, otherwise installs the new shape and the buffer that
        TileRows fills. For a matrix, and wherever the repetition is sequential, that is tiling. */
    method Tilei(order: char, reps: seq<nat>) returns (ok: bool)
      requires Dense(order) && Rank() > 0 && CopiesInside(order, reps)
      modifies this
      ensures ok <==> Size(reps) > 0
      ensures !ok ==> shapeInfo == old(shapeInfo) && buffer == old(buffer)
      ensures ok ==> Dense(order) && Shape() == Tiled(PadTo(old(Shape()), |reps|), PadTo(reps, old(Rank())))
      ensures ok ==> TiledAxes(Shape(), old(Shape()), reps)
      ensures ok ==>
        var p, r := PadTo(old(Shape()), |reps|), PadTo(reps, old(Rank()));
        && RowsCopied(buffer[..], old(buffer[..]), p[FastAxis(order, |p|)], r[FastAxis(order, |r|)])
        && (Positive(p) && (Sequential(order, p, r) || |p| <= 2) ==>
          ElementsTiled(order, p, r, old(buffer[..]), buffer[..]))
    {
      hide Tiled, PadTo, Size, DenseStrides, RowsCopied, Outer, Sequential, ElementsTiled, Positive, TiledAxes;
      var product := Product(reps);
      if product == 0 {
        return false;
      }
      ok := true;
      ghost var p, r := PadTo(Shape(), |reps|), PadTo(reps, Rank());
      PaddedAxes(order, Shape(), reps);
      TiledIsTiled(Shape(), reps);
      Repeat(order, reps, product, p, r);
      if Positive(p) { TiledIfSequential(order, p, r, old(buffer[..]), buffer[..]); }
    }

    /** Tilei behind the test for a zero count. */
    method Repeat(order: char, reps: seq<nat>, product: nat, ghost p: seq<nat>, ghost r: seq<nat>)
      requires Dense(order) && Rank() > 0 && CopiesInside(order, reps) && product == Size(reps) > 0
      requires p == PadTo(Shape(), |reps|) && r == PadTo(reps, Rank()) && |p| == |r|
      modifies this
      ensures Dense(order) && Shape() == Tiled(p, r)
      ensures RowsCopied(buffer[..], old(buffer[..]), p[FastAxis(order, |p|)], r[FastAxis(order, |p|)])
    {
      hide Tiled, PadTo, Size, DenseStrides, RowsCopied, Outer;
      PaddedAxes(order, Shape(), reps);
      TileSizes(order, p, r);
      var diff := Rank() - |reps|;
      var step := Shape()[FastAxis(order, Rank())];
      if product == 1 {
        // a higher rank by reshaping, or no change at all
        NothingMoves(buffer[..], p[FastAxis(order, |p|)], Size(Outer(order, p)));
        if diff < 0 {
          Install(order, PadTo(Shape(), |reps|));
        }
        return;
      }
      var shapeNew := Tiled(PadTo(Shape(), |reps|), PadTo(reps, Rank()));
      var rep := if order == 'c' then reps[|reps| - 1] else if diff <= 0 then reps[0] else 1;
      ghost var filled := step == p[FastAxis(order, |p|)];
      ghost var rows, times := Size(Outer(order, p)), Size(Outer(order, r));
      buffer := TileRows(buffer, step, rep, Size(shapeNew),
        if filled then rows else 0, if filled then rows * times else 0);
      if !filled { NothingCopied(buffer[..], old(buffer[..]), p[FastAxis(order, |p|)], rep); }
      Install(order, shapeNew);
    }

    /** The product of the repetition counts. */
    static method Product(reps: seq<nat>) returns (product: nat)
      ensures product == Size(reps)
    {
      product := 1;
      for e := 0 to |reps|
        invariant product == Size(reps[..e])
      {
        SizeGrows(reps, e);
        product := product * reps[e];
      }
      assert reps[..|reps|] == reps;
    }

    /** The copy loop: each row of the old buffer rep times, the rows in turn and from the start again. */
    static method TileRows(buffer: array<T>, step: nat, rep: nat, lengthNew: nat, ghost rows: nat, ghost rowsNew: nat)
      returns (newBuff: array<T>)
      requires buffer.Length == rows * step && lengthNew == rowsNew * (step * rep)
      requires lengthNew > 0 ==> buffer.Length > 0
      ensures fresh(newBuff) && newBuff.Length == lengthNew && RowsCopied(newBuff[..], buffer[..], step, rep)
    {
      hide TileSource;
      newBuff := new T[lengthNew];
      var stepNew := step * rep;
      var position, i := 0, 0;
      ghost var row := 0;
      while i < lengthNew
        invariant 0 <= row <= rowsNew && i == row * stepNew && i <= lengthNew
        invariant lengthNew > 0 ==> position == (row % rows) * step
        invariant forall p | 0 <= p < i ::
          0 <= TileSource(step, rep, buffer.Length, p) < buffer.Length
            && newBuff[p] == buffer[TileSource(step, rep, buffer.Length, p)]
        decreases lengthNew - i
      {
        RowFits(row, rowsNew, rows, step, stepNew);
        CopyRow(newBuff, i, buffer, position, step, rep);
        forall p | i <= p < i + stepNew
          ensures 0 <= TileSource(step, rep, buffer.Length, p) < buffer.Length
            && newBuff[p] == buffer[TileSource(step, rep, buffer.Length, p)]
        {
          RowSource(rows, step, rep, row, p - i, buffer.Length, p);
        }
        position := position + step;
        if position == buffer.Length {
          position := 0;
        }
        i := i + stepNew;
        NextRow(row, rows, step);
        row := row + 1;
      }
    }

    /** rep copies of the row at position. */
    static method CopyRow(newBuff: array<T>, i: nat, buffer: array<T>, position: nat, step: nat, rep: nat)
      requires newBuff != buffer && step > 0 && position + step <= buffer.Length && i + step * rep <= newBuff.Length
      modifies newBuff
      ensures forall t | 0 <= t < step * rep :: newBuff[i + t] == buffer[position + t % step]
      ensures forall p | 0 <= p < i :: newBuff[p] == old(newBuff[p])
    {
      hide RowRepeated;
      ghost var row := buffer[position..position + step];
      var j := 0;
      ghost var copies := 0;
      NothingRepeated(newBuff[..], i, row);
      while j < step * rep
        invariant j == step * copies && copies <= rep
        invariant RowRepeated(newBuff[..], i, row, j)
        invariant forall p | 0 <= p < i :: newBuff[p] == old(newBuff[p])
        decreases step * rep - j
      {
        CopyFits(copies, rep, step);
        ghost var before := newBuff[..];
        forall t | 0 <= t < step {
          newBuff[i + j + t] := buffer[position + t];
        }
        OneRowMore(before, newBuff[..], i, row, copies, j);
        copies := copies + 1;
        j := j + step;
      }
      RowRepeatedAt(newBuff[..], i, row, j);
      forall t | 0 <= t < step * rep
        ensures newBuff[i + t] == buffer[position + t % step]
      {
        assert newBuff[..][i + t] == row[t % step] == buffer[position + t % step];
      }
    }
  }
}
