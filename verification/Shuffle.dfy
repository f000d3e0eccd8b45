/** Rearranging the sub-arrays (TADs) of several arrays alike: shuffleGeneric in blas/cpu/NativeOps.cpp. ind2subC and
    getOffset are taken by their index meaning. */
module Shuffle {
  import opened Sequences
  import opened Radix
  import opened Strides

  /** What the function is told of one array: where its TADs begin, and how their elements are laid out. */
  datatype Tads = Tads(offsets: seq<int>, shape: seq<nat>, strides: seq<int>, ews: int)

  predicate WellFormed(t: Tads) {
    |t.shape| == |t.strides| && Size(t.shape) > 0
  }

  /** Where element i of a TAD lies relative to its beginning, as the loops compute it. */
  function ElementOffset(t: Tads, i: nat): int
    requires WellFormed(t) && i < Size(t.shape)
  {
    if t.ews == 1 then i else Dot(UnravelC(t.shape, i), t.strides)
  }

  function ElementOffsets(t: Tads): (o: seq<int>)
    requires WellFormed(t)
    ensures |o| == Size(t.shape)
  {
    seq(Size(t.shape), i requires 0 <= i < Size(t.shape) => ElementOffset(t, i))
  }

  function Addr(offset: int, o: int): int {
    offset + o
  }

  /** The TADs lie inside the array and no two elements share a place. */
  ghost predicate Separate(offsets: seq<int>, elements: seq<int>, length: nat) {
    && (forall r, i | 0 <= r < |offsets| && 0 <= i < |elements| :: 0 <= Addr(offsets[r], elements[i]) < length)
    && (forall r, i, s, j | 0 <= r < |offsets| && 0 <= i < |elements| && 0 <= s < |offsets| && 0 <= j < |elements| ::
          Addr(offsets[r], elements[i]) == Addr(offsets[s], elements[j]) ==> r == s && i == j)
  }

  // ----- swapping two TADs

  function Swapped<T>(a: seq<T>, p: nat, q: nat): (b: seq<T>)
    requires p < |a| && q < |a|
    ensures |b| == |a|
  {
    a[p := a[q]][q := a[p]]
  }

  lemma SwappedMultiset<T>(a: seq<T>, p: nat, q: nat)
    requires p < |a| && q < |a|
    ensures multiset(Swapped(a, p, q)) == multiset(a)
  {
  }

  /** after is before with the elements of two TADs exchanged, those numbered below n. */
  ghost predicate ExchangedTo<T>(before: seq<T>, after: seq<T>, x: int, y: int, elements: seq<int>, n: nat) {
    && |after| == |before| && n <= |elements|
    && (forall i | 0 <= i < n :: Moved(before, after, Addr(x, elements[i]), Addr(y, elements[i])))
    && (forall i | 0 <= i < n :: Moved(before, after, Addr(y, elements[i]), Addr(x, elements[i])))
    && (forall p | 0 <= p < |after|
                && (forall i | 0 <= i < n :: p != Addr(x, elements[i]) && p != Addr(y, elements[i])) ::
          after[p] == before[p])
  }

  /** Place p now holds what place q held. */
  predicate Moved<T(==)>(before: seq<T>, after: seq<T>, p: int, q: int) {
    0 <= p < |after| && 0 <= q < |before| && after[p] == before[q]
  }

  /** The elements of the two TADs at x and y are all in different places, unless the TADs are the same. */
  ghost predicate Pair(x: int, y: int, elements: seq<int>, length: nat) {
    && (forall i | 0 <= i < |elements| :: 0 <= Addr(x, elements[i]) < length && 0 <= Addr(y, elements[i]) < length)
    && (forall i, j | 0 <= i < |elements| && 0 <= j < |elements| && i != j ::
          Addr(x, elements[i]) != Addr(x, elements[j]) && Addr(y, elements[i]) != Addr(y, elements[j]))
    && (x != y ==>
          forall i, j | 0 <= i < |elements| && 0 <= j < |elements| :: Addr(x, elements[i]) != Addr(y, elements[j]))
  }

  lemma ExchangeNext<T>(before: seq<T>, a: seq<T>, x: int, y: int, elements: seq<int>, n: nat)
    requires Pair(x, y, elements, |before|) && n < |elements| && ExchangedTo(before, a, x, y, elements, n)
    ensures 0 <= Addr(x, elements[n]) < |a| && 0 <= Addr(y, elements[n]) < |a|
    ensures ExchangedTo(before, Swapped(a, Addr(x, elements[n]), Addr(y, elements[n])), x, y, elements, n + 1)
  {
    hide Addr;
    var p, q := Addr(x, elements[n]), Addr(y, elements[n]);
    var b := Swapped(a, p, q);
    assert a[p] == before[p] && a[q] == before[q];
    forall i | 0 <= i < n + 1
      ensures Moved(before, b, Addr(x, elements[i]), Addr(y, elements[i]))
        && Moved(before, b, Addr(y, elements[i]), Addr(x, elements[i]))
    {
      if i < n {
        assert Moved(before, a, Addr(x, elements[i]), Addr(y, elements[i]));
        assert Moved(before, a, Addr(y, elements[i]), Addr(x, elements[i]));
      }
    }
    forall r | 0 <= r < |b| && (forall i | 0 <= i < n + 1 :: r != Addr(x, elements[i]) && r != Addr(y, elements[i]))
      ensures b[r] == before[r]
    {
      assert r != Addr(x, elements[n]) && r != Addr(y, elements[n]);
    }
  }

  lemma PairOfSeparate(offsets: seq<int>, elements: seq<int>, length: nat, r: nat, s: nat)
    requires Separate(offsets, elements, length) && r < |offsets| && s < |offsets|
    ensures Pair(offsets[r], offsets[s], elements, length)
  {
    hide Addr;
  }

  lemma NothingExchanged<T>(a: seq<T>, x: int, y: int, elements: seq<int>)
    ensures ExchangedTo(a, a, x, y, elements, 0)
  {
  }

  method SwapAt<T>(x: array<T>, p: nat, q: nat)
    requires p < x.Length && q < x.Length
    modifies x
    ensures x[..] == Swapped(old(x[..]), p, q)
  {
    x[p], x[q] := x[q], x[p];
  }

  /** One pair of TADs: element by element when they are contiguous, otherwise coordinate by coordinate. */
  method SwapTads<T>(x: array<T>, t: Tads, oldOffset: int, newOffset: int)
    requires WellFormed(t) && Pair(oldOffset, newOffset, ElementOffsets(t), x.Length)
    modifies x
    ensures ExchangedTo(old(x[..]), x[..], oldOffset, newOffset, ElementOffsets(t), Size(t.shape))
    ensures multiset(x[..]) == multiset(old(x[..]))
  {
    hide ExchangedTo, Pair, Swapped;
    ghost var elements := ElementOffsets(t);
    var tadLength := Size(t.shape);
    NothingExchanged(x[..], oldOffset, newOffset, elements);
    if t.ews == 1 {
      for i := 0 to tadLength
        invariant ExchangedTo(old(x[..]), x[..], oldOffset, newOffset, elements, i)
        invariant multiset(x[..]) == multiset(old(x[..]))
      {
        ExchangeNext(old(x[..]), x[..], oldOffset, newOffset, elements, i);
        SwappedMultiset(x[..], Addr(oldOffset, elements[i]), Addr(newOffset, elements[i]));
        SwapAt(x, oldOffset + i, newOffset + i);
      }
    } else {
      for i := 0 to tadLength
        invariant ExchangedTo(old(x[..]), x[..], oldOffset, newOffset, elements, i)
        invariant multiset(x[..]) == multiset(old(x[..]))
      {
        ExchangeNext(old(x[..]), x[..], oldOffset, newOffset, elements, i);
        SwappedMultiset(x[..], Addr(oldOffset, elements[i]), Addr(newOffset, elements[i]));
        var xCoord, yCoord := UnravelC(t.shape, i), UnravelC(t.shape, i);
        SwapAt(x, oldOffset + Dot(xCoord, t.strides), newOffset + Dot(yCoord, t.strides));
      }
    }
  }

  // ----- the permutation

  predicate ValidMap(swaps: seq<int>, n: nat) {
    n <= |swaps| && forall r | 0 <= r < n :: swaps[r] < n
  }

  function Identity(n: nat): (p: seq<nat>)
    ensures |p| == n && forall r | 0 <= r < n :: p[r] == r
  {
    seq(n, r => r)
  }

  /** Which TAD is at each place after the swaps of the first k entries, negative ones skipped. */
  function Composed(swaps: seq<int>, n: nat, k: nat): (p: seq<nat>)
    requires ValidMap(swaps, n) && k <= n
    ensures |p| == n && forall r | 0 <= r < n :: p[r] < n
  {
    if k == 0 then Identity(n)
    else if swaps[k - 1] < 0 then Composed(swaps, n, k - 1)
    else Swapped(Composed(swaps, n, k - 1), k - 1, swaps[k - 1])
  }

  lemma SwappedDistinct(p: seq<nat>, r: nat, s: nat)
    requires Distinct(p) && r < |p| && s < |p|
    ensures Distinct(Swapped(p, r, s))
  {
  }

  /** It is a permutation: no TAD is duplicated, and so none is lost. */
  lemma {:induction false} ComposedPermutes(swaps: seq<int>, n: nat, k: nat)
    requires ValidMap(swaps, n) && k <= n
    ensures Distinct(Composed(swaps, n, k))
    ensures multiset(Composed(swaps, n, k)) == multiset(Identity(n))
  {
    hide Swapped, Distinct;
    if k == 0 {
      IdentityDistinct(n);
    } else {
      var p := Composed(swaps, n, k - 1);
      ComposedPermutes(swaps, n, k - 1);
      if swaps[k - 1] >= 0 {
        SwappedDistinct(p, k - 1, swaps[k - 1]);
        SwappedMultiset(p, k - 1, swaps[k - 1]);
      }
    }
  }

  lemma IdentityDistinct(n: nat)
    ensures Distinct(Identity(n))
  {
  }

  // ----- where each TAD goes

  /** Where the TAD that is at place q before the swaps of the entries from r on is at the end: an entry that is not
      negative takes a TAD from place r to place swaps[r], and one from there to place r. */
  function Destination(swaps: seq<int>, n: nat, q: nat, r: nat): (place: nat)
    requires ValidMap(swaps, n) && q < n && r <= n
    ensures place < n
    decreases n - r
  {
    if r == n then q
    else if swaps[r] < 0 then Destination(swaps, n, q, r + 1)
    else if q == r then Destination(swaps, n, swaps[r], r + 1)
    else if q == swaps[r] then Destination(swaps, n, r, r + 1)
    else Destination(swaps, n, q, r + 1)
  }

  lemma {:induction false} DestinationFrom(swaps: seq<int>, n: nat, q: nat, r: nat)
    requires ValidMap(swaps, n) && q < n && r <= n
    ensures Composed(swaps, n, n)[Destination(swaps, n, q, r)] == Composed(swaps, n, r)[q]
    decreases n - r
  {
    if r < n {
      var u := if swaps[r] < 0 then q else if q == r then swaps[r] else if q == swaps[r] then r else q;
      ComposedNext(swaps, n, r);
      DestinationFrom(swaps, n, u, r + 1);
    }
  }

  lemma ComposedNext(swaps: seq<int>, n: nat, r: nat)
    requires ValidMap(swaps, n) && r < n
    ensures swaps[r] < 0 ==> Composed(swaps, n, r + 1) == Composed(swaps, n, r)
    ensures swaps[r] >= 0 ==> Composed(swaps, n, r + 1) == Swapped(Composed(swaps, n, r), r, swaps[r])
  {
  }

  /** Following one TAD through the swaps and composing the swaps agree. */
  lemma ComposedDestination(swaps: seq<int>, n: nat, q: nat)
    requires ValidMap(swaps, n) && q < n
    ensures Composed(swaps, n, n)[Destination(swaps, n, q, 0)] == q
  {
    DestinationFrom(swaps, n, q, 0);
  }

  /** No two TADs end up at one place. */
  lemma DestinationsDiffer(swaps: seq<int>, n: nat, q: nat, q': nat)
    requires ValidMap(swaps, n) && q < n && q' < n && Destination(swaps, n, q, 0) == Destination(swaps, n, q', 0)
    ensures q == q'
  {
    ComposedDestination(swaps, n, q);
    ComposedDestination(swaps, n, q');
  }

  lemma {:induction false} NothingFrom(swaps: seq<int>, n: nat, q: nat, r: nat)
    requires ValidMap(swaps, n) && q < n && r <= n && forall k | r <= k < n :: swaps[k] < 0
    ensures Destination(swaps, n, q, r) == q
    decreases n - r
  {
    if r < n { NothingFrom(swaps, n, q, r + 1); }
  }

  /** A single entry that is not negative. */
  lemma {:induction false} SingleSwap(swaps: seq<int>, n: nat, k: nat, q: nat, r: nat)
    requires ValidMap(swaps, n) && r <= k < n && q < n && swaps[k] >= 0
    requires forall j | 0 <= j < n && j != k :: swaps[j] < 0
    ensures Destination(swaps, n, q, r) == if q == k then swaps[k] else if q == swaps[k] then k else q
    decreases k - r
  {
    if r == k {
      NothingFrom(swaps, n, if q == k then swaps[k] else if q == swaps[k] then k else q, k + 1);
    } else {
      SingleSwap(swaps, n, k, q, r + 1);
    }
  }

  /** Element for element, the TAD at place r is the one that was at place p[r], and nothing else has changed. */
  ghost predicate TadsPermuted<T>(before: seq<T>, after: seq<T>, offsets: seq<int>, elements: seq<int>, p: seq<nat>) {
    && |after| == |before| && |p| == |offsets| && (forall r | 0 <= r < |p| :: p[r] < |p|)
    && (forall r, i | 0 <= r < |p| && 0 <= i < |elements| ::
          Moved(before, after, Addr(offsets[r], elements[i]), Addr(offsets[p[r]], elements[i])))
    && (forall q | 0 <= q < |after| && OutsideTads(q, offsets, elements) :: after[q] == before[q])
  }

  ghost predicate OutsideTads(q: int, offsets: seq<int>, elements: seq<int>) {
    forall r, i | 0 <= r < |offsets| && 0 <= i < |elements| :: q != Addr(offsets[r], elements[i])
  }

  lemma NothingPermuted<T>(a: seq<T>, offsets: seq<int>, elements: seq<int>)
    requires Separate(offsets, elements, |a|)
    ensures TadsPermuted(a, a, offsets, elements, Identity(|offsets|))
  {
  }

  /** Exchanging the TADs at places r and s composes the permutation with that swap. */
  lemma PermuteNext<T>(before: seq<T>, a: seq<T>, b: seq<T>, offsets: seq<int>, elements: seq<int>, p: seq<nat>, r: nat,
      s: nat)
    requires Separate(offsets, elements, |before|) && TadsPermuted(before, a, offsets, elements, p)
    requires r < |offsets| && s < |offsets| && ExchangedTo(a, b, offsets[r], offsets[s], elements, |elements|)
    ensures TadsPermuted(before, b, offsets, elements, Swapped(p, r, s))
  {
    hide Addr, Separate;
    var p' := Swapped(p, r, s);
    forall t, i | 0 <= t < |p| && 0 <= i < |elements|
      ensures Moved(before, b, Addr(offsets[t], elements[i]), Addr(offsets[p'[t]], elements[i]))
    {
      var u := if t == r then s else if t == s then r else t;
      assert p'[t] == p[u];
      assert Moved(before, a, Addr(offsets[u], elements[i]), Addr(offsets[p[u]], elements[i]));
      if u != t {
        assert Moved(a, b, Addr(offsets[t], elements[i]), Addr(offsets[u], elements[i]));
      } else if t == r {
        assert Moved(a, b, Addr(offsets[r], elements[i]), Addr(offsets[s], elements[i]));
      } else {
        KeptOutside(a, b, offsets, elements, r, s, t, i, |before|);
      }
    }
    forall q | 0 <= q < |b| && OutsideTads(q, offsets, elements)
      ensures b[q] == before[q]
    {
      assert forall i | 0 <= i < |elements| :: q != Addr(offsets[r], elements[i]) && q != Addr(offsets[s], elements[i]);
    }
  }

  lemma KeptOutside<T>(a: seq<T>, b: seq<T>, offsets: seq<int>, elements: seq<int>, r: nat, s: nat, t: nat, i: nat,
      length: nat)
    requires Separate(offsets, elements, length) && |a| == length && r < |offsets| && s < |offsets| && t < |offsets|
      && t != r && t != s
    requires ExchangedTo(a, b, offsets[r], offsets[s], elements, |elements|) && i < |elements|
    ensures |b| == |a| && 0 <= Addr(offsets[t], elements[i]) < |a|
    ensures b[Addr(offsets[t], elements[i])] == a[Addr(offsets[t], elements[i])]
  {
    hide Addr;
  }

  /** The TADs of one array of the given length and the map of exchanges fit. */
  ghost predicate CanShuffle(length: nat, xLength: nat, t: Tads, shuffleMap: seq<int>) {
    && WellFormed(t) && |t.offsets| == xLength / Size(t.shape)
    && Separate(t.offsets, ElementOffsets(t), length) && ValidMap(shuffleMap, |t.offsets|)
  }

  /** Element for element, the TAD from place q is now at its destination, and nothing else has changed. */
  ghost predicate TadsMoved<T>(before: seq<T>, after: seq<T>, offsets: seq<int>, elements: seq<int>, swaps: seq<int>) {
    && |after| == |before| && ValidMap(swaps, |offsets|)
    && (forall q, i | 0 <= q < |offsets| && 0 <= i < |elements| ::
          Moved(before, after, Addr(offsets[Destination(swaps, |offsets|, q, 0)], elements[i]),
            Addr(offsets[q], elements[i])))
    && (forall p | 0 <= p < |after| && OutsideTads(p, offsets, elements) :: after[p] == before[p])
  }

  /** All exchanges done: every TAD where they take it, and the same elements. */
  ghost predicate Shuffled<T>(before: seq<T>, after: seq<T>, t: Tads, shuffleMap: seq<int>) {
    && WellFormed(t) && TadsMoved(before, after, t.offsets, ElementOffsets(t), shuffleMap)
    && multiset(after) == multiset(before)
  }

  lemma PermutedIsMoved<T>(before: seq<T>, after: seq<T>, offsets: seq<int>, elements: seq<int>, swaps: seq<int>)
    requires ValidMap(swaps, |offsets|)
    requires TadsPermuted(before, after, offsets, elements, Composed(swaps, |offsets|, |offsets|))
    ensures TadsMoved(before, after, offsets, elements, swaps)
  {
    hide Composed, Destination, Moved, Addr;
    var n := |offsets|;
    forall q, i | 0 <= q < n && 0 <= i < |elements|
      ensures Moved(before, after, Addr(offsets[Destination(swaps, n, q, 0)], elements[i]),
        Addr(offsets[q], elements[i]))
    {
      var r := Destination(swaps, n, q, 0);
      ComposedDestination(swaps, n, q);
      assert Moved(before, after, Addr(offsets[r], elements[i]),
        Addr(offsets[Composed(swaps, n, n)[r]], elements[i]));
    }
  }

  /** A map without entries to carry out leaves the array as it was. */
  lemma NothingShuffled<T>(before: seq<T>, after: seq<T>, t: Tads, shuffleMap: seq<int>)
    requires Shuffled(before, after, t, shuffleMap) && forall r | 0 <= r < |t.offsets| :: shuffleMap[r] < 0
    ensures after == before
  {
    var elements := ElementOffsets(t);
    forall p | 0 <= p < |after|
      ensures after[p] == before[p]
    {
      if !OutsideTads(p, t.offsets, elements) {
        var q, i :| 0 <= q < |t.offsets| && 0 <= i < |elements| && p == Addr(t.offsets[q], elements[i]);
        NothingFrom(shuffleMap, |t.offsets|, q, 0);
        assert Moved(before, after, Addr(t.offsets[Destination(shuffleMap, |t.offsets|, q, 0)], elements[i]),
          Addr(t.offsets[q], elements[i]));
      }
    }
  }

  lemma MovedIs<T>(before: seq<T>, after: seq<T>, p: int)
    requires Moved(before, after, p, p)
    ensures 0 <= p < |before| && 0 <= p < |after| && after[p] == before[p]
  {
  }

  /** A single entry exchanges the two TADs it names. */
  lemma OneExchanged<T>(before: seq<T>, after: seq<T>, t: Tads, shuffleMap: seq<int>, r: nat)
    requires Shuffled(before, after, t, shuffleMap) && r < |t.offsets| && shuffleMap[r] >= 0
    requires forall k | 0 <= k < |t.offsets| && k != r :: shuffleMap[k] < 0
    ensures shuffleMap[r] < |t.offsets|
    ensures ExchangedTo(before, after, t.offsets[r], t.offsets[shuffleMap[r]], ElementOffsets(t), Size(t.shape))
  {
    hide Moved, Addr, ElementOffset;
    var n, e, s := |t.offsets|, ElementOffsets(t), shuffleMap[r];
    forall q, i | 0 <= q < n && 0 <= i < |e|
      ensures var u := if q == r then s else if q == s then r else q;
        Moved(before, after, Addr(t.offsets[u], e[i]), Addr(t.offsets[q], e[i]))
    {
      SingleSwap(shuffleMap, n, r, q, 0);
      assert Moved(before, after, Addr(t.offsets[Destination(shuffleMap, n, q, 0)], e[i]), Addr(t.offsets[q], e[i]));
    }
    forall p | 0 <= p < |after|
               && forall i | 0 <= i < |e| :: p != Addr(t.offsets[r], e[i]) && p != Addr(t.offsets[s], e[i])
      ensures after[p] == before[p]
    {
      if !OutsideTads(p, t.offsets, e) {
        var q, i :| 0 <= q < n && 0 <= i < |e| && p == Addr(t.offsets[q], e[i]);
        assert Moved(before, after, p, p) by { assert q != r && q != s; }
        MovedIs(before, after, p);
      }
    }
  }

  /** One array, all its swaps. */
  method ShuffleOne<T>(x: array<T>, xLength: nat, t: Tads, shuffleMap: seq<int>)
    requires CanShuffle(x.Length, xLength, t, shuffleMap)
    modifies x
    ensures Shuffled(old(x[..]), x[..], t, shuffleMap)
  {
    hide TadsPermuted, TadsMoved, ExchangedTo, Separate;
    var numTads := xLength / Size(t.shape);
    NothingPermuted(x[..], t.offsets, ElementOffsets(t));
    for r := 0 to numTads
      invariant TadsPermuted(old(x[..]), x[..], t.offsets, ElementOffsets(t), Composed(shuffleMap, numTads, r))
      invariant multiset(x[..]) == multiset(old(x[..]))
    {
      if shuffleMap[r] < 0 {
        continue;
      }
      ghost var before := x[..];
      PairOfSeparate(t.offsets, ElementOffsets(t), x.Length, r, shuffleMap[r]);
      SwapTads(x, t, t.offsets[r], t.offsets[shuffleMap[r]]);
      PermuteNext(old(x[..]), before, x[..], t.offsets, ElementOffsets(t), Composed(shuffleMap, numTads, r), r,
        shuffleMap[r]);
    }
    PermutedIsMoved(old(x[..]), x[..], t.offsets, ElementOffsets(t), shuffleMap);
  }

  /** All arrays, in any number: where a TAD goes depends only on the map and the number of TADs, not on the shapes, and
      each array keeps its elements. */
  method ShuffleGeneric<T>(dX: seq<array<T>>, xLengths: seq<nat>, tads: seq<Tads>, shuffleMap: seq<int>)
    requires |dX| == |xLengths| == |tads| && forall f, g | 0 <= f < g < |dX| :: dX[f] != dX[g]
    requires forall f | 0 <= f < |dX| :: CanShuffle(dX[f].Length, xLengths[f], tads[f], shuffleMap)
    modifies dX
    ensures forall f | 0 <= f < |dX| :: Shuffled(old(dX[f][..]), dX[f][..], tads[f], shuffleMap)
  {
    hide CanShuffle, Shuffled;
    for f := 0 to |dX|
      invariant forall g | f <= g < |dX| :: dX[g][..] == old(dX[g][..])
      invariant forall g | 0 <= g < f :: Shuffled(old(dX[g][..]), dX[g][..], tads[g], shuffleMap)
    {
      ShuffleOne(dX[f], xLengths[f], tads[f], shuffleMap);
    }
  }

  lemma Elsewhere(a: seq<int>, b: seq<int>, i: nat) returns (j: nat)
    requires i < |a| && forall o | o in a :: o in b
    ensures j < |b| && b[j] == a[i]
  {
    var o := a[i];
    assert o in a;
    j :| j < |b| && b[j] == o;
  }

  /** The outcome depends on the places the TAD elements occupy, not on the order in which they are swapped: two
      layouts with the same set of element offsets, such as the contiguous branch and the coordinate branch on a
      contiguous TAD of any axis order, lead to the same array. */
  lemma BranchesAgree<T>(before: seq<T>, a: seq<T>, b: seq<T>, offsets: seq<int>, e1: seq<int>, e2: seq<int>,
      p: seq<nat>)
    requires (forall o | o in e1 :: o in e2) && (forall o | o in e2 :: o in e1)
    requires TadsPermuted(before, a, offsets, e1, p) && TadsPermuted(before, b, offsets, e2, p)
    ensures a == b
  {
    forall q | 0 <= q < |a|
      ensures a[q] == b[q]
    {
      if OutsideTads(q, offsets, e1) {
        forall r, i | 0 <= r < |offsets| && 0 <= i < |e2|
          ensures q != Addr(offsets[r], e2[i])
        {
          var j := Elsewhere(e2, e1, i);
          assert q != Addr(offsets[r], e1[j]);
        }
        assert OutsideTads(q, offsets, e2);
      } else {
        var r, i :| 0 <= r < |offsets| && 0 <= i < |e1| && q == Addr(offsets[r], e1[i]);
        var j := Elsewhere(e1, e2, i);
        assert Moved(before, a, Addr(offsets[r], e1[i]), Addr(offsets[p[r]], e1[i]));
        assert Moved(before, b, Addr(offsets[r], e2[j]), Addr(offsets[p[r]], e2[j]));
      }
    }
  }

  ghost predicate Reached(t: Tads, o: int) {
    exists c :: ValidCoord(t.shape, c) && |c| == |t.strides| && Dot(c, t.strides) == o
  }

  /** The elements of a TAD fill as many places as there are, without a gap: in whatever order of axes, and with
      whatever strides on axes of size 1. */
  ghost predicate Gapless(t: Tads) {
    forall o | 0 <= o < Size(t.shape) :: Reached(t, o)
  }

  /** The contiguous layouts of either order are gapless. */
  lemma DenseIsGapless(t: Tads, order: char)
    requires |t.shape| == |t.strides|
    requires forall c | ValidCoord(t.shape, c) :: Dot(c, t.strides) == Ravel(order, t.shape, c)
    ensures Gapless(t)
  {
    hide Size, Dot, UnravelC, UnravelF, RavelC, RavelF;
    forall o | 0 <= o < Size(t.shape)
      ensures Reached(t, o)
    {
      var c := if order == 'c' then UnravelC(t.shape, o) else UnravelF(t.shape, o);
      if order == 'c' { UnravelCInverse(t.shape, o); } else { UnravelFInverse(t.shape, o); }
      assert Dot(c, t.strides) == o;
    }
  }

  /** On a gapless TAD the two branches touch the same places. */
  lemma GaplessOffsetSets(t: Tads)
    requires WellFormed(t) && t.ews == 1 && Gapless(t)
    ensures forall o | o in ElementOffsets(t) :: o in ElementOffsets(t.(ews := 0))
    ensures forall o | o in ElementOffsets(t.(ews := 0)) :: o in ElementOffsets(t)
  {
    hide Size, Dot, UnravelC, RavelC;
    var e1, e2, n := ElementOffsets(t), ElementOffsets(t.(ews := 0)), Size(t.shape);
    forall o | 0 <= o < n
      ensures o in e2
    {
      assert Reached(t, o);
      var c :| ValidCoord(t.shape, c) && |c| == |t.strides| && Dot(c, t.strides) == o;
      RavelCInverse(t.shape, c);
      assert e2[RavelC(t.shape, c)] == o;
    }
    CoverInRange(e2, n);
    forall o | o in e2
      ensures o in e1
    {
      assert e1[o] == o;
    }
  }

  /** So there the contiguous branch is only a shortcut for the coordinate branch. */
  lemma ContiguousIsShortcut<T>(before: seq<T>, a: seq<T>, b: seq<T>, t: Tads, p: seq<nat>)
    requires WellFormed(t) && t.ews == 1 && Gapless(t)
    requires TadsPermuted(before, a, t.offsets, ElementOffsets(t), p)
    requires TadsPermuted(before, b, t.offsets, ElementOffsets(t.(ews := 0)), p)
    ensures a == b
  {
    GaplessOffsetSets(t);
    BranchesAgree(before, a, b, t.offsets, ElementOffsets(t), ElementOffsets(t.(ews := 0)), p);
  }
}
