/** The explicit-stack quicksort and SortStrideArray: include/pairwise_util.h. */
module QuickSort {
  import opened Sequences
  import opened Powers

  datatype StridePermutation = StridePermutation(perm: int, stride: int)

  type Items = seq<StridePermutation>

  const MAX_LEVELS: nat := 300

  /** The range of int. */
  const INT_LIMIT: nat := 0x8000_0000

  // ----- rearranging a segment

  /** b is a with the elements of [lo, hi) rearranged. */
  predicate SegmentPermuted(a: Items, b: Items, lo: nat, hi: nat) {
    && |a| == |b| && lo <= hi <= |a| && a[..lo] == b[..lo] && a[hi..] == b[hi..]
    && multiset(a[lo..hi]) == multiset(b[lo..hi])
  }

  lemma SwapPermutes(a: Items, lo: nat, hi: nat, i: nat, j: nat)
    requires lo <= i < hi <= |a| && lo <= j < hi
    ensures SegmentPermuted(a, a[i := a[j]][j := a[i]], lo, hi)
  {
    var b := a[i := a[j]][j := a[i]];
    assert b[lo..hi] == a[lo..hi][i - lo := a[j]][j - lo := a[i]];
  }

  lemma PermutedTransitive(a: Items, b: Items, c: Items, lo: nat, hi: nat)
    requires SegmentPermuted(a, b, lo, hi) && SegmentPermuted(b, c, lo, hi)
    ensures SegmentPermuted(a, c, lo, hi)
  {
  }

  /** A rearranged segment holds the elements it held before. */
  lemma ElementFrom(a: Items, b: Items, lo: nat, hi: nat, q: nat)
    requires SegmentPermuted(a, b, lo, hi) && lo <= q < hi
    ensures exists p: nat :: lo <= p < hi && b[q] == a[p]
  {
    assert b[q] == b[lo..hi][q - lo];
    assert b[q] in multiset(a[lo..hi]);
    var k :| 0 <= k < hi - lo && a[lo..hi][k] == b[q];
    assert a[lo + k] == b[q];
  }

  // ----- partition

  predicate AtMost(a: Items, lo: nat, hi: nat, bound: int)
    requires hi <= |a|
  {
    forall k | lo <= k < hi :: a[k].stride <= bound
  }

  predicate AtLeast(a: Items, lo: nat, hi: nat, bound: int)
    requires hi <= |a|
  {
    forall k | lo <= k < hi :: a[k].stride >= bound
  }

  /** What the two walks have established: everything in [lo, l) is at most the pivot, and in (r, hi) at least. */
  predicate Walked(a: Items, lo: nat, l: nat, r: nat, hi: nat, pivot: int) {
    lo <= l <= r < hi <= |a| && AtMost(a, lo, l, pivot) && AtLeast(a, r + 1, hi, pivot)
  }

  /** Down to the first element below the pivot, at most to l. */
  method WalkDown(arr: array<StridePermutation>, lo: nat, l: nat, r0: nat, hi: nat, pivot: int) returns (r: nat)
    requires Walked(arr[..], lo, l, r0, hi, pivot)
    ensures l <= r <= r0 < hi <= arr.Length && Walked(arr[..], lo, l, r, hi, pivot)
    ensures l < r ==> arr[r].stride < pivot
  {
    r := r0;
    while arr[r].stride >= pivot && l < r
      invariant r <= r0 && Walked(arr[..], lo, l, r, hi, pivot)
      decreases r
    {
      r := r - 1;
    }
  }

  /** Up to the first element above the pivot, at most to r. */
  method WalkUp(arr: array<StridePermutation>, lo: nat, l0: nat, r: nat, hi: nat, pivot: int) returns (l: nat)
    requires Walked(arr[..], lo, l0, r, hi, pivot)
    ensures l0 <= l <= r && Walked(arr[..], lo, l, r, hi, pivot)
    ensures l < r ==> arr[l].stride > pivot
  {
    l := l0;
    while arr[l].stride <= pivot && l < r
      invariant l0 <= l && Walked(arr[..], lo, l, r, hi, pivot)
      decreases r - l
    {
      l := l + 1;
    }
  }

  lemma FillLeft(a: Items, lo: nat, l: nat, r: nat, hi: nat, pivot: int)
    requires Walked(a, lo, l, r, hi, pivot) && l < r && a[r].stride < pivot
    ensures Walked(a[l := a[r]], lo, l + 1, r, hi, pivot)
  {
  }

  lemma FillRight(a: Items, lo: nat, l: nat, r: nat, hi: nat, pivot: int)
    requires Walked(a, lo, l, r, hi, pivot) && l < r && a[l].stride > pivot
    ensures Walked(a[r := a[l]], lo, l, r - 1, hi, pivot)
  {
  }

  /** One round of quickSort's partitioning: piv is the first element, l walks up and r down, and the slot at one of
      them is free. With piv put back into the free slot, the segment is always a rearrangement of what it was. */
  method Partition(arr: array<StridePermutation>, lo: nat, hi: nat) returns (m: nat)
    requires lo + 1 < hi <= arr.Length
    modifies arr
    ensures lo <= m < hi
    ensures SegmentPermuted(old(arr[..]), arr[..], lo, hi)
    ensures AtMost(arr[..], lo, m, arr[m].stride) && AtLeast(arr[..], m + 1, hi, arr[m].stride)
  {
    ghost var before := arr[..];
    var l, r := lo, hi - 1;
    var piv := arr[l];
    FreeFirst(before, lo, hi);
    l := Meet(arr, lo, l, r, hi, piv, before);
    Put(arr, l, piv);
    m := l;
  }

  lemma FreeFirst(a: Items, lo: nat, hi: nat)
    requires lo + 1 < hi <= |a|
    ensures Walked(a, lo, lo, hi - 1, hi, a[lo].stride) && SegmentPermuted(a, a[lo := a[lo]], lo, hi)
  {
    assert a[lo := a[lo]] == a;
  }

  /** The loop of Partition. */
  method Meet(arr: array<StridePermutation>, lo: nat, l0: nat, r0: nat, hi: nat, piv: StridePermutation,
      ghost before: Items)
    returns (l: nat)
    requires Walked(arr[..], lo, l0, r0, hi, piv.stride) && SegmentPermuted(before, arr[..][l0 := piv], lo, hi)
    modifies arr
    ensures l < hi && Walked(arr[..], lo, l, l, hi, piv.stride) && SegmentPermuted(before, arr[..][l := piv], lo, hi)
  {
    assert lo <= l0 <= r0 < hi <= arr.Length;
    hide SegmentPermuted, Walked;
    l := l0;
    var r: nat := r0;
    while l < r
      invariant lo <= l <= r < hi && Walked(arr[..], lo, l, r, hi, piv.stride)
        && SegmentPermuted(before, arr[..][l := piv], lo, hi)
      decreases r - l
    {
      r := WalkDown(arr, lo, l, r, hi, piv.stride);
      if l < r {
        MoveHole(before, arr[..], piv, lo, hi, l, r);
        FillLeft(arr[..], lo, l, r, hi, piv.stride);
        Put(arr, l, arr[r]);
        l := l + 1;
        l := WalkUp(arr, lo, l, r, hi, piv.stride);
        if l < r {
          MoveHole(before, arr[..], piv, lo, hi, r, l);
          FillRight(arr[..], lo, l, r, hi, piv.stride);
          Put(arr, r, arr[l]);
          r := r - 1;
        }
      }
    }
  }

  /** Filling the free slot at i from j frees the slot at j. */
  lemma MoveHole(before: Items, a: Items, piv: StridePermutation, lo: nat, hi: nat, i: nat, j: nat)
    requires lo <= i < hi <= |a| && lo <= j < hi && i != j && SegmentPermuted(before, a[i := piv], lo, hi)
    ensures SegmentPermuted(before, a[i := a[j]][j := piv], lo, hi)
  {
    var b := a[i := piv];
    SwapPermutes(b, lo, hi, i, j);
    assert b[i := b[j]][j := b[i]] == a[i := a[j]][j := piv];
  }

  // ----- the stack

  datatype Segment = Segment(lo: int, hi: int)

  /** Entry j of the stack has at most n / 2^j elements. */
  predicate Halving(s: seq<Segment>, n: nat) {
    forall j | 0 <= j < |s| :: 0 <= s[j].lo <= s[j].hi <= n && (s[j].hi - s[j].lo) * Pow2(j) <= n
  }

  predicate Apart(s: Segment, t: Segment) {
    s.hi <= t.lo || t.hi <= s.lo
  }

  predicate Disjoint(s: seq<Segment>) {
    forall j, k | 0 <= j < k < |s| :: Apart(s[j], s[k])
  }

  predicate Within(s: Segment, p: int, q: int) {
    s.lo <= p && q < s.hi
  }

  /** Some pending segment holds both. */
  predicate Together(s: seq<Segment>, p: int, q: int) {
    exists j | 0 <= j < |s| :: Within(s[j], p, q)
  }

  /** Any two elements not in the same pending segment are in order. */
  predicate OrderedAround(a: Items, n: nat, s: seq<Segment>)
    requires n <= |a|
  {
    forall p, q | 0 <= p < q < n :: Together(s, p, q) || a[p].stride <= a[q].stride
  }

  /** What is left to do; every round makes it less. */
  function Pending(s: seq<Segment>): nat {
    if s == [] then 0 else
      var last := s[|s| - 1];
      Pending(s[..|s| - 1]) + (if last.lo <= last.hi then 2 * (last.hi - last.lo) + 1 else 0)
  }

  lemma PendingPush(s: seq<Segment>, last: Segment)
    requires last.lo <= last.hi
    ensures Pending(s + [last]) == Pending(s) + 2 * (last.hi - last.lo) + 1
  {
    assert (s + [last])[..|s|] == s;
  }

  lemma PendingParts(s: seq<Segment>, top: Segment, x: Segment, y: Segment)
    requires x.lo <= x.hi && y.lo <= y.hi && top.hi - top.lo == x.hi - x.lo + y.hi - y.lo + 1
    ensures Pending(s + [x, y]) < Pending(s + [top])
  {
    hide Pending;
    PendingPush(s, top);
    PendingPush(s, x);
    PendingPush(s + [x], y);
    assert s + [x, y] == s + [x] + [y];
  }

  /** What the stack is after splitting its top at m: the larger part below, the smaller part on top. */
  function Split(s: seq<Segment>, m: int): (t: seq<Segment>)
    requires s != []
    ensures |t| == |s| + 1
  {
    var top := s[|s| - 1];
    var low, high := Segment(top.lo, m), Segment(m + 1, top.hi);
    s[..|s| - 1] + if high.hi - high.lo > low.hi - low.lo then [high, low] else [low, high]
  }

  lemma SplitHalves(s: seq<Segment>, m: int, n: nat)
    requires s != [] && Halving(s, n) && s[|s| - 1].lo <= m < s[|s| - 1].hi
    ensures Halving(Split(s, m), n)
  {
    var i := |s| - 1;
    var t, size := Split(s, m), s[i].hi - s[i].lo;
    forall j | 0 <= j < |t|
      ensures 0 <= t[j].lo <= t[j].hi <= n && (t[j].hi - t[j].lo) * Pow2(j) <= n
    {
      if j < i {
        assert t[j] == s[j];
      } else if j == i {
        ScaleDown(t[j].hi - t[j].lo, size, Pow2(i), n);
      } else {
        HalfAsLarge(t[j].hi - t[j].lo, size, i, n);
      }
    }
  }

  lemma HalfAsLarge(part: nat, size: nat, i: nat, n: nat)
    requires 2 * part <= size && size * Pow2(i) <= n
    ensures part * Pow2(i + 1) <= n
  {
    assert part * Pow2(i + 1) == (2 * part) * Pow2(i);
    ScaleDown(2 * part, size, Pow2(i), n);
  }

  lemma ScaleDown(a: nat, b: nat, k: nat, n: nat)
    requires a <= b && b * k <= n
    ensures a * k <= n
  {
  }

  lemma SplitDisjoint(s: seq<Segment>, m: int)
    requires s != [] && Disjoint(s) && s[|s| - 1].lo <= m < s[|s| - 1].hi
    ensures Disjoint(Split(s, m))
  {
    var i := |s| - 1;
    var t := Split(s, m);
    forall j, k | 0 <= j < k < |t|
      ensures Apart(t[j], t[k])
    {
      if k < i {
        assert Apart(s[j], s[k]);
      } else if j < i {
        assert Apart(s[j], s[i]);
      }
    }
  }

  lemma SplitPending(s: seq<Segment>, m: int)
    requires s != [] && s[|s| - 1].lo <= m < s[|s| - 1].hi
    ensures Pending(Split(s, m)) < Pending(s)
  {
    hide Pending;
    var rest, top := s[..|s| - 1], s[|s| - 1];
    var low, high := Segment(top.lo, m), Segment(m + 1, top.hi);
    assert s == rest + [top];
    PendingParts(rest, top, low, high);
    PendingParts(rest, top, high, low);
  }

  /** Entry i can be split only while 2^(i + 1) <= n. */
  lemma SplitDepth(s: seq<Segment>, n: nat)
    requires s != [] && Halving(s, n) && s[|s| - 1].hi - s[|s| - 1].lo >= 2
    ensures Pow2(|s|) <= n
  {
    var i := |s| - 1;
    ScaleDown(2, s[i].hi - s[i].lo, Pow2(i), n);
  }

  /** 2^30 is the largest power of two an int can hold. */
  lemma DepthBelow(depth: nat, n: nat)
    requires Pow2(depth) <= n < INT_LIMIT
    ensures depth <= 30
  {
    if depth > 30 { BigPower(depth); }
  }

  lemma BigPower(depth: nat)
    requires depth > 30
    ensures Pow2(depth) >= INT_LIMIT
  {
    Pow2Monotone(31, depth);
    hide Pow2;
    Pow2Small();
    Pow2Sum(4, 4);
    Pow2Sum(8, 8);
    Pow2Sum(16, 16);
    Pow2Next(32);
  }

  /** What Partition does to the segment top. */
  predicate Partitioned(a: Items, b: Items, n: nat, top: Segment, m: nat) {
    && 0 <= top.lo <= m < top.hi <= n && SegmentPermuted(a, b, top.lo, top.hi)
    && AtMost(b, top.lo, m, b[m].stride) && AtLeast(b, m + 1, top.hi, b[m].stride)
  }

  /** Splitting at the pivot keeps the order around the pending segments. */
  lemma SplitOrdered(a: Items, b: Items, n: nat, s: seq<Segment>, m: nat)
    requires n <= |a| && s != [] && Disjoint(s) && OrderedAround(a, n, s)
    requires Partitioned(a, b, n, s[|s| - 1], m)
    ensures OrderedAround(b, n, Split(s, m))
  {
    forall p, q | 0 <= p < q < n && !Together(Split(s, m), p, q)
      ensures b[p].stride <= b[q].stride
    {
      PairOrdered(a, b, n, s, m, p, q);
    }
  }

  lemma PairOrdered(a: Items, b: Items, n: nat, s: seq<Segment>, m: nat, p: nat, q: nat)
    requires n <= |a| && s != [] && Disjoint(s) && OrderedAround(a, n, s)
    requires Partitioned(a, b, n, s[|s| - 1], m)
    requires p < q < n && !Together(Split(s, m), p, q)
    ensures b[p].stride <= b[q].stride
  {
    var i := |s| - 1;
    var top, t := s[i], Split(s, m);
    if Within(top, p, q) {
      assert !Within(t[i], p, q) && !Within(t[i + 1], p, q);
    } else {
      var p' := Origin(a, b, top, p);
      var q' := Origin(a, b, top, q);
      forall j | 0 <= j < |s|
        ensures !Within(s[j], p', q')
      {
        if j < i {
          assert t[j] == s[j] && Apart(s[j], s[i]);
        }
      }
    }
  }

  /** Where an element came from: itself, or the same segment. */
  lemma Origin(a: Items, b: Items, top: Segment, p: nat) returns (p': nat)
    requires 0 <= top.lo <= top.hi && SegmentPermuted(a, b, top.lo, top.hi) && p < |b|
    ensures p' < |a| && a[p'] == b[p] && (if Within(top, p, p) then Within(top, p', p') else p' == p)
  {
    if Within(top, p, p) {
      ElementFrom(a, b, top.lo, top.hi, p);
      p' :| top.lo <= p' < top.hi && b[p] == a[p'];
    } else {
      p' := p;
      if p < top.lo {
        assert a[..top.lo][p] == b[..top.lo][p];
      } else {
        assert a[top.hi..][p - top.hi] == b[top.hi..][p - top.hi];
      }
    }
  }

  predicate Ascending(a: Items, n: nat)
    requires n <= |a|
  {
    forall p, q | 0 <= p < q < n :: a[p].stride <= a[q].stride
  }

  /** The stack arrays hold the pending segments. */
  predicate StackHolds(beg: array<int>, end: array<int>, s: seq<Segment>)
    reads beg, end
  {
    && beg.Length == end.Length == MAX_LEVELS && |s| <= MAX_LEVELS
    && forall j | 0 <= j < |s| :: beg[j] == s[j].lo && end[j] == s[j].hi
  }

  /** Everything the loop of quickSort keeps. */
  ghost predicate Sorting(before: Items, a: Items, n: nat, s: seq<Segment>) {
    n <= |a| && SegmentPermuted(before, a, 0, n) && Halving(s, n) && Disjoint(s) && OrderedAround(a, n, s)
  }

  lemma StartSorting(a: Items, n: nat)
    requires n <= |a|
    ensures Sorting(a, a, n, [Segment(0, n)])
  {
    forall p, q | 0 <= p < q < n
      ensures Together([Segment(0, n)], p, q)
    {
      assert Within([Segment(0, n)][0], p, q);
    }
  }

  lemma KeepSorting(before: Items, a: Items, b: Items, n: nat, s: seq<Segment>, m: nat)
    requires s != [] && Sorting(before, a, n, s) && Partitioned(a, b, n, s[|s| - 1], m)
    ensures Sorting(before, b, n, Split(s, m)) && Pending(Split(s, m)) < Pending(s)
  {
    var top := s[|s| - 1];
    SplitHalves(s, m, n);
    SplitDisjoint(s, m);
    SplitOrdered(a, b, n, s, m);
    SplitPending(s, m);
    Widen(a, b, top.lo, top.hi, n);
    PermutedTransitive(before, a, b, 0, n);
  }

  lemma Widen(a: Items, b: Items, lo: nat, hi: nat, n: nat)
    requires SegmentPermuted(a, b, lo, hi) && hi <= n <= |a|
    ensures SegmentPermuted(a, b, 0, n)
  {
    assert a[..n] == a[..lo] + a[lo..hi] + a[hi..][..n - hi];
    assert b[..n] == b[..lo] + b[lo..hi] + b[hi..][..n - hi];
    assert a[n..] == a[hi..][n - hi..] && b[n..] == b[hi..][n - hi..];
    assert a[0..n] == a[..n] && b[0..n] == b[..n];
  }

  /** A segment of at most one element is in order. */
  lemma PopSorting(before: Items, a: Items, n: nat, s: seq<Segment>)
    requires s != [] && Sorting(before, a, n, s) && s[|s| - 1].hi - s[|s| - 1].lo <= 1
    ensures Sorting(before, a, n, s[..|s| - 1]) && Pending(s[..|s| - 1]) < Pending(s)
  {
    forall p, q | 0 <= p < q < n
      ensures Together(s[..|s| - 1], p, q) || a[p].stride <= a[q].stride
    {
      PopPair(a, n, s, p, q);
    }
  }

  lemma PopPair(a: Items, n: nat, s: seq<Segment>, p: nat, q: nat)
    requires n <= |a| && s != [] && OrderedAround(a, n, s) && s[|s| - 1].hi - s[|s| - 1].lo <= 1 && p < q < n
    ensures Together(s[..|s| - 1], p, q) || a[p].stride <= a[q].stride
  {
    if Together(s, p, q) {
      var j :| 0 <= j < |s| && Within(s[j], p, q);
      assert Within(s[..|s| - 1][j], p, q);
    }
  }

  lemma EndSorting(before: Items, a: Items, n: nat)
    requires Sorting(before, a, n, [])
    ensures SegmentPermuted(before, a, 0, n) && Ascending(a, n)
  {
  }

  lemma TopWithin(before: Items, a: Items, n: nat, s: seq<Segment>)
    requires s != [] && Sorting(before, a, n, s)
    ensures var top := s[|s| - 1]; 0 <= top.lo <= top.hi <= n <= |a|
  {
  }

  lemma DepthFits(before: Items, a: Items, n: nat, s: seq<Segment>)
    requires s != [] && Sorting(before, a, n, s) && n < INT_LIMIT && s[|s| - 1].hi - s[|s| - 1].lo >= 2
    ensures Pow2(|s|) <= n && |s| <= 30
  {
    SplitDepth(s, n);
    DepthBelow(|s|, n);
  }

  lemma PartitionedNow(a: Items, b: Items, n: nat, top: Segment, m: nat)
    requires 0 <= top.lo <= m < top.hi <= n && SegmentPermuted(a, b, top.lo, top.hi)
    requires AtMost(b, top.lo, m, b[m].stride) && AtLeast(b, m + 1, top.hi, b[m].stride)
    ensures Partitioned(a, b, n, top, m)
  {
  }

  lemma StackStart(beg: array<int>, end: array<int>, n: nat)
    requires beg.Length == end.Length == MAX_LEVELS && beg[0] == 0 && end[0] == n
    ensures StackHolds(beg, end, [Segment(0, n)])
  {
  }

  lemma StackTop(beg: array<int>, end: array<int>, s: seq<Segment>)
    requires StackHolds(beg, end, s) && s != []
    ensures beg.Length == end.Length == MAX_LEVELS && |s| <= MAX_LEVELS
    ensures Segment(beg[|s| - 1], end[|s| - 1]) == s[|s| - 1]
  {
  }

  lemma StackPop(beg: array<int>, end: array<int>, s: seq<Segment>)
    requires StackHolds(beg, end, s) && s != []
    ensures StackHolds(beg, end, s[..|s| - 1])
  {
  }

  /** Replaces the top of the stack by its parts, the larger one below. */
  method PushParts(beg: array<int>, end: array<int>, i: nat, m: int, ghost s: seq<Segment>)
    requires StackHolds(beg, end, s) && |s| == i + 1 < MAX_LEVELS && beg != end
    modifies beg, end
    ensures StackHolds(beg, end, Split(s, m))
  {
    beg[i + 1] := m + 1;
    end[i + 1] := end[i];
    end[i] := m;
    if end[i + 1] - beg[i + 1] > end[i] - beg[i] {
      var swap := beg[i + 1];
      beg[i + 1] := beg[i];
      beg[i] := swap;
      swap := end[i + 1];
      end[i + 1] := end[i];
      end[i] := swap;
    }
  }

  /** Sorts the first elements of arr, ascending by stride. depth is the highest stack index used. */
  method QuickSort(arr: array<StridePermutation>, elements: nat) returns (ghost depth: nat)
    requires elements <= arr.Length && elements < INT_LIMIT
    modifies arr
    ensures SegmentPermuted(old(arr[..]), arr[..], 0, elements)
    ensures Ascending(arr[..], elements)
    ensures depth == 0 || Pow2(depth) <= elements
    ensures depth + 1 < MAX_LEVELS
  {
    hide Sorting, Pow2, Pending, Partitioned, SegmentPermuted, Ascending, Split, StackHolds;
    var beg, end := new int[MAX_LEVELS], new int[MAX_LEVELS];
    var i := 0;
    beg[0], end[0] := 0, elements;
    ghost var before, s := arr[..], [Segment(0, elements)];
    StackStart(beg, end, elements);
    depth := 0;
    StartSorting(before, elements);
    while i >= 0
      invariant -1 <= i && |s| == i + 1 && StackHolds(beg, end, s)
      invariant Sorting(before, arr[..], elements, s)
      invariant depth == 0 || Pow2(depth) <= elements
      invariant depth + 1 < MAX_LEVELS
      decreases Pending(s)
    {
      TopWithin(before, arr[..], elements, s);
      StackTop(beg, end, s);
      var l, r := beg[i], end[i] - 1;
      if l < r {
        DepthFits(before, arr[..], elements, s);
        ghost var a, top := arr[..], s[i];
        var m := Partition(arr, l, r + 1);
        PartitionedNow(a, arr[..], elements, top, m);
        KeepSorting(before, a, arr[..], elements, s, m);
        PushParts(beg, end, i, m, s);
        s := Split(s, m);
        i := i + 1;
        depth := if i > depth then i else depth;
      } else {
        PopSorting(before, arr[..], elements, s);
        StackPop(beg, end, s);
        s := s[..i];
        i := i - 1;
      }
    }
    EndSorting(before, arr[..], elements);
  }

  // ----- SortStrideArray

  function Numbered(strides: seq<int>): (r: Items)
    ensures |r| == |strides|
  {
    seq(|strides|, i requires 0 <= i < |strides| => StridePermutation(i, strides[i]))
  }

  /** Sets up the stride permutation values and sorts them. */
  method SortStrideArray(strides: seq<int>, out: array<StridePermutation>)
    requires |strides| <= out.Length && |strides| < INT_LIMIT
    modifies out
    ensures SortedStrides(strides, out[..|strides|])
    ensures out[|strides|..] == old(out[|strides|..])
  {
    var ndim := |strides|;
    for i := 0 to ndim
      invariant out[..i] == Numbered(strides)[..i] && out[ndim..] == old(out[ndim..])
    {
      out[i] := StridePermutation(i, strides[i]);
      assert out[..i + 1] == out[..i] + [Numbered(strides)[i]];
    }
    ghost var before := out[..];
    assert before[..ndim] == before[0..ndim] == Numbered(strides);
    ghost var _ := QuickSort(out, ndim);
    assert out[..ndim] == out[..][0..ndim];
    assert out[ndim..] == out[..][ndim..] == before[ndim..];
  }

  /** The axes with their strides, each once, ascending. */
  predicate SortedStrides(strides: seq<int>, out: Items) {
    |out| == |strides| && multiset(out) == multiset(Numbered(strides)) && Ascending(out, |out|)
  }

  /** Each entry is an axis with its stride, and each axis has exactly one entry. */
  lemma EachAxisOnce(strides: seq<int>, out: Items, axis: nat)
    requires SortedStrides(strides, out) && axis < |strides|
    ensures forall k | 0 <= k < |out| :: 0 <= out[k].perm < |strides| && out[k].stride == strides[out[k].perm]
    ensures exists k :: 0 <= k < |out| && out[k].perm == axis
    ensures forall j, k | 0 <= j < |out| && 0 <= k < |out| && out[j].perm == out[k].perm :: j == k
  {
    var n := Numbered(strides);
    forall k | 0 <= k < |out|
      ensures 0 <= out[k].perm < |strides| && out[k].stride == strides[out[k].perm]
    {
      assert out[k] in multiset(n);
    }
    assert n[axis] in multiset(out);
    var k :| 0 <= k < |out| && out[k] == n[axis];
    forall j, k | 0 <= j < |out| && 0 <= k < |out| && out[j].perm == out[k].perm
      ensures j == k
    {
      assert out[j] in multiset(n);
      assert out[j] == out[k];
      if j != k {
        OnceOnly(n, out[j]);
        TwiceCounted(out, j, k);
      }
    }
  }

  lemma TwiceCounted(a: Items, j: nat, k: nat)
    requires j < |a| && k < |a| && j != k && a[j] == a[k]
    ensures multiset(a)[a[j]] >= 2
  {
    var lo, hi := if j < k then j else k, if j < k then k else j;
    assert a == a[..hi] + [a[hi]] + a[hi + 1..];
    assert a[..hi][lo] == a[j];
  }

  lemma OnceOnly(n: Items, x: StridePermutation)
    requires forall j, k | 0 <= j < |n| && 0 <= k < |n| && n[j].perm == n[k].perm :: j == k
    ensures multiset(n)[x] <= 1
  {
    if multiset(n)[x] > 0 {
      var k :| 0 <= k < |n| && n[k] == x;
      assert n == n[..k] + [x] + n[k + 1..];
      assert forall j | 0 <= j < k :: n[..k][j] != x;
      var rest := n[k + 1..];
      forall j | 0 <= j < |rest|
        ensures rest[j] != x
      {
        assert rest[j] == n[k + 1 + j];
      }
      assert x !in n[..k] && x !in rest;
    }
  }

  // ----- the order the comment on SortStrideArray describes

  function Abs(x: int): nat {
    if x < 0 then -x else x
  }

  predicate DescendingByAbs(out: Items) {
    forall p, q | 0 <= p < q < |out| :: Abs(out[p].stride) >= Abs(out[q].stride)
  }

  /** A positive stride is the only positive one, and none of the others is nearer to zero. */
  predicate OnePositive(strides: seq<int>) {
    forall i, j | 0 <= i < |strides| && 0 <= j < |strides| && strides[i] > 0 ::
      strides[j] == strides[i] || strides[j] <= -strides[i]
  }

  /** The order is the one described exactly for such strides. */
  lemma CommentHoldsIff(strides: seq<int>, out: Items)
    requires SortedStrides(strides, out)
    ensures DescendingByAbs(out) <==> OnePositive(strides)
  {
    if DescendingByAbs(out) {
      forall i, j | 0 <= i < |strides| && 0 <= j < |strides| && strides[i] > 0
        ensures strides[j] == strides[i] || strides[j] <= -strides[i]
      {
        EachAxisOnce(strides, out, i);
        EachAxisOnce(strides, out, j);
        var p :| 0 <= p < |out| && out[p].perm == i;
        var q :| 0 <= q < |out| && out[q].perm == j;
        assert out[p].stride == strides[i] && out[q].stride == strides[j];
      }
    }
    if OnePositive(strides) {
      forall p, q | 0 <= p < q < |out|
        ensures Abs(out[p].stride) >= Abs(out[q].stride)
      {
        EachAxisOnce(strides, out, out[p].perm) by { assert out[p] in multiset(Numbered(strides)); }
      }
    }
  }

  /** The comment's own example comes out the other way round. */
  lemma CommentExample(out: Items)
    requires SortedStrides([4, -2, 12], out)
    ensures !DescendingByAbs(out) && out[0].stride == -2 && out[1].stride == 4 && out[2].stride == 12
  {
    var strides := [4, -2, 12];
    EachAxisOnce(strides, out, 0);
    EachAxisOnce(strides, out, 1);
    EachAxisOnce(strides, out, 2);
  }
}
