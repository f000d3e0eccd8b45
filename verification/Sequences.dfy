/** Sequences of indices, and one store into an array. */
module Sequences {

  predicate Distinct(s: seq<nat>) {
    forall i, j | 0 <= i < j < |s| :: s[i] != s[j]
  }

  predicate InRange(s: seq<nat>, n: nat) {
    forall i | 0 <= i < |s| :: s[i] < n
  }

  /** There are at most n distinct numbers below n. */
  lemma {:induction false} DistinctFit(s: seq<nat>, n: nat)
    requires InRange(s, n) && Distinct(s)
    ensures |s| <= n
  {
    if s != [] { assert s[0] < n; }
    if n == 0 {
    } else if i :| 0 <= i < |s| && s[i] == n - 1 {
      DistinctFit(s[..i] + s[i + 1..], n - 1);
    } else {
      DistinctFit(s, n - 1);
    }
  }

  ghost predicate Covers(s: seq<int>, n: nat) {
    forall k | 0 <= k < n :: k in s
  }

  /** Without an entry of another value, the others still cover the numbers below n. */
  lemma CoversWithout(s: seq<int>, n: nat, i: nat)
    requires Covers(s, n) && i < |s| && !(0 <= s[i] < n)
    ensures Covers(s[..i] + s[i + 1..], n)
  {
    var others := s[..i] + s[i + 1..];
    forall k | 0 <= k < n
      ensures k in others
    {
      assert k in s;
      var j :| 0 <= j < |s| && s[j] == k;
      assert others[if j < i then j else j - 1] == k;
    }
  }

  /** It takes n entries to cover the numbers below n ... */
  lemma {:induction false} CoverSize(s: seq<int>, n: nat)
    requires Covers(s, n)
    ensures |s| >= n
  {
    if n > 0 {
      var last: int := n - 1;
      assert last in s;
      var i :| 0 <= i < |s| && s[i] == last;
      CoversWithout(s, n - 1, i);
      CoverSize(s[..i] + s[i + 1..], n - 1);
    }
  }

  /** ... so n entries that cover them hold nothing else. */
  lemma CoverInRange(s: seq<int>, n: nat)
    requires Covers(s, n) && |s| == n
    ensures forall i | 0 <= i < n :: 0 <= s[i] < n
  {
    forall i | 0 <= i < n
      ensures 0 <= s[i] < n
    {
      if !(0 <= s[i] < n) {
        CoversWithout(s, n, i);
        CoverSize(s[..i] + s[i + 1..], n);
      }
    }
  }

  method Put<T>(a: array<T>, p: nat, v: T)
    requires p < a.Length
    modifies a
    ensures a[..] == old(a[..])[p := v]
  {
    a[p] := v;
  }
}
