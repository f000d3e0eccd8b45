/** The ordering behind the string pool: StringOffsetCompare in include/flatbuffers/flatbuffers.h. */
module FlatStrings {
  import opened FlatReader
  import opened FlatFormat

  /** The characters before the first NUL: all that C string functions see. */
  function CStr(s: Bytes): Bytes {
    if s == [] || s[0] == 0 then [] else [s[0]] + CStr(s[1..])
  }

  lemma {:induction false} CStrOfNulFree(s: Bytes)
    requires 0 !in s
    ensures CStr(s) == s
  {
    if s != [] { CStrOfNulFree(s[1..]); }
  }

  /** Lexicographic order on C strings. */
  predicate LexLess(a: Bytes, b: Bytes) {
    b != [] && (a == [] || a[0] < b[0] || (a[0] == b[0] && LexLess(a[1..], b[1..])))
  }

  /** The order is a strict total order, as std::set needs. */
  lemma {:induction false} LexTransitive(a: Bytes, b: Bytes, c: Bytes)
    requires LexLess(a, b) && LexLess(b, c)
    ensures LexLess(a, c) && a != c
    decreases |a|
  {
    if a != [] && a[0] == b[0] == c[0] { LexTransitive(a[1..], b[1..], c[1..]); }
  }

  lemma {:induction false} LexIrreflexive(a: Bytes)
    ensures !LexLess(a, a)
  {
    if a != [] { LexIrreflexive(a[1..]); }
  }

  lemma {:induction false} LexTotal(a: Bytes, b: Bytes)
    ensures LexLess(a, b) || a == b || LexLess(b, a)
    ensures !(LexLess(a, b) && LexLess(b, a))
    decreases |a|
  {
    if a != [] && b != [] && a[0] == b[0] {
      LexTotal(a[1..], b[1..]);
      if a[1..] == b[1..] { assert a == [a[0]] + a[1..] == b; }
    }
  }

  /** strncmp on two positions of the buffer. */
  function StrNCmp(b: Bytes, p: nat, q: nat, n: nat): int
    requires p + n <= |b| && q + n <= |b|
    decreases n
  {
    if n == 0 then 0
    else if b[p] != b[q] then b[p] - b[q]
    else if b[p] == 0 then 0
    else StrNCmp(b, p + 1, q + 1, n - 1)
  }

  /** StringOffsetCompare::operator(). */
  predicate OffsetLess(b: Bytes, x: nat, y: nat)
    requires StringAt(b, x) && StringAt(b, y)
  {
    var p, q := |b| - x, |b| - y;
    var m := if ReadU32(b, p) < ReadU32(b, q) then ReadU32(b, p) else ReadU32(b, q);
    StrNCmp(b, p + 4, q + 4, m + 1) < 0
  }

  /** What the comparator sees of a string. */
  function Key(b: Bytes, x: nat): Bytes
    requires StringAt(b, x)
  {
    CStr(TextOf(b, x))
  }

  /** b holds s and a terminating zero at p. */
  predicate TextAt(b: Bytes, p: nat, s: Bytes) {
    p + |s| < |b| && b[p..p + |s|] == s && b[p + |s|] == 0
  }

  lemma {:induction false} StrNCmpIsLex(b: Bytes, p: nat, s: Bytes, q: nat, t: Bytes, n: nat)
    requires TextAt(b, p, s) && TextAt(b, q, t) && n == (if |s| < |t| then |s| else |t|) + 1
    ensures StrNCmp(b, p, q, n) < 0 <==> LexLess(CStr(s), CStr(t))
    decreases n
  {
    hide CStr, LexLess;
    assert b[p] == Head(s) && b[q] == Head(t);
    LexStep(s, t);
    if Head(s) == Head(t) != 0 {
      assert TextAt(b, p + 1, s[1..]) && TextAt(b, q + 1, t[1..]);
      StrNCmpIsLex(b, p + 1, s[1..], q + 1, t[1..], n - 1);
    }
  }

  /** The first character a C string function sees. */
  function Head(s: Bytes): nat {
    if s == [] then 0 else s[0]
  }

  lemma LexStep(s: Bytes, t: Bytes)
    ensures LexLess(CStr(s), CStr(t)) <==>
      if Head(s) == Head(t) != 0 then LexLess(CStr(s[1..]), CStr(t[1..])) else Head(s) < Head(t)
  {
    if Head(s) == Head(t) != 0 { assert CStr(s)[1..] == CStr(s[1..]) && CStr(t)[1..] == CStr(t[1..]); }
  }

  /** The comparator orders pooled strings by their C strings. */
  lemma OffsetLessIsLex(b: Bytes, x: nat, y: nat)
    requires StringAt(b, x) && StringAt(b, y)
    ensures OffsetLess(b, x, y) <==> LexLess(Key(b, x), Key(b, y))
  {
    var s, t := TextOf(b, x), TextOf(b, y);
    StrNCmpIsLex(b, |b| - x + 4, s, |b| - y + 4, t, (if |s| < |t| then |s| else |t|) + 1);
  }

  ghost predicate Ascending(keys: seq<Bytes>) {
    forall i, j | 0 <= i < j < |keys| :: LexLess(keys[i], keys[j])
  }

  lemma AscendingInsert(keys: seq<Bytes>, k: nat, key: Bytes)
    requires Ascending(keys) && k <= |keys|
    requires forall i | 0 <= i < k :: LexLess(keys[i], key)
    requires k < |keys| ==> LexLess(key, keys[k])
    ensures Ascending(keys[..k] + [key] + keys[k..])
  {
    forall i | k < i < |keys|
      ensures LexLess(key, keys[i])
    {
      LexTransitive(key, keys[k], keys[i]);
    }
  }

  /** Position of the first key that is not smaller: std::set's lower bound. */
  function LowerBound(keys: seq<Bytes>, key: Bytes): (k: nat)
    ensures k <= |keys|
    ensures forall i | 0 <= i < k :: LexLess(keys[i], key)
    ensures k < |keys| ==> !LexLess(keys[k], key)
  {
    if keys == [] || !LexLess(keys[0], key) then 0 else 1 + LowerBound(keys[1..], key)
  }

  /** In ascending keys the lower bound finds the key if it is there at all. */
  lemma LowerBoundFinds(keys: seq<Bytes>, key: Bytes)
    requires Ascending(keys)
    ensures var k := LowerBound(keys, key); key in keys <==> k < |keys| && keys[k] == key
  {
    var k := LowerBound(keys, key);
    if key in keys {
      var i :| 0 <= i < |keys| && keys[i] == key;
      LexIrreflexive(key);
      assert k <= i;
      LexTotal(keys[k], key);
      LexTotal(key, keys[k]);
    }
  }

  predicate AllStrings(b: Bytes, pool: seq<nat>) {
    forall x <- pool :: StringAt(b, x)
  }

  function Keys(b: Bytes, pool: seq<nat>): (keys: seq<Bytes>)
    requires AllStrings(b, pool)
    ensures |keys| == |pool|
    ensures forall i | 0 <= i < |pool| :: keys[i] == Key(b, pool[i])
  {
    if pool == [] then [] else [Key(b, pool[0])] + Keys(b, pool[1..])
  }

  /** The pool in iteration order: strictly ascending, so no two of its strings compare equal. */
  ghost predicate PoolSorted(b: Bytes, pool: seq<nat>) {
    AllStrings(b, pool) && Ascending(Keys(b, pool))
  }

  /** Two pooled offsets are the same exactly if their strings are the same up to the first NUL. */
  lemma PoolInjective(b: Bytes, pool: seq<nat>, x: nat, y: nat)
    requires PoolSorted(b, pool) && x in pool && y in pool
    ensures StringAt(b, x) && StringAt(b, y)
    ensures x == y <==> Key(b, x) == Key(b, y)
  {
    var i :| 0 <= i < |pool| && pool[i] == x;
    var j :| 0 <= j < |pool| && pool[j] == y;
    var keys := Keys(b, pool);
    LexIrreflexive(keys[i]);
    assert i < j ==> LexLess(keys[i], keys[j]);
    assert j < i ==> LexLess(keys[j], keys[i]);
  }

  /** Inserting a new key at its lower bound keeps the pool sorted. */
  lemma PoolInsert(b: Bytes, pool: seq<nat>, x: nat)
    requires PoolSorted(b, pool) && StringAt(b, x) && Key(b, x) !in Keys(b, pool)
    ensures var k := LowerBound(Keys(b, pool), Key(b, x)); PoolSorted(b, pool[..k] + [x] + pool[k..])
  {
    var keys, key := Keys(b, pool), Key(b, x);
    var k := LowerBound(keys, key);
    if k < |keys| { LexTotal(keys[k], key); }
    AscendingInsert(keys, k, key);
    KeysInsert(b, pool, k, x);
  }

  lemma AllStringsConcat(b: Bytes, p: seq<nat>, q: seq<nat>)
    requires AllStrings(b, p) && AllStrings(b, q)
    ensures AllStrings(b, p + q)
  {
  }

  lemma {:induction false} KeysConcat(b: Bytes, p: seq<nat>, q: seq<nat>)
    requires AllStrings(b, p) && AllStrings(b, q) && AllStrings(b, p + q)
    ensures Keys(b, p + q) == Keys(b, p) + Keys(b, q)
  {
    if p == [] {
      assert p + q == q;
    } else {
      assert (p + q)[1..] == p[1..] + q && (p + q)[0] == p[0];
      KeysConcat(b, p[1..], q);
    }
  }

  lemma KeysInsert(b: Bytes, pool: seq<nat>, k: nat, x: nat)
    requires AllStrings(b, pool) && StringAt(b, x) && k <= |pool|
    ensures var r := pool[..k] + [x] + pool[k..];
      AllStrings(b, r) && Keys(b, r) == Keys(b, pool)[..k] + [Key(b, x)] + Keys(b, pool)[k..]
  {
    var p, q := pool[..k], pool[k..];
    assert p + q == pool;
    KeysConcat(b, p, q);
    AllStringsConcat(b, p, [x]);
    KeysConcat(b, p, [x]);
    AllStringsConcat(b, p + [x], q);
    KeysConcat(b, p + [x], q);
    assert Keys(b, [x]) == [Key(b, x)];
  }

  lemma PoolShift(pre: Bytes, b: Bytes, pool: seq<nat>)
    requires AllStrings(b, pool)
    ensures AllStrings(pre + b, pool) && Keys(pre + b, pool) == Keys(b, pool)
  {
    forall x <- pool
      ensures StringAt(pre + b, x) && Key(pre + b, x) == Key(b, x)
    {
      StringShift(pre, b, x);
    }
    assert forall i | 0 <= i < |pool| :: Keys(pre + b, pool)[i] == Keys(b, pool)[i];
  }
}
