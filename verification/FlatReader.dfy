/** Reading finished buffers: Table, Verifier and GetRoot in include/flatbuffers/flatbuffers.h.
    A pointer is a position in the buffer; it may be negative or past the end, as a computed C++ pointer may. */
module FlatReader {
  import opened FlatBase

  type Bytes = seq<byte>

  /** The n bytes at p lie in the buffer: the test of Verifier::Verify. */
  predicate InBuffer(b: Bytes, p: int, n: nat) {
    0 <= p && p + n <= |b|
  }

  function ReadScalar(b: Bytes, p: int, n: nat): nat
    requires InBuffer(b, p, n)
  {
    FromLE(b[p..p + n])
  }

  function ReadU16(b: Bytes, p: int): (v: nat)
    requires InBuffer(b, p, 2)
    ensures v < 0x1_0000
  {
    U16(b[p], b[p + 1])
  }

  function ReadU32(b: Bytes, p: int): (v: nat)
    requires InBuffer(b, p, 4)
    ensures v < 0x1_0000_0000
  {
    U32(b[p], b[p + 1], b[p + 2], b[p + 3])
  }

  /** The fixed-width readers are instances of the general one. */
  lemma ReadU32IsScalar(b: Bytes, p: int)
    requires InBuffer(b, p, 4)
    ensures ReadScalar(b, p, 4) == ReadU32(b, p)
  {
    U32IsFromLE(b[p..p + 4]);
  }

  function GetRoot(b: Bytes, p: int): int
    requires InBuffer(b, p, 4)
  {
    p + ReadU32(b, p)
  }

  // ----- Table

  function GetVTable(b: Bytes, t: int): int
    requires InBuffer(b, t, 4)
  {
    t - DecodeSigned32(ReadU32(b, t))
  }

  /** Every read of GetOptionalFieldOffset stays inside the buffer. */
  predicate OffsetReadable(b: Bytes, t: int, field: nat) {
    && InBuffer(b, t, 4)
    && var vtable := GetVTable(b, t);
    && InBuffer(b, vtable, 2)
    && (field < ReadU16(b, vtable) ==> InBuffer(b, vtable + field, 2))
  }

  function GetOptionalFieldOffset(b: Bytes, t: int, field: nat): (o: nat)
    requires OffsetReadable(b, t, field)
    ensures o < 0x1_0000
  {
    var vtable := GetVTable(b, t);
    if field < ReadU16(b, vtable) then ReadU16(b, vtable + field) else 0
  }

  /** Every read of GetField stays inside the buffer. */
  predicate FieldReadable(b: Bytes, t: int, field: nat, size: nat) {
    && OffsetReadable(b, t, field)
    && (GetOptionalFieldOffset(b, t, field) != 0 ==> InBuffer(b, t + GetOptionalFieldOffset(b, t, field), size))
  }

  function GetField(b: Bytes, t: int, field: nat, size: nat, defaultval: nat): nat
    requires FieldReadable(b, t, field, size)
  {
    var o := GetOptionalFieldOffset(b, t, field);
    if o != 0 then ReadScalar(b, t + o, size) else defaultval
  }

  /** The position an offset field refers to, or Null. */
  datatype Pointer = Null | At(position: int)

  function GetPointer(b: Bytes, t: int, field: nat): Pointer
    requires FieldReadable(b, t, field, 4)
  {
    var o := GetOptionalFieldOffset(b, t, field);
    if o != 0 then At(t + o + ReadU32(b, t + o)) else Null
  }

  // ----- Verifier

  /** What VerifyTableStart checks of the bytes, apart from the table and depth limits. */
  predicate VTableAccepted(b: Bytes, t: int) {
    && InBuffer(b, t, 4)
    && var vtable := GetVTable(b, t);
    && InBuffer(b, vtable, 2)
    && ReadU16(b, vtable) % 2 == 0
    && InBuffer(b, vtable, ReadU16(b, vtable))
  }

  predicate FieldAccepted(b: Bytes, t: int, field: nat, size: nat)
    requires OffsetReadable(b, t, field)
  {
    var o := GetOptionalFieldOffset(b, t, field);
    o == 0 || InBuffer(b, t + o, size)
  }

  /** On arbitrary bytes: after VerifyTableStart accepts, VerifyField on an even field id reads inside the buffer,
      and when it accepts too, so does GetField. */
  lemma AcceptanceIsSafe(b: Bytes, t: int, field: nat, size: nat)
    requires VTableAccepted(b, t) && field % 2 == 0
    ensures OffsetReadable(b, t, field)
    ensures FieldAccepted(b, t, field, size) <==> FieldReadable(b, t, field, size)
  {
  }

  /** What the even-size check buys. When all other checks of VerifyTableStart pass, reading every even field id is
      safe exactly if the vtable size is even or the buffer happens to hold one more byte behind the vtable. */
  lemma EvenSizeCheckNeeded(b: Bytes, t: int)
    requires InBuffer(b, t, 4)
    requires InBuffer(b, GetVTable(b, t), 2) && InBuffer(b, GetVTable(b, t), ReadU16(b, GetVTable(b, t)))
    ensures (forall field: nat | field % 2 == 0 :: OffsetReadable(b, t, field))
            <==> ReadU16(b, GetVTable(b, t)) % 2 == 0 || GetVTable(b, t) + ReadU16(b, GetVTable(b, t)) < |b|
  {
    var vtable := GetVTable(b, t);
    var size := ReadU16(b, vtable);
    if size % 2 == 1 && vtable + size >= |b| {
      assert (size - 1) % 2 == 0 && !InBuffer(b, vtable + (size - 1), 2);
      assert !OffsetReadable(b, t, size - 1);
    } else {
      forall field: nat | field % 2 == 0
        ensures OffsetReadable(b, t, field)
      {
        if field < size { assert vtable + field + 2 <= |b|; }
      }
    }
  }

  /** Masking with sizeof(voffset_t) - 1 tests for an odd number. */
  lemma LowBits()
    ensures forall x: nat :: And(x, 2 - 1) == x % 2
  {
    forall x: nat
      ensures And(x, 2 - 1) == x % 2
    {
      AndLowMask(x, 1);
    }
  }

  class Verifier {
    const bytes: Bytes
    const maxDepth: nat
    const maxTables: nat
    var depth: nat
    var numTables: nat

    /** uoffset_t counters. */
    ghost predicate Valid()
      reads this
    {
      depth < 0x1_0000_0000 && numTables < 0x1_0000_0000
    }

    constructor (bytes: Bytes, maxDepth: nat, maxTables: nat)
      ensures Valid() && this.bytes == bytes && this.maxDepth == maxDepth && this.maxTables == maxTables
      ensures depth == 0 && numTables == 0
    {
      this.bytes, this.maxDepth, this.maxTables := bytes, maxDepth, maxTables;
      depth, numTables := 0, 0;
    }

    method VerifyComplexity() returns (ok: bool)
      requires Valid()
      modifies this
      ensures Valid()
      ensures depth == (old(depth) + 1) % 0x1_0000_0000 && numTables == (old(numTables) + 1) % 0x1_0000_0000
      ensures ok <==> depth <= maxDepth && numTables <= maxTables
    {
      depth := (depth + 1) % 0x1_0000_0000;
      numTables := (numTables + 1) % 0x1_0000_0000;
      ok := depth <= maxDepth && numTables <= maxTables;
    }

    method EndTable() returns (ok: bool)
      requires Valid()
      modifies this
      ensures Valid() && ok && numTables == old(numTables)
      ensures depth == if old(depth) > 0 then old(depth) - 1 else 0xFFFF_FFFF
    {
      depth := (depth + 0xFFFF_FFFF) % 0x1_0000_0000;
      ok := true;
    }

    /** Accepts exactly the tables whose vtable lies in the buffer with an even size, within the limits. */
    method VerifyTableStart(t: int) returns (ok: bool)
      requires Valid()
      modifies this
      ensures Valid()
      ensures ok <==> VTableAccepted(bytes, t) && depth <= maxDepth && numTables <= maxTables
      ensures InBuffer(bytes, t, 4) ==>
                depth == (old(depth) + 1) % 0x1_0000_0000 && numTables == (old(numTables) + 1) % 0x1_0000_0000
      ensures !InBuffer(bytes, t, 4) ==> depth == old(depth) && numTables == old(numTables)
    {
      if !InBuffer(bytes, t, 4) {
        return false;
      }
      var vtable := GetVTable(bytes, t);
      ok := VerifyComplexity();
      if ok {
        LowBits();
        ok := InBuffer(bytes, vtable, 2) &&
              And(ReadU16(bytes, vtable), 2 - 1) == 0 &&
              InBuffer(bytes, vtable, ReadU16(bytes, vtable));
      }
    }

    method VerifyField(t: int, field: nat, size: nat) returns (ok: bool)
      requires VTableAccepted(bytes, t) && field % 2 == 0
      ensures ok <==> FieldReadable(bytes, t, field, size)
    {
      AcceptanceIsSafe(bytes, t, field, size);
      var o := GetOptionalFieldOffset(bytes, t, field);
      ok := o == 0 || InBuffer(bytes, t + o, size);
    }
  }
}
