/** What a finished table and string look like in the bytes, independently of how the builder produced them. */
module FlatFormat {
  import opened FlatBase
  import opened FlatReader

  /** What a scalar's bit pattern means to its operator ==. */
  datatype Kind = Integer | Float

  /** One AddElement call: the bits of a scalar of size bytes and of its default, and whether defaults were forced; off
      is its distance from the end, 0 if it was not stored. */
  datatype Added = Added(kind: Kind, size: nat, value: nat, def: nat, forced: bool, off: nat)

  // ----- floats

  /** All bits 0, or the sign bit alone. */
  predicate ZeroBits(size: nat, bits: nat) {
    bits == 0 || bits == if size == 4 then 0x8000_0000 else 0x8000_0000_0000_0000
  }

  /** The exponent all ones and the fraction not 0. */
  predicate NaNBits(size: nat, bits: nat) {
    if size == 4 then 0x7F80_0000 < bits < 0x8000_0000 || 0xFF80_0000 < bits
    else 0x7FF0_0000_0000_0000 < bits < 0x8000_0000_0000_0000 || 0xFFF0_0000_0000_0000 < bits
  }

  /** The value equals its default in its own type: the same bits but no NaN, or two zeros. */
  predicate EqualsDefault(a: Added) {
    match a.kind
    case Integer => a.value == a.def
    case Float =>
      (a.value == a.def && !NaNBits(a.size, a.value)) || (ZeroBits(a.size, a.value) && ZeroBits(a.size, a.def))
  }

  type voffset = x: int | 0 <= x < 0x1_0000

  datatype FieldLoc = FieldLoc(off: nat, id: nat)

  // ----- vtable images

  ghost function EncodeSlots(slots: seq<voffset>): (s: Bytes)
    ensures |s| == 2 * |slots|
  {
    if slots == [] then [] else LE16(slots[0]) + EncodeSlots(slots[1..])
  }

  /** The bytes of a vtable: its own size, the table's size, one voffset per field. */
  ghost function VTableImage(objectSize: voffset, slots: seq<voffset>): (s: Bytes)
    requires 2 * |slots| + 4 < 0x1_0000
    ensures |s| == 2 * |slots| + 4
  {
    LE16(2 * |slots| + 4) + LE16(objectSize) + EncodeSlots(slots)
  }

  lemma {:induction false} SlotAt(slots: seq<voffset>, j: nat)
    requires j < |slots|
    ensures EncodeSlots(slots)[2 * j..2 * j + 2] == LE16(slots[j])
  {
    var head, tail := LE16(slots[0]), EncodeSlots(slots[1..]);
    if j > 0 {
      SlotAt(slots[1..], j - 1);
      assert (head + tail)[2 * j..2 * j + 2] == tail[2 * (j - 1)..2 * (j - 1) + 2];
    } else {
      assert (head + tail)[0..2] == head;
    }
  }

  lemma {:induction false} SlotUpdate(slots: seq<voffset>, j: nat, v: voffset)
    requires j < |slots|
    ensures EncodeSlots(slots[j := v]) == EncodeSlots(slots)[..2 * j] + LE16(v) + EncodeSlots(slots)[2 * j + 2..]
  {
    if j > 0 {
      SlotUpdate(slots[1..], j - 1, v);
      assert slots[j := v][1..] == slots[1..][j - 1 := v];
    } else {
      assert slots[0 := v][1..] == slots[1..];
    }
  }

  function NoSlots(n: nat): (s: seq<voffset>)
    ensures |s| == n && forall k | 0 <= k < n :: s[k] == 0
  {
    seq(n, _ => 0)
  }

  lemma {:induction false} ZeroSlots(n: nat)
    ensures EncodeSlots(NoSlots(n)) == Zeros(2 * n)
  {
    if n > 0 {
      ZeroSlots(n - 1);
      ToLEIsLE16(0);
      ZeroLE(2);
      assert NoSlots(n)[1..] == NoSlots(n - 1);
    }
  }

  // ----- tables

  ghost predicate FieldOk(b: Bytes, t: int, id: nat, a: Added) {
    && OffsetReadable(b, t, id)
    && var o := GetOptionalFieldOffset(b, t, id);
    && (a.off != 0 ==>
          o != 0 && t + o == |b| - a.off && InBuffer(b, t + o, a.size) && ReadScalar(b, t + o, a.size) == a.value)
    && (a.off == 0 ==> o == 0)
    && (a.off == 0 <==> EqualsDefault(a) && !a.forced)
  }

  ghost predicate FieldAbsent(b: Bytes, t: int, id: nat) {
    OffsetReadable(b, t, id) && GetOptionalFieldOffset(b, t, id) == 0
  }

  /** The table at distance off from the end holds exactly the added fields. */
  ghost predicate TableOk(b: Bytes, off: nat, adds: map<nat, Added>) {
    && 4 <= off <= |b|
    && VTableAccepted(b, |b| - off)
    && (forall id <- adds :: FieldOk(b, |b| - off, id, adds[id]))
    && (forall id: nat :: 4 <= id && id % 2 == 0 && id !in adds ==> FieldAbsent(b, |b| - off, id))
  }

  /** A string lies at distance off from the end: length word, characters, terminating zero. */
  predicate StringAt(b: Bytes, off: nat) {
    && 5 <= off <= |b|
    && var n := ReadU32(b, |b| - off);
    && n + 5 <= off
    && b[|b| - off + 4 + n] == 0
  }

  function TextOf(b: Bytes, off: nat): Bytes
    requires StringAt(b, off)
  {
    b[|b| - off + 4..|b| - off + 4 + ReadU32(b, |b| - off)]
  }

  ghost predicate StringOk(b: Bytes, off: nat, s: Bytes) {
    StringAt(b, off) && TextOf(b, off) == s
  }

  predicate VTableFits(b: Bytes, v: nat) {
    && 4 <= v <= |b|
    && 4 <= ReadU16(b, |b| - v) <= v
    && ReadU16(b, |b| - v) % 2 == 0
  }

  /** The bytes of the vtable at distance v from the end. */
  function VTableBytes(b: Bytes, v: nat): Bytes
    requires VTableFits(b, v)
  {
    b[|b| - v..|b| - v + ReadU16(b, |b| - v)]
  }

  // ----- all of it is unaffected by bytes written in front

  lemma ReadShift(pre: Bytes, b: Bytes, p: int, n: nat)
    requires InBuffer(b, p, n)
    ensures InBuffer(pre + b, |pre| + p, n)
    ensures ReadScalar(pre + b, |pre| + p, n) == ReadScalar(b, p, n)
  {
    assert (pre + b)[|pre| + p..|pre| + p + n] == b[p..p + n];
  }

  lemma OffsetShift(pre: Bytes, b: Bytes, t: int, id: nat)
    requires OffsetReadable(b, t, id)
    ensures OffsetReadable(pre + b, |pre| + t, id)
    ensures GetVTable(pre + b, |pre| + t) == |pre| + GetVTable(b, t)
    ensures ReadU16(pre + b, |pre| + GetVTable(b, t)) == ReadU16(b, GetVTable(b, t))
    ensures GetOptionalFieldOffset(pre + b, |pre| + t, id) == GetOptionalFieldOffset(b, t, id)
  {
    var vtable := GetVTable(b, t);
    assert GetVTable(pre + b, |pre| + t) == |pre| + vtable;
  }

  lemma FieldShift(pre: Bytes, b: Bytes, t: int, id: nat, a: Added)
    requires FieldOk(b, t, id, a)
    ensures FieldOk(pre + b, |pre| + t, id, a)
  {
    OffsetShift(pre, b, t, id);
    if a.off != 0 { ReadShift(pre, b, t + GetOptionalFieldOffset(b, t, id), a.size); }
  }

  lemma TableShift(pre: Bytes, b: Bytes, off: nat, adds: map<nat, Added>)
    requires TableOk(b, off, adds)
    ensures TableOk(pre + b, off, adds)
  {
    var t := |b| - off;
    assert |pre + b| - off == |pre| + t;
    AcceptanceIsSafe(b, t, 0, 0);
    OffsetShift(pre, b, t, 0);
    forall id <- adds
      ensures FieldOk(pre + b, |pre| + t, id, adds[id])
    {
      FieldShift(pre, b, t, id, adds[id]);
    }
    forall id: nat | 4 <= id && id % 2 == 0 && id !in adds
      ensures FieldAbsent(pre + b, |pre| + t, id)
    {
      assert FieldAbsent(b, t, id);
      OffsetShift(pre, b, t, id);
    }
  }

  lemma StringShift(pre: Bytes, b: Bytes, off: nat)
    requires StringAt(b, off)
    ensures StringAt(pre + b, off) && TextOf(pre + b, off) == TextOf(b, off)
  {
    var p, n := |b| - off, ReadU32(b, |b| - off);
    assert (pre + b)[|pre| + p + 4..|pre| + p + 4 + n] == b[p + 4..p + 4 + n];
  }

  lemma VTableShift(pre: Bytes, b: Bytes, v: nat)
    requires VTableFits(b, v)
    ensures VTableFits(pre + b, v) && VTableBytes(pre + b, v) == VTableBytes(b, v)
  {
    var n := ReadU16(b, |b| - v);
    assert (pre + b)[|pre + b| - v..|pre + b| - v + n] == b[|b| - v..|b| - v + n];
  }

  /** The vtable's second word gives the size of the table at distance off from the end. */
  predicate TableSizeIs(b: Bytes, off: nat, size: nat) {
    && 4 <= off <= |b|
    && var vtable := GetVTable(b, |b| - off);
    && InBuffer(b, vtable, 4) && ReadU16(b, vtable + 2) == size
  }

  lemma TableSizeShift(pre: Bytes, b: Bytes, off: nat, size: nat)
    requires TableSizeIs(b, off, size)
    ensures TableSizeIs(pre + b, off, size)
  {
    hide ReadU16, ReadU32, DecodeSigned32;
    WordShift(pre, b, |b| - off);
    HalfShift(pre, b, GetVTable(b, |b| - off) + 2);
  }

  lemma WordShift(pre: Bytes, b: Bytes, p: int)
    requires InBuffer(b, p, 4)
    ensures InBuffer(pre + b, |pre| + p, 4) && ReadU32(pre + b, |pre| + p) == ReadU32(b, p)
  {
  }

  lemma HalfShift(pre: Bytes, b: Bytes, p: int)
    requires InBuffer(b, p, 2)
    ensures InBuffer(pre + b, |pre| + p, 2) && ReadU16(pre + b, |pre| + p) == ReadU16(b, p)
  {
  }

  // ----- reading back

  /** What a reader finds of a field that was added, asking with the default it was added with. An integer is the value
      added. A float is too, bit by bit, unless value and default are both zeros, when it may be the other zero. The
      field is there at all exactly if defaults were forced or the value is not its default. */
  ghost predicate ReadsAsAdded(b: Bytes, t: int, id: nat, a: Added) {
    && FieldReadable(b, t, id, a.size)
    && var v, stored := GetField(b, t, id, a.size, a.def), GetOptionalFieldOffset(b, t, id) != 0;
    && (a.kind.Integer? ==> v == a.value)
    && (a.kind.Float? ==> v == a.value || (v == a.def && ZeroBits(a.size, a.value) && ZeroBits(a.size, a.def)))
    && (a.kind.Float? && NaNBits(a.size, a.value) ==> stored)
    && (a.forced ==> stored)
    && (stored ==> v == a.value)
    && (!a.forced ==> (stored <==> !EqualsDefault(a)))
  }

  /** Field id of the table at t reads as it was added, or as the default asked for if it was not. */
  ghost predicate ReadsBack(b: Bytes, t: int, adds: map<nat, Added>, id: nat, size: nat, defaultval: nat) {
    && (id in adds ==> ReadsAsAdded(b, t, id, adds[id]))
    && (id !in adds ==> FieldReadable(b, t, id, size) && GetField(b, t, id, size, defaultval) == defaultval)
  }

  /** Reading any field of a good table with the default it was added with gives the added value; any other field
      reads as the default asked for. */
  lemma ReadBack(b: Bytes, off: nat, adds: map<nat, Added>, id: nat, size: nat, defaultval: nat)
    requires TableOk(b, off, adds) && 4 <= id && id % 2 == 0
    ensures ReadsBack(b, |b| - off, adds, id, size, defaultval)
  {
    if id in adds {
      assert FieldOk(b, |b| - off, id, adds[id]);
    } else {
      assert FieldAbsent(b, |b| - off, id);
    }
  }

  // ----- from a vtable image to a good table

  /** The locations recorded for the table under construction are those of the stored additions, each id once. */
  ghost predicate LocsMatch(locs: seq<FieldLoc>, adds: map<nat, Added>) {
    && (forall i | 0 <= i < |locs| :: locs[i].id in adds && adds[locs[i].id].off == locs[i].off != 0)
    && (forall i, j | 0 <= i < j < |locs| :: locs[i].id != locs[j].id)
    && (forall id <- adds :: adds[id].off != 0 ==> exists i :: 0 <= i < |locs| && locs[i].id == id)
  }

  predicate IdsInRange(locs: seq<FieldLoc>, table: nat, n: nat) {
    forall i | 0 <= i < |locs| :: 4 <= locs[i].id < 2 * n + 4 && locs[i].id % 2 == 0
      && locs[i].off < table < locs[i].off + 0x1_0000
  }

  /** The slots EndTable has filled in after walking over locs. */
  function Slots(locs: seq<FieldLoc>, table: nat, n: nat): (slots: seq<voffset>)
    requires IdsInRange(locs, table, n)
    ensures |slots| == n
  {
    if locs == [] then NoSlots(n) else
      var last := locs[|locs| - 1];
      Slots(locs[..|locs| - 1], table, n)[(last.id - 4) / 2 := table - last.off]
  }

  /** With distinct ids, the slot of a recorded field holds its relative offset. */
  lemma {:induction false} SlotStored(locs: seq<FieldLoc>, table: nat, n: nat, i: nat)
    requires IdsInRange(locs, table, n) && i < |locs|
    requires forall i, j | 0 <= i < j < |locs| :: locs[i].id != locs[j].id
    ensures Slots(locs, table, n)[(locs[i].id - 4) / 2] == table - locs[i].off
  {
    var init := locs[..|locs| - 1];
    if i < |init| {
      SlotStored(init, table, n, i);
      assert init[i] == locs[i] && locs[|locs| - 1].id != locs[i].id;
    }
  }

  /** ... and every other slot holds 0. */
  lemma {:induction false} SlotEmpty(locs: seq<FieldLoc>, table: nat, n: nat, k: nat)
    requires IdsInRange(locs, table, n) && k < n
    requires forall i | 0 <= i < |locs| :: locs[i].id != 2 * k + 4
    ensures Slots(locs, table, n)[k] == 0
  {
    if locs != [] {
      SlotEmpty(locs[..|locs| - 1], table, n, k);
      assert locs[|locs| - 1].id != 2 * k + 4;
    }
  }

  /** b holds the image img at position v. */
  predicate ImageAt(b: Bytes, v: int, img: Bytes) {
    0 <= v && v + |img| <= |b| && b[v..v + |img|] == img
  }

  lemma ImageSize(b: Bytes, v: int, objectSize: voffset, slots: seq<voffset>)
    requires 2 * |slots| + 4 < 0x1_0000 && ImageAt(b, v, VTableImage(objectSize, slots))
    ensures ReadU16(b, v) == 2 * |slots| + 4 && ReadU16(b, v) % 2 == 0 && InBuffer(b, v, ReadU16(b, v))
  {
    var img := VTableImage(objectSize, slots);
    EvenImage(|slots|);
    assert b[v] == img[0] && b[v + 1] == img[1];
  }

  lemma EvenImage(n: nat)
    ensures (2 * n + 4) % 2 == 0
  {
  }

  lemma ImageSlot(b: Bytes, v: int, objectSize: voffset, slots: seq<voffset>, j: nat)
    requires 2 * |slots| + 4 < 0x1_0000 && ImageAt(b, v, VTableImage(objectSize, slots)) && j < |slots|
    ensures ReadU16(b, v + 2 * j + 4) == slots[j]
  {
    var img := VTableImage(objectSize, slots);
    SlotAt(slots, j);
    var enc := EncodeSlots(slots);
    assert img[2 * j + 4] == enc[2 * j] == enc[2 * j..2 * j + 2][0];
    assert img[2 * j + 5] == enc[2 * j + 1] == enc[2 * j..2 * j + 2][1];
    assert b[v + (2 * j + 4)] == img[2 * j + 4] && b[v + (2 * j + 5)] == img[2 * j + 5];
  }

  lemma ImageTableSize(b: Bytes, v: int, objectSize: voffset, slots: seq<voffset>)
    requires 2 * |slots| + 4 < 0x1_0000 && ImageAt(b, v, VTableImage(objectSize, slots))
    ensures InBuffer(b, v, 4) && ReadU16(b, v + 2) == objectSize
  {
    var img := VTableImage(objectSize, slots);
    assert b[v..v + |img|][2] == img[2] == LE16(objectSize)[0] && b[v..v + |img|][3] == img[3] == LE16(objectSize)[1];
  }

  /** The offset found for a field through a vtable that holds the filled-in slots. */
  lemma OffsetFound(b: Bytes, t: int, objectSize: voffset, slots: seq<voffset>, id: nat)
    requires 2 * |slots| + 4 < 0x1_0000 && 4 <= id && id % 2 == 0
    requires InBuffer(b, t, 4) && ImageAt(b, GetVTable(b, t), VTableImage(objectSize, slots))
    ensures VTableAccepted(b, t) && OffsetReadable(b, t, id)
    ensures GetOptionalFieldOffset(b, t, id) == if id < 2 * |slots| + 4 then slots[(id - 4) / 2] else 0
  {
    hide VTableImage, ReadU16, GetVTable, ImageAt;
    ImageSize(b, GetVTable(b, t), objectSize, slots);
    if id < 2 * |slots| + 4 { ImageSlot(b, GetVTable(b, t), objectSize, slots, (id - 4) / 2); }
    AcceptanceIsSafe(b, t, id, 0);
  }

  lemma SlotOfAdded(locs: seq<FieldLoc>, adds: map<nat, Added>, off: nat, n: nat, id: nat)
    requires 0 < off && IdsInRange(locs, off, n) && LocsMatch(locs, adds)
    requires id in adds && 4 <= id < 2 * n + 4 && id % 2 == 0
    ensures adds[id].off < off
    ensures Slots(locs, off, n)[(id - 4) / 2] == if adds[id].off == 0 then 0 else off - adds[id].off
  {
    hide Slots;
    if adds[id].off != 0 {
      var i :| 0 <= i < |locs| && locs[i].id == id;
      SlotStored(locs, off, n, i);
    } else {
      SlotEmpty(locs, off, n, (id - 4) / 2);
    }
  }

  /** The heart of EndTable: a table word that refers to a vtable holding the filled-in slots makes a good table. */
  lemma TableFromVTable(b: Bytes, off: nat, objectSize: voffset, n: nat, locs: seq<FieldLoc>, adds: map<nat, Added>)
    requires 4 <= off <= |b| && IdsInRange(locs, off, n) && LocsMatch(locs, adds)
    requires 2 * n + 4 < 0x1_0000
    requires ImageAt(b, GetVTable(b, |b| - off), VTableImage(objectSize, Slots(locs, off, n)))
    requires forall id <- adds :: AddIn(b, n, id, adds[id])
    ensures TableOk(b, off, adds)
  {
    var t := |b| - off;
    OffsetFound(b, t, objectSize, Slots(locs, off, n), 4);
    forall id <- adds
      ensures FieldOk(b, t, id, adds[id])
    {
      AddedFound(b, off, objectSize, n, locs, adds, id);
    }
    forall id: nat | 4 <= id && id % 2 == 0 && id !in adds
      ensures FieldAbsent(b, t, id)
    {
      AbsentFound(b, off, objectSize, n, locs, adds, id);
    }
  }

  lemma AbsentFound(b: Bytes, off: nat, objectSize: voffset, n: nat, locs: seq<FieldLoc>, adds: map<nat, Added>,
      id: nat)
    requires 4 <= off <= |b| && IdsInRange(locs, off, n) && LocsMatch(locs, adds)
    requires 2 * n + 4 < 0x1_0000
    requires ImageAt(b, GetVTable(b, |b| - off), VTableImage(objectSize, Slots(locs, off, n)))
    requires id !in adds && 4 <= id && id % 2 == 0
    ensures FieldAbsent(b, |b| - off, id)
  {
    OffsetFound(b, |b| - off, objectSize, Slots(locs, off, n), id);
    if id < 2 * n + 4 { SlotEmpty(locs, off, n, (id - 4) / 2); }
  }

  lemma OffsetOfAdded(b: Bytes, off: nat, objectSize: voffset, n: nat, locs: seq<FieldLoc>, adds: map<nat, Added>,
      id: nat)
    requires 4 <= off <= |b| && IdsInRange(locs, off, n) && LocsMatch(locs, adds)
    requires 2 * n + 4 < 0x1_0000
    requires ImageAt(b, GetVTable(b, |b| - off), VTableImage(objectSize, Slots(locs, off, n)))
    requires id in adds && 4 <= id < 2 * n + 4 && id % 2 == 0
    ensures adds[id].off < off && OffsetReadable(b, |b| - off, id)
    ensures GetOptionalFieldOffset(b, |b| - off, id) == if adds[id].off == 0 then 0 else off - adds[id].off
  {
    OffsetFound(b, |b| - off, objectSize, Slots(locs, off, n), id);
    SlotOfAdded(locs, adds, off, n, id);
  }

  lemma AddedFound(b: Bytes, off: nat, objectSize: voffset, n: nat, locs: seq<FieldLoc>, adds: map<nat, Added>, id: nat)
    requires 4 <= off <= |b| && IdsInRange(locs, off, n) && LocsMatch(locs, adds)
    requires 2 * n + 4 < 0x1_0000
    requires ImageAt(b, GetVTable(b, |b| - off), VTableImage(objectSize, Slots(locs, off, n)))
    requires id in adds && AddIn(b, n, id, adds[id])
    ensures FieldOk(b, |b| - off, id, adds[id])
  {
    OffsetOfAdded(b, off, objectSize, n, locs, adds, id);
    FieldFromOffset(b, off, id, adds[id]);
  }

  lemma FieldFromOffset(b: Bytes, off: nat, id: nat, a: Added)
    requires a.off < off <= |b| && AddStored(b, a) && OffsetReadable(b, |b| - off, id)
    requires GetOptionalFieldOffset(b, |b| - off, id) == if a.off == 0 then 0 else off - a.off
    ensures FieldOk(b, |b| - off, id, a)
  {
  }

  /** An addition is skipped exactly if it equals its default and that is not forced, and otherwise stored in b. */
  ghost predicate AddStored(b: Bytes, a: Added) {
    if EqualsDefault(a) && !a.forced then a.off == 0
    else 0 < a.off && a.size <= a.off <= |b| && ReadScalar(b, |b| - a.off, a.size) == a.value
  }

  ghost predicate AddIn(b: Bytes, n: nat, id: nat, a: Added) {
    4 <= id < 2 * n + 4 && id % 2 == 0 && AddStored(b, a)
  }

  lemma AddShift(pre: Bytes, b: Bytes, a: Added)
    requires AddStored(b, a)
    ensures AddStored(pre + b, a)
  {
    if a.off != 0 { ReadShift(pre, b, |b| - a.off, a.size); }
  }
}
