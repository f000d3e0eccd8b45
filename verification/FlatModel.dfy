/** FlatBufferBuilder as a state machine: what each operation does to the builder's state, what every state reached
    by a run satisfies, and what readers then find. The class in FlatBuilder.dfy is proved to take these steps. */
module FlatModel {
  import opened FlatBase
  import opened FlatReader
  import opened FlatFormat
  import opened FlatStrings

  datatype Option<T> = None | Some(value: T)

  /** FLATBUFFERS_MAX_ALIGNMENT. */
  const MAX_ALIGNMENT: nat := 16

  datatype State = State(
    bytes: Bytes,
    offsetbuf: seq<FieldLoc>,
    nested: bool,
    finished: bool,
    vtables: seq<nat>,
    minalign: nat,
    forceDefaults: bool,
    dedupVtables: bool,
    stringPool: seq<nat>)

  const INIT := State([], [], false, false, [], 1, false, true, [])

  // ----- steps

  predicate Scalar(size: nat) {
    IsPow2(size) && size <= MAX_ALIGNMENT
  }

  function Max(a: nat, b: nat): nat {
    if a > b then a else b
  }

  predicate Room(s: State, n: nat) {
    |s.bytes| + n < MAX_BUFFER_SIZE
  }

  ghost function PaddingOf(s: State, extra: nat, size: nat): nat
    requires Room(s, 0) && extra <= MAX_BUFFER_SIZE && Scalar(size)
  {
    LeastPadding(|s.bytes| + extra, size)
  }

  /** b ends in a. */
  predicate Extends(a: Bytes, b: Bytes) {
    |a| <= |b| && b[|b| - |a|..] == a
  }

  function Push(s: State, bytes: Bytes): State {
    s.(bytes := bytes + s.bytes)
  }

  ghost function Align(s: State, size: nat): State
    requires Room(s, 0) && Scalar(size)
  {
    Push(s, Zeros(PaddingOf(s, 0, size))).(minalign := Max(size, s.minalign))
  }

  ghost function PushElement(s: State, value: nat, size: nat): State
    requires Room(s, 0) && Scalar(size)
  {
    Push(Align(s, size), ToLE(value, size))
  }

  /** ReferTo's result once the buffer has been aligned. */
  function Reference(s: State, off: nat): int {
    |s.bytes| - off + 4
  }

  function StartTable(s: State): State {
    s.(nested := true)
  }

  /** The bits without the sign: 0 for both zeros, above the pattern of infinity for a NaN. */
  function Magnitude(size: nat, x: nat): nat {
    var sign := if size == 4 then 0x8000_0000 else 0x8000_0000_0000_0000;
    if x >= sign then x - sign else x
  }

  function Infinity(size: nat): nat {
    if size == 4 then 0x7F80_0000 else 0x7FF0_0000_0000_0000
  }

  /** e == def in the type of the field: for a float the two zeros are equal and a NaN is not even equal to itself. */
  predicate SameScalar(kind: Kind, size: nat, x: nat, y: nat) {
    if kind.Integer? then x == y else
      && Magnitude(size, x) <= Infinity(size) && Magnitude(size, y) <= Infinity(size)
      && (x == y || (Magnitude(size, x) == 0 && Magnitude(size, y) == 0))
  }

  predicate Skipped(s: State, kind: Kind, e: nat, def: nat, size: nat) {
    SameScalar(kind, size, e, def) && !s.forceDefaults
  }

  ghost function AddElement(s: State, field: nat, kind: Kind, e: nat, def: nat, size: nat): State
    requires Room(s, 0) && Scalar(size)
  {
    if Skipped(s, kind, e, def, size) then s else
      var t := PushElement(s, e, size);
      t.(offsetbuf := s.offsetbuf + [FieldLoc(|t.bytes|, field)])
  }

  ghost function AddOffset(s: State, field: nat, off: nat): State
    requires Room(s, 8) && off <= |s.bytes|
  {
    if off == 0 then s else
      AlignRoom(s, 4);
      var a := Align(s, 4);
      AddElement(a, field, Integer, Reference(a, off), 0, 4)
  }

  lemma AlignRoom(s: State, size: nat)
    requires Room(s, 0) && Scalar(size)
    ensures PaddingOf(s, 0, size) < size
    ensures |Align(s, size).bytes| == |s.bytes| + PaddingOf(s, 0, size) && Aligned(|Align(s, size).bytes|, size)
    ensures Aligned(|s.bytes|, size) ==> PaddingOf(s, 0, size) == 0
  {
    hide LeastPadding;
    LeastPaddingAligns(|s.bytes|, size);
    if Aligned(|s.bytes|, size) { LeastPaddingLeast(|s.bytes|, size, |s.bytes|); }
  }

  /** The first remembered vtable with exactly these bytes. */
  function FindVTable(b: Bytes, vtables: seq<nat>, img: Bytes): (r: Option<nat>)
    ensures r.Some? ==> r.value in vtables && VTableFits(b, r.value) && VTableBytes(b, r.value) == img
    ensures r.None? ==> forall v <- vtables :: VTableFits(b, v) ==> VTableBytes(b, v) != img
  {
    if vtables == [] then None
    else if VTableFits(b, vtables[0]) && VTableBytes(b, vtables[0]) == img then Some(vtables[0])
    else FindVTable(b, vtables[1..], img)
  }

  /** What EndTable asks of its caller: the asserts of its body, ids inside the vtable, a vtable size that fits. */
  ghost predicate CanEndTable(s: State, start: nat, n: nat) {
    && s.nested && Room(s, 2 * n + 12) && 2 * n + 4 < 0x1_0000
    && start <= |s.bytes| && TableOffset(s) < start + 0x1_0000
    && (forall i | 0 <= i < |s.offsetbuf| ::
          4 <= s.offsetbuf[i].id < 2 * n + 4 && s.offsetbuf[i].id % 2 == 0 && start < s.offsetbuf[i].off <= |s.bytes|)
    && (forall i, j | 0 <= i < j < |s.offsetbuf| :: s.offsetbuf[i].id != s.offsetbuf[j].id)
  }

  /** Distance from the end of the word that EndTable starts with: the finished table. */
  ghost function TableOffset(s: State): nat
    requires Room(s, 0)
  {
    |s.bytes| + PaddingOf(s, 0, 4) + 4
  }

  ghost function NewVTable(s: State, start: nat, n: nat): Bytes
    requires CanEndTable(s, start, n)
  {
    AlignRoom(s, 4);
    var table := TableOffset(s);
    VTableImage(table - start, Slots(s.offsetbuf, table, n))
  }

  /** EndTable: the table's first word refers to an equal vtable remembered earlier if there is one and sharing is
      on, and otherwise to a new vtable right in front of it, which is then remembered. */
  ghost function EndTable(s: State, start: nat, n: nat): State
    requires CanEndTable(s, start, n)
  {
    var t := Push(Align(s, 4), EndPrefix(s, start, n)).(offsetbuf := [], nested := false);
    if VTableToShare(s, NewVTable(s, start, n)).Some? then t else t.(vtables := s.vtables + [|t.bytes|])
  }

  /** What EndTable leaves in front of the aligned buffer. */
  ghost function EndPrefix(s: State, start: nat, n: nat): Bytes
    requires CanEndTable(s, start, n)
  {
    AlignRoom(s, 4);
    var img := NewVTable(s, start, n);
    match VTableToShare(s, img)
    case Some(v) => LE32(EncodeSigned32(v - TableOffset(s)))
    case None => img + LE32(|img|)
  }

  ghost function VTableToShare(s: State, img: Bytes): (r: Option<nat>)
    ensures r.Some? ==> VTableFits(s.bytes, r.value) && VTableBytes(s.bytes, r.value) == img
  {
    if s.dedupVtables then FindVTable(s.bytes, s.vtables, img) else None
  }

  ghost function CreateString(s: State, text: Bytes): State
    requires Room(s, |text| + 12)
  {
    StringRoom(s, |text|);
    var padded := Push(s, Zeros(PaddingOf(s, |text| + 1, 4)));
    PushElement(Push(Push(padded, Zeros(1)), text), |text|, 4)
  }

  lemma StringRoom(s: State, n: nat)
    requires Room(s, n + 12)
    ensures PaddingOf(s, n + 1, 4) < 4 && Aligned(|s.bytes| + PaddingOf(s, n + 1, 4) + n + 1, 4)
  {
    LeastPaddingAligns(|s.bytes| + n + 1, 4);
  }

  predicate PoolOk(s: State) {
    AllStrings(s.bytes, s.stringPool)
  }

  /** CreateSharedString: an equal pooled string is reused and the new copy popped off again; otherwise the new
      string enters the pool. Returns the new state and the string's distance from the end. */
  ghost function CreateSharedString(s: State, text: Bytes): (State, nat)
    requires Room(s, |text| + 12) && PoolOk(s)
  {
    var c := CreateString(s, text);
    var keys := Keys(s.bytes, s.stringPool);
    var k := LowerBound(keys, CStr(text));
    if k < |keys| && keys[k] == CStr(text)
    then (s.(minalign := c.minalign), s.stringPool[k])
    else (c.(stringPool := s.stringPool[..k] + [|c.bytes|] + s.stringPool[k..]), |c.bytes|)
  }

  predicate CanFinish(s: State, root: nat, identifier: Option<Bytes>) {
    !s.nested && Room(s, 40) && Scalar(s.minalign) && 0 < root <= |s.bytes|
    && (identifier.Some? ==> |identifier.value| == 4)
  }

  function HeaderSize(identifier: Option<Bytes>, sizePrefix: bool): (n: nat)
    ensures n == 4 || n == 8 || n == 12
  {
    (if sizePrefix then 4 else 0) + 4 + (if identifier.Some? then 4 else 0)
  }

  /** Finish up to where the buffer is aligned for the root reference. */
  ghost function Headed(s: State, identifier: Option<Bytes>, sizePrefix: bool): (a: State)
    requires Room(s, 40) && Scalar(s.minalign) && (identifier.Some? ==> |identifier.value| == 4)
    ensures Room(a, 20) && |s.bytes| <= |a.bytes|
  {
    var header := HeaderSize(identifier, sizePrefix);
    LeastPaddingAligns(|s.bytes| + header, s.minalign);
    var padded := Push(s, Zeros(PaddingOf(s, header, s.minalign)));
    if identifier.Some? then Push(padded, identifier.value) else padded
  }

  ghost function BeforeRoot(s: State, root: nat, identifier: Option<Bytes>, sizePrefix: bool): (a: State)
    requires CanFinish(s, root, identifier)
    ensures Room(a, 16) && Aligned(|a.bytes|, 4) && root <= |a.bytes|
  {
    AlignRoom(Headed(s, identifier, sizePrefix), 4);
    Align(Headed(s, identifier, sizePrefix), 4)
  }

  ghost function Finish(s: State, root: nat, identifier: Option<Bytes>, sizePrefix: bool): State
    requires CanFinish(s, root, identifier)
  {
    var a := BeforeRoot(s, root, identifier, sizePrefix);
    AlignRoom(a, 4);
    var rooted := PushElement(a, Reference(a, root), 4);
    var r := if sizePrefix then PushElement(rooted, |rooted.bytes|, 4) else rooted;
    r.(finished := true)
  }
}
