/** Runs of the builder: an invariant kept by every operation, and what it means for whoever reads the buffer. */
module FlatRuns {
  import opened Arithmetic
  import opened FlatBase
  import opened FlatReader
  import opened FlatFormat
  import opened FlatStrings
  import opened FlatModel

  /** A scalar written by PushElement: its distance from the end and its size. */
  datatype Written = Written(off: nat, size: nat)

  /** One CreateSharedString call since the last Clear and what it returned. */
  datatype Shared = Shared(text: Bytes, off: nat)

  /** What has been asked of the builder since the last Clear. */
  datatype Log = Log(
    start: nat,                           // where the table under construction was started
    adds: map<nat, Added>,                // what was added to it
    tables: map<nat, map<nat, Added>>,    // finished tables by distance from the end
    strings: map<nat, Bytes>,
    shared: seq<Shared>,
    scalars: set<Written>,
    alwaysDedup: bool)                    // no table was finished with sharing switched off

  const NO_LOG := Log(0, map[], map[], map[], [], {}, true)

  datatype Op =
    | StartTableOp
    | AddElementOp(field: nat, kind: Kind, e: nat, def: nat, size: nat)
    | AddOffsetOp(field: nat, off: nat)
    | EndTableOp(numFields: nat)
    | StringOp(text: Bytes)
    | SharedStringOp(text: Bytes)
    | FinishOp(root: nat, identifier: Option<Bytes>, sizePrefix: bool)
    | ForceDefaultsOp(fd: bool)
    | DedupVtablesOp(dedup: bool)
    | ClearOp

  // ----- the invariant

  ghost predicate VTablesDistinct(b: Bytes, vtables: seq<nat>)
    requires forall v <- vtables :: VTableFits(b, v)
  {
    forall i, j | 0 <= i < j < |vtables| :: VTableBytes(b, vtables[i]) != VTableBytes(b, vtables[j])
  }

  /** The parts that look at the bytes. Each is unaffected by writes in front. */
  ghost predicate TablesOk(b: Bytes, tables: map<nat, map<nat, Added>>) {
    forall off <- tables :: TableOk(b, off, tables[off])
  }

  ghost predicate StringsOk(b: Bytes, strings: map<nat, Bytes>) {
    forall off <- strings :: StringOk(b, off, strings[off])
  }

  ghost predicate VTablesOk(b: Bytes, vtables: seq<nat>, distinct: bool) {
    && (forall v <- vtables :: VTableFits(b, v))
    && (distinct ==> VTablesDistinct(b, vtables))
  }

  ghost predicate SharedOk(b: Bytes, pool: seq<nat>, shared: seq<Shared>) {
    && PoolSorted(b, pool)
    && (forall i | 0 <= i < |shared| :: shared[i].off in pool && Key(b, shared[i].off) == CStr(shared[i].text))
    && (forall x <- pool :: Shared(TextOf(b, x), x) in shared)
  }

  ghost predicate AddsOk(b: Bytes, start: nat, adds: map<nat, Added>) {
    forall id <- adds :: 4 <= id && id % 2 == 0 && AddStored(b, adds[id])
      && (adds[id].off != 0 ==> start < adds[id].off)
  }

  /** Written scalars are aligned from the end of the buffer, and the tracked alignment covers them. */
  ghost predicate ScalarsOk(size: nat, minalign: nat, scalars: set<Written>) {
    && Scalar(minalign)
    && forall w <- scalars :: Scalar(w.size) && w.size <= minalign && w.off <= size && Aligned(w.off, w.size)
  }

  ghost predicate FieldsWritten(adds: map<nat, Added>, scalars: set<Written>) {
    forall id <- adds :: adds[id].off != 0 ==> Written(adds[id].off, adds[id].size) in scalars
  }

  ghost predicate FieldsOk(tables: map<nat, map<nat, Added>>, scalars: set<Written>) {
    forall off <- tables :: FieldsWritten(tables[off], scalars)
  }

  /** The table under construction, if there is one. */
  ghost predicate UnfinishedOk(s: State, log: Log) {
    if s.nested
    then log.start <= |s.bytes| && LocsMatch(s.offsetbuf, log.adds) && AddsOk(s.bytes, log.start, log.adds)
         && FieldsWritten(log.adds, log.scalars)
    else s.offsetbuf == []
  }

  ghost predicate Good(s: State, log: Log) {
    && Room(s, 0)
    && TablesOk(s.bytes, log.tables)
    && StringsOk(s.bytes, log.strings)
    && VTablesOk(s.bytes, s.vtables, log.alwaysDedup)
    && SharedOk(s.bytes, s.stringPool, log.shared)
    && ScalarsOk(|s.bytes|, s.minalign, log.scalars)
    && FieldsOk(log.tables, log.scalars)
    && (log.tables != map[] ==> s.minalign >= 4)
    && UnfinishedOk(s, log)
  }

  lemma TablesShift(pre: Bytes, b: Bytes, tables: map<nat, map<nat, Added>>)
    requires TablesOk(b, tables)
    ensures TablesOk(pre + b, tables)
  {
    forall off <- tables ensures TableOk(pre + b, off, tables[off]) { TableShift(pre, b, off, tables[off]); }
  }

  lemma StringsShift(pre: Bytes, b: Bytes, strings: map<nat, Bytes>)
    requires StringsOk(b, strings)
    ensures StringsOk(pre + b, strings)
  {
    forall off <- strings ensures StringOk(pre + b, off, strings[off]) { StringShift(pre, b, off); }
  }

  lemma VTablesShift(pre: Bytes, b: Bytes, vtables: seq<nat>, distinct: bool)
    requires VTablesOk(b, vtables, distinct)
    ensures VTablesOk(pre + b, vtables, distinct)
    ensures forall v <- vtables :: VTableBytes(pre + b, v) == VTableBytes(b, v)
  {
    forall v <- vtables ensures VTableFits(pre + b, v) && VTableBytes(pre + b, v) == VTableBytes(b, v) {
      VTableShift(pre, b, v);
    }
  }

  lemma SharedShift(pre: Bytes, b: Bytes, pool: seq<nat>, shared: seq<Shared>)
    requires SharedOk(b, pool, shared)
    ensures SharedOk(pre + b, pool, shared)
  {
    PoolShift(pre, b, pool);
    forall i | 0 <= i < |shared|
      ensures Key(pre + b, shared[i].off) == CStr(shared[i].text)
    {
      StringShift(pre, b, shared[i].off);
    }
    forall x <- pool
      ensures Shared(TextOf(pre + b, x), x) in shared
    {
      StringShift(pre, b, x);
    }
  }

  lemma AddsShift(pre: Bytes, b: Bytes, start: nat, adds: map<nat, Added>)
    requires AddsOk(b, start, adds)
    ensures AddsOk(pre + b, start, adds)
  {
    forall id <- adds ensures AddStored(pre + b, adds[id]) { AddShift(pre, b, adds[id]); }
  }

  lemma UnfinishedShift(s: State, log: Log, pre: Bytes)
    requires UnfinishedOk(s, log)
    ensures UnfinishedOk(Push(s, pre), log)
  {
    hide LocsMatch, FieldsWritten;
    if s.nested { AddsShift(pre, s.bytes, log.start, log.adds); }
  }

  /** Pushing bytes in front disturbs nothing. */
  lemma GoodPush(s: State, log: Log, pre: Bytes)
    requires Good(s, log) && Room(s, |pre|)
    ensures Good(Push(s, pre), log)
  {
    hide TablesOk, StringsOk, VTablesOk, SharedOk, FieldsOk, UnfinishedOk;
    TablesShift(pre, s.bytes, log.tables);
    StringsShift(pre, s.bytes, log.strings);
    VTablesShift(pre, s.bytes, s.vtables, log.alwaysDedup);
    SharedShift(pre, s.bytes, s.stringPool, log.shared);
    UnfinishedShift(s, log, pre);
  }

  lemma FieldsGrown(tables: map<nat, map<nat, Added>>, scalars: set<Written>, scalars': set<Written>)
    requires FieldsOk(tables, scalars) && scalars <= scalars'
    ensures FieldsOk(tables, scalars')
  {
    forall off <- tables ensures FieldsWritten(tables[off], scalars') {
      assert FieldsWritten(tables[off], scalars);
    }
  }

  /** More scalars may be recorded and a larger alignment tracked, as long as they fit together. */
  lemma Rescaled(s: State, log: Log, minalign: nat, scalars: set<Written>)
    requires Good(s, log) && log.scalars <= scalars && ScalarsOk(|s.bytes|, minalign, scalars) && s.minalign <= minalign
    ensures Good(s.(minalign := minalign), log.(scalars := scalars))
  {
    hide TablesOk, StringsOk, VTablesOk, SharedOk, ScalarsOk, FieldsOk, LocsMatch, AddsOk;
    FieldsGrown(log.tables, log.scalars, scalars);
  }

  lemma ScalarsTracked(size: nat, minalign: nat, scalars: set<Written>, w: Written)
    requires ScalarsOk(size, minalign, scalars) && Scalar(w.size) && w.off <= size && Aligned(w.off, w.size)
    ensures ScalarsOk(size, Max(w.size, minalign), scalars + {w})
  {
    hide Aligned;
  }

  /** A scalar's bytes pushed onto an aligned buffer may be recorded. */
  lemma GoodScalarPush(s: State, log: Log, pre: Bytes, size: nat)
    requires Good(s, log) && Room(s, |pre|) && Scalar(size) && Aligned(|s.bytes| + |pre|, size)
    ensures Good(s.(bytes := pre + s.bytes, minalign := Max(size, s.minalign)),
                 log.(scalars := log.scalars + {Written(|s.bytes| + |pre|, size)}))
  {
    hide TablesOk, StringsOk, VTablesOk, SharedOk, ScalarsOk, FieldsOk, UnfinishedOk, Aligned, Scalar;
    GoodPush(s, log, pre);
    ScalarsTracked(|s.bytes| + |pre|, s.minalign, log.scalars, Written(|s.bytes| + |pre|, size));
    Rescaled(Push(s, pre), log, Max(size, s.minalign), log.scalars + {Written(|s.bytes| + |pre|, size)});
  }

  lemma GoodAlign(s: State, log: Log, size: nat)
    requires Good(s, log) && Scalar(size) && Room(s, size)
    ensures Good(Align(s, size), log)
  {
    hide LeastPadding, TablesOk, StringsOk, VTablesOk, SharedOk, FieldsOk, UnfinishedOk, Aligned;
    AlignRoom(s, size);
    var t := Push(s, Zeros(PaddingOf(s, 0, size)));
    GoodPush(s, log, Zeros(PaddingOf(s, 0, size)));
    Rescaled(t, log, Max(size, s.minalign), log.scalars);
  }

  lemma PushElementParts(s: State, value: nat, size: nat)
    requires Scalar(size) && Room(s, 2 * size)
    ensures var t := PushElement(s, value, size);
      && t == s.(bytes := t.bytes, minalign := Max(size, s.minalign))
      && t.bytes == (ToLE(value, size) + Zeros(PaddingOf(s, 0, size))) + s.bytes
      && |t.bytes| == |s.bytes| + PaddingOf(s, 0, size) + size
      && PaddingOf(s, 0, size) < size
      && Aligned(|t.bytes|, size)
  {
    hide LeastPadding, ToLE, Aligned;
    AlignRoom(s, size);
    NextAligned(|Align(s, size).bytes|, size);
  }

  /** A pushed scalar is aligned, reads back, and may be recorded. */
  lemma GoodPushElement(s: State, log: Log, value: nat, size: nat)
    requires Good(s, log) && Scalar(size) && Room(s, 2 * size)
    ensures var t := PushElement(s, value, size);
      && t == s.(bytes := t.bytes, minalign := Max(size, s.minalign))
      && |t.bytes| == |s.bytes| + PaddingOf(s, 0, size) + size
      && Good(t, log.(scalars := log.scalars + {Written(|t.bytes|, size)}))
      && (value < Pow256(size) ==> ReadScalar(t.bytes, 0, size) == value)
  {
    hide LeastPadding, Good, Scalar, Aligned, PushElement, ToLE, PaddingOf;
    PushElementParts(s, value, size);
    GoodScalarPush(s, log, ToLE(value, size) + Zeros(PaddingOf(s, 0, size)), size);
    var t := PushElement(s, value, size);
    if value < Pow256(size) {
      FromToLE(value, size);
      assert t.bytes[0..size] == ToLE(value, size);
    }
  }

  lemma NextAligned(x: nat, size: nat)
    requires Aligned(x, size)
    ensures Aligned(x + size, size)
  {
    ModAddSelf(x, size);
  }

  // ----- one step of a run

  /** The operation meets the asserts of its body and what its parameters mean. */
  ghost predicate Allowed(s: State, log: Log, op: Op) {
    match op
    case StartTableOp => !s.nested
    case AddElementOp(field, _, e, def, size) =>
      s.nested && 4 <= field && field % 2 == 0 && field !in log.adds && Scalar(size) && e < Pow256(size)
        && Room(s, 2 * size)
    case AddOffsetOp(field, off) =>
      s.nested && 4 <= field && field % 2 == 0 && field !in log.adds && off <= |s.bytes| && Room(s, 12)
    case EndTableOp(n) =>
      s.nested && 2 * n + 4 < 0x1_0000 && Room(s, 2 * n + 12) && TableOffset(s) < log.start + 0x1_0000
      && forall id <- log.adds :: id < 2 * n + 4
    case StringOp(text) => !s.nested && Room(s, |text| + 12)
    case SharedStringOp(text) => !s.nested && Room(s, |text| + 12)
    case FinishOp(root, identifier, _) => CanFinish(s, root, identifier)
    case ForceDefaultsOp(_) => true
    case DedupVtablesOp(_) => true
    case ClearOp => true
  }

  /** The new state, and the record of what was asked. */
  ghost function Step(s: State, log: Log, op: Op): (State, Log)
    requires Good(s, log) && Allowed(s, log, op)
  {
    match op
    case StartTableOp => (StartTable(s), log.(start := |s.bytes|, adds := map[]))
    case AddElementOp(field, kind, e, def, size) =>
      var t := AddElement(s, field, kind, e, def, size);
      (t, Noted(s, log, t, field, Addition(s, t, kind, e, def, size)))
    case AddOffsetOp(field, off) =>
      if off == 0 then (s, log) else
        var t := AddOffset(s, field, off);
        (t, Noted(s, log, t, field, Added(Integer, 4, |t.bytes| - off, 0, s.forceDefaults, |t.bytes|)))
    case EndTableOp(n) =>
      EndTableAllowed(s, log, n);
      (EndTable(s, log.start, n), Ended(s, log, n))
    case StringOp(text) =>
      var t := CreateString(s, text);
      (t, Stringed(log, |t.bytes|, text))
    case SharedStringOp(text) =>
      var (t, off) := CreateSharedString(s, text);
      (t, SharedLogged(s, log, t, off, text))
    case FinishOp(root, identifier, sizePrefix) =>
      var t := Finish(s, root, identifier, sizePrefix);
      (t, log.(scalars := log.scalars + HeaderWords(t, sizePrefix)))
    case ForceDefaultsOp(fd) => (s.(forceDefaults := fd), log)
    case DedupVtablesOp(dedup) => (s.(dedupVtables := dedup), log)
    case ClearOp => (INIT.(forceDefaults := s.forceDefaults, dedupVtables := s.dedupVtables), NO_LOG)
  }

  /** The record of an AddElement call. */
  function Addition(s: State, t: State, kind: Kind, e: nat, def: nat, size: nat): Added {
    Added(kind, size, e, def, s.forceDefaults, if Skipped(s, kind, e, def, size) then 0 else |t.bytes|)
  }

  function Noted(s: State, log: Log, t: State, field: nat, a: Added): Log {
    log.(adds := log.adds[field := a],
         scalars := if a.off == 0 then log.scalars else log.scalars + {Written(a.off, a.size)})
  }

  function Stringed(log: Log, off: nat, text: Bytes): Log {
    log.(strings := log.strings[off := text], scalars := log.scalars + {Written(off, 4)})
  }

  function SharedLogged(s: State, log: Log, t: State, off: nat, text: Bytes): Log {
    (if |t.bytes| == |s.bytes| then log else Stringed(log, off, text)).(shared := log.shared + [Shared(text, off)])
  }

  function HeaderWords(t: State, sizePrefix: bool): set<Written> {
    if sizePrefix && |t.bytes| >= 4 then {Written(|t.bytes|, 4), Written(|t.bytes| - 4, 4)} else {Written(|t.bytes|, 4)}
  }

  /** The scalars of a finished table that stay: its first word, and the two words of a vtable it does not share. */
  ghost function Ended(s: State, log: Log, n: nat): Log
    requires CanEndTable(s, log.start, n)
  {
    var table := TableOffset(s);
    var t := EndTable(s, log.start, n);
    log.(tables := log.tables[table := log.adds],
         alwaysDedup := log.alwaysDedup && s.dedupVtables,
         scalars := log.scalars + {Written(table, 4)} +
           (if |t.bytes| == table then {} else {Written(table + 2 * n + 2, 2), Written(table + 2 * n + 4, 2)}))
  }

  lemma EndTableAllowed(s: State, log: Log, n: nat)
    requires Good(s, log) && Allowed(s, log, EndTableOp(n))
    ensures CanEndTable(s, log.start, n)
  {
    hide TablesOk, StringsOk, VTablesOk, SharedOk, ScalarsOk, FieldsOk;
    forall i | 0 <= i < |s.offsetbuf|
      ensures var l := s.offsetbuf[i]; 4 <= l.id < 2 * n + 4 && l.id % 2 == 0 && log.start < l.off <= |s.bytes|
    {
      assert AddStored(s.bytes, log.adds[s.offsetbuf[i].id]);
    }
  }

  // ----- every step keeps the invariant

  lemma LocAdded(locs: seq<FieldLoc>, adds: map<nat, Added>, field: nat, a: Added)
    requires LocsMatch(locs, adds) && field !in adds
    ensures LocsMatch(if a.off == 0 then locs else locs + [FieldLoc(a.off, field)], adds[field := a])
  {
    var locs', adds' := if a.off == 0 then locs else locs + [FieldLoc(a.off, field)], adds[field := a];
    forall id <- adds' | adds'[id].off != 0
      ensures exists i :: 0 <= i < |locs'| && locs'[i].id == id
    {
      if id == field {
        assert locs'[|locs|].id == id;
      } else {
        var i :| 0 <= i < |locs| && locs[i].id == id;
        assert locs'[i].id == id;
      }
    }
  }

  lemma AddNoted(s: State, log: Log, t: State, field: nat, a: Added)
    requires Good(t, log.(scalars := Noted(s, log, t, field, a).scalars)) && t.nested
    requires 4 <= field && field % 2 == 0 && field !in log.adds && AddStored(t.bytes, a)
      && (a.off != 0 ==> log.start < a.off)
    ensures Good(t.(offsetbuf := if a.off == 0 then t.offsetbuf else t.offsetbuf + [FieldLoc(a.off, field)]),
                 Noted(s, log, t, field, a))
  {
    hide TablesOk, StringsOk, VTablesOk, SharedOk, ScalarsOk, FieldsOk, LocsMatch, AddStored;
    LocAdded(t.offsetbuf, log.adds, field, a);
  }

  /** The comparison of AddElement, on bits. */
  lemma SkippedIs(s: State, a: Added)
    ensures Skipped(s, a.kind, a.value, a.def, a.size) <==> EqualsDefault(a) && !s.forceDefaults
  {
  }

  lemma GoodAddElement(s: State, log: Log, field: nat, kind: Kind, e: nat, def: nat, size: nat)
    requires Good(s, log) && Allowed(s, log, AddElementOp(field, kind, e, def, size))
    ensures var t := AddElement(s, field, kind, e, def, size);
      Good(t, Noted(s, log, t, field, Addition(s, t, kind, e, def, size)))
  {
    hide LeastPadding, PushElement, Scalar, SameScalar, TablesOk, StringsOk, VTablesOk, SharedOk, ScalarsOk, FieldsOk,
      LocsMatch, AddsOk;
    SkippedIs(s, Addition(s, AddElement(s, field, kind, e, def, size), kind, e, def, size));
    if Skipped(s, kind, e, def, size) {
      AddNoted(s, log, s, field, Added(kind, size, e, def, s.forceDefaults, 0));
    } else {
      GoodPushElement(s, log, e, size);
      var t := PushElement(s, e, size);
      PushElementParts(s, e, size);
      AddNoted(s, log, t, field, Added(kind, size, e, def, s.forceDefaults, |t.bytes|));
    }
  }

  lemma GoodAddOffset(s: State, log: Log, field: nat, off: nat)
    requires Good(s, log) && Allowed(s, log, AddOffsetOp(field, off)) && off != 0
    ensures |AddOffset(s, field, off).bytes| > off
    ensures var t := AddOffset(s, field, off);
      Good(t, Noted(s, log, t, field, Added(Integer, 4, |t.bytes| - off, 0, s.forceDefaults, |t.bytes|)))
  {
    hide LeastPadding, Good, AddElement;
    GoodAlign(s, log, 4);
    AlignRoom(s, 4);
    var a := Align(s, 4);
    Pow256Values();
    GoodAddElement(a, log, field, Integer, Reference(a, off), 0, 4);
    AddedSize(a, field, Reference(a, off), 4);
  }

  lemma AddedSize(a: State, field: nat, e: nat, size: nat)
    requires Room(a, 2 * size) && Scalar(size) && Aligned(|a.bytes|, size) && e > 0
    ensures |AddElement(a, field, Integer, e, 0, size).bytes| == |a.bytes| + size
  {
    hide LeastPadding;
    AlignRoom(a, size);
  }

  /** The scalars EndTable leaves behind are aligned. */
  lemma TableWordsAligned(table: nat, n: nat)
    requires Aligned(table, 4)
    ensures Aligned(table + 2 * n + 2, 2) && Aligned(table + 2 * n + 4, 2)
  {
  }

  lemma IdsReady(s: State, log: Log, n: nat)
    requires Good(s, log) && Allowed(s, log, EndTableOp(n))
    ensures CanEndTable(s, log.start, n)
    ensures var table := TableOffset(s);
      && Aligned(table, 4) && table <= |s.bytes| + 7 && table == |Align(s, 4).bytes| + 4
      && IdsInRange(s.offsetbuf, table, n)
      && NewVTable(s, log.start, n) == VTableImage(table - log.start, Slots(s.offsetbuf, table, n))
  {
    hide LeastPadding, Good;
    EndTableAllowed(s, log, n);
    AlignRoom(s, 4);
    NextAligned(|Align(s, 4).bytes|, 4);
  }

  /** A table word in front of older bytes that refers to a vtable among them. */
  lemma SharedVTableSeen(older: Bytes, gap: Bytes, v: nat, table: nat)
    requires VTableFits(older, v) && table == 4 + |gap| + |older| < MAX_BUFFER_SIZE
    ensures var b := LE32(EncodeSigned32(v - table)) + (gap + older);
      GetVTable(b, 0) == |b| - v && ImageAt(b, |b| - v, VTableBytes(older, v))
  {
    var word := LE32(EncodeSigned32(v - table));
    var b := word + (gap + older);
    assert b == (word + gap) + older;
    VTableShift(word + gap, older, v);
  }

  /** A table word that refers to the vtable right in front of it. */
  lemma NewVTableSeen(img: Bytes, rest: Bytes)
    requires |img| < 0x1_0000
    ensures var b := img + LE32(|img|) + rest;
      |b| - (4 + |rest|) == |img| && GetVTable(b, |img|) == 0 && ImageAt(b, 0, img)
  {
    var b, word := img + LE32(|img|) + rest, LE32(|img|);
    assert b[|img|] == word[0] && b[|img| + 1] == word[1] && b[|img| + 2] == word[2] && b[|img| + 3] == word[3];
    assert b[0..|img|] == img;
  }

  /** What EndTable has at hand when it links the table: rest are the bytes below the table word. */
  ghost predicate ReadyToLink(rest: Bytes, log: Log, table: nat, n: nat, locs: seq<FieldLoc>) {
    && table == |rest| + 4 < MAX_BUFFER_SIZE
    && 2 * n + 4 < 0x1_0000 && log.start < table < log.start + 0x1_0000
    && (forall id <- log.adds :: id < 2 * n + 4)
    && AddsOk(rest, log.start, log.adds) && LocsMatch(locs, log.adds)
    && IdsInRange(locs, table, n)
  }

  lemma LinkedTableOk(pre: Bytes, rest: Bytes, log: Log, table: nat, n: nat, locs: seq<FieldLoc>)
    requires ReadyToLink(rest, log, table, n, locs) && 4 <= |pre|
    requires ImageAt(pre + rest, GetVTable(pre + rest, |pre + rest| - table),
                     VTableImage(table - log.start, Slots(locs, table, n)))
    ensures TableOk(pre + rest, table, log.adds)
  {
    AddsShift(pre, rest, log.start, log.adds);
    TableFromVTable(pre + rest, table, table - log.start, n, locs, log.adds);
  }

  lemma SharedTableOk(older: Bytes, gap: Bytes, v: nat, log: Log, table: nat, n: nat, locs: seq<FieldLoc>)
    requires ReadyToLink(gap + older, log, table, n, locs) && VTableFits(older, v)
    requires VTableBytes(older, v) == VTableImage(table - log.start, Slots(locs, table, n))
    ensures TableOk(LE32(EncodeSigned32(v - table)) + (gap + older), table, log.adds)
  {
    var pre, rest := LE32(EncodeSigned32(v - table)), gap + older;
    SharedVTableSeen(older, gap, v, table);
    assert |pre + rest| == table;
    LinkedTableOk(pre, rest, log, table, n, locs);
  }

  lemma NewTableOk(rest: Bytes, log: Log, table: nat, n: nat, locs: seq<FieldLoc>)
    requires ReadyToLink(rest, log, table, n, locs)
    ensures var img := VTableImage(table - log.start, Slots(locs, table, n));
      TableOk(img + LE32(|img|) + rest, table, log.adds)
  {
    var img := VTableImage(table - log.start, Slots(locs, table, n));
    NewVTableSeen(img, rest);
    LinkedTableOk(img + LE32(|img|), rest, log, table, n, locs);
  }

  lemma ReadyAtEnd(s: State, log: Log, n: nat)
    requires Good(s, log) && Allowed(s, log, EndTableOp(n))
    ensures CanEndTable(s, log.start, n)
    ensures ReadyToLink(Zeros(PaddingOf(s, 0, 4)) + s.bytes, log, TableOffset(s), n, s.offsetbuf)
  {
    hide LeastPadding, TablesOk, StringsOk, VTablesOk, SharedOk, ScalarsOk, FieldsOk;
    IdsReady(s, log, n);
    GoodAlign(s, log, 4);
  }

  /** Whichever vtable it ends up with, the finished table is good. */
  lemma EndedTableOk(s: State, start: nat, log: Log, n: nat)
    requires CanEndTable(s, start, n) && start == log.start
    requires ReadyToLink(Zeros(PaddingOf(s, 0, 4)) + s.bytes, log, TableOffset(s), n, s.offsetbuf)
    ensures TableOk(EndTable(s, start, n).bytes, TableOffset(s), log.adds)
  {
    hide LeastPadding, ReadyToLink, TableOk, LE32, Slots, VTableImage, FindVTable, VTableFits, VTableBytes;
    var gap, table, img := Zeros(PaddingOf(s, 0, 4)), TableOffset(s), NewVTable(s, start, n);
    var shared := VTableToShare(s, img);
    if shared.Some? {
      SharedTableOk(s.bytes, gap, shared.value, log, table, n, s.offsetbuf);
    } else {
      NewTableOk(gap + s.bytes, log, table, n, s.offsetbuf);
    }
  }

  lemma SharedSize(older: Bytes, gap: Bytes, v: nat, table: nat, objectSize: voffset, slots: seq<voffset>)
    requires VTableFits(older, v) && table == 4 + |gap| + |older| < MAX_BUFFER_SIZE
    requires 2 * |slots| + 4 < 0x1_0000 && VTableBytes(older, v) == VTableImage(objectSize, slots)
    ensures TableSizeIs(LE32(EncodeSigned32(v - table)) + (gap + older), table, objectSize)
  {
    hide LE32, VTableFits, VTableBytes, VTableImage, ImageAt, GetVTable, ReadU16;
    SharedVTableSeen(older, gap, v, table);
    var b := LE32(EncodeSigned32(v - table)) + (gap + older);
    assert |b| == table;
    ImageTableSize(b, |b| - v, objectSize, slots);
  }

  lemma NewSize(rest: Bytes, table: nat, objectSize: voffset, slots: seq<voffset>)
    requires table == |rest| + 4 && 2 * |slots| + 4 < 0x1_0000
    ensures var img := VTableImage(objectSize, slots); TableSizeIs(img + LE32(|img|) + rest, table, objectSize)
  {
    hide LE32, VTableImage, ImageAt, GetVTable, ReadU16;
    var img := VTableImage(objectSize, slots);
    NewVTableSeen(img, rest);
    var b := img + LE32(|img|) + rest;
    assert |b| - table == |img|;
    ImageTableSize(b, 0, objectSize, slots);
  }

  /** Whichever vtable it ends up with, it has the table's size. */
  lemma EndedSize(s: State, start: nat, n: nat)
    requires CanEndTable(s, start, n)
    ensures start < TableOffset(s)
    ensures TableSizeIs(EndTable(s, start, n).bytes, TableOffset(s), TableOffset(s) - start)
  {
    hide LeastPadding, LE32, Slots, VTableImage, FindVTable, VTableFits, VTableBytes, TableSizeIs;
    AlignRoom(s, 4);
    var gap, table, img := Zeros(PaddingOf(s, 0, 4)), TableOffset(s), NewVTable(s, start, n);
    var shared := VTableToShare(s, img);
    if shared.Some? {
      SharedSize(s.bytes, gap, shared.value, table, table - start, Slots(s.offsetbuf, table, n));
    } else {
      NewSize(gap + s.bytes, table, table - start, Slots(s.offsetbuf, table, n));
    }
  }

  /** A vtable is shared exactly if sharing is on and a remembered one has the same bytes. */
  lemma SharedIff(s: State, start: nat, n: nat)
    requires CanEndTable(s, start, n) && forall v <- s.vtables :: VTableFits(s.bytes, v)
    ensures EndTable(s, start, n).vtables == s.vtables
            <==> s.dedupVtables && exists v <- s.vtables :: VTableBytes(s.bytes, v) == NewVTable(s, start, n)
  {
    hide LeastPadding, EndTable, NewVTable, VTableFits, VTableBytes;
    EndTableParts(s, start, n);
  }

  lemma EndTableParts(s: State, start: nat, n: nat)
    requires CanEndTable(s, start, n)
    ensures var t, img := EndTable(s, start, n), NewVTable(s, start, n);
      && t.bytes == EndPrefix(s, start, n) + Align(s, 4).bytes
      && |img| == 2 * n + 4
      && |EndPrefix(s, start, n)| == (if VTableToShare(s, img).Some? then 4 else 2 * n + 8)
      && (VTableToShare(s, img).Some? ==> t.vtables == s.vtables && |t.bytes| == TableOffset(s))
      && (VTableToShare(s, img).None? ==> t.vtables == s.vtables + [|t.bytes|])
      && (VTableToShare(s, img).None? ==> |t.bytes| == TableOffset(s) + 2 * n + 4 && t.bytes[..2 * n + 4] == img)
      && !t.nested && t.offsetbuf == [] && t.minalign == Max(4, s.minalign) && t.stringPool == s.stringPool
  {
    hide LeastPadding;
    AlignRoom(s, 4);
  }

  /** Remembering a vtable that is not among the remembered ones keeps them distinct. */
  lemma VTableRemembered(b: Bytes, vtables: seq<nat>, distinct: bool)
    requires VTablesOk(b, vtables, distinct) && VTableFits(b, |b|)
    requires distinct ==> forall v <- vtables :: VTableBytes(b, v) != VTableBytes(b, |b|)
    ensures VTablesOk(b, vtables + [|b|], distinct)
  {
  }

  /** The vtable at the front of the buffer reads as itself. */
  lemma FrontVTable(b: Bytes, objectSize: voffset, slots: seq<voffset>)
    requires 2 * |slots| + 4 < 0x1_0000 && 2 * |slots| + 4 <= |b|
    requires b[..2 * |slots| + 4] == VTableImage(objectSize, slots)
    ensures VTableFits(b, |b|) && VTableBytes(b, |b|) == VTableImage(objectSize, slots)
  {
    assert b[0..2 * |slots| + 4] == b[..2 * |slots| + 4];
    ImageSize(b, 0, objectSize, slots);
  }

  /** The remembered vtables after EndTable: when sharing is on, a new one differs from all remembered ones. */
  lemma EndedVTablesOk(s: State, start: nat, n: nat, distinct: bool)
    requires CanEndTable(s, start, n) && VTablesOk(s.bytes, s.vtables, distinct) && (distinct ==> s.dedupVtables)
    ensures var t := EndTable(s, start, n); VTablesOk(t.bytes, t.vtables, distinct)
  {
    hide LeastPadding, VTablesDistinct, VTableImage, Slots, LE32, EndTable, VTableFits, VTableBytes, EndPrefix;
    EndTableParts(s, start, n);
    AlignRoom(s, 4);
    EndedVTables(s.bytes, EndPrefix(s, start, n), Zeros(PaddingOf(s, 0, 4)), s.vtables, distinct,
                 VTableToShare(s, NewVTable(s, start, n)), TableOffset(s) - start,
                 Slots(s.offsetbuf, TableOffset(s), n));
  }

  lemma EndedVTables(b: Bytes, pre: Bytes, gap: Bytes, vtables: seq<nat>, distinct: bool, shared: Option<nat>,
                     objectSize: voffset, slots: seq<voffset>)
    requires VTablesOk(b, vtables, distinct) && 2 * |slots| + 4 < 0x1_0000
    requires distinct && shared.None? ==> forall v <- vtables :: VTableBytes(b, v) != VTableImage(objectSize, slots)
    requires shared.None? ==> |pre| >= 2 * |slots| + 4 && pre[..2 * |slots| + 4] == VTableImage(objectSize, slots)
    ensures var c := pre + (gap + b); VTablesOk(c, if shared.Some? then vtables else vtables + [|c|], distinct)
  {
    var c := pre + (gap + b);
    assert c == (pre + gap) + b;
    VTablesShift(pre + gap, b, vtables, distinct);
    if shared.None? {
      assert c[..2 * |slots| + 4] == pre[..2 * |slots| + 4];
      FrontVTable(c, objectSize, slots);
      VTableRemembered(c, vtables, distinct);
    }
  }

  lemma EndedScalarsOk(s: State, log: Log, n: nat)
    requires CanEndTable(s, log.start, n) && ScalarsOk(|s.bytes|, s.minalign, log.scalars)
    ensures var t := EndTable(s, log.start, n); ScalarsOk(|t.bytes|, t.minalign, Ended(s, log, n).scalars)
  {
    hide LeastPadding, ScalarsOk, EndTable, EndPrefix;
    EndTableParts(s, log.start, n);
    AlignRoom(s, 4);
    NextAligned(|Align(s, 4).bytes|, 4);
    TableWordsAligned(TableOffset(s), n);
    EndedScalars(|s.bytes|, |EndTable(s, log.start, n).bytes|, s.minalign, log.scalars, TableOffset(s), n);
  }

  lemma EndedScalars(before: nat, size: nat, minalign: nat, scalars: set<Written>, table: nat, n: nat)
    requires ScalarsOk(before, minalign, scalars) && before <= table <= size && Aligned(table, 4)
    requires size == table || size == table + 2 * n + 4
    ensures ScalarsOk(size, Max(4, minalign), scalars + {Written(table, 4)} +
              (if size == table then {} else {Written(table + 2 * n + 2, 2), Written(table + 2 * n + 4, 2)}))
  {
    TableWordsAligned(table, n);
    assert Scalar(4) && Scalar(2);
  }

  lemma EndedTablesOk(s: State, log: Log, n: nat)
    requires Good(s, log) && Allowed(s, log, EndTableOp(n))
    ensures CanEndTable(s, log.start, n)
    ensures TablesOk(EndTable(s, log.start, n).bytes, log.tables[TableOffset(s) := log.adds])
  {
    hide LeastPadding, TableOk, EndTable, EndPrefix, Align, TableOffset, StringsOk, VTablesOk, SharedOk, ScalarsOk,
      FieldsOk, UnfinishedOk;
    ReadyAtEnd(s, log, n);
    EndedTableOk(s, log.start, log, n);
    EndTableParts(s, log.start, n);
    AlignParts(s);
    var pre := EndPrefix(s, log.start, n) + Zeros(PaddingOf(s, 0, 4));
    assert EndTable(s, log.start, n).bytes == pre + s.bytes;
    TablesShift(pre, s.bytes, log.tables);
  }

  lemma AlignParts(s: State)
    requires Room(s, 0)
    ensures Align(s, 4).bytes == Zeros(PaddingOf(s, 0, 4)) + s.bytes && PaddingOf(s, 0, 4) < 4
  {
    AlignRoom(s, 4);
  }

  /** Invariant parts put together after a table was finished. */
  lemma GoodAfterTable(s: State, log: Log, pre: Bytes, t: State, log': Log, table: nat)
    requires Good(s, log) && s.nested && t.bytes == pre + s.bytes && Room(t, 0)
    requires !t.nested && t.offsetbuf == [] && t.stringPool == s.stringPool
    requires log' == log.(tables := log.tables[table := log.adds], scalars := log'.scalars,
      alwaysDedup := log'.alwaysDedup)
    requires log.scalars <= log'.scalars && t.minalign >= 4
    requires TablesOk(t.bytes, log'.tables) && VTablesOk(t.bytes, t.vtables, log'.alwaysDedup)
    requires ScalarsOk(|t.bytes|, t.minalign, log'.scalars)
    ensures Good(t, log')
  {
    hide TablesOk, StringsOk, VTablesOk, SharedOk, ScalarsOk, LocsMatch, AddsOk;
    StringsShift(pre, s.bytes, log.strings);
    SharedShift(pre, s.bytes, s.stringPool, log.shared);
    FieldsGrown(log.tables, log.scalars, log'.scalars);
    assert FieldsWritten(log.adds, log'.scalars);
  }

  lemma EndedScalarsGrow(s: State, log: Log, n: nat)
    requires CanEndTable(s, log.start, n)
    ensures log.scalars <= Ended(s, log, n).scalars
  {
    hide LeastPadding, EndTable, TableOffset;
  }

  lemma GoodEndTable(s: State, log: Log, n: nat)
    requires Good(s, log) && Allowed(s, log, EndTableOp(n))
    ensures CanEndTable(s, log.start, n)
    ensures Good(EndTable(s, log.start, n), Ended(s, log, n))
  {
    hide LeastPadding, TablesOk, StringsOk, VTablesOk, SharedOk, ScalarsOk, FieldsOk, EndTable, EndPrefix, Align,
      TableOffset, LocsMatch, AddsOk;
    EndedTablesOk(s, log, n);
    VTablesWeaken(s.bytes, s.vtables, log.alwaysDedup, log.alwaysDedup && s.dedupVtables);
    EndedVTablesOk(s, log.start, n, log.alwaysDedup && s.dedupVtables);
    EndedScalarsOk(s, log, n);
    EndedScalarsGrow(s, log, n);
    EndTableParts(s, log.start, n);
    EndTableRoom(s, log.start, n);
    AlignParts(s);
    var pre, gap := EndPrefix(s, log.start, n), Zeros(PaddingOf(s, 0, 4));
    assert pre + (gap + s.bytes) == (pre + gap) + s.bytes;
    GoodAfterTable(s, log, pre + gap, EndTable(s, log.start, n), Ended(s, log, n), TableOffset(s));
  }

  lemma VTablesWeaken(b: Bytes, vtables: seq<nat>, distinct: bool, distinct': bool)
    requires VTablesOk(b, vtables, distinct) && (distinct' ==> distinct)
    ensures VTablesOk(b, vtables, distinct')
  {
  }

  lemma EndTableRoom(s: State, start: nat, n: nat)
    requires CanEndTable(s, start, n)
    ensures Room(EndTable(s, start, n), 0)
  {
    hide LeastPadding, EndTable, EndPrefix;
    EndTableParts(s, start, n);
    AlignRoom(s, 4);
  }

  lemma StringBytes(text: Bytes, rest: Bytes)
    requires |text| < 0x1_0000_0000
    ensures StringOk(LE32(|text|) + (text + ([0] + rest)), |text| + 5 + |rest|, text)
  {
    var word, tail := LE32(|text|), text + ([0] + rest);
    assert (word + tail)[4..4 + |text|] == text;
    assert tail[|text|] == 0;
  }

  lemma PushAlignedWord(s: State, v: nat)
    requires Room(s, 4) && Aligned(|s.bytes|, 4) && v < 0x1_0000_0000
    ensures PushElement(s, v, 4) == s.(bytes := LE32(v) + s.bytes, minalign := Max(4, s.minalign))
  {
    hide LeastPadding;
    AlignRoom(s, 4);
    assert Align(s, 4).bytes == s.bytes;
    ToLEIsLE32(v);
  }

  lemma StringBody(s: State, text: Bytes, gap: Bytes)
    ensures Push(Push(Push(s, gap), Zeros(1)), text) == s.(bytes := text + ([0] + (gap + s.bytes)))
  {
    hide LeastPadding;
    assert Zeros(1) == [0];
  }

  lemma CreateStringBytes(s: State, text: Bytes)
    requires Room(s, |text| + 12)
    ensures var gap := Zeros(PaddingOf(s, |text| + 1, 4));
      && CreateString(s, text) == s.(bytes := LE32(|text|) + (text + ([0] + (gap + s.bytes))),
        minalign := Max(4, s.minalign))
      && |gap| < 4 && Aligned(|CreateString(s, text).bytes|, 4)
  {
    hide LeastPadding, LE32, Aligned, PushElement, PaddingOf;
    StringRoom(s, |text|);
    var gap := Zeros(PaddingOf(s, |text| + 1, 4));
    StringBody(s, text, gap);
    var inner := s.(bytes := text + ([0] + (gap + s.bytes)));
    PushAlignedWord(inner, |text|);
    NextAligned(|inner.bytes|, 4);
  }

  /** CreateString writes a good string and nothing but prepends. */
  lemma CreateStringParts(s: State, text: Bytes)
    requires Room(s, |text| + 12)
    ensures var t, gap := CreateString(s, text), Zeros(PaddingOf(s, |text| + 1, 4));
      && t == s.(bytes := LE32(|text|) + (text + ([0] + (gap + s.bytes))), minalign := Max(4, s.minalign))
      && |gap| < 4 && Aligned(|t.bytes|, 4)
      && StringOk(t.bytes, |t.bytes|, text)
  {
    hide LeastPadding;
    CreateStringBytes(s, text);
    StringBytes(text, Zeros(PaddingOf(s, |text| + 1, 4)) + s.bytes);
  }

  lemma RegroupString(a: Bytes, b: Bytes, c: Bytes, d: Bytes, e: Bytes)
    ensures a + (b + (c + (d + e))) == (a + (b + (c + d))) + e
  {
  }

  lemma GoodCreateString(s: State, log: Log, text: Bytes)
    requires Good(s, log) && Room(s, |text| + 12)
    ensures var t := CreateString(s, text); Good(t, Stringed(log, |t.bytes|, text))
  {
    hide LeastPadding, Good, CreateString, LE32, StringOk, Aligned, Stringed, PaddingOf;
    CreateStringParts(s, text);
    var t, gap := CreateString(s, text), Zeros(PaddingOf(s, |text| + 1, 4));
    var pre := LE32(|text|) + (text + ([0] + gap));
    RegroupString(LE32(|text|), text, [0], gap, s.bytes);
    GoodScalarPush(s, log, pre, 4);
    GoodStringed(t, log, text);
  }

  lemma GoodStringed(t: State, log: Log, text: Bytes)
    requires Good(t, log.(scalars := log.scalars + {Written(|t.bytes|, 4)})) && StringOk(t.bytes, |t.bytes|, text)
    ensures Good(t, Stringed(log, |t.bytes|, text))
  {
    hide TablesOk, VTablesOk, SharedOk, ScalarsOk, FieldsOk, StringOk, LocsMatch, AddsOk, FieldsWritten;
  }

  /** The two outcomes of CreateSharedString. */
  lemma SharedOutcome(s: State, text: Bytes)
    requires Room(s, |text| + 12) && PoolSorted(s.bytes, s.stringPool)
    ensures var (t, off) := CreateSharedString(s, text);
      var keys, c := Keys(s.bytes, s.stringPool), CreateString(s, text);
      var k := LowerBound(keys, CStr(text));
      if CStr(text) in keys
      then t == s.(minalign := Max(4, s.minalign)) && k < |keys| && keys[k] == CStr(text) && off == s.stringPool[k]
      else t == c.(stringPool := s.stringPool[..k] + [|c.bytes|] + s.stringPool[k..]) && off == |c.bytes|
  {
    hide LeastPadding, CreateString, LowerBound, LE32;
    CreateStringBytes(s, text);
    LowerBoundFinds(Keys(s.bytes, s.stringPool), CStr(text));
  }

  /** What CreateString leaves of the pool: the same keys in the same order, and the new string in front. */
  lemma PoolAfterString(s: State, text: Bytes)
    requires Room(s, |text| + 12) && PoolSorted(s.bytes, s.stringPool)
    ensures var c := CreateString(s, text);
      && c == s.(bytes := c.bytes, minalign := Max(4, s.minalign))
      && Extends(s.bytes, c.bytes)
      && PoolSorted(c.bytes, s.stringPool) && Keys(c.bytes, s.stringPool) == Keys(s.bytes, s.stringPool)
      && StringAt(c.bytes, |c.bytes|) && Key(c.bytes, |c.bytes|) == CStr(text)
  {
    hide LeastPadding, CreateString, LE32, Keys, StringAt;
    CreateStringParts(s, text);
    var c, gap := CreateString(s, text), Zeros(PaddingOf(s, |text| + 1, 4));
    var pre := LE32(|text|) + (text + ([0] + gap));
    RegroupString(LE32(|text|), text, [0], gap, s.bytes);
    PoolShift(pre, s.bytes, s.stringPool);
  }

  lemma PoolOfGood(s: State, log: Log)
    requires Good(s, log)
    ensures SharedOk(s.bytes, s.stringPool, log.shared) && PoolSorted(s.bytes, s.stringPool) && PoolOk(s)
  {
    hide TablesOk, StringsOk, VTablesOk, ScalarsOk, FieldsOk, UnfinishedOk;
  }

  /** Sharing: the pool stays free of equal keys, and every earlier call keeps its answer. */
  lemma GoodSharedString(s: State, log: Log, text: Bytes)
    requires Good(s, log) && Room(s, |text| + 12)
    ensures var (t, off) := CreateSharedString(s, text); Good(t, SharedLogged(s, log, t, off, text))
  {
    hide LeastPadding, CreateString, CreateSharedString, LowerBound, LE32, StringOk, Good, SharedOk, Keys, CStr,
      PoolSorted;
    PoolOfGood(s, log);
    SharedOutcome(s, text);
    var keys, key := Keys(s.bytes, s.stringPool), CStr(text);
    if key in keys {
      SharedFound(s, log, text, LowerBound(keys, key));
    } else {
      CreateStringParts(s, text);
      PoolAfterString(s, text);
      GoodCreateString(s, log, text);
      var c := CreateString(s, text);
      var (t, off) := CreateSharedString(s, text);
      PoolOfGood(c, Stringed(log, |c.bytes|, text));
      SharedAppended(c.bytes, c.stringPool, log.shared, text, |c.bytes|);
      GoodShared(c, Stringed(log, |c.bytes|, text), t.stringPool, log.shared + [Shared(text, off)]);
    }
  }

  lemma SharedFound(s: State, log: Log, text: Bytes, k: nat)
    requires Good(s, log) && AllStrings(s.bytes, s.stringPool)
    requires k < |s.stringPool| && Keys(s.bytes, s.stringPool)[k] == CStr(text)
    ensures Good(s.(minalign := Max(4, s.minalign)), log.(shared := log.shared + [Shared(text, s.stringPool[k])]))
  {
    hide Good, CStr, Keys, LocsMatch;
    TrackWord(s, log);
    SharedNoted(s.(minalign := Max(4, s.minalign)), log, text, k);
  }

  lemma TrackWord(s: State, log: Log)
    requires Good(s, log)
    ensures Good(s.(minalign := Max(4, s.minalign)), log)
  {
    hide TablesOk, StringsOk, VTablesOk, SharedOk, FieldsOk, UnfinishedOk, Aligned;
    assert Scalar(4);
    Rescaled(s, log, Max(4, s.minalign), log.scalars);
  }

  lemma SharedNoted(s: State, log: Log, text: Bytes, k: nat)
    requires Good(s, log) && AllStrings(s.bytes, s.stringPool)
    requires k < |s.stringPool| && Keys(s.bytes, s.stringPool)[k] == CStr(text)
    ensures Good(s, log.(shared := log.shared + [Shared(text, s.stringPool[k])]))
  {
    hide Good, SharedOk, CStr, Key;
    PoolOfGood(s, log);
    assert Keys(s.bytes, s.stringPool)[k] == Key(s.bytes, s.stringPool[k]);
    hide Keys;
    SharedOneMore(s.bytes, s.stringPool, log.shared, text, s.stringPool[k]);
    GoodShared(s, log, s.stringPool, log.shared + [Shared(text, s.stringPool[k])]);
  }

  lemma SharedOneMore(b: Bytes, pool: seq<nat>, shared: seq<Shared>, text: Bytes, off: nat)
    requires SharedOk(b, pool, shared) && off in pool && Key(b, off) == CStr(text)
    ensures SharedOk(b, pool, shared + [Shared(text, off)])
  {
    hide Key, CStr, PoolSorted;
    assert forall x | x in shared :: x in shared + [Shared(text, off)];
  }

  lemma GoodShared(s: State, log: Log, pool: seq<nat>, shared: seq<Shared>)
    requires Good(s, log) && SharedOk(s.bytes, pool, shared)
    ensures Good(s.(stringPool := pool), log.(shared := shared))
  {
    hide TablesOk, StringsOk, VTablesOk, SharedOk, ScalarsOk, FieldsOk, LocsMatch, AddsOk, FieldsWritten;
  }

  lemma SharedAppended(b: Bytes, pool: seq<nat>, shared: seq<Shared>, text: Bytes, off: nat)
    requires SharedOk(b, pool, shared) && StringOk(b, off, text) && CStr(text) !in Keys(b, pool)
    ensures var k := LowerBound(Keys(b, pool), CStr(text));
      SharedOk(b, pool[..k] + [off] + pool[k..], shared + [Shared(text, off)])
  {
    hide Keys, LowerBound;
    PoolInsert(b, pool, off);
    var k := LowerBound(Keys(b, pool), CStr(text));
    MembersOfInsert(pool, k, off);
    SharedGrown(b, pool, pool[..k] + [off] + pool[k..], shared, text, off);
  }

  lemma MembersOfInsert(pool: seq<nat>, k: nat, x: nat)
    requires k <= |pool|
    ensures forall y :: y in pool[..k] + [x] + pool[k..] <==> y in pool || y == x
  {
    assert pool == pool[..k] + pool[k..];
  }

  lemma SharedGrown(b: Bytes, pool: seq<nat>, pool': seq<nat>, shared: seq<Shared>, text: Bytes, off: nat)
    requires SharedOk(b, pool, shared) && PoolSorted(b, pool') && forall x :: x in pool' <==> x in pool || x == off
    requires StringOk(b, off, text)
    ensures SharedOk(b, pool', shared + [Shared(text, off)])
  {
  }

  // ----- Finish

  lemma GoodBeforeRoot(s: State, log: Log, root: nat, identifier: Option<Bytes>, sizePrefix: bool)
    requires Good(s, log) && CanFinish(s, root, identifier)
    ensures Good(BeforeRoot(s, root, identifier, sizePrefix), log)
  {
    hide LeastPadding, Good, Align;
    var header := HeaderSize(identifier, sizePrefix);
    LeastPaddingAligns(|s.bytes| + header, s.minalign);
    var pad := Zeros(PaddingOf(s, header, s.minalign));
    GoodPush(s, log, pad);
    if identifier.Some? { GoodPush(Push(s, pad), log, identifier.value); }
    GoodAlign(Headed(s, identifier, sizePrefix), log, 4);
  }

  /** The words Finish writes in front of a: the root reference, below it the size if asked for. */
  ghost function Rooted(a: State, root: nat, sizePrefix: bool): State
    requires Room(a, 16) && root <= |a.bytes|
  {
    var r := a.(bytes := LE32(|a.bytes| + 4 - root) + a.bytes, minalign := Max(4, a.minalign), finished := true);
    if sizePrefix then r.(bytes := LE32(|r.bytes|) + r.bytes) else r
  }

  lemma FinishParts(s: State, root: nat, identifier: Option<Bytes>, sizePrefix: bool)
    requires CanFinish(s, root, identifier)
    ensures var a := BeforeRoot(s, root, identifier, sizePrefix);
      Finish(s, root, identifier, sizePrefix) == Rooted(a, root, sizePrefix)
  {
    hide LeastPadding, BeforeRoot, PushElement, Align, PaddingOf, LE32, Aligned, CanFinish;
    var a := BeforeRoot(s, root, identifier, sizePrefix);
    PushAlignedWord(a, |a.bytes| + 4 - root);
    NextAligned(|a.bytes|, 4);
    if sizePrefix {
      PushAlignedWord(a.(bytes := LE32(|a.bytes| + 4 - root) + a.bytes, minalign := Max(4, a.minalign)), |a.bytes| + 4);
    }
  }

  lemma GoodRooted(a: State, log: Log, root: nat, sizePrefix: bool)
    requires Good(a, log) && Room(a, 16) && root <= |a.bytes| && Aligned(|a.bytes|, 4)
    ensures var t := Rooted(a, root, sizePrefix);
      Good(t, log.(scalars := log.scalars + HeaderWords(t, sizePrefix)))
  {
    hide Good, LE32, Aligned;
    var r, log' := Rooted(a, root, false), log.(scalars := log.scalars + {Written(|a.bytes| + 4, 4)});
    NextAligned(|a.bytes|, 4);
    GoodScalarPush(a, log, LE32(|a.bytes| + 4 - root), 4);
    GoodFinished(r.(finished := a.finished), log');
    if sizePrefix {
      NextAligned(|a.bytes| + 4, 4);
      RoomOfGood(r, log');
      GoodScalarPush(r, log', LE32(|r.bytes|), 4);
      assert log.scalars + HeaderWords(Rooted(a, root, true), true) == log'.scalars + {Written(|a.bytes| + 8, 4)};
    }
  }

  lemma RoomOfGood(s: State, log: Log)
    requires Good(s, log)
    ensures Room(s, 0) && Scalar(s.minalign)
  {
  }

  lemma GoodFinish(s: State, log: Log, root: nat, identifier: Option<Bytes>, sizePrefix: bool)
    requires Good(s, log) && CanFinish(s, root, identifier)
    ensures var t := Finish(s, root, identifier, sizePrefix);
      Good(t, log.(scalars := log.scalars + HeaderWords(t, sizePrefix)))
  {
    hide LeastPadding, Good, Finish, Rooted, BeforeRoot, HeaderWords;
    GoodBeforeRoot(s, log, root, identifier, sizePrefix);
    FinishParts(s, root, identifier, sizePrefix);
    GoodRooted(BeforeRoot(s, root, identifier, sizePrefix), log, root, sizePrefix);
  }

  lemma GoodFinished(s: State, log: Log)
    requires Good(s, log)
    ensures Good(s.(finished := true), log)
  {
    hide TablesOk, StringsOk, VTablesOk, SharedOk, ScalarsOk, FieldsOk;
  }

  /** Where the root reference is read: at the start of the buffer, or behind the size. */
  function RootWord(sizePrefix: bool): nat {
    if sizePrefix then 4 else 0
  }

  /** A finished buffer leads to its root, and with a size prefix begins with the size of what follows. */
  lemma FinishedRoot(s: State, root: nat, identifier: Option<Bytes>, sizePrefix: bool)
    requires CanFinish(s, root, identifier)
    ensures var b := Finish(s, root, identifier, sizePrefix).bytes;
      && |b| >= 4 + (if sizePrefix then 4 else 0) && root <= |b|
      && GetRoot(b, RootWord(sizePrefix)) == |b| - root
      && (sizePrefix ==> ReadU32(b, 0) == |b| - 4)
  {
    hide LeastPadding, LE32, Finish, BeforeRoot;
    FinishParts(s, root, identifier, sizePrefix);
    RootedReads(BeforeRoot(s, root, identifier, sizePrefix), root, sizePrefix);
  }

  lemma RootedReads(a: State, root: nat, sizePrefix: bool)
    requires Room(a, 16) && root <= |a.bytes|
    ensures var b := Rooted(a, root, sizePrefix).bytes;
      && |b| >= 4 + (if sizePrefix then 4 else 0) && root <= |b|
      && GetRoot(b, RootWord(sizePrefix)) == |b| - root
      && (sizePrefix ==> ReadU32(b, 0) == |b| - 4)
  {
    hide LE32;
  }

  /** When the tracked alignment is at least that of a word, everything after Finish's padding is unpadded. */
  lemma BeforeRootSize(s: State, root: nat, identifier: Option<Bytes>, sizePrefix: bool)
    requires CanFinish(s, root, identifier)
    ensures var a, header := BeforeRoot(s, root, identifier, sizePrefix), HeaderSize(identifier, sizePrefix);
      && Max(4, a.minalign) == Max(4, s.minalign)
      && (s.minalign >= 4 ==>
            Aligned(|a.bytes| + (if sizePrefix then 8 else 4), s.minalign))
  {
    hide LeastPadding, Aligned, Zeros;
    var header := HeaderSize(identifier, sizePrefix);
    LeastPaddingAligns(|s.bytes| + header, s.minalign);
    if s.minalign >= 4 {
      var padded := |s.bytes| + PaddingOf(s, header, s.minalign);
      UnpaddedHeader(padded, header, s.minalign);
      NextAligned(padded, 4);
      AlignRoom(Headed(s, identifier, sizePrefix), 4);
    }
  }

  lemma UnpaddedHeader(padded: nat, header: nat, m: nat)
    requires IsPow2(m) && m >= 4 && Aligned(padded + header, m) && (header == 4 || header == 8 || header == 12)
    ensures Aligned(padded, 4)
  {
    Pow2Divides(4, m);
    ModTransitive(padded + header, 4, m);
  }

  /** When the tracked alignment is at least that of a word, the identifier lies right behind the root word. */
  lemma IdentifierPlaced(s: State, root: nat, identifier: Bytes, sizePrefix: bool)
    requires CanFinish(s, root, Some(identifier)) && s.minalign >= 4
    ensures var a := BeforeRoot(s, root, Some(identifier), sizePrefix).bytes; |a| >= 4 && a[..4] == identifier
  {
    hide LeastPadding, Aligned, Align;
    var header := HeaderSize(Some(identifier), sizePrefix);
    LeastPaddingAligns(|s.bytes| + header, s.minalign);
    var padded := |s.bytes| + PaddingOf(s, header, s.minalign);
    UnpaddedHeader(padded, header, s.minalign);
    NextAligned(padded, 4);
    var headed := Headed(s, Some(identifier), sizePrefix);
    AlignRoom(headed, 4);
    AlignParts(headed);
    assert headed.bytes[..4] == identifier;
    assert Zeros(0) + headed.bytes == headed.bytes;
  }

  lemma RootedIdentifier(a: State, root: nat, sizePrefix: bool)
    requires Room(a, 16) && root <= |a.bytes| && |a.bytes| >= 4
    ensures var b, w := Rooted(a, root, sizePrefix).bytes, RootWord(sizePrefix);
      |b| >= w + 8 && b[w + 4..w + 8] == a.bytes[..4]
  {
    hide LE32;
    var b, w := Rooted(a, root, sizePrefix).bytes, RootWord(sizePrefix);
    assert b[w + 4..] == a.bytes;
  }

  /** The file identifier is read back behind the root word of a finished buffer whose root is a table. */
  lemma FinishedIdentifier(s: State, log: Log, root: nat, identifier: Bytes, sizePrefix: bool)
    requires Good(s, log) && CanFinish(s, root, Some(identifier)) && root in log.tables
    ensures var b, w := Finish(s, root, Some(identifier), sizePrefix).bytes, RootWord(sizePrefix);
      |b| >= w + 8 && b[w + 4..w + 8] == identifier
  {
    hide LeastPadding, Good, Finish, Rooted, BeforeRoot;
    TablesNeedWords(s, log, root);
    FinishParts(s, root, Some(identifier), sizePrefix);
    IdentifierPlaced(s, root, identifier, sizePrefix);
    RootedIdentifier(BeforeRoot(s, root, Some(identifier), sizePrefix), root, sizePrefix);
  }

  lemma TablesNeedWords(s: State, log: Log, off: nat)
    requires Good(s, log) && off in log.tables
    ensures s.minalign >= 4
  {
    hide TablesOk, StringsOk, VTablesOk, SharedOk, ScalarsOk, FieldsOk, UnfinishedOk;
  }

  /** The size of a finished buffer is a multiple of the alignment it asks for. */
  lemma FinishedSize(s: State, root: nat, identifier: Option<Bytes>, sizePrefix: bool)
    requires CanFinish(s, root, identifier)
    ensures var t := Finish(s, root, identifier, sizePrefix);
      t.minalign == Max(4, s.minalign) && Aligned(|t.bytes|, t.minalign)
  {
    hide LeastPadding;
    FinishParts(s, root, identifier, sizePrefix);
    BeforeRootSize(s, root, identifier, sizePrefix);
    var a := BeforeRoot(s, root, identifier, sizePrefix);
    NextAligned(|a.bytes|, 4);
    NextAligned(|a.bytes| + 4, 4);
  }

  /** When the buffer size is a multiple of the tracked alignment, every written scalar lies at a multiple of its
      size from the start. */
  lemma AlignedFromStart(t: State, log: Log, w: Written)
    requires Good(t, log) && Aligned(|t.bytes|, t.minalign) && w in log.scalars
    ensures w.off <= |t.bytes| && Aligned(|t.bytes| - w.off, w.size)
  {
    hide TablesOk, StringsOk, VTablesOk, SharedOk, FieldsOk, UnfinishedOk;
    Pow2Divides(w.size, t.minalign);
    ModTransitive(|t.bytes|, w.size, t.minalign);
    ModAdd(|t.bytes|, w.off, w.size);
  }

  /** ... which holds of every scalar in a finished buffer. */
  lemma FinishedAlignment(s: State, log: Log, root: nat, identifier: Option<Bytes>, sizePrefix: bool, w: Written)
    requires Good(s, log) && CanFinish(s, root, identifier)
    requires var t := Finish(s, root, identifier, sizePrefix); w in log.scalars + HeaderWords(t, sizePrefix)
    ensures w.off <= |Finish(s, root, identifier, sizePrefix).bytes|
    ensures Aligned(|Finish(s, root, identifier, sizePrefix).bytes| - w.off, w.size)
  {
    hide LeastPadding, Good, Finish, HeaderWords;
    var t := Finish(s, root, identifier, sizePrefix);
    GoodFinish(s, log, root, identifier, sizePrefix);
    FinishedSize(s, root, identifier, sizePrefix);
    AlignedFromStart(t, log.(scalars := log.scalars + HeaderWords(t, sizePrefix)), w);
  }
}
