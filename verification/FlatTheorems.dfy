/** What every run of the builder guarantees to readers of the buffer. */
module FlatTheorems {
  import opened FlatBase
  import opened FlatReader
  import opened FlatFormat
  import opened FlatStrings
  import opened FlatModel
  import opened FlatRuns

  lemma StepGood(s: State, log: Log, op: Op)
    requires Good(s, log) && Allowed(s, log, op)
    ensures var (t, log') := Step(s, log, op); Good(t, log')
  {
    hide LeastPadding, Good, AddElement, AddOffset, EndTable, Ended, CreateString, CreateSharedString, Finish,
      StartTable, HeaderWords, Stringed, SharedLogged, Noted;
    match op
    case StartTableOp => GoodStartTable(s, log);
    case AddElementOp(field, kind, e, def, size) => GoodAddElement(s, log, field, kind, e, def, size);
    case AddOffsetOp(field, off) => if off != 0 { GoodAddOffset(s, log, field, off); }
    case EndTableOp(n) => GoodEndTable(s, log, n);
    case StringOp(text) => GoodCreateString(s, log, text);
    case SharedStringOp(text) => GoodSharedString(s, log, text);
    case FinishOp(root, identifier, sizePrefix) => GoodFinish(s, log, root, identifier, sizePrefix);
    case ForceDefaultsOp(_) => GoodFlags(s, log, op);
    case DedupVtablesOp(_) => GoodFlags(s, log, op);
    case ClearOp => GoodFlags(s, log, op);
  }

  lemma GoodStartTable(s: State, log: Log)
    requires Good(s, log) && Allowed(s, log, StartTableOp)
    ensures Good(StartTable(s), log.(start := |s.bytes|, adds := map[]))
  {
    hide TablesOk, StringsOk, VTablesOk, SharedOk, ScalarsOk, FieldsOk;
  }

  lemma GoodFlags(s: State, log: Log, op: Op)
    requires Good(s, log) && (op.ForceDefaultsOp? || op.DedupVtablesOp? || op.ClearOp?)
    ensures var (t, log') := Step(s, log, op); Good(t, log')
  {
    assert Scalar(1);
  }

  /** Every operation of the run is allowed when its turn comes. */
  ghost predicate Legal(s: State, log: Log, ops: seq<Op>)
    requires Good(s, log)
    decreases |ops|
  {
    ops == [] ||
    (Allowed(s, log, ops[0]) &&
      (StepGood(s, log, ops[0]);
       var (t, log') := Step(s, log, ops[0]); Legal(t, log', ops[1..])))
  }

  ghost function Run(s: State, log: Log, ops: seq<Op>): (r: (State, Log))
    requires Good(s, log) && Legal(s, log, ops)
    ensures Good(r.0, r.1)
    decreases |ops|
  {
    if ops == [] then (s, log) else
      StepGood(s, log, ops[0]);
      var (t, log') := Step(s, log, ops[0]);
      Run(t, log', ops[1..])
  }

  lemma InitGood()
    ensures Good(INIT, NO_LOG)
  {
    assert Scalar(1);
  }

  /** Nothing finished is lost or changed by later operations, short of Clear. */
  ghost predicate Grown(b: Bytes, log: Log, b': Bytes, log': Log) {
    && Extends(b, b')
    && (forall off <- log.tables :: off in log'.tables && log'.tables[off] == log.tables[off])
    && (forall off <- log.strings :: off in log'.strings && log'.strings[off] == log.strings[off])
    && log.shared <= log'.shared && log.scalars <= log'.scalars
  }

  lemma ExtendsTransitive(a: Bytes, b: Bytes, c: Bytes)
    requires Extends(a, b) && Extends(b, c)
    ensures Extends(a, c)
  {
    assert c[|c| - |a|..] == c[|c| - |b|..][|b| - |a|..];
  }

  lemma GrownTransitive(b: Bytes, log: Log, b': Bytes, log': Log, b'': Bytes, log'': Log)
    requires Grown(b, log, b', log') && Grown(b', log', b'', log'')
    ensures Grown(b, log, b'', log'')
  {
    ExtendsTransitive(b, b', b'');
  }

  lemma StepGrows(s: State, log: Log, op: Op)
    requires Good(s, log) && Allowed(s, log, op) && !op.ClearOp?
    ensures var (t, log') := Step(s, log, op); Grown(s.bytes, log, t.bytes, log')
  {
    hide LeastPadding, Good, Grown, EndTable, CreateString, CreateSharedString, AddElement, AddOffset, Finish, Ended;
    match op
    case StartTableOp => GrownNothing(s.bytes, log, log.(start := |s.bytes|, adds := map[]));
    case AddElementOp(field, kind, e, def, size) => AddGrows(s, log, field, kind, e, def, size);
    case AddOffsetOp(field, off) => OffsetGrows(s, log, field, off);
    case EndTableOp(n) => TableGrows(s, log, n);
    case StringOp(text) => StringGrows(s, log, text);
    case SharedStringOp(text) => SharedGrows(s, log, text);
    case FinishOp(root, identifier, sizePrefix) => FinishGrows(s, log, root, identifier, sizePrefix);
    case ForceDefaultsOp(_) => GrownNothing(s.bytes, log, log);
    case DedupVtablesOp(_) => GrownNothing(s.bytes, log, log);
  }

  lemma GrownNothing(b: Bytes, log: Log, log': Log)
    requires log' == log.(start := log'.start, adds := log'.adds)
    ensures Grown(b, log, b, log')
  {
  }

  lemma AddGrows(s: State, log: Log, field: nat, kind: Kind, e: nat, def: nat, size: nat)
    requires Good(s, log) && Allowed(s, log, AddElementOp(field, kind, e, def, size))
    ensures var (t, log') := Step(s, log, AddElementOp(field, kind, e, def, size)); Grown(s.bytes, log, t.bytes, log')
  {
    hide LeastPadding, Good;
    AddExtends(s, field, kind, e, def, size);
  }

  lemma OffsetGrows(s: State, log: Log, field: nat, off: nat)
    requires Good(s, log) && Allowed(s, log, AddOffsetOp(field, off))
    ensures var (t, log') := Step(s, log, AddOffsetOp(field, off)); Grown(s.bytes, log, t.bytes, log')
  {
    hide LeastPadding, Good, AddOffset;
    if off == 0 { GrownNothing(s.bytes, log, log); } else { OffsetExtends(s, field, off); }
  }

  lemma FinishGrows(s: State, log: Log, root: nat, identifier: Option<Bytes>, sizePrefix: bool)
    requires CanFinish(s, root, identifier)
    ensures var t := Finish(s, root, identifier, sizePrefix);
      Grown(s.bytes, log, t.bytes, log.(scalars := log.scalars + HeaderWords(t, sizePrefix)))
  {
    hide LeastPadding, Finish, HeaderWords, Extends;
    FinishExtends(s, root, identifier, sizePrefix);
  }

  lemma FinishExtends(s: State, root: nat, identifier: Option<Bytes>, sizePrefix: bool)
    requires CanFinish(s, root, identifier)
    ensures Extends(s.bytes, Finish(s, root, identifier, sizePrefix).bytes)
  {
    hide LeastPadding, Finish, BeforeRoot, Rooted, Extends;
    var a := BeforeRoot(s, root, identifier, sizePrefix);
    FinishParts(s, root, identifier, sizePrefix);
    BeforeRootExtends(s, root, identifier, sizePrefix);
    RootedExtends(a, root, sizePrefix);
    ExtendsTransitive(s.bytes, a.bytes, Rooted(a, root, sizePrefix).bytes);
  }

  lemma BeforeRootExtends(s: State, root: nat, identifier: Option<Bytes>, sizePrefix: bool)
    requires CanFinish(s, root, identifier)
    ensures Extends(s.bytes, BeforeRoot(s, root, identifier, sizePrefix).bytes)
  {
    hide LeastPadding;
    var header := HeaderSize(identifier, sizePrefix);
    LeastPaddingAligns(|s.bytes| + header, s.minalign);
    var padded, headed := Push(s, Zeros(PaddingOf(s, header, s.minalign))), Headed(s, identifier, sizePrefix);
    ExtendsTransitive(s.bytes, padded.bytes, headed.bytes);
    AlignParts(headed);
    ExtendsTransitive(s.bytes, headed.bytes, Align(headed, 4).bytes);
  }

  lemma RootedExtends(a: State, root: nat, sizePrefix: bool)
    requires Room(a, 16) && root <= |a.bytes|
    ensures Extends(a.bytes, Rooted(a, root, sizePrefix).bytes)
  {
    hide LE32;
  }

  lemma AddExtends(s: State, field: nat, kind: Kind, e: nat, def: nat, size: nat)
    requires Room(s, 0) && Scalar(size)
    ensures Extends(s.bytes, AddElement(s, field, kind, e, def, size).bytes)
  {
    hide LeastPadding;
  }

  lemma OffsetExtends(s: State, field: nat, off: nat)
    requires Room(s, 8) && 0 < off <= |s.bytes|
    ensures Extends(s.bytes, AddOffset(s, field, off).bytes)
  {
    hide LeastPadding;
    AlignRoom(s, 4);
    AddExtends(Align(s, 4), field, Integer, Reference(Align(s, 4), off), 0, 4);
    ExtendsTransitive(s.bytes, Align(s, 4).bytes, AddOffset(s, field, off).bytes);
  }

  lemma TableExtends(s: State, start: nat, n: nat)
    requires CanEndTable(s, start, n)
    ensures Extends(s.bytes, EndTable(s, start, n).bytes) && TableOffset(s) > |s.bytes|
  {
    hide LeastPadding;
    EndTableParts(s, start, n);
    ExtendsTransitive(s.bytes, Align(s, 4).bytes, EndTable(s, start, n).bytes);
  }

  /** Distances from the end grow strictly, so a new table never takes the place of an old one. */
  lemma TableGrows(s: State, log: Log, n: nat)
    requires Good(s, log) && Allowed(s, log, EndTableOp(n))
    ensures CanEndTable(s, log.start, n)
    ensures Grown(s.bytes, log, EndTable(s, log.start, n).bytes, Ended(s, log, n))
  {
    hide LeastPadding, EndTable, LE32, StringsOk, VTablesOk, SharedOk, ScalarsOk, FieldsOk, UnfinishedOk;
    EndTableAllowed(s, log, n);
    TableExtends(s, log.start, n);
    forall off <- log.tables
      ensures off != TableOffset(s)
    {
      assert TableOk(s.bytes, off, log.tables[off]);
    }
  }

  lemma StringGrows(s: State, log: Log, text: Bytes)
    requires Good(s, log) && Room(s, |text| + 12)
    ensures var t := CreateString(s, text);
      |s.bytes| < |t.bytes| && Grown(s.bytes, log, t.bytes, Stringed(log, |t.bytes|, text))
  {
    hide LeastPadding, CreateString, Extends, TablesOk, StringsOk, VTablesOk, SharedOk, ScalarsOk, FieldsOk,
      UnfinishedOk;
    StringExtends(s, text);
    OffsetsBounded(s.bytes, log.strings);
  }

  lemma StringExtends(s: State, text: Bytes)
    requires Room(s, |text| + 12)
    ensures |s.bytes| < |CreateString(s, text).bytes| && Extends(s.bytes, CreateString(s, text).bytes)
  {
    hide LeastPadding, CreateString, LE32, PaddingOf, Aligned;
    CreateStringBytes(s, text);
    var gap := Zeros(PaddingOf(s, |text| + 1, 4));
    RegroupString(LE32(|text|), text, [0], gap, s.bytes);
  }

  lemma OffsetsBounded(b: Bytes, strings: map<nat, Bytes>)
    requires StringsOk(b, strings)
    ensures forall off <- strings :: off <= |b|
  {
    assert forall off <- strings :: StringOk(b, off, strings[off]);
  }

  lemma SharedGrows(s: State, log: Log, text: Bytes)
    requires Good(s, log) && Room(s, |text| + 12)
    ensures PoolOk(s)
    ensures var (t, off) := CreateSharedString(s, text);
      Grown(s.bytes, log, t.bytes, SharedLogged(s, log, t, off, text)) && |t.bytes| <= |s.bytes| + |text| + 8
  {
    hide LeastPadding, Good, CreateString, CreateSharedString, PoolSorted, LowerBound, Keys, LE32, StringAt, Aligned,
      CStr, Zeros, PaddingOf;
    PoolOfGood(s, log);
    SharedOutcome(s, text);
    StringGrows(s, log, text);
    CreateStringBytes(s, text);
  }

  lemma {:induction false} RunGrows(s: State, log: Log, ops: seq<Op>)
    requires Good(s, log) && Legal(s, log, ops) && forall op <- ops :: !op.ClearOp?
    ensures var (t, log') := Run(s, log, ops); Grown(s.bytes, log, t.bytes, log')
    decreases |ops|
  {
    hide LeastPadding;
    if ops != [] {
      StepGood(s, log, ops[0]);
      StepGrows(s, log, ops[0]);
      var (t, log') := Step(s, log, ops[0]);
      RunGrows(t, log', ops[1..]);
      var (u, log'') := Run(t, log', ops[1..]);
      GrownTransitive(s.bytes, log, t.bytes, log', u.bytes, log'');
    }
  }

  // ----- tables

  /** The round trip. After any run, in whatever vtable the table ended up, every field of every finished table reads as
      the value added, and a field never added reads as the default. */
  lemma TableRoundTrip(ops: seq<Op>, off: nat, id: nat, size: nat, defaultval: nat)
    requires Good(INIT, NO_LOG) && Legal(INIT, NO_LOG, ops)
    requires var (s, log) := Run(INIT, NO_LOG, ops); off in log.tables
    requires 4 <= id && id % 2 == 0
    ensures var (s, log) := Run(INIT, NO_LOG, ops);
      ReadsBack(s.bytes, |s.bytes| - off, log.tables[off], id, size, defaultval)
  {
    hide Good, TableOk, ReadsBack, Run, Legal;
    var (s, log) := Run(INIT, NO_LOG, ops);
    TableIsOk(s, log, off);
    ReadBack(s.bytes, off, log.tables[off], id, size, defaultval);
  }

  /** GetPointer of field id leads from the table at t to the object at distance target from the end. */
  predicate LeadsTo(b: Bytes, t: int, id: nat, target: nat) {
    FieldReadable(b, t, id, 4) && GetPointer(b, t, id) == At(|b| - target)
  }

  lemma PointerField(b: Bytes, t: int, id: nat, a: Added, target: nat)
    requires FieldOk(b, t, id, a) && 0 < target < a.off && a == Added(Integer, 4, a.off - target, 0, a.forced, a.off)
    ensures LeadsTo(b, t, id, target)
  {
    ReadU32IsScalar(b, t + GetOptionalFieldOffset(b, t, id));
  }

  /** Field id of the table at offset off was added as a reference to target. */
  predicate Refers(log: Log, off: nat, id: nat, target: nat) {
    && off in log.tables && id in log.tables[off]
    && 0 < target < log.tables[off][id].off
    && var a := log.tables[off][id];
    && a == Added(Integer, 4, a.off - target, 0, a.forced, a.off)
  }

  /** A reference field leads to the object it was given: the stored relative offset undoes ReferTo. */
  lemma PointerRoundTrip(s: State, log: Log, off: nat, id: nat, target: nat)
    requires Good(s, log) && Refers(log, off, id, target)
    ensures LeadsTo(s.bytes, |s.bytes| - off, id, target)
  {
    hide Good, FieldOk, LeadsTo;
    TableIsOk(s, log, off);
    PointerField(s.bytes, |s.bytes| - off, id, log.tables[off][id], target);
  }

  // ----- from the calls to the fields

  /** A run is the run of its first part and then of the rest. */
  lemma {:induction false} RunAppend(s: State, log: Log, ops: seq<Op>, more: seq<Op>)
    requires Good(s, log) && Legal(s, log, ops + more)
    ensures Legal(s, log, ops)
    ensures var (t, log') := Run(s, log, ops); Legal(t, log', more) && Run(s, log, ops + more) == Run(t, log', more)
    decreases |ops|
  {
    hide Good, Step, Allowed;
    if ops == [] {
      assert ops + more == more;
    } else {
      assert (ops + more)[0] == ops[0] && (ops + more)[1..] == ops[1..] + more;
      StepGood(s, log, ops[0]);
      var (t, log') := Step(s, log, ops[0]);
      RunAppend(t, log', ops[1..], more);
    }
  }

  /** Leaves the table under construction as it is or adds to it. */
  predicate WithinTable(op: Op) {
    !op.StartTableOp? && !op.EndTableOp? && !op.ClearOp?
  }

  predicate Within(m: map<nat, Added>, m': map<nat, Added>) {
    forall id <- m :: id in m' && m'[id] == m[id]
  }

  lemma {:induction false} AddsStay(s: State, log: Log, ops: seq<Op>)
    requires Good(s, log) && Legal(s, log, ops) && forall op <- ops :: WithinTable(op)
    ensures Within(log.adds, Run(s, log, ops).1.adds) && Run(s, log, ops).1.start == log.start
    decreases |ops|
  {
    hide Good, LeastPadding;
    if ops != [] {
      assert WithinTable(ops[0]);
      StepGood(s, log, ops[0]);
      AddsStayInStep(s, log, ops[0]);
      var (t, log') := Step(s, log, ops[0]);
      AddsStay(t, log', ops[1..]);
    }
  }

  lemma AddsStayInStep(s: State, log: Log, op: Op)
    requires Good(s, log) && Allowed(s, log, op) && WithinTable(op)
    ensures Within(log.adds, Step(s, log, op).1.adds) && Step(s, log, op).1.start == log.start
  {
    hide Good, LeastPadding, AddElement, AddOffset, CreateString, CreateSharedString, Finish, HeaderWords;
  }

  /** A run with an operation on a table, up to EndTable, and the whole run. */
  function UpTo(pre: seq<Op>, op: Op, mid: seq<Op>): seq<Op> {
    pre + [op] + mid
  }

  function Whole(pre: seq<Op>, op: Op, mid: seq<Op>, n: nat, post: seq<Op>): seq<Op> {
    UpTo(pre, op, mid) + ([EndTableOp(n)] + post)
  }

  /** Where the table ends up whose construction goes on with the operations of a run up to EndTable. */
  ghost function FinishedAt(ops: seq<Op>): nat
    requires Good(INIT, NO_LOG) && Legal(INIT, NO_LOG, ops)
  {
    TableOffset(Run(INIT, NO_LOG, ops).0)
  }

  /** What an operation has added stays with its table, up to EndTable and ever after, short of Clear. */
  lemma AddsEndUp(pre: seq<Op>, op: Op, mid: seq<Op>, n: nat, post: seq<Op>)
    requires Good(INIT, NO_LOG) && Legal(INIT, NO_LOG, Whole(pre, op, mid, n, post))
    requires (forall o <- mid :: WithinTable(o)) && forall o <- post :: !o.ClearOp?
    ensures Legal(INIT, NO_LOG, pre) && Legal(INIT, NO_LOG, UpTo(pre, op, mid))
    ensures var (s, log) := Run(INIT, NO_LOG, pre);
      Allowed(s, log, op) &&
      var off, end := FinishedAt(UpTo(pre, op, mid)), Run(INIT, NO_LOG, Whole(pre, op, mid, n, post)).1;
      off in end.tables && Within(Step(s, log, op).1.adds, end.tables[off])
  {
    hide Good, Allowed, Step, TableOffset;
    var tail := [EndTableOp(n)] + post;
    RunAppend(INIT, NO_LOG, UpTo(pre, op, mid), tail);
    RunAppend(INIT, NO_LOG, pre + [op], mid);
    RunAppend(INIT, NO_LOG, pre, [op]);
    var (s, log) := Run(INIT, NO_LOG, pre);
    StepGood(s, log, op);
    var (t, log') := Step(s, log, op);
    assert Run(s, log, [op]) == (t, log');
    AddsStay(t, log', mid);
    var (u, log'') := Run(t, log', mid);
    assert tail[0] == EndTableOp(n) && tail[1..] == post;
    EndLogged(u, log'', n);
    StepGood(u, log'', tail[0]);
    var (v, logv) := Step(u, log'', tail[0]);
    RunGrows(v, logv, post);
  }

  lemma EndLogged(s: State, log: Log, n: nat)
    requires Good(s, log) && Allowed(s, log, EndTableOp(n))
    ensures var log' := Step(s, log, EndTableOp(n)).1;
      TableOffset(s) in log'.tables && log'.tables[TableOffset(s)] == log.adds
  {
    hide Good, LeastPadding, EndTable, TableOffset;
  }

  /** The round trip from call to field: whatever a run does before an AddElement call and between it and the EndTable
      call of its table, and afterwards short of Clear, the field reads as the value passed to the call. */
  lemma AddedReads(pre: seq<Op>, op: Op, mid: seq<Op>, n: nat, post: seq<Op>, off: nat)
    requires Good(INIT, NO_LOG) && Legal(INIT, NO_LOG, Whole(pre, op, mid, n, post))
    requires (forall o <- mid :: WithinTable(o)) && (forall o <- post :: !o.ClearOp?) && op.AddElementOp?
    ensures Legal(INIT, NO_LOG, pre) && Legal(INIT, NO_LOG, UpTo(pre, op, mid))
    ensures off == FinishedAt(UpTo(pre, op, mid)) ==>
      var b := Run(INIT, NO_LOG, Whole(pre, op, mid, n, post)).0.bytes;
      var forced := Run(INIT, NO_LOG, pre).0.forceDefaults;
      ReadsAsAdded(b, |b| - off, op.field, Added(op.kind, op.size, op.e, op.def, forced, 0))
  {
    hide Good, Legal, Run, FinishedAt, TableOk, FieldReadable, GetField;
    AddsEndUp(pre, op, mid, n, post);
    var (s, log) := Run(INIT, NO_LOG, pre);
    var (t, end) := Run(INIT, NO_LOG, Whole(pre, op, mid, n, post));
    if off == FinishedAt(UpTo(pre, op, mid)) {
      AddLogged(s, log, op);
      TableIsOk(t, end, off);
      ReadBack(t.bytes, off, end.tables[off], op.field, 0, 0);
    }
  }

  lemma AddLogged(s: State, log: Log, op: Op)
    requires Good(s, log) && Allowed(s, log, op) && op.AddElementOp?
    ensures 4 <= op.field && op.field % 2 == 0 && op.field in Step(s, log, op).1.adds
    ensures var a := Step(s, log, op).1.adds[op.field];
      a == Added(op.kind, op.size, op.e, op.def, s.forceDefaults, a.off)
  {
    hide Good, LeastPadding, PushElement;
  }

  /** The vtable of a table says how many bytes the table has: those from its first word to where it was started. */
  lemma TableSizeReads(pre: seq<Op>, mid: seq<Op>, n: nat, post: seq<Op>, off: nat)
    requires Good(INIT, NO_LOG) && Legal(INIT, NO_LOG, Whole(pre, StartTableOp, mid, n, post))
    requires (forall o <- mid :: WithinTable(o)) && forall o <- post :: !o.ClearOp?
    ensures Legal(INIT, NO_LOG, pre) && Legal(INIT, NO_LOG, UpTo(pre, StartTableOp, mid))
    ensures off == FinishedAt(UpTo(pre, StartTableOp, mid)) ==>
      var start := |Run(INIT, NO_LOG, pre).0.bytes|;
      start < off && TableSizeIs(Run(INIT, NO_LOG, Whole(pre, StartTableOp, mid, n, post)).0.bytes, off, off - start)
  {
    hide Good, Allowed, Step, TableOffset, TableSizeIs;
    var tail := [EndTableOp(n)] + post;
    RunAppend(INIT, NO_LOG, UpTo(pre, StartTableOp, mid), tail);
    RunAppend(INIT, NO_LOG, pre + [StartTableOp], mid);
    RunAppend(INIT, NO_LOG, pre, [StartTableOp]);
    var (s, log) := Run(INIT, NO_LOG, pre);
    StepGood(s, log, StartTableOp);
    var (t, log') := Step(s, log, StartTableOp);
    assert Run(s, log, [StartTableOp]) == (t, log');
    StartLogged(s, log);
    AddsStay(t, log', mid);
    var (u, log'') := Run(t, log', mid);
    assert tail[0] == EndTableOp(n) && tail[1..] == post;
    SizeEnded(u, log'', n);
    StepGood(u, log'', tail[0]);
    var (v, logv) := Step(u, log'', tail[0]);
    RunGrows(v, logv, post);
    SizeKept(v.bytes, Run(v, logv, post).0.bytes, FinishedAt(UpTo(pre, StartTableOp, mid)), log''.start);
  }

  lemma SizeKept(b: Bytes, b': Bytes, off: nat, start: nat)
    requires start < off && TableSizeIs(b, off, off - start) && Extends(b, b')
    ensures TableSizeIs(b', off, off - start)
  {
    hide TableSizeIs;
    var front := b'[..|b'| - |b|];
    assert b' == front + b;
    TableSizeShift(front, b, off, off - start);
  }

  lemma StartLogged(s: State, log: Log)
    requires Good(s, log) && Allowed(s, log, StartTableOp)
    ensures Step(s, log, StartTableOp).1.start == |s.bytes|
  {
    hide Good, LeastPadding;
  }

  lemma SizeEnded(s: State, log: Log, n: nat)
    requires Good(s, log) && Allowed(s, log, EndTableOp(n))
    ensures var b := Step(s, log, EndTableOp(n)).0.bytes;
      log.start < TableOffset(s) && TableSizeIs(b, TableOffset(s), TableOffset(s) - log.start)
  {
    hide Good, LeastPadding, EndTable, TableOffset, TableSizeIs;
    EndTableAllowed(s, log, n);
    EndedSize(s, log.start, n);
  }

  /** Likewise a reference leads to the object it was given. */
  lemma ReferenceReads(pre: seq<Op>, op: Op, mid: seq<Op>, n: nat, post: seq<Op>, off: nat)
    requires Good(INIT, NO_LOG) && Legal(INIT, NO_LOG, Whole(pre, op, mid, n, post))
    requires (forall o <- mid :: WithinTable(o)) && (forall o <- post :: !o.ClearOp?) && op.AddOffsetOp? && op.off != 0
    ensures Legal(INIT, NO_LOG, pre) && Legal(INIT, NO_LOG, UpTo(pre, op, mid))
    ensures off == FinishedAt(UpTo(pre, op, mid)) ==>
      var b := Run(INIT, NO_LOG, Whole(pre, op, mid, n, post)).0.bytes;
      LeadsTo(b, |b| - off, op.field, op.off)
  {
    hide Good, Legal, Run, FinishedAt, LeadsTo;
    AddsEndUp(pre, op, mid, n, post);
    var (s, log) := Run(INIT, NO_LOG, pre);
    var (t, end) := Run(INIT, NO_LOG, Whole(pre, op, mid, n, post));
    if off == FinishedAt(UpTo(pre, op, mid)) {
      ReferenceLogged(s, log, op);
      PointerRoundTrip(t, end, off, op.field, op.off);
    }
  }

  lemma ReferenceLogged(s: State, log: Log, op: Op)
    requires Good(s, log) && Allowed(s, log, op) && op.AddOffsetOp? && op.off != 0
    ensures op.field in Step(s, log, op).1.adds
    ensures var a := Step(s, log, op).1.adds[op.field];
      a == Added(Integer, 4, a.off - op.off, 0, a.forced, a.off) && 0 < op.off < a.off
  {
    hide Good, LeastPadding, AddOffset;
    GoodAddOffset(s, log, op.field, op.off);
  }

  /** Builder and verifier agree: the vtable of every finished table is accepted, and so is every field at the size
      it was added with. Fields never added are accepted at any size. */
  lemma VerifierAccepts(s: State, log: Log, off: nat, id: nat, size: nat)
    requires Good(s, log) && off in log.tables && 4 <= id && id % 2 == 0
    requires id in log.tables[off] ==> size == log.tables[off][id].size
    ensures VTableAccepted(s.bytes, |s.bytes| - off)
    ensures OffsetReadable(s.bytes, |s.bytes| - off, id) && FieldAccepted(s.bytes, |s.bytes| - off, id, size)
  {
    hide Good, TableOk, OffsetReadable, FieldAccepted, VTableAccepted;
    TableIsOk(s, log, off);
    TableFieldAccepted(s.bytes, off, log.tables[off], id, size);
  }

  lemma TableFieldAccepted(b: Bytes, off: nat, adds: map<nat, Added>, id: nat, size: nat)
    requires TableOk(b, off, adds) && 4 <= id && id % 2 == 0 && (id in adds ==> size == adds[id].size)
    ensures VTableAccepted(b, |b| - off)
    ensures OffsetReadable(b, |b| - off, id) && FieldAccepted(b, |b| - off, id, size)
  {
    if id in adds {
      assert FieldOk(b, |b| - off, id, adds[id]);
    } else {
      assert FieldAbsent(b, |b| - off, id);
    }
  }

  /** With sharing on throughout, no two remembered vtables are byte-equal. */
  lemma VTablesNeverRepeat(ops: seq<Op>)
    requires Good(INIT, NO_LOG) && Legal(INIT, NO_LOG, ops)
    requires forall op <- ops :: op != DedupVtablesOp(false)
    ensures var (s, log) := Run(INIT, NO_LOG, ops);
      && (forall v <- s.vtables :: VTableFits(s.bytes, v))
      && forall i, j | 0 <= i < j < |s.vtables| ::
        VTableBytes(s.bytes, s.vtables[i]) != VTableBytes(s.bytes, s.vtables[j])
  {
    DedupStays(INIT, NO_LOG, ops);
  }

  lemma {:induction false} DedupStays(s: State, log: Log, ops: seq<Op>)
    requires Good(s, log) && Legal(s, log, ops) && s.dedupVtables && log.alwaysDedup
    requires forall op <- ops :: op != DedupVtablesOp(false)
    ensures Run(s, log, ops).1.alwaysDedup
    decreases |ops|
  {
    hide LeastPadding;
    if ops != [] {
      StepGood(s, log, ops[0]);
      assert ops[0] in ops && forall op <- ops[1..] :: op in ops;
      StepDedup(s, log, ops[0]);
      var (t, log') := Step(s, log, ops[0]);
      DedupStays(t, log', ops[1..]);
    }
  }

  lemma StepDedup(s: State, log: Log, op: Op)
    requires Good(s, log) && Allowed(s, log, op) && s.dedupVtables && log.alwaysDedup && op != DedupVtablesOp(false)
    ensures var (t, log') := Step(s, log, op); t.dedupVtables && log'.alwaysDedup
  {
    hide LeastPadding, Good, CreateString, CreateSharedString, Finish, EndPrefix, PoolSorted, Keys, LowerBound, LE32,
      Zeros, ToLE, StringAt, CStr, SameScalar;
    match op
    case FinishOp(root, identifier, sizePrefix) => FinishParts(s, root, identifier, sizePrefix);
    case StringOp(text) => CreateStringBytes(s, text);
    case SharedStringOp(text) =>
      PoolOfGood(s, log);
      SharedOutcome(s, text);
      CreateStringBytes(s, text);
    case _ =>
  }

  // ----- shared strings

  /** Two CreateSharedString calls since the last Clear returned the same offset exactly if their texts agree up to
      the first NUL. */
  lemma SharedExactly(s: State, log: Log, i: nat, j: nat)
    requires Good(s, log) && i < |log.shared| && j < |log.shared|
    ensures log.shared[i].off == log.shared[j].off <==> CStr(log.shared[i].text) == CStr(log.shared[j].text)
  {
    hide StringAt, TablesOk, StringsOk, VTablesOk, ScalarsOk, FieldsOk, UnfinishedOk;
    PoolInjective(s.bytes, s.stringPool, log.shared[i].off, log.shared[j].off);
  }

  /** For texts without NUL that is equality of contents, and the offset leads to the text itself. */
  lemma SharedNulFree(s: State, log: Log, i: nat, j: nat)
    requires Good(s, log) && i < |log.shared| && j < |log.shared|
    requires forall k | 0 <= k < |log.shared| :: 0 !in log.shared[k].text
    ensures log.shared[i].off == log.shared[j].off <==> log.shared[i].text == log.shared[j].text
    ensures StringOk(s.bytes, log.shared[i].off, log.shared[i].text)
  {
    hide TablesOk, StringsOk, VTablesOk, ScalarsOk, FieldsOk, UnfinishedOk;
    SharedExactly(s, log, i, j);
    CStrOfNulFree(log.shared[i].text);
    CStrOfNulFree(log.shared[j].text);
    var x := log.shared[i].off;
    var k :| 0 <= k < |log.shared| && log.shared[k] == Shared(TextOf(s.bytes, x), x);
    CStrOfNulFree(log.shared[k].text);
  }

  /** A call whose text is pooled already leaves the contents, the size and the pool as they were. */
  lemma DuplicateLeavesNoTrace(s: State, log: Log, text: Bytes, i: nat)
    requires Good(s, log) && Room(s, |text| + 12) && i < |log.shared| && CStr(log.shared[i].text) == CStr(text)
    ensures var (t, off) := CreateSharedString(s, text);
      off == log.shared[i].off && t == s.(minalign := Max(4, s.minalign))
  {
    hide CreateSharedString, TablesOk, StringsOk, VTablesOk, ScalarsOk, FieldsOk, UnfinishedOk;
    SharedOutcome(s, text);
    var keys, pool, x := Keys(s.bytes, s.stringPool), s.stringPool, log.shared[i].off;
    var k :| 0 <= k < |pool| && pool[k] == x;
    assert keys[k] == CStr(text);
    var (t, off) := CreateSharedString(s, text);
    assert off in pool && Key(s.bytes, off) == CStr(text);
    PoolInjective(s.bytes, pool, off, x);
  }

  const NUL_B: Bytes := [97, 0, 98]
  const NUL_C: Bytes := [97, 0, 99]

  /** Sharing does go wrong behind a NUL: in any state, two different texts get one offset. */
  lemma NulConfusesSharing(s: State, log: Log)
    requires Good(s, log) && Room(s, 40)
    ensures NUL_B != NUL_C && 0 in NUL_B && PoolOk(s)
    ensures var (t, off) := CreateSharedString(s, NUL_B);
      Room(t, 20) && PoolOk(t) && CreateSharedString(t, NUL_C).1 == off
  {
    hide LeastPadding, Good, CreateSharedString, CStr, PoolOk, Grown;
    SharedGrows(s, log, NUL_B);
    GoodSharedString(s, log, NUL_B);
    SameKeys();
    var (t, off) := CreateSharedString(s, NUL_B);
    var log' := SharedLogged(s, log, t, off, NUL_B);
    PoolOfGood(t, log');
    assert log'.shared[|log.shared|] == Shared(NUL_B, off);
    DuplicateLeavesNoTrace(t, log', NUL_C, |log.shared|);
  }

  lemma SameKeys()
    ensures CStr(NUL_B) == CStr(NUL_C)
  {
    assert CStr(NUL_B[1..]) == [] && CStr(NUL_C[1..]) == [];
  }

  // ----- finished buffers

  /** From the root word of a buffer to field id of its root table. */
  ghost predicate RootReadsBack(b: Bytes, sizePrefix: bool, adds: map<nat, Added>, id: nat, size: nat,
                                defaultval: nat) {
    && InBuffer(b, RootWord(sizePrefix), 4)
    && ReadsBack(b, GetRoot(b, RootWord(sizePrefix)), adds, id, size, defaultval)
  }

  /** Reading starts from the finished bytes alone: the root word leads to the root table, whose fields read back. */
  lemma FinishedBufferReads(s: State, log: Log, root: nat, identifier: Option<Bytes>, sizePrefix: bool,
                            id: nat, size: nat, defaultval: nat)
    requires Good(s, log) && CanFinish(s, root, identifier) && root in log.tables && 4 <= id && id % 2 == 0
    ensures RootReadsBack(Finish(s, root, identifier, sizePrefix).bytes, sizePrefix, log.tables[root], id, size,
                          defaultval)
  {
    hide Good, Finish, HeaderWords, TableOk, ReadsBack;
    var t := Finish(s, root, identifier, sizePrefix);
    GoodFinish(s, log, root, identifier, sizePrefix);
    FinishedRoot(s, root, identifier, sizePrefix);
    TableIsOk(t, log.(scalars := log.scalars + HeaderWords(t, sizePrefix)), root);
    ReadBack(t.bytes, root, log.tables[root], id, size, defaultval);
  }

  lemma TableIsOk(s: State, log: Log, off: nat)
    requires Good(s, log) && off in log.tables
    ensures TableOk(s.bytes, off, log.tables[off])
  {
    hide TableOk, StringsOk, VTablesOk, SharedOk, ScalarsOk, FieldsOk, UnfinishedOk;
  }

  /** Where a stored field of a finished table lies. */
  lemma FieldPlace(b: Bytes, off: nat, adds: map<nat, Added>, id: nat)
    requires TableOk(b, off, adds) && id in adds && adds[id].off != 0
    ensures off <= |b| && OffsetReadable(b, |b| - off, id)
    ensures |b| - off + GetOptionalFieldOffset(b, |b| - off, id) == |b| - adds[id].off
  {
    assert FieldOk(b, |b| - off, id, adds[id]);
  }

  lemma StoredFieldWritten(s: State, log: Log, off: nat, id: nat)
    requires Good(s, log) && off in log.tables && id in log.tables[off] && log.tables[off][id].off != 0
    ensures Written(log.tables[off][id].off, log.tables[off][id].size) in log.scalars
  {
    hide TablesOk, StringsOk, VTablesOk, SharedOk, ScalarsOk, UnfinishedOk;
    assert FieldsWritten(log.tables[off], log.scalars);
  }

  /** The stored field of the table at off lies at a multiple of its size from the start of the buffer. */
  predicate FieldAlignedAt(b: Bytes, off: nat, id: nat, size: nat) {
    && off <= |b| && OffsetReadable(b, |b| - off, id)
    && Aligned(|b| - off + GetOptionalFieldOffset(b, |b| - off, id), size)
  }

  lemma FieldAlignedIn(t: State, log: Log, off: nat, id: nat)
    requires Good(t, log) && Aligned(|t.bytes|, t.minalign)
    requires off in log.tables && id in log.tables[off] && log.tables[off][id].off != 0
    ensures FieldAlignedAt(t.bytes, off, id, log.tables[off][id].size)
  {
    hide Good, TableOk, OffsetReadable, Aligned;
    StoredFieldWritten(t, log, off, id);
    AlignedFromStart(t, log, Written(log.tables[off][id].off, log.tables[off][id].size));
    TableIsOk(t, log, off);
    FieldPlace(t.bytes, off, log.tables[off], id);
  }

  /** Every stored field of a finished table lies at a multiple of its size from the start of a finished buffer. */
  lemma FieldsAligned(s: State, log: Log, root: nat, identifier: Option<Bytes>, sizePrefix: bool, off: nat, id: nat)
    requires Good(s, log) && CanFinish(s, root, identifier)
    requires off in log.tables && id in log.tables[off] && log.tables[off][id].off != 0
    ensures FieldAlignedAt(Finish(s, root, identifier, sizePrefix).bytes, off, id, log.tables[off][id].size)
  {
    hide FieldAlignedAt,  LeastPadding, Finish, Good, HeaderWords;
    var t := Finish(s, root, identifier, sizePrefix);
    GoodFinish(s, log, root, identifier, sizePrefix);
    FinishedSize(s, root, identifier, sizePrefix);
    FieldAlignedIn(t, log.(scalars := log.scalars + HeaderWords(t, sizePrefix)), off, id);
  }
}
