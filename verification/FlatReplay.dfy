/** Any run of the model, carried out on a builder. */
module FlatReplay {
  import opened FlatBase
  import opened FlatFormat
  import M = FlatModel
  import opened FlatRuns
  import opened FlatTheorems
  import opened FlatBuilder

  predicate OfTable(op: Op) {
    op.StartTableOp? || op.AddElementOp? || op.AddOffsetOp? || op.EndTableOp?
  }

  predicate OutsideTable(op: Op) {
    op.StringOp? || op.SharedStringOp? || op.FinishOp?
  }

  /** One operation. start is what the last StartTable returned. */
  method Apply(b: FlatBufferBuilder, op: Op, start: nat, ghost log: Log) returns (start': nat)
    requires b.Valid() && Good(b.State(), log) && Allowed(b.State(), log, op)
    requires b.nested ==> start == log.start
    modifies b, b.buf, b.buf.buf
    ensures b.Valid() && b.State() == old(Step(b.State(), log, op)).0
    ensures b.nested ==> start' == old(Step(b.State(), log, op)).1.start
    ensures b.buf.buf == old(b.buf.buf) || fresh(b.buf.buf)
  {
    if OfTable(op) {
      hide Good, Allowed, Step;
      start' := ApplyToTable(b, op, start, log);
      return;
    }
    if OutsideTable(op) {
      hide Good, Allowed, Step;
      start' := ApplyOutsideTable(b, op, start, log);
      return;
    }
    hide LeastPadding, Good;
    start' := start;
    match op
    case ForceDefaultsOp(fd) => b.forceDefaults := fd;
    case DedupVtablesOp(dedup) => b.dedupVtables := dedup;
    case ClearOp => b.Clear();
  }

  method ApplyToTable(b: FlatBufferBuilder, op: Op, start: nat, ghost log: Log) returns (start': nat)
    requires b.Valid() && Good(b.State(), log) && Allowed(b.State(), log, op) && OfTable(op)
    requires b.nested ==> start == log.start
    modifies b, b.buf, b.buf.buf
    ensures b.Valid() && b.State() == old(Step(b.State(), log, op)).0
    ensures b.nested ==> start' == old(Step(b.State(), log, op)).1.start
    ensures b.buf.buf == old(b.buf.buf) || fresh(b.buf.buf)
  {
    hide LeastPadding, M.AddElement, M.AddOffset, M.EndTable, M.CanEndTable, M.NewVTable, Good, Ended, ToLE, Aligned;
    start' := start;
    match op
    case StartTableOp => start' := b.StartTable();
    case AddElementOp(field, kind, e, def, size) =>
      AddKeeps(b.State(), field, kind, e, def, size);
      b.AddElement(field, kind, e, def, size);
    case AddOffsetOp(field, off) =>
      OffsetKeeps(b.State(), field, off);
      b.AddOffset(field, off);
    case EndTableOp(n) =>
      EndTableAllowed(b.State(), log, n);
      EndTableParts(b.State(), log.start, n);
      VTablesOfGood(b.State(), log);
      var _ := b.EndTable(start, n);
  }

  method ApplyOutsideTable(b: FlatBufferBuilder, op: Op, start: nat, ghost log: Log) returns (start': nat)
    requires b.Valid() && Good(b.State(), log) && Allowed(b.State(), log, op) && OutsideTable(op)
    requires b.nested ==> start == log.start
    modifies b, b.buf, b.buf.buf
    ensures b.Valid() && b.State() == old(Step(b.State(), log, op)).0
    ensures b.nested ==> start' == old(Step(b.State(), log, op)).1.start
    ensures b.buf.buf == old(b.buf.buf) || fresh(b.buf.buf)
  {
    hide LeastPadding, M.CreateString, M.CreateSharedString, M.Finish, M.CanFinish, HeaderWords,
      Good, Stringed, SharedLogged, Aligned;
    start' := start;
    match op
    case StringOp(text) =>
      CreateStringBytes(b.State(), text);
      var _ := b.CreateString(text);
    case SharedStringOp(text) =>
      PoolOfGood(b.State(), log);
      SharedOutcome(b.State(), text);
      CreateStringBytes(b.State(), text);
      var _ := b.CreateSharedString(text);
    case FinishOp(root, identifier, sizePrefix) =>
      FinishKeeps(b.State(), root, identifier, sizePrefix);
      b.Finish(root, identifier, sizePrefix);
  }

  lemma VTablesOfGood(s: M.State, log: Log)
    requires Good(s, log)
    ensures forall v <- s.vtables :: VTableFits(s.bytes, v)
  {
  }

  lemma AddKeeps(s: M.State, field: nat, kind: Kind, e: nat, def: nat, size: nat)
    requires M.Room(s, 2 * size) && M.Scalar(size)
    ensures M.AddElement(s, field, kind, e, def, size).nested == s.nested && M.PaddingOf(s, 0, size) < size
  {
    M.AlignRoom(s, size);
  }

  lemma OffsetKeeps(s: M.State, field: nat, off: nat)
    requires M.Room(s, 12) && off <= |s.bytes|
    ensures M.AddOffset(s, field, off).nested == s.nested && M.AddOffset(s, field, 0) == s
  {
    M.AlignRoom(s, 4);
  }

  lemma FinishKeeps(s: M.State, root: nat, identifier: M.Option<seq<byte>>, sizePrefix: bool)
    requires M.CanFinish(s, root, identifier)
    ensures !M.Finish(s, root, identifier, sizePrefix).nested
  {
    FinishParts(s, root, identifier, sizePrefix);
  }

  /** A builder that carries out a legal run ends in the state the model's run ends in, so everything proved of runs
      holds of its buffer. */
  method Replay(b: FlatBufferBuilder, ops: seq<Op>)
    requires b.Valid() && b.State() == M.INIT && Good(M.INIT, NO_LOG) && Legal(M.INIT, NO_LOG, ops)
    modifies b, b.buf, b.buf.buf
    ensures b.Valid() && b.State() == Run(M.INIT, NO_LOG, ops).0
  {
    ghost var log := NO_LOG;
    var start, i := 0, 0;
    while i < |ops|
      invariant 0 <= i <= |ops| && b.Valid() && Good(b.State(), log) && Legal(b.State(), log, ops[i..])
      invariant Run(b.State(), log, ops[i..]) == Run(M.INIT, NO_LOG, ops)
      invariant b.nested ==> start == log.start
      invariant b.buf.buf == old(b.buf.buf) || fresh(b.buf.buf)
    {
      hide Step, Good, Allowed;
      assert ops[i..][0] == ops[i] && ops[i..][1..] == ops[i + 1..];
      StepGood(b.State(), log, ops[i]);
      ghost var (t, log') := Step(b.State(), log, ops[i]);
      start := Apply(b, ops[i], start, log);
      log := log';
      i := i + 1;
    }
  }
}
