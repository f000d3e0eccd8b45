/** The builder itself: FlatBufferBuilder in include/flatbuffers/flatbuffers.h, proved to take the steps of
    FlatModel.dfy on its fields. */
module FlatBuilder {
  import opened FlatBase
  import opened FlatReader
  import opened FlatFormat
  import opened FlatStrings
  import M = FlatModel
  import FlatRuns
  import opened Downward

  class FlatBufferBuilder {
    const buf: VectorDownward
    var offsetbuf: seq<FieldLoc>
    var nested: bool
    var finished: bool
    var vtables: seq<nat>
    var minalign: nat
    var forceDefaults: bool
    var dedupVtables: bool
    var stringPool: seq<nat>

    ghost predicate Valid()
      reads this, buf, buf.buf
    {
      buf.Valid()
    }

    ghost function State(): M.State
      requires Valid()
      reads this, buf, buf.buf
    {
      M.State(buf.Contents(), offsetbuf, nested, finished, vtables, minalign, forceDefaults, dedupVtables, stringPool)
    }

    constructor (initialSize: nat)
      requires initialSize <= INITIAL_SIZE_LIMIT
      ensures Valid() && fresh(buf) && buf.buf == null && State() == M.INIT
    {
      buf := new VectorDownward(initialSize);
      offsetbuf, nested, finished, vtables, minalign := [], false, false, [], 1;
      forceDefaults, dedupVtables, stringPool := false, true, [];
    }

    /** Forgets everything built and keeps the memory; force_defaults_ and dedup_vtables_ survive. */
    method Clear()
      requires Valid()
      modifies this, buf
      ensures Valid() && buf.buf == old(buf.buf)
      ensures State() == M.INIT.(forceDefaults := old(forceDefaults), dedupVtables := old(dedupVtables))
    {
      buf.Clear();
      offsetbuf, nested, finished, vtables, minalign, stringPool := [], false, false, [], 1, [];
    }

    method Align(elemSize: nat)
      requires Valid() && M.Scalar(elemSize) && M.Room(State(), M.PaddingOf(State(), 0, elemSize))
      modifies this`minalign, buf, buf.buf
      ensures Valid() && State() == M.Align(old(State()), elemSize)
      ensures buf.buf == old(buf.buf) || fresh(buf.buf)
    {
      if elemSize > minalign {
        minalign := elemSize;
      }
      var size := buf.Size();
      PaddingIsLeast(size, elemSize);
      buf.Fill(PaddingBytes(size, elemSize));
    }

    method PushBytes(bytes: Bytes)
      requires Valid() && M.Room(State(), |bytes|)
      modifies buf, buf.buf
      ensures Valid() && State() == M.Push(old(State()), bytes)
      ensures buf.buf == old(buf.buf) || fresh(buf.buf)
    {
      buf.Push(bytes);
    }

    method PushElement(value: nat, size: nat) returns (off: nat)
      requires Valid() && M.Scalar(size) && M.Room(State(), M.PaddingOf(State(), 0, size) + size)
      modifies this`minalign, buf, buf.buf
      ensures Valid() && State() == M.PushElement(old(State()), value, size) && off == |State().bytes|
      ensures buf.buf == old(buf.buf) || fresh(buf.buf)
    {
      Align(size);
      PushBytes(ToLE(value, size));
      off := buf.Size();
    }

    method Pad(n: nat)
      requires Valid() && M.Room(State(), n)
      modifies buf, buf.buf
      ensures Valid() && State() == M.Push(old(State()), Zeros(n))
      ensures buf.buf == old(buf.buf) || fresh(buf.buf)
    {
      buf.Fill(n);
    }

    method StartTable() returns (off: nat)
      requires Valid() && !nested
      modifies this`nested
      ensures Valid() && State() == M.StartTable(old(State())) && off == |State().bytes|
    {
      nested := true;
      off := buf.Size();
    }

    method TrackField(field: nat, off: nat)
      requires Valid()
      modifies this`offsetbuf
      ensures Valid() && State() == old(State()).(offsetbuf := old(offsetbuf) + [FieldLoc(off, field)])
    {
      offsetbuf := offsetbuf + [FieldLoc(off, field)];
    }

    method AddElement(field: nat, kind: Kind, e: nat, def: nat, size: nat)
      requires Valid() && M.Scalar(size)
      requires !M.Skipped(State(), kind, e, def, size) ==> M.Room(State(), M.PaddingOf(State(), 0, size) + size)
      modifies this`minalign, this`offsetbuf, buf, buf.buf
      ensures Valid() && State() == M.AddElement(old(State()), field, kind, e, def, size)
      ensures State() == old(State()) <==> !forceDefaults && EqualsDefault(Added(kind, size, e, def, false, 0))
      ensures buf.buf == old(buf.buf) || fresh(buf.buf)
    {
      FlatRuns.SkippedIs(State(), Added(kind, size, e, def, false, 0));
      // a default costs no bytes
      if M.SameScalar(kind, size, e, def) && !forceDefaults {
        return;
      }
      var off := PushElement(e, size);
      TrackField(field, off);
    }

    /** The reference to off relative to the word written next. */
    method ReferTo(off: nat) returns (rel: nat)
      requires Valid() && 0 < off <= |State().bytes| && M.Room(State(), M.PaddingOf(State(), 0, 4))
      modifies this`minalign, buf, buf.buf
      ensures Valid() && State() == M.Align(old(State()), 4) && rel == M.Reference(State(), off) && rel >= 4
      ensures buf.buf == old(buf.buf) || fresh(buf.buf)
    {
      Align(4);
      var size := buf.Size();
      rel := size - off + 4;
    }

    method AddOffset(field: nat, off: nat)
      requires Valid() && off <= |State().bytes| && M.Room(State(), 8)
      modifies this`minalign, this`offsetbuf, buf, buf.buf
      ensures Valid() && State() == M.AddOffset(old(State()), field, off)
      ensures buf.buf == old(buf.buf) || fresh(buf.buf)
    {
      if off == 0 {
        return;
      }
      M.AlignRoom(State(), 4);
      var rel := ReferTo(off);
      M.AlignRoom(State(), 4);
      AddElement(field, Integer, rel, 0, 4);
    }

    /** The first word of a table, filled in later, and zeroed room for the field offsets. */
    method PushBlank(numFields: nat) returns (table: nat)
      requires Valid() && M.Room(State(), 2 * numFields + 8)
      modifies this`minalign, buf, buf.buf
      ensures Valid() && State() == Blank(old(State()), numFields) && table == old(M.TableOffset(State()))
      ensures buf.buf == old(buf.buf) || fresh(buf.buf)
    {
      BlankBytes(State(), numFields);
      table := PushElement(0, 4);
      Pad(2 * numFields);
    }

    /** EndTable up to the loop over the fields: the table word and a vtable without fields. */
    method PushEmptyVTable(start: nat, numFields: nat) returns (table: nat)
      requires Valid() && M.CanEndTable(State(), start, numFields)
      modifies this`minalign, buf, buf.buf
      ensures Valid() && table == old(M.TableOffset(State()))
      ensures State() == old(EmptyVTableState(State(), start, numFields))
      ensures buf.buf == old(buf.buf) || fresh(buf.buf)
    {
      hide LeastPadding, M.PushElement, M.Align, M.PaddingOf, M.TableOffset, Blank, VTableImage, NoSlots, M.CanEndTable,
        IdsInRange;
      ghost var s := State();
      VTableRoom(s, start, numFields);
      EmptyVTable(s, start, numFields);
      table := PushBlank(numFields);
      var tableObjectSize := table - start;
      var _ := PushElement(tableObjectSize, 2);
      var _ := PushElement(2 * numFields + 4, 2);
    }

    /** The loop that writes the offsets into the vtable. */
    method WriteFieldOffsets(table: nat, numFields: nat, ghost objectSize: voffset, ghost tail: Bytes)
      requires Valid() && 2 * numFields + 4 < 0x1_0000 && IdsInRange(offsetbuf, table, numFields)
      requires buf.Contents() == VTableImage(objectSize, Slots([], table, numFields)) + tail
      modifies buf.buf
      ensures Valid() && buf.Contents() == VTableImage(objectSize, Slots(offsetbuf, table, numFields)) + tail
    {
      var i := 0;
      while i < |offsetbuf|
        invariant 0 <= i <= |offsetbuf| && Valid() && IdsInRange(offsetbuf[..i], table, numFields)
        invariant buf.Contents() == VTableImage(objectSize, Slots(offsetbuf[..i], table, numFields)) + tail
      {
        var field := offsetbuf[i];
        var pos := table - field.off;
        SlotWritten(objectSize, offsetbuf, i, table, numFields, tail);
        ToLEIsLE16(pos);
        buf.Write(field.id, ToLE(pos, 2));
        i := i + 1;
      }
      assert offsetbuf[..i] == offsetbuf;
    }

    /** Compares the size, then the bytes, of a remembered vtable. */
    method SameVTable(v: nat, vt1: Bytes) returns (same: bool)
      requires Valid() && VTableFits(buf.Contents(), v) && |vt1| >= 2 && U16(vt1[0], vt1[1]) == |vt1|
      ensures same <==> VTableBytes(buf.Contents(), v) == vt1
    {
      var size := buf.Size();
      var head := buf.Read(size - v, 2);
      var vt2Size := U16(head[0], head[1]);
      same := false;
      if vt2Size == |vt1| {
        var vt2 := buf.Read(size - v, vt2Size);
        same := vt2 == vt1;
      }
    }

    /** The search of EndTable for an equal vtable. */
    method FindEqualVTable(vt1: Bytes) returns (r: M.Option<nat>)
      requires Valid() && forall v <- vtables :: VTableFits(buf.Contents(), v)
      requires |vt1| >= 2 && U16(vt1[0], vt1[1]) == |vt1|
      ensures r == M.FindVTable(buf.Contents(), vtables, vt1)
    {
      hide VTableFits, VTableBytes, U16;
      for i := 0 to |vtables|
        invariant M.FindVTable(buf.Contents(), vtables, vt1) == M.FindVTable(buf.Contents(), vtables[i..], vt1)
      {
        var same := SameVTable(vtables[i], vt1);
        if same {
          return M.Some(vtables[i]);
        }
      }
      return M.None;
    }

    /** From the vtable without fields to the complete one. */
    method FillVTable(table: nat, numFields: nat, ghost s: M.State, ghost start: nat)
      requires Valid() && M.CanEndTable(s, start, numFields) && table == M.TableOffset(s)
      requires State() == EmptyVTableState(s, start, numFields)
      modifies buf.buf
      ensures Valid() && buf.Contents() == FilledBytes(s, start, numFields)
    {
      hide LeastPadding, M.Align, M.PaddingOf, M.TableOffset, VTableImage, FilledBytes, EmptyVTableState, Slots, Zeros,
        M.CanEndTable, IdsInRange, IsPow2;
      VTableRoom(s, start, numFields);
      EmptyVTableIs(s, start, numFields);
      WriteFieldOffsets(table, numFields, table - start, Zeros(4) + M.Align(s, 4).bytes);
    }

    /** EndTable up to the search: the new vtable complete, in front of the table word. */
    method LayOutVTable(start: nat, numFields: nat) returns (table: nat)
      requires Valid() && M.CanEndTable(State(), start, numFields)
      modifies this`minalign, this`offsetbuf, buf, buf.buf
      ensures Valid() && table == old(M.TableOffset(State()))
      ensures State() == old(State()).(bytes := old(FilledBytes(State(), start, numFields)),
                                       minalign := M.Max(4, old(minalign)), offsetbuf := [])
      ensures buf.buf == old(buf.buf) || fresh(buf.buf)
    {
      hide M.TableOffset, FilledBytes, EmptyVTableState, M.CanEndTable, IsPow2;
      ghost var s := State();
      EmptyVTableRest(s, start, numFields);
      table := PushEmptyVTable(start, numFields);
      FillVTable(table, numFields, s, start);
      offsetbuf := [];
    }

    /** The sharing step of EndTable, with vt1Size bytes of vtable in front of the table: either pops the vtable in
        favour of an equal one written earlier, or remembers it. Returns the offset of the vtable to use. */
    method ShareVTable(table: nat, vt1Size: nat, ghost rest: Bytes) returns (vtUse: nat)
      requires Valid() && 2 <= vt1Size && |rest| == table && |buf.Contents()| == vt1Size + table
      requires var b := buf.Contents(); b[vt1Size..] == rest && U16(b[0], b[1]) == vt1Size
      requires forall v <- vtables :: VTableFits(buf.Contents(), v) && v < |buf.Contents()| && v != table
      modifies this`vtables, buf
      ensures Valid() && buf.buf == old(buf.buf)
      ensures var img := old(buf.Contents())[..vt1Size];
        var shared := if dedupVtables then M.FindVTable(old(buf.Contents()), old(vtables), img) else M.None;
        && (shared.Some? ==> vtUse == shared.value && vtables == old(vtables) && buf.Contents() == rest)
        && (shared.None? ==>
              vtUse == vt1Size + table && vtables == old(vtables) + [vtUse] && buf.Contents() == old(buf.Contents()))
    {
      hide VTableFits, VTableBytes, M.FindVTable;
      vtUse := buf.Size();
      if dedupVtables {
        var vt1 := buf.Read(0, vt1Size);
        assert vt1 == buf.Contents()[..vt1Size];
        var found := FindEqualVTable(vt1);
        if found.Some? {
          vtUse := found.value;
          var size := buf.Size();
          buf.Pop(size - table);
        }
      }
      var size := buf.Size();
      if vtUse == size {
        vtables := vtables + [vtUse];
      }
    }

    /** WriteScalar of an soffset_t. */
    method WriteSoffset(i: nat, v: int)
      requires Valid() && i + 4 <= |buf.Contents()| && -0x8000_0000 <= v < 0x8000_0000
      modifies buf.buf
      ensures Valid()
      ensures buf.Contents() == old(buf.Contents())[..i] + LE32(EncodeSigned32(v)) + old(buf.Contents())[i + 4..]
    {
      ToLEIsLE32(EncodeSigned32(v));
      buf.Write(i, ToLE(EncodeSigned32(v), 4));
    }

    /** EndTable up to the last step, which leads to the state end. */
    method ChooseVTable(start: nat, numFields: nat) returns (table: nat, vtUse: nat, ghost end: M.State)
      requires Valid() && M.CanEndTable(State(), start, numFields)
      requires forall v <- vtables :: VTableFits(State().bytes, v)
      modifies this`minalign, this`offsetbuf, this`vtables, buf, buf.buf
      ensures Valid() && table == old(M.TableOffset(State())) && end == M.EndTable(old(State()), start, numFields)
      ensures LinkedBytes(buf.Contents(), table, vtUse, end.bytes)
      ensures end == State().(bytes := end.bytes, nested := false)
      ensures buf.buf == old(buf.buf) || fresh(buf.buf)
    {
      hide M.Align, M.PaddingOf, M.NewVTable, M.EndTable, M.TableOffset, M.FindVTable, M.CanEndTable, VTableFits,
        VTableBytes, U16, FilledBytes, LinkedState, LinkedBytes, LE32, LeastPadding;
      ghost var s := State();
      FilledVTable(s, start, numFields);
      table := LayOutVTable(start, numFields);
      ghost var filled := buf.Contents();
      vtUse := ShareVTable(table, 2 * numFields + 4, filled[2 * numFields + 4..]);
      end := LinkedState(s, start, numFields, filled, vtUse, buf.Contents());
    }

    /** The last step of EndTable: fills in the table word. */
    method LinkTable(table: nat, vtUse: nat, ghost end: M.State)
      requires Valid() && LinkedBytes(buf.Contents(), table, vtUse, end.bytes)
      requires end == State().(bytes := end.bytes, nested := false)
      modifies this`nested, buf.buf
      ensures Valid() && State() == end
    {
      hide LE32, EncodeSigned32, U32;
      var size := buf.Size();
      WriteSoffset(size - table, vtUse - table);
      assert buf.Contents() == end.bytes;
      nested := false;
    }

    /** Finishes the table begun at start: links it to an equal vtable written earlier, popping the new one off
        again, or to the new one. */
    method EndTable(start: nat, numFields: nat) returns (table: nat)
      requires Valid() && M.CanEndTable(State(), start, numFields)
      requires forall v <- vtables :: VTableFits(State().bytes, v)
      modifies this`minalign, this`offsetbuf, this`vtables, this`nested, buf, buf.buf
      ensures Valid() && State() == M.EndTable(old(State()), start, numFields) && table == old(M.TableOffset(State()))
      ensures buf.buf == old(buf.buf) || fresh(buf.buf)
    {
      hide M.EndTable, M.TableOffset, LinkedBytes, VTableFits;
      var vtUse;
      ghost var end;
      table, vtUse, end := ChooseVTable(start, numFields);
      LinkTable(table, vtUse, end);
    }

    // ----- strings

    /** Pads so that after len more bytes the buffer is aligned; unlike Align this does not raise minalign_. */
    method PreAlign(len: nat, alignment: nat)
      requires Valid() && M.Scalar(alignment) && len <= MAX_BUFFER_SIZE
        && M.Room(State(), M.PaddingOf(State(), len, alignment))
      modifies buf, buf.buf
      ensures Valid() && State() == M.Push(old(State()), Zeros(M.PaddingOf(old(State()), len, alignment)))
      ensures buf.buf == old(buf.buf) || fresh(buf.buf)
    {
      var size := buf.Size();
      PaddingIsLeast(size + len, alignment);
      buf.Fill(PaddingBytes(size + len, alignment));
    }

    method CreateString(text: Bytes) returns (off: nat)
      requires Valid() && !nested && M.Room(State(), |text| + 12)
      modifies this`minalign, buf, buf.buf
      ensures Valid() && State() == M.CreateString(old(State()), text) && off == |State().bytes|
      ensures buf.buf == old(buf.buf) || fresh(buf.buf)
    {
      hide LeastPadding, ToLE, Aligned;
      M.StringRoom(State(), |text|);
      PreAlign(|text| + 1, 4);
      Pad(1);
      PushBytes(text);
      M.AlignRoom(State(), 4);
      off := PushElement(|text|, 4);
    }

    /** std::set::find and insert position: the first pooled string that does not compare less than the one at off. */
    method LowerBoundInPool(off: nat) returns (k: nat)
      requires Valid() && AllStrings(buf.Contents(), stringPool) && StringAt(buf.Contents(), off)
      ensures k == LowerBound(Keys(buf.Contents(), stringPool), Key(buf.Contents(), off))
    {
      var size := buf.Size();
      var all := buf.Read(0, size);
      assert all == buf.Contents();
      ghost var keys, key := Keys(all, stringPool), Key(all, off);
      k := 0;
      while k < |stringPool|
        invariant 0 <= k <= |stringPool|
        invariant LowerBound(keys, key) == k + LowerBound(keys[k..], key)
      {
        OffsetLessIsLex(all, stringPool[k], off);
        if !OffsetLess(all, stringPool[k], off) {
          break;
        }
        k := k + 1;
      }
    }

    /** Whether the pool holds a string equal to the one at off; k is where it is or would have to be inserted. */
    method FindInPool(off: nat) returns (k: nat, hit: bool)
      requires Valid() && PoolSorted(buf.Contents(), stringPool) && StringAt(buf.Contents(), off)
      ensures var b := buf.Contents();
        && k == LowerBound(Keys(b, stringPool), Key(b, off)) && k <= |stringPool|
        && (hit <==> k < |stringPool| && Keys(b, stringPool)[k] == Key(b, off))
    {
      k := LowerBoundInPool(off);
      PoolHit(buf.Contents(), stringPool, off, k);
      hit := false;
      if k < |stringPool| {
        var size := buf.Size();
        var all := buf.Read(0, size);
        assert all == buf.Contents();
        OffsetLessIsLex(all, off, stringPool[k]);
        hit := !OffsetLess(all, off, stringPool[k]);
      }
    }

    /** Pops everything pushed since the buffer had n bytes. */
    method PopBack(n: nat, ghost older: Bytes)
      requires Valid() && M.Extends(older, State().bytes) && n == |older|
      modifies buf
      ensures Valid() && State() == old(State()).(bytes := older)
      ensures buf.buf == old(buf.buf)
    {
      var size := buf.Size();
      buf.Pop(size - n);
    }

    /** std::set::insert at position k. */
    method Record(off: nat, k: nat)
      requires Valid() && k <= |stringPool|
      modifies this`stringPool
      ensures Valid() && State() == old(State()).(stringPool := old(stringPool)[..k] + [off] + old(stringPool)[k..])
    {
      stringPool := stringPool[..k] + [off] + stringPool[k..];
    }

    /** Serialises the text, looks it up in the pool, and pops it off again if an equal one is pooled. */
    method CreateSharedString(text: Bytes) returns (off: nat)
      requires Valid() && !nested && M.Room(State(), |text| + 12)
      requires PoolSorted(State().bytes, stringPool)
      modifies this`minalign, this`stringPool, buf, buf.buf
      ensures Valid() && State() == M.CreateSharedString(old(State()), text).0
      ensures off == M.CreateSharedString(old(State()), text).1
      ensures buf.buf == old(buf.buf) || fresh(buf.buf)
    {
      hide LeastPadding, M.CreateString, M.Extends, StringAt, Keys, Key, LowerBound, PoolSorted, CStr, TextOf,
        M.CreateSharedString;
      ghost var s := State();
      ghost var c := M.CreateString(s, text);
      FlatRuns.PoolAfterString(s, text);
      FlatRuns.SharedOutcome(s, text);
      var sizeBeforeString := buf.Size();
      off := CreateString(text);
      var k, hit := FindInPool(off);
      if hit {
        PopBack(sizeBeforeString, s.bytes);
        off := stringPool[k];
      } else {
        Record(off, k);
      }
    }

    // ----- finishing

    /** The padding of Finish and the file identifier. */
    method PushHeader(identifier: M.Option<Bytes>, sizePrefix: bool)
      requires Valid() && M.Room(State(), 40) && M.Scalar(minalign) && (identifier.Some? ==> |identifier.value| == 4)
      modifies buf, buf.buf
      ensures Valid() && State() == M.Headed(old(State()), identifier, sizePrefix)
      ensures buf.buf == old(buf.buf) || fresh(buf.buf)
    {
      hide LeastPadding;
      var header := (if sizePrefix then 4 else 0) + 4 + (if identifier.Some? then 4 else 0);
      LeastPaddingAligns(|State().bytes| + header, minalign);
      PreAlign(header, minalign);
      if identifier.Some? {
        PushBytes(identifier.value);
      }
    }

    /** PushElement(ReferTo(root)). */
    method PushReference(root: nat) returns (size: nat)
      requires Valid() && 0 < root <= |State().bytes| && M.Room(State(), 16)
      modifies this`minalign, buf, buf.buf
      ensures Valid() && M.Room(old(State()), 16) && M.Room(M.Align(old(State()), 4), 8)
      ensures var a := M.Align(old(State()), 4);
        State() == M.PushElement(a, M.Reference(a, root), 4) && size == |State().bytes|
      ensures buf.buf == old(buf.buf) || fresh(buf.buf)
    {
      hide LeastPadding, M.PushElement;
      M.AlignRoom(State(), 4);
      var rel := ReferTo(root);
      FlatRuns.PushElementParts(State(), rel, 4);
      size := PushElement(rel, 4);
    }

    /** Finish up to and with the root reference. */
    method PushRoot(root: nat, identifier: M.Option<Bytes>, sizePrefix: bool) returns (size: nat)
      requires Valid() && M.CanFinish(State(), root, identifier)
      modifies this`minalign, buf, buf.buf
      ensures Valid() && size == |State().bytes|
      ensures var a := M.BeforeRoot(old(State()), root, identifier, sizePrefix);
        && State() == M.PushElement(a, M.Reference(a, root), 4)
        && |State().bytes| <= |a.bytes| + 8
      ensures buf.buf == old(buf.buf) || fresh(buf.buf)
    {
      hide LeastPadding, M.PushElement, M.Align, M.Headed, M.PaddingOf, ToLE, Aligned, Zeros;
      ghost var s := State();
      PushHeader(identifier, sizePrefix);
      ghost var a := M.BeforeRoot(s, root, identifier, sizePrefix);
      FlatRuns.PushElementParts(a, M.Reference(a, root), 4);
      size := PushReference(root);
    }

    method Finish(root: nat, identifier: M.Option<Bytes>, sizePrefix: bool)
      requires Valid() && M.CanFinish(State(), root, identifier)
      modifies this`minalign, this`finished, buf, buf.buf
      ensures Valid() && State() == M.Finish(old(State()), root, identifier, sizePrefix)
      ensures buf.buf == old(buf.buf) || fresh(buf.buf)
    {
      hide LeastPadding, M.PushElement, M.BeforeRoot, M.PaddingOf, M.CanFinish;
      ghost var s := State();
      ghost var a := M.BeforeRoot(s, root, identifier, sizePrefix);
      var size := PushRoot(root, identifier, sizePrefix);
      if sizePrefix {
        FlatRuns.PushElementParts(State(), size, 4);
        var _ := PushElement(size, 4);
      }
      finished := true;
    }
  }

  /** In a sorted pool, the lower bound is an equal string exactly if it does not compare greater. */
  lemma PoolHit(b: Bytes, pool: seq<nat>, off: nat, k: nat)
    requires PoolSorted(b, pool) && StringAt(b, off) && k == LowerBound(Keys(b, pool), Key(b, off))
    ensures k < |pool| ==> (LexLess(Key(b, off), Key(b, pool[k])) <==> Keys(b, pool)[k] != Key(b, off))
  {
    if k < |pool| {
      LexTotal(Key(b, off), Key(b, pool[k]));
      LexIrreflexive(Key(b, off));
    }
  }

  /** The buffer in EndTable with the new vtable complete. */
  ghost function FilledBytes(s: M.State, start: nat, n: nat): (b: Bytes)
    requires M.CanEndTable(s, start, n)
  {
    M.NewVTable(s, start, n) + (Zeros(4) + M.Align(s, 4).bytes)
  }

  /** e is b with the table word filled in. */
  ghost predicate LinkedBytes(b: Bytes, table: nat, vtUse: nat, e: Bytes) {
    && 4 <= table <= |b| && -0x8000_0000 <= vtUse - table < 0x8000_0000
    && e == b[..|b| - table] + LE32(EncodeSigned32(vtUse - table)) + b[|b| - table + 4..]
  }

  /** Filling in the table word gives the state of M.EndTable. b is the buffer after the sharing step. */
  ghost function LinkedState(s: M.State, start: nat, n: nat, filled: Bytes, vtUse: nat, b: Bytes): (end: M.State)
    requires M.CanEndTable(s, start, n) && filled == FilledBytes(s, start, n) && |filled| >= 2 * n + 4
    requires var shared := M.VTableToShare(s, M.NewVTable(s, start, n));
      && (shared.Some? ==> vtUse == shared.value && b == filled[2 * n + 4..])
      && (shared.None? ==> vtUse == M.TableOffset(s) + 2 * n + 4 && b == filled)
    ensures end == M.EndTable(s, start, n)
    ensures LinkedBytes(b, M.TableOffset(s), vtUse, end.bytes)
    ensures end == s.(bytes := end.bytes, minalign := M.Max(4, s.minalign), offsetbuf := [], nested := false,
      vtables := end.vtables)
    ensures end.vtables == if M.VTableToShare(s, M.NewVTable(s, start, n)).Some? then s.vtables else s.vtables + [vtUse]
  {
    TableLinked(s, start, n, filled, vtUse, b);
    M.EndTable(s, start, n)
  }

  lemma NewVTableSize(s: M.State, start: nat, n: nat)
    requires M.CanEndTable(s, start, n)
    ensures |M.NewVTable(s, start, n)| == 2 * n + 4
  {
    hide LeastPadding;
    M.AlignRoom(s, 4);
  }

  lemma TableLinked(s: M.State, start: nat, n: nat, filled: Bytes, vtUse: nat, b: Bytes)
    requires M.CanEndTable(s, start, n) && filled == FilledBytes(s, start, n) && |filled| >= 2 * n + 4
    requires var shared := M.VTableToShare(s, M.NewVTable(s, start, n));
      && (shared.Some? ==> vtUse == shared.value && b == filled[2 * n + 4..])
      && (shared.None? ==> vtUse == M.TableOffset(s) + 2 * n + 4 && b == filled)
    ensures var table := M.TableOffset(s);
      && 4 <= table <= |b| && -0x8000_0000 <= vtUse - table < 0x8000_0000
      && M.EndTable(s, start, n) == s.(
        bytes := b[..|b| - table] + LE32(EncodeSigned32(vtUse - table)) + b[|b| - table + 4..],
        minalign := M.Max(4, s.minalign), offsetbuf := [], nested := false,
        vtables := if M.VTableToShare(s, M.NewVTable(s, start, n)).Some? then s.vtables else s.vtables + [vtUse])
  {
    hide LeastPadding, LE32, M.NewVTable;
    NewVTableSize(s, start, n);
    M.AlignRoom(s, 4);
    var table, rest, img := M.TableOffset(s), M.Align(s, 4).bytes, M.NewVTable(s, start, n);
    var k, word := |b| - table, LE32(EncodeSigned32(vtUse - table));
    assert filled[2 * n + 4..] == Zeros(4) + rest;
    if M.VTableToShare(s, img).Some? {
      assert b[..k] == [] && b[k + 4..] == rest;
      assert [] + word + rest == word + rest;
    } else {
      assert b[..k] == img && b[k + 4..] == rest;
    }
  }

  /** The state in EndTable once the vtable is laid out, before any field is filled in. */
  ghost function EmptyVTableState(s: M.State, start: nat, n: nat): M.State
    requires M.CanEndTable(s, start, n)
  {
    EmptyVTable(s, start, n);
    s.(bytes := VTableImage(M.TableOffset(s) - start, NoSlots(n)) + (Zeros(4) + M.Align(s, 4).bytes),
       minalign := M.Max(4, s.minalign))
  }

  lemma EmptyVTableRest(s: M.State, start: nat, n: nat)
    requires M.CanEndTable(s, start, n)
    ensures EmptyVTableState(s, start, n) == s.(bytes := EmptyVTableState(s, start, n).bytes,
      minalign := M.Max(4, s.minalign))
  {
  }

  /** The buffer before and after the loop over the fields. */
  lemma EmptyVTableIs(s: M.State, start: nat, n: nat)
    requires M.CanEndTable(s, start, n)
    ensures start <= M.TableOffset(s) < start + 0x1_0000 && IdsInRange(s.offsetbuf, M.TableOffset(s), n)
    ensures var objectSize, tail := M.TableOffset(s) - start, Zeros(4) + M.Align(s, 4).bytes;
      && EmptyVTableState(s, start, n) == s.(bytes :=
        VTableImage(objectSize, Slots([], M.TableOffset(s), n)) + tail, minalign := M.Max(4, s.minalign))
      && FilledBytes(s, start, n) == VTableImage(objectSize, Slots(s.offsetbuf, M.TableOffset(s), n)) + tail
  {
    hide LeastPadding, VTableImage;
    EmptyVTable(s, start, n);
  }

  lemma PushAlignedHalf(s: M.State, v: nat)
    requires M.Room(s, 2) && Aligned(|s.bytes|, 2) && v < 0x1_0000
    ensures M.PaddingOf(s, 0, 2) == 0
    ensures M.PushElement(s, v, 2) == s.(bytes := LE16(v) + s.bytes, minalign := M.Max(2, s.minalign))
  {
    hide LeastPadding;
    M.AlignRoom(s, 2);
    assert M.Align(s, 2).bytes == s.bytes;
    ToLEIsLE16(v);
  }

  /** The table word, still zero, and room for the fields. */
  ghost function Blank(s: M.State, n: nat): M.State
    requires M.Room(s, 0)
  {
    M.Push(M.PushElement(s, 0, 4), Zeros(2 * n))
  }

  lemma BlankBytes(s: M.State, n: nat)
    requires M.Room(s, 2 * n + 8)
    ensures M.PaddingOf(s, 0, 4) < 4 && |M.PushElement(s, 0, 4).bytes| == M.TableOffset(s)
    ensures Blank(s, n) == s.(bytes := Zeros(2 * n) + (Zeros(4) + M.Align(s, 4).bytes),
      minalign := M.Max(4, s.minalign))
    ensures Aligned(|Blank(s, n).bytes|, 2)
  {
    hide LeastPadding, ToLE, Aligned, M.PaddingOf;
    M.AlignRoom(s, 4);
    ZeroLE(4);
    EvenAbove(|M.Align(s, 4).bytes|, n);
  }

  lemma EvenAbove(x: nat, n: nat)
    requires Aligned(x, 4)
    ensures Aligned(2 * n + 4 + x, 2)
  {
  }

  lemma VTableRoom(s: M.State, start: nat, n: nat)
    requires M.CanEndTable(s, start, n)
    ensures M.Room(s, 2 * n + 8) && 2 * n + 4 < 0x1_0000 && M.Scalar(2) && M.Scalar(4)
  {
  }

  /** The bytes EndTable has written before it fills in the field offsets. */
  lemma EmptyVTable(s: M.State, start: nat, n: nat)
    requires M.CanEndTable(s, start, n)
    ensures M.PaddingOf(s, 0, 4) < 4 && |M.PushElement(s, 0, 4).bytes| == M.TableOffset(s)
    ensures start <= M.TableOffset(s) < start + 0x1_0000 && IdsInRange(s.offsetbuf, M.TableOffset(s), n)
    ensures var objectSize := M.TableOffset(s) - start;
      var sized := M.PushElement(Blank(s, n), objectSize, 2);
      && M.Room(Blank(s, n), 2) && M.PaddingOf(Blank(s, n), 0, 2) == 0
      && M.Room(sized, 2) && M.PaddingOf(sized, 0, 2) == 0
      && M.PushElement(sized, 2 * n + 4, 2) ==
           s.(bytes := VTableImage(objectSize, NoSlots(n)) + (Zeros(4) + M.Align(s, 4).bytes),
             minalign := M.Max(4, s.minalign))
  {
    hide LeastPadding, M.PushElement, Blank, LE16, EncodeSlots, M.PaddingOf, NoSlots, Aligned;
    M.AlignRoom(s, 4);
    BlankBytes(s, n);
    var blank, objectSize := Blank(s, n), M.TableOffset(s) - start;
    PushAlignedHalf(blank, objectSize);
    var sized := blank.(bytes := LE16(objectSize) + blank.bytes, minalign := M.Max(2, blank.minalign));
    FlatRuns.NextAligned(|blank.bytes|, 2);
    PushAlignedHalf(sized, 2 * n + 4);
    ZeroSlots(n);
    var tail := Zeros(4) + M.Align(s, 4).bytes;
    assert LE16(2 * n + 4) + (LE16(objectSize) + (Zeros(2 * n) + tail)) == VTableImage(objectSize, NoSlots(n)) + tail;
  }

  /** Writing one field's offset moves the vtable image on by one field. */
  lemma SlotWritten(objectSize: voffset, locs: seq<FieldLoc>, i: nat, table: nat, n: nat, tail: Bytes)
    requires i < |locs| && 2 * n + 4 < 0x1_0000
    requires IdsInRange(locs, table, n) && IdsInRange(locs[..i], table, n)
    ensures IdsInRange(locs[..i + 1], table, n)
    ensures var b, id := VTableImage(objectSize, Slots(locs[..i], table, n)) + tail, locs[i].id;
      VTableImage(objectSize, Slots(locs[..i + 1], table, n)) + tail
        == b[..id] + LE16(table - locs[i].off) + b[id + 2..]
  {
    assert locs[..i + 1][..i] == locs[..i] && locs[..i + 1][i] == locs[i];
    ImageUpdate(objectSize, Slots(locs[..i], table, n), (locs[i].id - 4) / 2, table - locs[i].off, tail);
  }

  lemma ImageUpdate(objectSize: voffset, slots: seq<voffset>, j: nat, v: voffset, tail: Bytes)
    requires 2 * |slots| + 4 < 0x1_0000 && j < |slots|
    ensures var b := VTableImage(objectSize, slots) + tail;
      VTableImage(objectSize, slots[j := v]) + tail == b[..2 * j + 4] + LE16(v) + b[2 * j + 6..]
  {
    SlotUpdate(slots, j, v);
    var head, enc := LE16(2 * |slots| + 4) + LE16(objectSize), EncodeSlots(slots);
    var b := head + enc + tail;
    assert b[..2 * j + 4] == head + enc[..2 * j] && b[2 * j + 6..] == enc[2 * j + 2..] + tail;
  }

  /** With all fields filled in, the search over the longer buffer finds what M.EndTable looks for. */
  lemma FilledVTable(s: M.State, start: nat, n: nat)
    requires M.CanEndTable(s, start, n) && forall v <- s.vtables :: VTableFits(s.bytes, v)
    ensures var img, b := M.NewVTable(s, start, n), FilledBytes(s, start, n);
      && (forall v <- s.vtables :: VTableFits(b, v) && v < |b| && v != M.TableOffset(s))
      && M.FindVTable(b, s.vtables, img) == M.FindVTable(s.bytes, s.vtables, img)
      && |img| == 2 * n + 4 && U16(img[0], img[1]) == |img| && U16(b[0], b[1]) == |img| && b[..|img|] == img
      && |b| == |img| + M.TableOffset(s)
  {
    hide LeastPadding;
    M.AlignRoom(s, 4);
    var img, gap := M.NewVTable(s, start, n), Zeros(M.PaddingOf(s, 0, 4));
    var b := img + (Zeros(4) + M.Align(s, 4).bytes);
    assert b == (img + (Zeros(4) + gap)) + s.bytes;
    FindVTableShift(img + (Zeros(4) + gap), s.bytes, s.vtables, img);
  }

  lemma {:induction false} FindVTableShift(pre: Bytes, b: Bytes, vtables: seq<nat>, img: Bytes)
    requires forall v <- vtables :: VTableFits(b, v)
    ensures forall v <- vtables :: VTableFits(pre + b, v)
    ensures M.FindVTable(pre + b, vtables, img) == M.FindVTable(b, vtables, img)
  {
    if vtables != [] {
      VTableShift(pre, b, vtables[0]);
      FindVTableShift(pre, b, vtables[1..], img);
    }
  }
}
