/** The byte vector that grows towards lower addresses: vector_downward in include/flatbuffers/flatbuffers.h. */
module Downward {
  import opened FlatBase

  const INITIAL_SIZE_LIMIT: nat := 0x4000_0000_0000_0000

  /** The growth policy of vector_downward. */
  function GrowthPolicy(initialSize: nat, bytes: nat): (r: nat)
    requires bytes < SIZE_T_LIMIT
    ensures bytes == 0 ==> r == initialSize
    ensures bytes > 0 ==> (bytes % 8 == 0 ==> bytes / 2 - 4 <= r) && r <= bytes / 2
  {
    HalfOfEights(bytes);
    if bytes == 0 then initialSize else MaskEight(bytes / 2)
  }

  lemma HalfOfEights(bytes: nat)
    ensures bytes % 8 == 0 ==> (bytes / 2) % 8 <= 4
  {
    if bytes % 8 == 0 {
      var k := bytes / 16;
      assert bytes == 16 * k || bytes == 16 * k + 8;
    }
  }

  /** The new reservation of reallocate(len). It has room for len more bytes, keeps 8-byte granularity, and grows
      enough that copying the old reservation is paid for by three times the increase. */
  function Regrown(initialSize: nat, reserved: nat, len: nat): (r: nat)
    requires reserved < SIZE_T_LIMIT && reserved % 8 == 0 && len > 0
    requires reserved + len + initialSize + reserved / 2 + 8 < SIZE_T_LIMIT
    ensures r % 8 == 0 && reserved + len <= r <= reserved + len + initialSize + reserved / 2 + 7
    ensures reserved <= 3 * (r - reserved)
  {
    var growth := GrowthPolicy(initialSize, reserved);
    var more := if len > growth then len else growth;
    EightfoldGrowth(reserved / 8, more);
    MaskEight(reserved + more + 8 - 1)
  }

  /** Arithmetic of Regrown with the reservation counted in units of eight bytes. */
  lemma EightfoldGrowth(k: nat, more: nat)
    requires more > 0 && (k > 0 ==> more >= 4 * k - 4)
    ensures var r := 8 * k + more + 7 - (8 * k + more + 7) % 8;
      r % 8 == 0 && 8 * k + more <= r <= 8 * k + more + 7 && 8 * k <= 3 * (r - 8 * k)
  {
  }

  class VectorDownward {
    const initialSize: nat
    var reserved: nat
    var buf: array?<byte>
    /** cur_ - buf_: the boundary between empty (below) and used (above). */
    var cur: nat
    /** Bytes moved by reallocations since the buffer was last allocated from nothing. */
    ghost var copied: nat

    ghost predicate Valid()
      reads this, buf
    {
      && initialSize <= INITIAL_SIZE_LIMIT
      && cur <= reserved < SIZE_T_LIMIT / 2
      && reserved - cur < MAX_BUFFER_SIZE
      && reserved % 8 == 0
      && (buf == null ==> reserved == 0)
      && (buf != null ==> buf.Length == reserved)
      && copied <= 3 * reserved
    }

    /** The used bytes, lowest address first. A byte at offset o (as in data_at) is Contents()[|Contents()| - o]. */
    ghost function Contents(): (s: seq<byte>)
      requires Valid()
      reads this, buf
      ensures |s| == reserved - cur
    {
      if buf == null then [] else buf[cur..]
    }

    constructor (initialSize: nat)
      requires initialSize <= INITIAL_SIZE_LIMIT
      ensures Valid() && Contents() == [] && buf == null && this.initialSize == initialSize
      ensures copied == 0
    {
      this.initialSize := initialSize;
      reserved, buf, cur, copied := 0, null, 0, 0;
    }

    /** Deallocates. */
    method Reset()
      requires Valid()
      modifies this
      ensures Valid() && Contents() == [] && buf == null && reserved == 0 && copied == 0
    {
      reserved, buf, cur, copied := 0, null, 0, 0;
    }

    /** Forgets the contents and keeps the reservation. */
    method Clear()
      requires Valid()
      modifies this
      ensures Valid() && Contents() == [] && buf == old(buf) && reserved == old(reserved) && copied == old(copied)
    {
      if buf != null {
        cur := reserved;
      } else {
        reserved, buf, cur := 0, null, 0;
      }
    }

    method Size() returns (n: nat)
      requires Valid()
      ensures n == |Contents()|
    {
      n := reserved - cur;
    }

    method Reallocate(len: nat)
      requires Valid() && cur < len && |Contents()| + len < MAX_BUFFER_SIZE
      modifies this
      ensures Valid() && len <= cur
      ensures Contents() == old(Contents())
      ensures buf != null && fresh(buf)
      ensures reserved > old(reserved) && copied == old(copied) + old(reserved)
    {
      var oldReserved, oldSize := reserved, reserved - cur;
      var newReserved := Regrown(initialSize, oldReserved, len);
      var p := new byte[newReserved];
      if buf != null {
        // reallocate_downward: the old region moves to the upper end of the new one
        var shift := newReserved - oldReserved;
        forall i | 0 <= i < oldReserved {
          p[shift + i] := buf[i];
        }
        assert p[shift + cur..] == buf[cur..];
      }
      ghost var before := Contents();
      reserved, buf, cur, copied := newReserved, p, newReserved - oldSize, copied + oldReserved;
      assert Contents() == before;
    }

    /** Makes room for len bytes below the contents; what they hold is not determined. */
    method MakeSpace(len: nat)
      requires Valid() && |Contents()| + len < MAX_BUFFER_SIZE
      modifies this
      ensures Valid() && |Contents()| == old(|Contents()|) + len
      ensures Contents()[len..] == old(Contents())
      ensures buf == old(buf) || fresh(buf)
      ensures len > 0 ==> buf != null
      ensures old(cur) >= len ==> buf == old(buf) && copied == old(copied)
    {
      if len > cur {
        Reallocate(len);
      }
      ghost var before := Contents();
      cur := cur - len;
      if buf != null {
        assert buf[cur..][len..] == before;
      }
    }

    /** memcpy of bytes in front of the contents; push_small is the same for a scalar's bytes. */
    method Push(bytes: seq<byte>)
      requires Valid() && |Contents()| + |bytes| < MAX_BUFFER_SIZE
      modifies this, buf
      ensures Valid() && Contents() == bytes + old(Contents())
      ensures buf == old(buf) || fresh(buf)
    {
      MakeSpace(|bytes|);
      if |bytes| > 0 {
        CopyInto(buf, cur, 0, bytes);
      }
    }

    /** memcpy to position i of the part of dest that begins at base. */
    static method CopyInto(dest: array<byte>, base: nat, i: nat, bytes: seq<byte>)
      requires base + i + |bytes| <= dest.Length
      modifies dest
      ensures dest[base..] == old(dest[base..])[..i] + bytes + old(dest[base..])[i + |bytes|..]
      ensures i == 0 ==> dest[base..] == bytes + old(dest[base..])[|bytes|..]
    {
      ghost var before := dest[base..];
      forall k | 0 <= k < |bytes| {
        dest[base + i + k] := bytes[k];
      }
      assert dest[base..][..i] == before[..i];
      assert dest[base..][i..i + |bytes|] == bytes;
      assert dest[base..][i + |bytes|..] == before[i + |bytes|..];
      assert before[..i] + bytes == if i == 0 then bytes else before[..i] + bytes;
    }

    /** Zero padding, byte by byte. */
    method Fill(n: nat)
      requires Valid() && |Contents()| + n < MAX_BUFFER_SIZE
      modifies this, buf
      ensures Valid() && Contents() == Zeros(n) + old(Contents())
      ensures buf == old(buf) || fresh(buf)
    {
      MakeSpace(n);
      if n > 0 {
        FillZero(buf, cur, n);
      }
    }

    /** The loop of fill(). */
    static method FillZero(dest: array<byte>, start: nat, n: nat)
      requires start + n <= dest.Length
      modifies dest
      ensures dest[start..] == Zeros(n) + old(dest[start..][n..])
    {
      ghost var rest := dest[start..][n..];
      for i := 0 to n
        invariant forall k | start <= k < start + i :: dest[k] == 0
        invariant dest[start..][n..] == rest
      {
        dest[start + i] := 0;
      }
      assert dest[start..][..n] == Zeros(n);
    }

    method Pop(n: nat)
      requires Valid() && n <= |Contents()|
      modifies this
      ensures Valid() && Contents() == old(Contents())[n..]
      ensures buf == old(buf)
    {
      ghost var before := Contents();
      cur := cur + n;
      assert Contents() == before[n..];
    }

    /** WriteScalar at position i above the lowest used byte. */
    method Write(i: nat, bytes: seq<byte>)
      requires Valid() && i + |bytes| <= |Contents()|
      modifies buf
      ensures Valid() && Contents() == old(Contents())[..i] + bytes + old(Contents())[i + |bytes|..]
    {
      if |bytes| > 0 {
        CopyInto(buf, cur, i, bytes);
      } else {
        assert Contents() == Contents()[..i] + bytes + Contents()[i..];
      }
    }

    /** The bytes at [i, i + n) above the lowest used byte. */
    method Read(i: nat, n: nat) returns (bytes: seq<byte>)
      requires Valid() && i + n <= |Contents()|
      ensures bytes == Contents()[i..i + n]
    {
      bytes := if buf == null then [] else buf[cur + i..cur + i + n];
      if buf != null {
        assert buf[cur..][i..i + n] == buf[cur + i..cur + i + n];
      }
    }
  }
}
