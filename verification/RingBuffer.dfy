/** The byte ring every queue of the host uses: a bounded queue that appends all or empties. */
module RingBuffer {
  type Byte = b: nat | b < 256

  /** The bytes from the read place to the write place, around the end. */
  function Between(b: seq<Byte>, o: nat, i: nat): (c: seq<Byte>)
    requires o <= |b| && i <= |b|
    ensures |c| == if o <= i then i - o else |b| - (o - i)
  {
    if o <= i then b[o..i] else b[o..] + b[..i]
  }

  /** The place after one. */
  function Up(p: nat, length: nat): nat { if p + 1 == length then 0 else p + 1 }

  lemma PutOne(b: seq<Byte>, o: nat, i: nat, x: Byte)
    requires o < |b| && i < |b| && |Between(b, o, i)| + 1 < |b|
    ensures Between(b[i := x], o, Up(i, |b|)) == Between(b, o, i) + [x]
  {
    var c := b[i := x];
    if o <= i {
      assert c[o..i] == b[o..i];
      if i + 1 < |b| { assert c[o..i + 1] == c[o..i] + [x]; } else { assert c[o..] == c[o..i] + [x]; }
    } else {
      assert c[..i + 1] == b[..i] + [x];
    }
  }

  lemma TakeOne(b: seq<Byte>, o: nat, i: nat)
    requires o < |b| && i < |b| && Between(b, o, i) != []
    ensures Between(b, o, i)[0] == b[o] && Between(b, Up(o, |b|), i) == Between(b, o, i)[1..]
  {}

  class Ring {
    var m_length: nat
    var m_buffer: array<Byte>
    var m_iPtr: nat
    var m_oPtr: nat

    ghost predicate Valid()
      reads this
    {
      m_buffer.Length == m_length && m_iPtr < m_length && m_oPtr < m_length
    }

    ghost function Contents(): (c: seq<Byte>)
      requires Valid()
      reads this, m_buffer
      ensures |c| < m_length
    {
      Between(m_buffer[..], m_oPtr, m_iPtr)
    }

    constructor (length: nat)
      requires length > 0
      ensures Valid() && fresh(m_buffer) && m_length == length && Contents() == []
    {
      m_length, m_buffer, m_iPtr, m_oPtr := length, new Byte[length](_ => 0), 0, 0;
    }

    method Clear()
      requires Valid()
      modifies `m_iPtr, `m_oPtr, m_buffer
      ensures Valid() && Contents() == []
    {
      m_iPtr, m_oPtr := 0, 0;
      for i := 0 to m_length
        invariant m_iPtr == 0 && m_oPtr == 0
      {
        m_buffer[i] := 0;
      }
    }

    function FreeSpace(): (n: nat)
      requires Valid()
      reads this, m_buffer
      ensures n == m_length - |Contents()|
    {
      // the source also clamps the result, which never exceeds the length
      if m_oPtr > m_iPtr then m_oPtr - m_iPtr else if m_iPtr > m_oPtr then m_length - (m_iPtr - m_oPtr) else m_length
    }

    function DataSize(): (n: nat)
      requires Valid()
      reads this, m_buffer
      ensures n == |Contents()|
    {
      m_length - FreeSpace()
    }

    /** Appends all the bytes when there is strictly more room than they need, and otherwise
        throws away everything that was waiting. */
    method AddData(data: seq<Byte>) returns (ok: bool)
      requires Valid()
      modifies this, m_buffer
      ensures Valid() && m_buffer == old(m_buffer) && m_length == old(m_length)
      ensures ok <==> |old(Contents())| + |data| < m_length
      ensures Contents() == if ok then old(Contents()) + data else []
    {
      if |data| >= FreeSpace() {
        Clear();
        return false;
      }
      ghost var was := Contents();
      hide Between;
      for i := 0 to |data|
        invariant Valid() && m_buffer == old(m_buffer) && m_length == old(m_length)
        invariant Contents() == was + data[..i]
      {
        ghost var b := m_buffer[..];
        PutOne(b, m_oPtr, m_iPtr, data[i]);
        m_buffer[m_iPtr] := data[i];
        assert m_buffer[..] == b[m_iPtr := data[i]];
        m_iPtr := m_iPtr + 1;
        if m_iPtr == m_length { m_iPtr := 0; }
        assert was + data[..i + 1] == (was + data[..i]) + [data[i]];
      }
      return true;
    }

    /** Removes n bytes from the front, or nothing. */
    method GetData(n: nat) returns (ok: bool, out: seq<Byte>)
      requires Valid()
      modifies `m_oPtr
      ensures Valid() && (ok <==> n <= |old(Contents())|)
      ensures ok ==> out == old(Contents())[..n] && Contents() == old(Contents())[n..]
      ensures !ok ==> out == [] && Contents() == old(Contents())
    {
      out := [];
      if DataSize() < n { return false, []; }
      ghost var was := Contents();
      hide Between;
      for i := 0 to n
        invariant Valid() && out == was[..i] && Contents() == was[i..]
      {
        TakeOne(m_buffer[..], m_oPtr, m_iPtr);
        out := out + [m_buffer[m_oPtr]];
        m_oPtr := m_oPtr + 1;
        if m_oPtr == m_length { m_oPtr := 0; }
      }
      return true, out;
    }

    /** The same without removing them. */
    method Peek(n: nat) returns (ok: bool, out: seq<Byte>)
      requires Valid()
      ensures ok <==> n <= |Contents()|
      ensures out == if ok then Contents()[..n] else []
    {
      out := [];
      if DataSize() < n { return false, []; }
      ghost var was := Contents();
      var ptr: nat := m_oPtr;
      hide Between;
      for i := 0 to n
        invariant ptr < m_length && out == was[..i] && Between(m_buffer[..], ptr, m_iPtr) == was[i..]
      {
        TakeOne(m_buffer[..], ptr, m_iPtr);
        out := out + [m_buffer[ptr]];
        ptr := ptr + 1;
        if ptr == m_length { ptr := 0; }
      }
      return true, out;
    }
  }
}
