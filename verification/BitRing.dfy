/** The modem's ring of bits, each with a control bit beside it, packed eight to a byte. */
module BitRing {
  import opened Bits

  /** The place k behind the tail. */
  function Slot(tail: nat, k: nat, length: nat): (j: nat)
    requires tail < length && k <= length
    ensures j < length
  {
    if tail + k < length then tail + k else tail + k - length
  }

  /** The first n pairs from the tail on. */
  function Pairs(bits: seq<bv8>, control: seq<bv8>, tail: nat, n: nat, length: nat): (c: seq<(bool, bool)>)
    requires tail < length && n <= length <= 8 * |bits| && length <= 8 * |control|
    ensures |c| == n
  {
    seq(n, k requires 0 <= k < n => (BitAt(bits, Slot(tail, k, length)), BitAt(control, Slot(tail, k, length))))
  }

  class BitRb {
    const m_length: nat
    const m_bits: array<bv8>
    const m_control: array<bv8>
    var m_head: nat
    var m_tail: nat
    var m_full: bool
    var m_overflow: bool

    ghost predicate Valid()
      reads this
    {
      && 8 * m_bits.Length == m_length == 8 * m_control.Length && m_bits != m_control
      && m_head < m_length && m_tail < m_length && (m_full ==> m_head == m_tail)
    }

    /** How many pairs are waiting. */
    function GetData(): (n: nat)
      requires Valid()
      reads this
      ensures n <= m_length && m_head == Slot(m_tail, n, m_length) && (n == m_length <==> m_full)
    {
      if m_tail == m_head then (if m_full then m_length else 0)
      else if m_tail < m_head then m_head - m_tail
      else m_length - m_tail + m_head
    }

    function GetSpace(): (n: nat)
      requires Valid()
      reads this
      ensures n + GetData() == m_length
    {
      // the source also clamps the result, which never exceeds the length
      if m_tail == m_head then (if m_full then 0 else m_length)
      else if m_tail < m_head then m_length - m_head + m_tail
      else m_tail - m_head
    }

    ghost function Contents(): (c: seq<(bool, bool)>)
      requires Valid()
      reads this, m_bits, m_control
      ensures |c| == GetData()
    {
      Pairs(m_bits[..], m_control[..], m_tail, GetData(), m_length)
    }

    constructor (length: nat)
      requires length > 0 && length % 8 == 0
      ensures Valid() && fresh(m_bits) && fresh(m_control) && m_length == length && Contents() == [] && !m_overflow
    {
      m_length, m_head, m_tail, m_full, m_overflow := length, 0, 0, false, false;
      m_bits := new bv8[length / 8](_ => 0);
      m_control := new bv8[length / 8](_ => 0);
    }

    /** Appends a pair, or reports the overflow and changes nothing else. */
    method Put(bit: bool, control: bool) returns (ok: bool)
      requires Valid()
      modifies `m_head, `m_full, `m_overflow, m_bits, m_control
      ensures Valid() && (ok <==> |old(Contents())| < m_length)
      ensures Contents() == if ok then old(Contents()) + [(bit, control)] else old(Contents())
      ensures m_overflow == (old(m_overflow) || !ok)
    {
      if m_full {
        m_overflow := true;
        return false;
      }
      ghost var n, b, c := GetData(), m_bits[..], m_control[..];
      hide BitAt, Pairs, SameOutside;
      WriteBit(m_bits, m_head, bit);
      WriteBit(m_control, m_head, control);
      PairsPut(b, c, m_bits[..], m_control[..], m_tail, n, m_length);
      Grow();
      return true;
    }

    method Grow()
      requires Valid() && GetData() < m_length
      modifies `m_head, `m_full
      ensures Valid() && GetData() == old(GetData()) + 1
    {
      m_head := m_head + 1;
      if m_head >= m_length { m_head := 0; }
      if m_head == m_tail { m_full := true; }
    }

    /** Removes the oldest pair, or nothing. */
    method Get() returns (ok: bool, bit: bool, control: bool)
      requires Valid()
      modifies `m_tail, `m_full
      ensures Valid() && (ok <==> old(Contents()) != [])
      ensures ok ==> old(Contents()) == [(bit, control)] + Contents()
      ensures !ok ==> Contents() == old(Contents())
    {
      bit, control := false, false;
      if m_head == m_tail && !m_full { return false, bit, control; }
      hide BitAt, Pairs;
      ghost var n, tail := GetData(), m_tail;
      bit := BitAt(m_bits[..], m_tail);
      control := BitAt(m_control[..], m_tail);
      PairsGet(m_bits[..], m_control[..], m_tail, n, m_length);
      Advance();
      assert m_tail == Slot(tail, 1, m_length) && GetData() == n - 1;
      return true, bit, control;
    }

    method Advance()
      requires Valid() && GetData() > 0
      modifies `m_tail, `m_full
      ensures Valid() && m_tail == Slot(old(m_tail), 1, m_length) && GetData() == old(GetData()) - 1
    {
      m_full := false;
      m_tail := m_tail + 1;
      if m_tail >= m_length { m_tail := 0; }
    }

    method HasOverflowed() returns (overflow: bool)
      modifies `m_overflow
      ensures overflow == old(m_overflow) && !m_overflow
    {
      overflow := m_overflow;
      m_overflow := false;
    }
  }

  lemma PairsPut(b: seq<bv8>, c: seq<bv8>, d: seq<bv8>, e: seq<bv8>, tail: nat, n: nat, length: nat)
    requires tail < length && n < length <= 8 * |b| && length <= 8 * |c|
    requires SameOutside(d, b, Slot(tail, n, length), Slot(tail, n, length) + 1)
    requires SameOutside(e, c, Slot(tail, n, length), Slot(tail, n, length) + 1)
    ensures Pairs(d, e, tail, n + 1, length) ==
      Pairs(b, c, tail, n, length) + [(BitAt(d, Slot(tail, n, length)), BitAt(e, Slot(tail, n, length)))]
  {
    hide BitAt;
  }

  lemma PairsGet(b: seq<bv8>, c: seq<bv8>, tail: nat, n: nat, length: nat)
    requires tail < length && 0 < n <= length <= 8 * |b| && length <= 8 * |c|
    ensures Pairs(b, c, tail, n, length) ==
      [(BitAt(b, tail), BitAt(c, tail))] + Pairs(b, c, Slot(tail, 1, length), n - 1, length)
  {
    hide BitAt;
    forall k | 0 <= k < n - 1 ensures Slot(Slot(tail, 1, length), k, length) == Slot(tail, k + 1, length) {}
  }
}
