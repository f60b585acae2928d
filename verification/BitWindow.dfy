/** The last bits received, kept in a 64 bit word. */
module BitWindow {
  function Half(v: bv64): bv64 { v >> 1 }

  predicate Low(v: bv64) { v & 1 == 1 }

  function And(v: bv64, w: bv64): bv64 { v & w }

  function Xor(v: bv64, w: bv64): bv64 { v ^ w }

  /** Bit k of a word, from the lowest. */
  predicate WordBit(v: bv64, k: nat) {
    if k == 0 then Low(v) else WordBit(Half(v), k - 1)
  }

  /** The word with one more bit. */
  function Pushed(window: bv64, bit: bool): bv64 { (window << 1) | (if bit then 1 else 0) }

  /** How many bits of a word are set, as the source counts them. */
  function Ones(v: bv64): nat
    decreases v
  {
    if v == 0 then 0 else Halves(v); (v & 1) as nat + Ones(v >> 1)
  }

  lemma Halves(v: bv64)
    requires v != 0
    ensures v >> 1 < v
  {}

  lemma OnesNext(v: bv64)
    ensures Ones(v) == (if Low(v) then 1 else 0) + Ones(Half(v))
  {
    LowAsNat(v);
    if v == 0 { ZeroHalf(); }
  }

  lemma LowAsNat(v: bv64)
    ensures (v & 1) as nat == if v & 1 == 1 then 1 else 0
  {}

  lemma ZeroHalf()
    ensures Half(0) == 0 && !Low(0) && Ones(0) == 0
  {}

  // ---- Eight bits at a time ----

  function Eighth(v: bv64): bv64 { v >> 8 }

  /** All of the lowest n bits are set. */
  predicate LowBits(v: bv64, n: nat) {
    n == 0 || (Low(v) && LowBits(Half(v), n - 1))
  }

  lemma {:induction false} LowBitsSet(v: bv64, n: nat, k: nat)
    requires LowBits(v, n) && k < n
    ensures WordBit(v, k)
    decreases n
  {
    hide Half, Low;
    if k > 0 { LowBitsSet(Half(v), n - 1, k - 1); }
  }

  lemma EighthIs(v: bv64)
    ensures Eighth(v) == Half(Half(Half(Half(Half(Half(Half(Half(v))))))))
  {}

  lemma ByteLows(v: bv64)
    ensures v & 0xFF == 0xFF ==> Low(v) && Low(Half(v)) && Low(Half(Half(v))) && Low(Half(Half(Half(v))))
    ensures v & 0xFF == 0xFF ==> var u := Half(Half(Half(Half(v))));
      Low(u) && Low(Half(u)) && Low(Half(Half(u))) && Low(Half(Half(Half(u))))
  {}

  lemma FourMore(v: bv64, n: nat)
    requires Low(v) && Low(Half(v)) && Low(Half(Half(v))) && Low(Half(Half(Half(v))))
    requires LowBits(Half(Half(Half(Half(v)))), n)
    ensures LowBits(v, n + 4)
  {
    hide Half, Low;
    var v1 := Half(v); var v2 := Half(v1); var v3 := Half(v2);
    assert LowBits(v3, n + 1) && LowBits(v2, n + 2) && LowBits(v1, n + 3);
  }

  lemma LowByte(v: bv64, rest: bv64, n: nat)
    requires v & 0xFF == 0xFF && Eighth(v) == rest && LowBits(rest, n)
    ensures LowBits(v, n + 8)
  {
    ByteLows(v);
    EighthIs(v);
    hide Half, Low, LowBits, Eighth;
    FourMore(Half(Half(Half(Half(v)))), n);
    FourMore(v, n + 4);
  }

  lemma LowThree()
    ensures LowBits(7, 3) && Low(127) && Half(127) == 63 && Half(63) == 31 && Half(31) == 15 && Half(15) == 7
    ensures Low(63) && Low(31) && Low(15)
  {
    assert Half(7) == 3 && Half(3) == 1 && LowBits(1, 1) && LowBits(3, 2);
  }

  lemma Low63()
    ensures LowBits(0x7FFF_FFFF_FFFF_FFFF, 63)
  {
    LowThree();
    hide Half, Low, LowBits;
    FourMore(127, 3);
    LowByte(0x7FFF, 0x7F, 7);
    LowByte(0x7F_FFFF, 0x7FFF, 15);
    LowByte(0x7FFF_FFFF, 0x7F_FFFF, 23);
    LowByte(0x7F_FFFF_FFFF, 0x7FFF_FFFF, 31);
    LowByte(0x7FFF_FFFF_FFFF, 0x7F_FFFF_FFFF, 39);
    LowByte(0x7F_FFFF_FFFF_FFFF, 0x7FFF_FFFF_FFFF, 47);
    LowByte(0x7FFF_FFFF_FFFF_FFFF, 0x7F_FFFF_FFFF_FFFF, 55);
  }

  // ---- Bits of combined words ----

  lemma Halved(v: bv64, w: bv64)
    ensures Half(And(v, w)) == And(Half(v), Half(w)) && (Low(And(v, w)) <==> Low(v) && Low(w))
    ensures Half(Xor(v, w)) == Xor(Half(v), Half(w)) && (Low(Xor(v, w)) <==> Low(v) != Low(w))
  {}

  lemma {:induction false} AndBit(v: bv64, w: bv64, k: nat)
    ensures WordBit(And(v, w), k) <==> WordBit(v, k) && WordBit(w, k)
    decreases k
  {
    Halved(v, w);
    hide Half, Low, And;
    if k > 0 { AndBit(Half(v), Half(w), k - 1); }
  }

  lemma {:induction false} XorBit(v: bv64, w: bv64, k: nat)
    ensures WordBit(Xor(v, w), k) <==> WordBit(v, k) != WordBit(w, k)
    decreases k
  {
    Halved(v, w);
    hide Half, Low, Xor;
    if k > 0 { XorBit(Half(v), Half(w), k - 1); }
  }

  lemma PushedLow(v: bv64, bit: bool)
    ensures Low(Pushed(v, bit)) <==> bit
    ensures Half(Pushed(v, bit)) == And(v, 0x7FFF_FFFF_FFFF_FFFF)
  {}

  /** The new bit is the lowest; the others move up. */
  lemma PushedBit(v: bv64, bit: bool, k: nat)
    requires k < 64
    ensures WordBit(Pushed(v, bit), k) <==> if k == 0 then bit else WordBit(v, k - 1)
  {
    PushedLow(v, bit);
    hide Half, Low, And, Pushed, LowBits;
    if k > 0 {
      AndBit(v, 0x7FFF_FFFF_FFFF_FFFF, k - 1);
      Low63();
      LowBitsSet(0x7FFF_FFFF_FFFF_FFFF, 63, k - 1);
    }
  }

  lemma {:induction false} ZeroBit(k: nat)
    ensures !WordBit(0, k)
  {
    ZeroHalf();
    hide Half, Low;
    if k > 0 { ZeroBit(k - 1); }
  }

  // ---- Counting ----

  /** How many of the bits below n are set. */
  function OnesBelow(v: bv64, n: nat): nat {
    if n == 0 then 0 else OnesBelow(v, n - 1) + if WordBit(v, n - 1) then 1 else 0
  }

  lemma {:induction false} OnesAbove(v: bv64, n: nat)
    ensures OnesBelow(v, n + 1) == (if Low(v) then 1 else 0) + OnesBelow(Half(v), n)
    decreases n
  {
    hide Half, Low;
    assert WordBit(v, n) == if n == 0 then Low(v) else WordBit(Half(v), n - 1);
    if n > 0 { OnesAbove(v, n - 1); }
  }

  function Shifted(v: bv64, n: nat): bv64 {
    if n == 0 then v else Shifted(Half(v), n - 1)
  }

  lemma FourShifts(v: bv64, n: nat)
    ensures Shifted(v, n + 4) == Shifted(Half(Half(Half(Half(v)))), n)
  {
    hide Half;
    var v1 := Half(v); var v2 := Half(v1); var v3 := Half(v2);
    assert Shifted(v, n + 4) == Shifted(v1, n + 3) == Shifted(v2, n + 2);
    assert Shifted(v2, n + 2) == Shifted(v3, n + 1) == Shifted(Half(v3), n);
  }

  lemma EightShifts(v: bv64, n: nat)
    ensures Shifted(v, n + 8) == Shifted(Eighth(v), n)
  {
    EighthIs(v);
    hide Half, Shifted, Eighth;
    FourShifts(v, n + 4);
    FourShifts(Half(Half(Half(Half(v)))), n);
  }

  lemma AllOut(v: bv64)
    ensures Eighth(Eighth(Eighth(Eighth(Eighth(Eighth(Eighth(Eighth(v)))))))) == 0
  {}

  lemma NothingLeft(v: bv64)
    ensures Shifted(v, 64) == 0
  {
    AllOut(v);
    hide Eighth, Half, Shifted;
    var v1 := Eighth(v); var v2 := Eighth(v1); var v3 := Eighth(v2); var v4 := Eighth(v3);
    var v5 := Eighth(v4); var v6 := Eighth(v5); var v7 := Eighth(v6);
    EightShifts(v, 56);
    EightShifts(v1, 48);
    EightShifts(v2, 40);
    EightShifts(v3, 32);
    EightShifts(v4, 24);
    EightShifts(v5, 16);
    EightShifts(v6, 8);
    EightShifts(v7, 0);
    NoShift(Eighth(v7));
  }

  lemma NoShift(v: bv64)
    ensures Shifted(v, 0) == v
  {}

  lemma {:induction false} OnesCounted(v: bv64, n: nat)
    requires Shifted(v, n) == 0
    ensures Ones(v) == OnesBelow(v, n)
    decreases n
  {
    OnesNext(v);
    ZeroHalf();
    hide Half, Low, Ones;
    if n > 0 {
      OnesCounted(Half(v), n - 1);
      OnesAbove(v, n - 1);
    }
  }

  /** The count is the number of places whose bit is set. */
  lemma OnesIsCount(v: bv64)
    ensures Ones(v) == OnesBelow(v, 64)
  {
    NothingLeft(v);
    OnesCounted(v, 64);
  }
}
