/** The two CRC-CCITT checksums: table driven, over whole buffers and as a stream. */
module Crc {
  import opened CrcTables

  /** The division low bit first (variant 1) or high bit first (variant 2). */
  datatype Variant = Low | High

  function Step(v: Variant, x: bv16): bv16 { match v case Low => StepLow(x) case High => StepHigh(x) }

  function Eight(v: Variant, x: bv16): bv16 { match v case Low => EightLow(x) case High => EightHigh(x) }

  /** Where a byte meets the register, and where the byte after it does. */
  function Enter(v: Variant, b: bv8): bv16 { match v case Low => b as bv16 case High => (b as bv16) << 8 }

  function Second(v: Variant, b: bv8): bv16 { match v case Low => (b as bv16) << 8 case High => b as bv16 }

  /** The register after one more byte: eight steps of the division. */
  function ByteStep(v: Variant, c: bv16, b: bv8): bv16 { Eight(v, Plus(c, Enter(v, b))) }

  function Fold(v: Variant, c: bv16, w: seq<bv8>): bv16 {
    if w == [] then c else ByteStep(v, Fold(v, c, w[..|w| - 1]), w[|w| - 1])
  }

  lemma PlusSwaps(a: bv16, b: bv16)
    ensures Plus(a, b) == Plus(b, a)
  {}

  lemma PlusAssociates(a: bv16, b: bv16, c: bv16)
    ensures Plus(Plus(a, b), c) == Plus(a, Plus(b, c))
  {}

  lemma PlusSelf(a: bv16)
    ensures Plus(a, a) == 0 && Plus(a, 0) == a
  {}

  lemma LowHalves(a: bv16, b: bv16)
    ensures (a ^ b) >> 1 == (a >> 1) ^ (b >> 1)
  {}

  lemma LowBits(a: bv16, b: bv16)
    ensures (a ^ b) & 1 == 1 <==> (a & 1 == 1) != (b & 1 == 1)
  {}

  lemma Feedback(x: bv16, y: bv16, p: bv16)
    ensures (x ^ p) ^ (y ^ p) == x ^ y
    ensures (x ^ p) ^ y == (x ^ y) ^ p && x ^ (y ^ p) == (x ^ y) ^ p
  {}

  lemma StepAddsLow(a: bv16, b: bv16)
    ensures StepLow(Plus(a, b)) == Plus(StepLow(a), StepLow(b))
  {
    LowHalves(a, b);
    LowBits(a, b);
    Feedback(a >> 1, b >> 1, 0x8408);
  }

  lemma HighHalves(a: bv16, b: bv16)
    ensures (a ^ b) << 1 == (a << 1) ^ (b << 1)
  {}

  lemma HighBits(a: bv16, b: bv16)
    ensures (a ^ b) & 0x8000 == 0x8000 <==> (a & 0x8000 == 0x8000) != (b & 0x8000 == 0x8000)
  {}

  lemma StepAddsHigh(a: bv16, b: bv16)
    ensures StepHigh(Plus(a, b)) == Plus(StepHigh(a), StepHigh(b))
  {
    HighHalves(a, b);
    HighBits(a, b);
    Feedback(a << 1, b << 1, 0x1021);
  }

  /** A step is additive. */
  lemma StepAdds(v: Variant, a: bv16, b: bv16)
    ensures Step(v, Plus(a, b)) == Plus(Step(v, a), Step(v, b))
  {
    hide StepLow, StepHigh, Plus;
    match v
    case Low => StepAddsLow(a, b);
    case High => StepAddsHigh(a, b);
  }

  /** A step takes nothing but zero to zero. */
  lemma StepZero(v: Variant, a: bv16)
    ensures Step(v, a) == 0 <==> a == 0
  {}

  lemma PlusZero(a: bv16, b: bv16)
    ensures Plus(a, b) == 0 <==> a == b
  {
    hide Plus;
    PlusSelf(a);
    PlusSelf(b);
    PlusAssociates(a, b, b);
    PlusSwaps(0, b);
  }

  /** So no two registers become the same. */
  lemma StepInjective(v: Variant, a: bv16, b: bv16)
    requires Step(v, a) == Step(v, b)
    ensures a == b
  {
    hide *;
    StepAdds(v, a, b);
    PlusZero(Step(v, a), Step(v, b));
    StepZero(v, Plus(a, b));
    PlusZero(a, b);
  }

  lemma EightIs(v: Variant, x: bv16)
    ensures Eight(v, x) == Step(v, Step(v, Step(v, Step(v, Step(v, Step(v, Step(v, Step(v, x))))))))
  {
    hide StepLow, StepHigh;
  }

  lemma EightAdds(v: Variant, a: bv16, b: bv16)
    ensures Eight(v, Plus(a, b)) == Plus(Eight(v, a), Eight(v, b))
  {
    hide *;
    EightIs(v, a);
    EightIs(v, b);
    EightIs(v, Plus(a, b));
    StepAdds(v, a, b);
    var a1, b1 := Step(v, a), Step(v, b);
    StepAdds(v, a1, b1);
    var a2, b2 := Step(v, a1), Step(v, b1);
    StepAdds(v, a2, b2);
    var a3, b3 := Step(v, a2), Step(v, b2);
    StepAdds(v, a3, b3);
    var a4, b4 := Step(v, a3), Step(v, b3);
    StepAdds(v, a4, b4);
    var a5, b5 := Step(v, a4), Step(v, b4);
    StepAdds(v, a5, b5);
    var a6, b6 := Step(v, a5), Step(v, b5);
    StepAdds(v, a6, b6);
    StepAdds(v, Step(v, a6), Step(v, b6));
  }

  lemma EightInjective(v: Variant, a: bv16, b: bv16)
    requires Eight(v, a) == Eight(v, b)
    ensures a == b
  {
    hide *;
    EightIs(v, a);
    EightIs(v, b);
    var a1, b1 := Step(v, a), Step(v, b);
    var a2, b2 := Step(v, a1), Step(v, b1);
    var a3, b3 := Step(v, a2), Step(v, b2);
    var a4, b4 := Step(v, a3), Step(v, b3);
    var a5, b5 := Step(v, a4), Step(v, b4);
    var a6, b6 := Step(v, a5), Step(v, b5);
    StepInjective(v, Step(v, a6), Step(v, b6));
    StepInjective(v, a6, b6);
    StepInjective(v, a5, b5);
    StepInjective(v, a4, b4);
    StepInjective(v, a3, b3);
    StepInjective(v, a2, b2);
    StepInjective(v, a1, b1);
    StepInjective(v, a, b);
  }

  /** A byte that waits in the second place comes to the front after eight steps. */
  lemma SecondComes(v: Variant, b: bv8)
    ensures Eight(v, Second(v, b)) == Enter(v, b)
  {}

  // ---- The table and the bits ----

  function Lo(c: bv16): bv8 { (c & 0xff) as bv8 }

  function Hi(c: bv16): bv8 { (c >> 8) as bv8 }

  /** The byte that looks up the table, and the other one moved to its place. */
  function Front(v: Variant, c: bv16): bv8 { match v case Low => Lo(c) case High => Hi(c) }

  function Back(v: Variant, c: bv16): bv8 { match v case Low => Hi(c) case High => Lo(c) }

  function Lookup(v: Variant, b: bv8): bv16 { match v case Low => LowTable(b) case High => HighTable(b) }

  lemma PartsLow(c: bv16)
    ensures c == Plus(Enter(Low, Front(Low, c)), Second(Low, Back(Low, c)))
  {}

  lemma PartsHigh(c: bv16)
    ensures c == Plus(Enter(High, Front(High, c)), Second(High, Back(High, c)))
  {}

  lemma Parts(v: Variant, c: bv16)
    ensures c == Plus(Enter(v, Front(v, c)), Second(v, Back(v, c)))
  {
    hide *;
    match v
    case Low => PartsLow(c);
    case High => PartsHigh(c);
  }

  lemma EnterAddsLow(a: bv8, b: bv8)
    ensures Enter(Low, a ^ b) == Plus(Enter(Low, a), Enter(Low, b))
  {}

  lemma EnterAddsHigh(a: bv8, b: bv8)
    ensures Enter(High, a ^ b) == Plus(Enter(High, a), Enter(High, b))
  {}

  lemma EnterAdds(v: Variant, a: bv8, b: bv8)
    ensures Enter(v, a ^ b) == Plus(Enter(v, a), Enter(v, b))
  {
    hide *;
    match v
    case Low => EnterAddsLow(a, b);
    case High => EnterAddsHigh(a, b);
  }

  lemma NibblesLow(b: bv8)
    ensures b >> 4 < 16 && b & 15 < 16
    ensures (b as bv16) == Plus(((b >> 4) << 4) as bv16, (b & 15) as bv16)
  {}

  lemma NibblesHigh(b: bv8)
    ensures (b as bv16) << 8 == Plus((((b >> 4) << 4) as bv16) << 8, ((b & 15) as bv16) << 8)
  {}

  /** Every entry of either table is the remainder of its index. */
  lemma LookupIs(v: Variant, b: bv8)
    ensures Lookup(v, b) == Eight(v, Enter(v, b))
  {
    hide Plus, EightLow, EightHigh, Spread, Entry, LowRow, HighRow;
    var h, l := b >> 4, b & 15;
    NibblesLow(b);
    match v {
      case Low =>
        LowRowIs(h);
        LowEntryIs(l);
        EntrySpread(LowRow(h), LOW0, l);
        EightAdds(Low, (h << 4) as bv16, l as bv16);
      case High =>
        NibblesHigh(b);
        HighRowIs(h);
        HighEntryIs(l);
        EntrySpread(HighRow(h), HIGH0, l);
        EightAdds(High, ((h << 4) as bv16) << 8, (l as bv16) << 8);
    }
  }

  /** The table driven step is the division by eight bits. */
  lemma TableStep(v: Variant, c: bv16, b: bv8)
    ensures Plus(Enter(v, Back(v, c)), Lookup(v, Front(v, c) ^ b)) == ByteStep(v, c, b)
  {
    var f, k := Front(v, c), Back(v, c);
    EnterAdds(v, f, b);
    hide Plus, Eight, Lookup, Enter, Second, Front, Back;
    Parts(v, c);
    LookupIs(v, f ^ b);
    SecondComes(v, k);
    var e, s, x := Enter(v, f), Second(v, k), Enter(v, b);
    // c + x = (e + x) + s
    PlusSwaps(e, s);
    PlusAssociates(s, e, x);
    EightAdds(v, s, Plus(e, x));
  }

  // ---- Bit by bit ----

  /** The bit of a place value that enters the division next, and the rest. */
  function Next(v: Variant, b: bv16): bv16 { match v case Low => b & 1 case High => b & 0x8000 }

  function Rest(v: Variant, b: bv16): bv16 { match v case Low => b >> 1 case High => b << 1 }

  /** The division with the message bits taken in one at a time. */
  function Serial(v: Variant, c: bv16, b: bv16, k: nat): bv16
    decreases k
  {
    if k == 0 then c else Serial(v, Step(v, Plus(c, Next(v, b))), Rest(v, b), k - 1)
  }

  lemma PeelLow(b: bv16)
    ensures b == Plus(Next(Low, b), b & 0xfffe) && StepLow(b & 0xfffe) == Rest(Low, b)
  {}

  lemma PeelHigh(b: bv16)
    ensures b == Plus(Next(High, b), b & 0x7fff) && StepHigh(b & 0x7fff) == Rest(High, b)
  {}

  /** The bits that have not entered yet only move up. */
  lemma Peel(v: Variant, c: bv16, b: bv16)
    ensures Step(v, Plus(c, b)) == Plus(Step(v, Plus(c, Next(v, b))), Rest(v, b))
  {
    hide Plus, Next, Rest, StepLow, StepHigh;
    var r := match v case Low => b & 0xfffe case High => b & 0x7fff;
    match v { case Low => PeelLow(b); case High => PeelHigh(b); }
    PlusAssociates(c, Next(v, b), r);
    StepAdds(v, Plus(c, Next(v, b)), r);
  }

  function RestOf(v: Variant, b: bv16, k: nat): bv16
    decreases k
  {
    if k == 0 then b else RestOf(v, Rest(v, b), k - 1)
  }

  function Steps(v: Variant, x: bv16, k: nat): bv16
    decreases k
  {
    if k == 0 then x else Steps(v, Step(v, x), k - 1)
  }

  lemma {:induction false} SerialSteps(v: Variant, c: bv16, b: bv16, k: nat)
    ensures Steps(v, Plus(c, b), k) == Plus(Serial(v, c, b, k), RestOf(v, b, k))
    decreases k
  {
    hide Step, Plus, Next, Rest;
    if k > 0 {
      Peel(v, c, b);
      SerialSteps(v, Step(v, Plus(c, Next(v, b))), Rest(v, b), k - 1);
    }
  }

  lemma EightSteps(v: Variant, x: bv16)
    ensures Steps(v, x, 8) == Eight(v, x)
  {
    EightIs(v, x);
    hide Step, Eight;
  }

  lemma LastRestLow(b: bv8)
    ensures RestOf(Low, Enter(Low, b), 8) == 0
  {}

  lemma LastRestHigh(b: bv8)
    ensures RestOf(High, Enter(High, b), 8) == 0
  {}

  /** The byte step is the division of the byte's eight bits, one after another. */
  lemma ByteStepIsSerial(v: Variant, c: bv16, b: bv8)
    ensures ByteStep(v, c, b) == Serial(v, c, Enter(v, b), 8)
  {
    SerialSteps(v, c, Enter(v, b), 8);
    EightSteps(v, Plus(c, Enter(v, b)));
    PlusSelf(Serial(v, c, Enter(v, b), 8));
    hide Eight, Plus, Enter, Serial, RestOf, Steps;
    match v
    case Low => LastRestLow(b);
    case High => LastRestHigh(b);
  }

  // ---- Checksums ----

  lemma {:induction false} FoldConcat(v: Variant, c: bv16, a: seq<bv8>, b: seq<bv8>)
    ensures Fold(v, c, a + b) == Fold(v, Fold(v, c, a), b)
    decreases |b|
  {
    hide ByteStep;
    if b == [] {
      assert a + b == a;
    } else {
      var ab := a + b;
      assert ab[..|ab| - 1] == a + b[..|b| - 1] && ab[|ab| - 1] == b[|b| - 1];
      FoldConcat(v, c, a, b[..|b| - 1]);
    }
  }

  lemma PlusInjective(a: bv16, b: bv16, c: bv16)
    requires Plus(a, c) == Plus(b, c)
    ensures a == b
  {
    PlusAssociates(a, c, c);
    PlusAssociates(b, c, c);
    PlusSelf(c);
    PlusSelf(a);
    PlusSelf(b);
  }

  /** Different registers stay different under the same bytes. */
  lemma {:induction false} FoldInjective(v: Variant, c: bv16, d: bv16, w: seq<bv8>)
    requires Fold(v, c, w) == Fold(v, d, w)
    ensures c == d
    decreases |w|
  {
    hide Eight, Plus, Enter;
    if w != [] {
      var x, y, e := Fold(v, c, w[..|w| - 1]), Fold(v, d, w[..|w| - 1]), Enter(v, w[|w| - 1]);
      EightInjective(v, Plus(x, e), Plus(y, e));
      PlusInjective(x, y, e);
      FoldInjective(v, c, d, w[..|w| - 1]);
    }
  }

  /** Two bytes as a register value. */
  function Pair(v: Variant, a: bv8, b: bv8): bv16 { Plus(Enter(v, a), Second(v, b)) }

  lemma PairLow(a: bv8, b: bv8, c: bv8, d: bv8)
    ensures Pair(Low, a, b) == Pair(Low, c, d) <==> a == c && b == d
  {}

  lemma PairHigh(a: bv8, b: bv8, c: bv8, d: bv8)
    ensures Pair(High, a, b) == Pair(High, c, d) <==> a == c && b == d
  {}

  lemma FoldOne(v: Variant, c: bv16, w: seq<bv8>, b: bv8)
    ensures Fold(v, c, []) == c && Fold(v, c, w + [b]) == ByteStep(v, Fold(v, c, w), b)
  {
    assert (w + [b])[..|w|] == w;
  }

  lemma TwoBytes(v: Variant, c: bv16, a: bv8, b: bv8)
    ensures ByteStep(v, ByteStep(v, c, a), b) == Eight(v, Eight(v, Plus(c, Pair(v, a, b))))
    ensures Fold(v, c, [a, b]) == ByteStep(v, ByteStep(v, c, a), b)
  {
    hide Eight, Plus, Enter, Second;
    SecondComes(v, b);
    EightAdds(v, Plus(c, Enter(v, a)), Second(v, b));
    PlusAssociates(c, Enter(v, a), Second(v, b));
    FoldOne(v, c, [], a);
    FoldOne(v, c, [a], b);
    assert [] + [a] == [a] && [a] + [b] == [a, b];
  }

  /** Two bytes lead a register to the same value only if they are the same. */
  lemma TwoBytesApart(v: Variant, c: bv16, a: bv8, b: bv8, d: bv8, e: bv8)
    requires Fold(v, c, [a, b]) == Fold(v, c, [d, e])
    ensures a == d && b == e
  {
    hide *;
    TwoBytes(v, c, a, b);
    TwoBytes(v, c, d, e);
    var p, q := Pair(v, a, b), Pair(v, d, e);
    EightInjective(v, Eight(v, Plus(c, p)), Eight(v, Plus(c, q)));
    EightInjective(v, Plus(c, p), Plus(c, q));
    PlusSwaps(c, p);
    PlusSwaps(c, q);
    PlusInjective(p, q, c);
    match v
    case Low => PairLow(a, b, d, e);
    case High => PairHigh(a, b, d, e);
  }

  /** The register's start value. */
  function Start(v: Variant): bv16 { match v case Low => 0xffff case High => 0 }

  function Inverted(c: bv16): bv16 { !c }

  /** The two check bytes of some data, in the order they are sent. */
  function CheckBytes(v: Variant, data: seq<bv8>): seq<bv8> {
    var s := Inverted(Fold(v, Start(v), data));
    [Front(v, s), Back(v, s)]
  }

  /** The buffer ends with the checksum of what is before. */
  predicate Good(v: Variant, w: seq<bv8>) { |w| >= 2 && w[|w| - 2..] == CheckBytes(v, w[..|w| - 2]) }

  /** The loop of all four functions: the checksum from the table. */
  method Checksum(v: Variant, data: array<bv8>, length: nat) returns (s: bv16)
    requires length <= data.Length
    ensures s == Inverted(Fold(v, Start(v), data[..length]))
  {
    hide Plus, Enter, Back, Front, Lookup, ByteStep;
    var crc := Start(v);
    for i := 0 to length
      invariant crc == Fold(v, Start(v), data[..i])
    {
      TableStep(v, crc, data[i]);
      crc := Plus(Enter(v, Back(v, crc)), Lookup(v, Front(v, crc) ^ data[i]));
      assert data[..i + 1][..i] == data[..i];
    }
    s := Inverted(crc);
  }

  /** CRC_addCCITT161 and CRC_addCCITT162. */
  method CrcAdd(v: Variant, data: array<bv8>, length: nat)
    requires 2 < length <= data.Length
    modifies data
    ensures Good(v, data[..length])
    ensures data[..length - 2] == old(data[..length - 2]) && data[length..] == old(data[length..])
  {
    hide Fold, Front, Back, Inverted;
    var s := Checksum(v, data, length - 2);
    ghost var was := data[..length - 2];
    match v {
      case Low =>
        data[length - 2] := Lo(s);
        data[length - 1] := Hi(s);
        FrontBack(s);
      case High =>
        data[length - 1] := Lo(s);
        data[length - 2] := Hi(s);
        FrontBack(s);
    }
    assert data[..length][..length - 2] == was;
    assert data[..length][length - 2..] == [data[length - 2], data[length - 1]];
  }

  lemma FrontBack(s: bv16)
    ensures Front(Low, s) == Lo(s) == Back(High, s) && Back(Low, s) == Hi(s) == Front(High, s)
  {}

  /** CRC_checkCCITT161 and CRC_checkCCITT162. */
  method CrcCheck(v: Variant, data: array<bv8>, length: nat) returns (ok: bool)
    requires 2 < length <= data.Length
    ensures ok <==> Good(v, data[..length])
  {
    hide Fold, Front, Back, Inverted;
    var s := Checksum(v, data, length - 2);
    FrontBack(s);
    ok := match v
      case Low => Lo(s) == data[length - 2] && Hi(s) == data[length - 1]
      case High => Lo(s) == data[length - 1] && Hi(s) == data[length - 2];
    assert data[..length][..length - 2] == data[..length - 2];
    assert data[..length][length - 2..] == [data[length - 2], data[length - 1]];
  }

  lemma InvertedSum(c: bv16)
    ensures Plus(c, Inverted(c)) == 0xffff
  {}

  /** A good buffer always leaves the same register, whatever it holds. */
  lemma GoodResidue(v: Variant, w: seq<bv8>)
    requires Good(v, w)
    ensures Fold(v, Start(v), w) == Eight(v, Eight(v, 0xffff))
  {
    hide Eight, Plus, Enter, Second, ByteStep, Fold, Front, Back, Inverted;
    var d, c := w[..|w| - 2], Fold(v, Start(v), w[..|w| - 2]);
    var s := Inverted(c);
    assert w == d + [Front(v, s), Back(v, s)];
    FoldConcat(v, Start(v), d, [Front(v, s), Back(v, s)]);
    TwoBytes(v, c, Front(v, s), Back(v, s));
    Parts(v, s);
    InvertedSum(c);
  }

  /** A change confined to two adjacent bytes, check bytes included, never passes. */
  lemma AdjacentChangeRejected(v: Variant, w: seq<bv8>, x: seq<bv8>, i: nat)
    requires Good(v, w) && |x| == |w| && i + 2 <= |w| && x != w
    requires x[..i] == w[..i] && x[i + 2..] == w[i + 2..]
    ensures !Good(v, x)
  {
    hide Eight, Fold, Good;
    if Good(v, x) {
      GoodResidue(v, w);
      GoodResidue(v, x);
      var head, tail, p, q := w[..i], w[i + 2..], [w[i], w[i + 1]], [x[i], x[i + 1]];
      assert w == head + p + tail && x == head + q + tail;
      FoldConcat(v, Start(v), head + p, tail);
      FoldConcat(v, Start(v), head + q, tail);
      FoldInjective(v, Fold(v, Start(v), head + p), Fold(v, Start(v), head + q), tail);
      FoldConcat(v, Start(v), head, p);
      FoldConcat(v, Start(v), head, q);
      TwoBytesApart(v, Fold(v, Start(v), head), w[i], w[i + 1], x[i], x[i + 1]);
      assert false;
    }
  }

  /** The streaming checksum object, low bit first. */
  class Stream {
    var crc16: bv16
    ghost var fed: seq<bv8>

    ghost predicate Valid()
      reads this
    {
      crc16 == Fold(Low, Start(Low), fed)
    }

    constructor ()
      ensures Valid() && fed == []
    {
      crc16, fed := 0xffff, [];
    }

    method UpdateBytes(data: array<bv8>, length: nat)
      requires Valid() && length <= data.Length
      modifies this
      ensures Valid() && fed == old(fed) + data[..length]
    {
      hide Plus, Lookup, ByteStep, Fold, Enter, Front, Back;
      ghost var start, before := crc16, fed;
      FoldOne(Low, start, [], 0);
      for i := 0 to length
        invariant crc16 == Fold(Low, start, data[..i]) && fed == before
      {
        TableStep(Low, crc16, data[i]);
        FoldOne(Low, start, data[..i], data[i]);
        assert data[..i] + [data[i]] == data[..i + 1];
        crc16 := Plus(Enter(Low, Back(Low, crc16)), Lookup(Low, Front(Low, crc16) ^ data[i]));
      }
      FoldConcat(Low, Start(Low), before, data[..length]);
      fed := before + data[..length];
    }

    /** The result is the pair of check bytes that the one shot function appends to the same
        data; the register is left inverted. */
    method ResultBytes(data: array<bv8>)
      requires Valid() && data.Length >= 2
      modifies this, data
      ensures data[..2] == CheckBytes(Low, old(fed)) && data[2..] == old(data[2..])
      ensures crc16 == Inverted(old(crc16))
    {
      hide Fold, Front, Back, Inverted;
      crc16 := Inverted(crc16);
      FrontBack(crc16);
      data[0] := Lo(crc16);
      data[1] := Hi(crc16);
      assert data[..2] == [data[0], data[1]];
    }
  }

  /** Any pieces: the stream's bytes are those of the one shot checksum over all of them. */
  method StreamMatchesOneShot(pieces: seq<array<bv8>>, whole: array<bv8>) returns (same: bool)
    requires whole.Length > 2 && whole[..whole.Length - 2] == Joined(pieces) && forall p :: p in pieces ==> p != whole
    modifies whole
    ensures same
  {
    hide Fold, CheckBytes, Inverted, Start;
    ghost var data := whole[..whole.Length - 2];
    var s := FeedAll(pieces);
    var out := new bv8[2](_ => 0);
    s.ResultBytes(out);
    CrcAdd(Low, whole, whole.Length);
    LastTwo(whole[..]);
    assert whole[..whole.Length] == whole[..] && out[..2] == [out[0], out[1]];
    same := out[0] == whole[whole.Length - 2] && out[1] == whole[whole.Length - 1];
  }

  lemma LastTwo(w: seq<bv8>)
    requires |w| >= 2
    ensures w[|w| - 2..] == [w[|w| - 2], w[|w| - 1]]
  {}

  /** A stream fed with the pieces. */
  method FeedAll(pieces: seq<array<bv8>>) returns (s: Stream)
    ensures fresh(s) && s.Valid() && s.fed == Joined(pieces)
  {
    hide Fold, Start;
    s := new Stream();
    for i := 0 to |pieces|
      invariant s.Valid() && s.fed == Joined(pieces[..i])
    {
      s.UpdateBytes(pieces[i], pieces[i].Length);
      assert pieces[..i + 1][..i] == pieces[..i];
    }
    assert pieces[..|pieces|] == pieces;
  }

  /** The bytes of the pieces one after another. */
  ghost function Joined(pieces: seq<array<bv8>>): seq<bv8>
    reads pieces
  {
    if pieces == [] then [] else Joined(pieces[..|pieces| - 1]) + pieces[|pieces| - 1][..]
  }
}
