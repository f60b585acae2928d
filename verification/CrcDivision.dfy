/** The checksums as polynomials over two elements: a buffer passes exactly when the polynomial it
    was sent as is a multiple of x^16 + x^12 + x^5 + 1. */
module CrcDivision {
  import opened Bits
  import opened CrcTables
  import opened Crc

  // ---- Polynomials, highest power first ----

  predicate At(q: seq<bool>, j: int) { 0 <= j < |q| && q[j] }

  predicate Odd3(a: bool, b: bool, c: bool) { (a != b) != c }

  /** Place j of the product of q with x^16 + x^12 + x^5 + 1. */
  predicate ProductAt(q: seq<bool>, j: nat) { At(q, j) != Odd3(At(q, j - 4), At(q, j - 11), At(q, j - 16)) }

  ghost predicate IsProduct(p: seq<bool>, q: seq<bool>) {
    |p| == |q| + 16 && forall j: nat :: j < |p| ==> p[j] == ProductAt(q, j)
  }

  ghost predicate Multiple(p: seq<bool>) { exists q: seq<bool> :: IsProduct(p, q) }

  // ---- The register's bits ----

  /** Bit i of a register, the next to leave first. */
  predicate RegBit(v: Variant, c: bv16, i: nat)
    decreases i
  {
    if i == 0 then Next(v, c) != 0 else RegBit(v, Rest(v, c), i - 1)
  }

  /** The feedback behind the leading term. */
  predicate Tap(i: nat) { i == 3 || i == 10 || i == 15 }

  function Feed(v: Variant): bv16 { match v case Low => 0x8408 case High => 0x1021 }

  lemma RestSumLow(a: bv16, b: bv16)
    ensures (a ^ b) >> 1 == (a >> 1) ^ (b >> 1)
    ensures (a ^ b) & 1 != 0 <==> (a & 1 != 0) != (b & 1 != 0)
  {}

  lemma RestSumHigh(a: bv16, b: bv16)
    ensures (a ^ b) << 1 == (a << 1) ^ (b << 1)
    ensures (a ^ b) & 0x8000 != 0 <==> (a & 0x8000 != 0) != (b & 0x8000 != 0)
  {}

  lemma RestSum(v: Variant, a: bv16, b: bv16)
    ensures Rest(v, Plus(a, b)) == Plus(Rest(v, a), Rest(v, b))
    ensures Next(v, Plus(a, b)) != 0 <==> (Next(v, a) != 0) != (Next(v, b) != 0)
  {
    match v
    case Low => RestSumLow(a, b);
    case High => RestSumHigh(a, b);
  }

  lemma {:induction false} SumBit(v: Variant, a: bv16, b: bv16, i: nat)
    ensures RegBit(v, Plus(a, b), i) <==> RegBit(v, a, i) != RegBit(v, b, i)
    decreases i
  {
    RestSum(v, a, b);
    hide Rest, Next, Plus;
    if i > 0 { SumBit(v, Rest(v, a), Rest(v, b), i - 1); }
  }

  lemma ZeroBits(v: Variant, i: nat)
    ensures !RegBit(v, 0, i)
    decreases i
  {
    ZeroRest(v);
    hide Rest, Next;
    if i > 0 { ZeroBits(v, i - 1); }
  }

  lemma ZeroRest(v: Variant)
    ensures Rest(v, 0) == 0 && Next(v, 0) == 0
  {}

  /** A step moves the bits up and adds the feedback when a bit leaves. */
  lemma StepIs(v: Variant, c: bv16)
    ensures Step(v, c) == if Next(v, c) != 0 then Plus(Rest(v, c), Feed(v)) else Rest(v, c)
  {
    match v
    case Low => StepIsLow(c);
    case High => StepIsHigh(c);
  }

  lemma StepIsLow(c: bv16)
    ensures c & 1 == 1 <==> c & 1 != 0
  {}

  lemma StepIsHigh(c: bv16)
    ensures c & 0x8000 == 0x8000 <==> c & 0x8000 != 0
  {}

  function Four(v: Variant, c: bv16): bv16 { Rest(v, Rest(v, Rest(v, Rest(v, c)))) }

  lemma FourOn(v: Variant, c: bv16, i: nat)
    ensures RegBit(v, c, i + 4) <==> RegBit(v, Four(v, c), i)
  {
    hide Rest, Next;
    var c1 := Rest(v, c); var c2 := Rest(v, c1); var c3 := Rest(v, c2);
    assert RegBit(v, c, i + 4) == RegBit(v, c1, i + 3) == RegBit(v, c2, i + 2);
    assert RegBit(v, c2, i + 2) == RegBit(v, c3, i + 1) == RegBit(v, Rest(v, c3), i);
  }

  lemma FirstFour(v: Variant, c: bv16)
    ensures RegBit(v, c, 0) <==> Next(v, c) != 0
    ensures RegBit(v, c, 1) <==> Next(v, Rest(v, c)) != 0
    ensures RegBit(v, c, 2) <==> Next(v, Rest(v, Rest(v, c))) != 0
    ensures RegBit(v, c, 3) <==> Next(v, Rest(v, Rest(v, Rest(v, c)))) != 0
  {
    hide Rest, Next;
    var c1 := Rest(v, c); var c2 := Rest(v, c1);
    assert RegBit(v, c1, 1) == RegBit(v, c2, 0);
    assert RegBit(v, c, 2) == RegBit(v, c1, 1);
    assert RegBit(v, c, 3) == RegBit(v, c1, 2) == RegBit(v, c2, 1);
  }

  /** A bit from the quarter of the register it is in. */
  lemma QuarterBit(v: Variant, c: bv16, i: nat)
    requires i < 16
    ensures var c4 := Four(v, c); var c8 := Four(v, c4);
      var part := if i < 4 then c else if i < 8 then c4 else if i < 12 then c8 else Four(v, c8);
      RegBit(v, c, i) <==> RegBit(v, part, i % 4)
  {
    hide Four, RegBit;
    var c4 := Four(v, c); var c8 := Four(v, c4);
    if i >= 4 { FourOn(v, c, i - 4); }
    if i >= 8 { FourOn(v, c4, i - 8); }
    if i >= 12 { FourOn(v, c8, i - 12); }
  }

  lemma LeadLow(c: bv16)
    ensures RegBit(Low, c, 0) <==> c & 1 != 0
    ensures RegBit(Low, c, 1) <==> c & 2 != 0
    ensures RegBit(Low, c, 2) <==> c & 4 != 0
    ensures RegBit(Low, c, 3) <==> c & 8 != 0
  {
    FirstFour(Low, c);
    hide RegBit;
  }

  lemma LeadHigh(c: bv16)
    ensures RegBit(High, c, 0) <==> c & 0x8000 != 0
    ensures RegBit(High, c, 1) <==> c & 0x4000 != 0
    ensures RegBit(High, c, 2) <==> c & 0x2000 != 0
    ensures RegBit(High, c, 3) <==> c & 0x1000 != 0
  {
    FirstFour(High, c);
    hide RegBit;
  }

  lemma LowQuarters()
    ensures Four(Low, 0x8408) == 0x0840 && Four(Low, 0x0840) == 0x0084 && Four(Low, 0x0084) == 0x0008
    ensures Four(Low, 0xffff) == 0x0fff && Four(Low, 0x0fff) == 0x00ff && Four(Low, 0x00ff) == 0x000f
  {}

  lemma HighQuarters()
    ensures Four(High, 0x1021) == 0x0210 && Four(High, 0x0210) == 0x2100 && Four(High, 0x2100) == 0x1000
    ensures Four(High, 0xffff) == 0xfff0 && Four(High, 0xfff0) == 0xff00 && Four(High, 0xff00) == 0xf000
  {}

  lemma FeedLow(i: nat)
    requires i < 16
    ensures RegBit(Low, 0x8408, i) <==> Tap(i)
  {
    hide Four, RegBit;
    LowQuarters();
    QuarterBit(Low, 0x8408, i);
    LeadLow(0x8408);
    LeadLow(0x0840);
    LeadLow(0x0084);
    LeadLow(0x0008);
  }

  lemma FeedHigh(i: nat)
    requires i < 16
    ensures RegBit(High, 0x1021, i) <==> Tap(i)
  {
    hide Four, RegBit;
    HighQuarters();
    QuarterBit(High, 0x1021, i);
    LeadHigh(0x1021);
    LeadHigh(0x0210);
    LeadHigh(0x2100);
    LeadHigh(0x1000);
  }

  lemma OnesBit(v: Variant, i: nat)
    requires i < 16
    ensures RegBit(v, 0xffff, i)
  {
    hide Four, RegBit;
    QuarterBit(v, 0xffff, i);
    match v
    case Low =>
      LowQuarters();
      LeadLow(0xffff);
      LeadLow(0x0fff);
      LeadLow(0x00ff);
      LeadLow(0x000f);
    case High =>
      HighQuarters();
      LeadHigh(0xffff);
      LeadHigh(0xfff0);
      LeadHigh(0xff00);
      LeadHigh(0xf000);
  }

  lemma StepBit(v: Variant, c: bv16, i: nat)
    requires i < 16
    ensures RegBit(v, Step(v, c), i) <==> RegBit(v, c, i + 1) != (RegBit(v, c, 0) && Tap(i))
  {
    StepIs(v, c);
    FeedLow(i);
    FeedHigh(i);
    SumBit(v, Rest(v, c), Feed(v), i);
    hide Step, Rest, Next, Plus;
  }

  lemma AllOut(v: Variant, c: bv16)
    ensures Four(v, Four(v, Four(v, Four(v, c)))) == 0
  {}

  /** Nothing is behind the sixteenth bit. */
  lemma NoneBeyond(v: Variant, c: bv16)
    ensures !RegBit(v, c, 16)
  {
    AllOut(v, c);
    hide Four;
    var c4 := Four(v, c); var c8 := Four(v, c4); var c12 := Four(v, c8);
    FourOn(v, c, 12);
    FourOn(v, c4, 8);
    FourOn(v, c8, 4);
    FourOn(v, c12, 0);
    ZeroBits(v, 0);
  }

  // ---- Bytes ----

  /** Bit k of a byte in the order it is sent. */
  predicate SentBit(v: Variant, b: bv8, k: nat)
    requires k < 8
  {
    match v case Low => HasBit(b, 7 - k) case High => HasBit(b, k)
  }

  lemma LowNibble(b: bv8, c: bv16)
    requires c == Enter(Low, b)
    ensures Next(Low, c) != 0 <==> HasBit(b, 7)
    ensures Next(Low, Rest(Low, c)) != 0 <==> HasBit(b, 6)
    ensures Next(Low, Rest(Low, Rest(Low, c))) != 0 <==> HasBit(b, 5)
    ensures Next(Low, Rest(Low, Rest(Low, Rest(Low, c)))) != 0 <==> HasBit(b, 4)
  {}

  lemma LowUpper(b: bv8, c: bv16)
    requires c == Four(Low, Enter(Low, b))
    ensures Next(Low, c) != 0 <==> HasBit(b, 3)
    ensures Next(Low, Rest(Low, c)) != 0 <==> HasBit(b, 2)
    ensures Next(Low, Rest(Low, Rest(Low, c))) != 0 <==> HasBit(b, 1)
    ensures Next(Low, Rest(Low, Rest(Low, Rest(Low, c)))) != 0 <==> HasBit(b, 0)
  {}

  lemma HighNibble(b: bv8, c: bv16)
    requires c == Enter(High, b)
    ensures Next(High, c) != 0 <==> HasBit(b, 0)
    ensures Next(High, Rest(High, c)) != 0 <==> HasBit(b, 1)
    ensures Next(High, Rest(High, Rest(High, c))) != 0 <==> HasBit(b, 2)
    ensures Next(High, Rest(High, Rest(High, Rest(High, c)))) != 0 <==> HasBit(b, 3)
  {}

  lemma HighUpper(b: bv8, c: bv16)
    requires c == Four(High, Enter(High, b))
    ensures Next(High, c) != 0 <==> HasBit(b, 4)
    ensures Next(High, Rest(High, c)) != 0 <==> HasBit(b, 5)
    ensures Next(High, Rest(High, Rest(High, c))) != 0 <==> HasBit(b, 6)
    ensures Next(High, Rest(High, Rest(High, Rest(High, c)))) != 0 <==> HasBit(b, 7)
  {}

  /** A byte enters the register with its first bit next to leave. */
  lemma EnterBit(v: Variant, b: bv8, k: nat)
    requires k < 8
    ensures RegBit(v, Enter(v, b), k) <==> SentBit(v, b, k)
  {
    var c := Enter(v, b);
    match v {
      case Low => LowNibble(b, c); LowUpper(b, Four(v, c));
      case High => HighNibble(b, c); HighUpper(b, Four(v, c));
    }
    hide Enter, Next, Rest, Four, HasBit;
    FirstFour(v, c);
    FirstFour(v, Four(v, c));
    if k >= 4 { FourOn(v, c, k - 4); }
  }

  lemma SecondRest(v: Variant, b: bv8)
    ensures Four(v, Four(v, Second(v, b))) == Enter(v, b) && Four(v, Four(v, Enter(v, b))) == 0
  {}

  lemma SecondQuiet(v: Variant, b: bv8, c: bv16)
    requires c == Second(v, b) || c == Four(v, Second(v, b))
    ensures Next(v, c) == 0 && Next(v, Rest(v, c)) == 0
    ensures Next(v, Rest(v, Rest(v, c))) == 0 && Next(v, Rest(v, Rest(v, Rest(v, c)))) == 0
  {}

  lemma SecondLate(v: Variant, b: bv8, i: nat)
    requires i < 8
    ensures !RegBit(v, Second(v, b), i)
  {
    var s := Second(v, b);
    SecondQuiet(v, b, s);
    SecondQuiet(v, b, Four(v, s));
    hide Second, Next, Rest, Four;
    FirstFour(v, s);
    FirstFour(v, Four(v, s));
    if i >= 4 { FourOn(v, s, i - 4); }
  }

  /** The bits of a register are those of its two bytes. */
  lemma PartBit(v: Variant, c: bv16, i: nat)
    requires i < 16
    ensures RegBit(v, c, i) <==> if i < 8 then SentBit(v, Front(v, c), i) else SentBit(v, Back(v, c), i - 8)
  {
    hide *;
    Parts(v, c);
    var e, s := Enter(v, Front(v, c)), Second(v, Back(v, c));
    SumBit(v, e, s, i);
    if i < 8 {
      EnterBit(v, Front(v, c), i);
      SecondLate(v, Back(v, c), i);
    } else {
      SecondRest(v, Front(v, c));
      SecondRest(v, Back(v, c));
      FourOn(v, e, i - 4);
      FourOn(v, Four(v, e), i - 8);
      ZeroBits(v, i - 8);
      FourOn(v, s, i - 4);
      FourOn(v, Four(v, s), i - 8);
      EnterBit(v, Back(v, c), i - 8);
    }
  }

  // ---- The division ----

  function One(v: Variant, bit: bool): bv16 {
    if !bit then 0 else match v case Low => 1 case High => 0x8000
  }

  /** The register after some bits. */
  function Run(v: Variant, c: bv16, bits: seq<bool>): bv16 {
    if bits == [] then c
    else Step(v, Plus(Run(v, c, bits[..|bits| - 1]), One(v, bits[|bits| - 1])))
  }

  lemma OneBit(v: Variant, bit: bool, i: nat)
    ensures RegBit(v, One(v, bit), i) <==> bit && i == 0
  {
    OneRest(v, bit);
    hide One, Rest, Next;
    if i > 0 { ZeroBits(v, i - 1); }
  }

  lemma OneRest(v: Variant, bit: bool)
    ensures Rest(v, One(v, bit)) == 0 && (Next(v, One(v, bit)) != 0 <==> bit)
  {}

  /** One more bit. */
  lemma RunBit(v: Variant, c: bv16, bit: bool, i: nat)
    requires i < 16
    ensures var top := RegBit(v, c, 0) != bit;
      RegBit(v, Step(v, Plus(c, One(v, bit))), i) <==> (i < 15 && RegBit(v, c, i + 1)) != (top && Tap(i))
  {
    hide *;
    var x := Plus(c, One(v, bit));
    StepBit(v, x, i);
    SumBit(v, c, One(v, bit), i + 1);
    SumBit(v, c, One(v, bit), 0);
    OneBit(v, bit, i + 1);
    OneBit(v, bit, 0);
    NoneBeyond(v, c);
  }

  /** Bit j of what has been divided: the bits, with the register behind them and the start value
      added in front. */
  predicate DividedAt(v: Variant, c: bv16, bits: seq<bool>, j: nat) {
    (if j < |bits| then bits[j] else j < |bits| + 16 && RegBit(v, Run(v, c, bits), j - |bits|))
    != (j < 16 && RegBit(v, c, j))
  }

  ghost predicate Divides(v: Variant, c: bv16, bits: seq<bool>, q: seq<bool>) {
    |q| == |bits| && forall j: nat :: j < |bits| + 16 ==> DividedAt(v, c, bits, j) == ProductAt(q, j)
  }

  lemma ProductAppend(q: seq<bool>, t: bool, j: nat)
    ensures var n := |q|;
      ProductAt(q + [t], j) <==> ProductAt(q, j) != (t && (j == n || j == n + 4 || j == n + 11 || j == n + 16))
  {}

  lemma DivideOne(v: Variant, c: bv16, bits: seq<bool>, q: seq<bool>, bit: bool, j: nat)
    requires Divides(v, c, bits, q) && j < |bits| + 17
    ensures var t := RegBit(v, Run(v, c, bits), 0) != bit;
      DividedAt(v, c, bits + [bit], j) == ProductAt(q + [t], j)
  {
    hide RegBit, ProductAt, Step, Plus, One, Tap;
    var n, reg, next := |bits|, Run(v, c, bits), bits + [bit];
    var t := RegBit(v, reg, 0) != bit;
    ProductAppend(q, t, j);
    RunNext(v, c, bits, bit);
    if j < n + 16 {
      assert DividedAt(v, c, bits, j) == ProductAt(q, j);
    } else {
      ProductEnds(q, j);
    }
    if j > n {
      RunBit(v, reg, bit, j - n - 1);
      TapIs(j - n - 1);
    }
  }

  lemma TapIs(i: nat)
    ensures Tap(i) <==> i == 3 || i == 10 || i == 15
  {}

  lemma ProductEnds(q: seq<bool>, j: nat)
    ensures j >= |q| + 16 ==> !ProductAt(q, j)
  {}

  lemma RunNext(v: Variant, c: bv16, bits: seq<bool>, bit: bool)
    ensures Run(v, c, bits + [bit]) == Step(v, Plus(Run(v, c, bits), One(v, bit)))
  {
    hide Step, Plus, One;
    assert (bits + [bit])[..|bits|] == bits;
  }

  /** The register is the remainder: the bits with the register behind them, and the start value
      added to the first sixteen, are a multiple of the polynomial. */
  lemma {:induction false} Division(v: Variant, c: bv16, bits: seq<bool>) returns (q: seq<bool>)
    ensures Divides(v, c, bits, q)
    decreases |bits|
  {
    hide RegBit, Step, Plus, One, DividedAt, ProductAt;
    if bits == [] {
      q := [];
      forall j: nat | j < 16 ensures DividedAt(v, c, bits, j) == ProductAt(q, j) { DivideNone(v, c, j); }
    } else {
      var rest, bit := bits[..|bits| - 1], bits[|bits| - 1];
      var most := Division(v, c, rest);
      q := most + [RegBit(v, Run(v, c, rest), 0) != bit];
      assert bits == rest + [bit];
      forall j: nat | j < |bits| + 16 ensures DividedAt(v, c, bits, j) == ProductAt(q, j) {
        DivideOne(v, c, rest, most, bit, j);
      }
    }
  }

  lemma DivideNone(v: Variant, c: bv16, j: nat)
    requires j < 16
    ensures DividedAt(v, c, [], j) == ProductAt([], j)
  {
    hide RegBit;
  }

  /** The first |q| places of a product determine q. */
  lemma {:induction false} OneQuotient(q: seq<bool>, r: seq<bool>, n: nat)
    requires |q| == |r| && n <= |q| && forall j: nat :: j < n ==> ProductAt(q, j) == ProductAt(r, j)
    ensures q[..n] == r[..n]
  {
    if n > 0 {
      OneQuotient(q, r, n - 1);
      assert forall k: nat :: k < n - 1 ==> q[k] == q[..n - 1][k] == r[..n - 1][k] == r[k];
      assert ProductAt(q, n - 1) == ProductAt(r, n - 1);
      assert q[..n] == q[..n - 1] + [q[n - 1]] && r[..n] == r[..n - 1] + [r[n - 1]];
    }
  }

  // ---- Buffers ----

  /** The bits of a buffer in the order they are sent. */
  function BitsOf(v: Variant, w: seq<bv8>): (s: seq<bool>)
    ensures |s| == 8 * |w|
  {
    seq(8 * |w|, j requires 0 <= j < 8 * |w| => SentBit(v, w[j / 8], j % 8))
  }

  lemma {:induction false} RunConcat(v: Variant, c: bv16, a: seq<bool>, b: seq<bool>)
    ensures Run(v, c, a + b) == Run(v, Run(v, c, a), b)
    decreases |b|
  {
    hide Step, Plus, One;
    if b == [] {
      assert a + b == a;
    } else {
      var ab := a + b;
      assert ab[..|ab| - 1] == a + b[..|b| - 1] && ab[|ab| - 1] == b[|b| - 1];
      RunConcat(v, c, a, b[..|b| - 1]);
    }
  }

  lemma NextOne(v: Variant, x: bv16)
    ensures Next(v, x) == One(v, RegBit(v, x, 0))
  {}

  lemma RegNext(v: Variant, x: bv16, i: nat)
    ensures RegBit(v, x, i + 1) == RegBit(v, Rest(v, x), i)
  {
    hide Rest, Next;
  }

  lemma SerialNext(v: Variant, c: bv16, x: bv16, k: nat)
    ensures Serial(v, c, x, 0) == c
    ensures Serial(v, c, x, k + 1) == Serial(v, Step(v, Plus(c, Next(v, x))), Rest(v, x), k)
  {
    hide Step, Plus, Next, Rest;
  }

  lemma {:induction false} SerialRun(v: Variant, c: bv16, x: bv16, bits: seq<bool>)
    requires forall i :: 0 <= i < |bits| ==> bits[i] == RegBit(v, x, i)
    ensures Serial(v, c, x, |bits|) == Run(v, c, bits)
    decreases |bits|
  {
    hide *;
    RunNone(v, c);
    if bits == [] {
      SerialNext(v, c, x, 0);
    } else {
      var first, rest := [bits[0]], bits[1..];
      NextOne(v, x);
      SerialNext(v, c, x, |rest|);
      forall i | 0 <= i < |rest| ensures rest[i] == RegBit(v, Rest(v, x), i) { RegNext(v, x, i); }
      SerialRun(v, Step(v, Plus(c, Next(v, x))), Rest(v, x), rest);
      RunNext(v, c, [], bits[0]);
      assert [] + first == first && bits == first + rest;
      RunConcat(v, c, first, rest);
    }
  }

  lemma ByteRun(v: Variant, c: bv16, b: bv8)
    ensures ByteStep(v, c, b) == Run(v, c, BitsOf(v, [b]))
  {
    hide Step, Plus, One, Next, Rest, ByteStep, Enter, Serial, Run, SentBit;
    var bits := BitsOf(v, [b]);
    forall i | 0 <= i < 8 ensures bits[i] == RegBit(v, Enter(v, b), i) { EnterBit(v, b, i); }
    ByteStepIsSerial(v, c, b);
    SerialRun(v, c, Enter(v, b), bits);
  }

  lemma BitsOfConcat(v: Variant, a: seq<bv8>, b: seq<bv8>)
    ensures BitsOf(v, a + b) == BitsOf(v, a) + BitsOf(v, b)
  {
    hide SentBit;
  }

  /** The byte by byte register is the bit by bit one. */
  lemma {:induction false} FoldRun(v: Variant, c: bv16, w: seq<bv8>)
    ensures Fold(v, c, w) == Run(v, c, BitsOf(v, w))
    decreases |w|
  {
    hide ByteStep, Run, BitsOf;
    if w == [] {
      RunNone(v, c);
    } else {
      var rest, b := w[..|w| - 1], w[|w| - 1];
      FoldRun(v, c, rest);
      ByteRun(v, Fold(v, c, rest), b);
      assert w == rest + [b];
      BitsOfConcat(v, rest, [b]);
      RunConcat(v, c, BitsOf(v, rest), BitsOf(v, [b]));
    }
  }

  lemma RunNone(v: Variant, c: bv16)
    ensures Run(v, c, []) == c && BitsOf(v, []) == []
  {}

  /** A buffer as the polynomial it is sent as: its last sixteen bits inverted, and with low bits
      first the first sixteen as well. */
  function Sent(v: Variant, w: seq<bv8>): (s: seq<bool>)
    requires |w| >= 2
    ensures |s| == 8 * |w|
  {
    seq(8 * |w|, j requires 0 <= j < 8 * |w| =>
      Odd3(BitsOf(v, w)[j], j >= 8 * |w| - 16, v.Low? && j < 16))
  }

  lemma StartBit(v: Variant, j: nat)
    requires j < 16
    ensures RegBit(v, Crc.Start(v), j) <==> v.Low?
  {
    OnesBit(v, j);
    ZeroBits(v, j);
    hide RegBit;
  }

  lemma InvertedBit(v: Variant, c: bv16, i: nat)
    requires i < 16
    ensures RegBit(v, Inverted(c), i) <==> !RegBit(v, c, i)
  {
    hide RegBit, Inverted, Plus;
    InvertedSum(c);
    SumBit(v, c, Inverted(c), i);
    OnesBit(v, i);
  }

  lemma SameByte(v: Variant, a: bv8, b: bv8)
    requires forall k :: 0 <= k < 8 ==> SentBit(v, a, k) == SentBit(v, b, k)
    ensures a == b
  {
    hide HasBit;
    assert SentBit(v, a, 0) == SentBit(v, b, 0) && SentBit(v, a, 1) == SentBit(v, b, 1);
    assert SentBit(v, a, 2) == SentBit(v, b, 2) && SentBit(v, a, 3) == SentBit(v, b, 3);
    assert SentBit(v, a, 4) == SentBit(v, b, 4) && SentBit(v, a, 5) == SentBit(v, b, 5);
    assert SentBit(v, a, 6) == SentBit(v, b, 6) && SentBit(v, a, 7) == SentBit(v, b, 7);
    SameBits(a, b);
  }

  lemma SameBits(a: bv8, b: bv8)
    requires HasBit(a, 0) == HasBit(b, 0) && HasBit(a, 1) == HasBit(b, 1) && HasBit(a, 2) == HasBit(b, 2)
    requires HasBit(a, 3) == HasBit(b, 3) && HasBit(a, 4) == HasBit(b, 4) && HasBit(a, 5) == HasBit(b, 5)
    requires HasBit(a, 6) == HasBit(b, 6) && HasBit(a, 7) == HasBit(b, 7)
    ensures a == b
  {}

  /** Byte b of the checksum of what is in front of the last two bytes. */
  function Sum(v: Variant, w: seq<bv8>, b: nat): bv8
    requires |w| >= 2
  {
    var s := Inverted(Fold(v, Crc.Start(v), w[..|w| - 2]));
    if b == 0 then Front(v, s) else Back(v, s)
  }

  lemma GoodIsSum(v: Variant, w: seq<bv8>)
    requires |w| >= 2
    ensures Good(v, w) <==> w[|w| - 2] == Sum(v, w, 0) && w[|w| - 1] == Sum(v, w, 1)
  {
    hide Fold, Inverted, Front, Back;
    assert w[|w| - 2..] == [w[|w| - 2], w[|w| - 1]];
  }

  lemma SumBits(v: Variant, w: seq<bv8>, i: nat)
    requires |w| >= 2 && i < 16
    ensures SentBit(v, Sum(v, w, i / 8), i % 8) <==> !RegBit(v, Fold(v, Crc.Start(v), w[..|w| - 2]), i)
  {
    hide RegBit, Inverted, Fold, SentBit, Front, Back;
    var crc := Fold(v, Crc.Start(v), w[..|w| - 2]);
    InvertedBit(v, crc, i);
    PartBit(v, Inverted(crc), i);
  }

  lemma SentAt(v: Variant, w: seq<bv8>, j: nat)
    requires |w| >= 2 && j < 8 * |w|
    ensures Sent(v, w)[j] <==> Odd3(SentBit(v, w[j / 8], j % 8), j >= 8 * |w| - 16, v.Low? && j < 16)
  {
    hide SentBit;
  }

  /** In the data part what was sent is what is divided. */
  lemma DataBit(v: Variant, w: seq<bv8>, j: nat)
    requires |w| >= 2 && j < 8 * |w| - 16
    ensures Sent(v, w)[j] == DividedAt(v, Crc.Start(v), BitsOf(v, w[..|w| - 2]), j)
  {
    hide SentBit, RegBit, Run;
    SentAt(v, w, j);
    assert w[..|w| - 2][j / 8] == w[j / 8];
    if j < 16 { StartBit(v, j); }
  }

  /** In the last two bytes it is exactly where they agree with the checksum. */
  lemma CheckBit(v: Variant, w: seq<bv8>, i: nat)
    requires |w| >= 2 && i < 16
    ensures var j := 8 * |w| - 16 + i;
      Sent(v, w)[j] == DividedAt(v, Crc.Start(v), BitsOf(v, w[..|w| - 2]), j) <==>
      SentBit(v, w[|w| - 2 + i / 8], i % 8) == SentBit(v, Sum(v, w, i / 8), i % 8)
  {
    hide SentBit, RegBit, Run, Fold, Sum, Sent, BitsOf;
    var j, d := 8 * |w| - 16 + i, w[..|w| - 2];
    SentAt(v, w, j);
    SumBits(v, w, i);
    FoldRun(v, Crc.Start(v), d);
    assert j / 8 == |w| - 2 + i / 8 && j % 8 == i % 8;
    if j < 16 { StartBit(v, j); }
  }

  ghost predicate SentIsDivided(v: Variant, w: seq<bv8>)
    requires |w| >= 2
  {
    forall j: nat :: j < 8 * |w| ==> Sent(v, w)[j] == DividedAt(v, Crc.Start(v), BitsOf(v, w[..|w| - 2]), j)
  }

  lemma GoodIsDivided(v: Variant, w: seq<bv8>)
    requires |w| >= 2
    ensures Good(v, w) <==> SentIsDivided(v, w)
  {
    hide SentBit, DividedAt, Sum, Sent, BitsOf, Good;
    GoodIsSum(v, w);
    if Good(v, w) {
      forall j: nat | j < 8 * |w|
        ensures Sent(v, w)[j] == DividedAt(v, Crc.Start(v), BitsOf(v, w[..|w| - 2]), j)
      {
        if j < 8 * |w| - 16 { DataBit(v, w, j); } else { CheckBit(v, w, j - (8 * |w| - 16)); }
      }
    }
    if SentIsDivided(v, w) {
      forall i: nat | i < 16
        ensures SentBit(v, w[|w| - 2 + i / 8], i % 8) == SentBit(v, Sum(v, w, i / 8), i % 8)
      {
        var j := 8 * |w| - 16 + i;
        assert Sent(v, w)[j] == DividedAt(v, Crc.Start(v), BitsOf(v, w[..|w| - 2]), j);
        CheckBit(v, w, i);
      }
      forall k | 0 <= k < 8
        ensures SentBit(v, w[|w| - 2], k) == SentBit(v, Sum(v, w, 0), k)
        ensures SentBit(v, w[|w| - 1], k) == SentBit(v, Sum(v, w, 1), k)
      {
        var early, late := k, k + 8;
        assert early / 8 == 0 && early % 8 == k && late / 8 == 1 && late % 8 == k;
      }
      SameByte(v, w[|w| - 2], Sum(v, w, 0));
      SameByte(v, w[|w| - 1], Sum(v, w, 1));
    }
  }

  /** A buffer is good exactly when the polynomial it is sent as is a multiple of
      x^16 + x^12 + x^5 + 1. */
  lemma GoodIsMultiple(v: Variant, w: seq<bv8>)
    requires |w| >= 2
    ensures Good(v, w) <==> Multiple(Sent(v, w))
  {
    hide DividedAt, Sent, Good, ProductAt, BitsOf;
    GoodIsDivided(v, w);
    var bits := BitsOf(v, w[..|w| - 2]);
    var q := Division(v, Crc.Start(v), bits);
    if Good(v, w) { assert IsProduct(Sent(v, w), q); }
    if Multiple(Sent(v, w)) {
      var r: seq<bool> :| IsProduct(Sent(v, w), r);
      forall j: nat | j < |bits| ensures ProductAt(q, j) == ProductAt(r, j) { DataBit(v, w, j); }
      OneQuotient(q, r, |q|);
      assert q[..|q|] == q && r[..|r|] == r;
    }
  }
}
