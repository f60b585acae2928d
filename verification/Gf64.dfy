/** The six bit field GF(2^6) of the P25 codes, reduced by x^6 + x + 1. */
module Gf64 {
  import opened Fields
  import opened PrimitiveField

  /** A six bit symbol, 0 to 63. */
  type Sym = bv6

  const BITS: nat := 6

  /** A symbol times x: x^6 is replaced by x + 1. */
  function Double(a: Sym): Sym {
    if a & 0x20 == 0 then a << 1 else (a << 1) ^ 0x03
  }

  ghost function Gen(): Generator<Sym> {
    Generator<Sym>.Generator(0, 1, (a: Sym, b: Sym) => a ^ b, (a: Sym) => Double(a), (a: Sym) => a as nat, 63)
  }

  lemma NumInjective(a: Sym, b: Sym)
    ensures a as nat <= 63
    ensures a as nat == b as nat ==> a == b
    ensures a as nat == 0 <==> a == 0
  {
    assert (a as nat) as bv6 == a && (b as nat) as bv6 == b;
  }

  lemma DoubleAdd(a: Sym, b: Sym)
    ensures Double(a ^ b) == Double(a) ^ Double(b)
  {}

  lemma XorGroup(a: Sym, b: Sym, c: Sym)
    ensures a ^ 0 == a && a ^ a == 0 && a ^ b == b ^ a
    ensures (a ^ b) ^ c == a ^ (b ^ c)
  {}

  lemma GenGroup(G: Generator<Sym>)
    requires G == Gen()
    ensures forall a :: G.add(a, G.zero) == a && G.add(a, a) == G.zero
    ensures forall a, b :: G.add(a, b) == G.add(b, a)
  {
    forall a: Sym ensures G.add(a, G.zero) == a && G.add(a, a) == G.zero { XorGroup(a, a, a); }
    forall a: Sym, b: Sym ensures G.add(a, b) == G.add(b, a) { XorGroup(a, b, a); }
  }

  lemma GenAssociates(G: Generator<Sym>)
    requires G == Gen()
    ensures forall a, b, c {:trigger Pick(a, b, c)} :: G.add(G.add(a, b), c) == G.add(a, G.add(b, c))
  {
    forall a: Sym, b: Sym, c: Sym {:trigger Pick(a, b, c)} ensures G.add(G.add(a, b), c) == G.add(a, G.add(b, c)) {
      XorGroup(a, b, c);
    }
  }

  lemma GenDouble(G: Generator<Sym>)
    requires G == Gen()
    ensures forall a, b {:trigger G.double(G.add(a, b))} :: G.double(G.add(a, b)) == G.add(G.double(a), G.double(b))
  {
    forall a: Sym, b: Sym ensures G.double(G.add(a, b)) == G.add(G.double(a), G.double(b)) {
      DoubleAdd(a, b);
    }
  }

  lemma GenNum(G: Generator<Sym>)
    requires G == Gen()
    ensures forall a, b :: G.num(a) == G.num(b) ==> a == b
    ensures forall a :: G.num(a) <= G.N && (G.num(a) == 0 <==> a == G.zero)
  {
    forall a: Sym, b: Sym ensures G.num(a) == G.num(b) ==> a == b { NumInjective(a, b); }
    forall a: Sym ensures G.num(a) <= G.N && (G.num(a) == 0 <==> a == G.zero) { NumInjective(a, a); }
  }

  lemma GenValid(G: Generator<Sym>)
    requires G == Gen()
    ensures G.Valid()
  {
    GenGroup(G);
    GenAssociates(G);
    GenDouble(G);
    GenNum(G);
  }

  function Steps(a: Sym, k: nat): Sym {
    if k == 0 then a else Double(Steps(a, k - 1))
  }

  lemma {:induction false} StepsIterate(a: Sym, k: nat)
    ensures Gen().Iterate(a, k) == Steps(a, k)
  {
    if k > 0 { StepsIterate(a, k - 1); }
  }

  lemma {:induction false} StepsSum(a: Sym, j: nat, k: nat)
    ensures Steps(a, j + k) == Steps(Steps(a, j), k)
  {
    if k > 0 {
      StepsSum(a, j, k - 1);
      assert j + k - 1 == j + (k - 1);
    }
  }

  /** None of the next k doublings of a is one. */
  predicate Avoids(a: Sym, k: nat)
    decreases k
  {
    k == 0 || (Double(a) != 1 && Avoids(Double(a), k - 1))
  }

  lemma {:induction false} AvoidsAt(a: Sym, k: nat, j: nat)
    requires Avoids(a, k) && 0 < j <= k
    ensures Steps(a, j) != 1
    decreases k
  {
    StepsSum(a, 1, j - 1);
    assert Steps(a, 1) == Double(Steps(a, 0));
    if j > 1 { AvoidsAt(Double(a), k - 1, j - 1); }
  }

  /** The walk through the powers of x, nine steps at a time. */
  lemma Walk()
    ensures Steps(1, 9) == 24 && Steps(24, 9) == 15 && Steps(15, 9) == 14
    ensures Steps(14, 9) == 22 && Steps(22, 9) == 25 && Steps(25, 9) == 23 && Steps(23, 9) == 1
  {}

  lemma WalkAvoidsOne()
    ensures Avoids(1, 9) && Avoids(24, 9) && Avoids(15, 9)
    ensures Avoids(14, 9) && Avoids(22, 9) && Avoids(25, 9) && Avoids(23, 8)
  {}

  lemma WalkTo(i: nat) returns (a: Sym)
    requires i <= 7
    ensures a == Steps(1, 9 * i) && (i == 7 ==> a == 1) && (i < 6 ==> Avoids(a, 9)) && (i == 6 ==> Avoids(a, 8))
    ensures a ==
      match i case 0 => 1 case 1 => 24 case 2 => 15 case 3 => 14 case 4 => 22 case 5 => 25 case 6 => 23 case _ => 1
  {
    Walk();
    WalkAvoidsOne();
    assert Steps(1, 0) == 1;
    hide Steps, Avoids, Double;
    if i == 0 {
      a := 1;
    } else {
      var b := WalkTo(i - 1);
      StepsSum(1, 9 * (i - 1), 9);
      assert 9 * (i - 1) + 9 == 9 * i;
      a := Steps(1, 9 * i);
    }
  }

  lemma NoShortCycle(k: nat)
    requires 0 < k < 63
    ensures Steps(1, k) != 1
  {
    var i, j := (k - 1) / 9, (k - 1) % 9 + 1;
    var a := WalkTo(i);
    StepsSum(1, 9 * i, j);
    if i < 6 { AvoidsAt(a, 9, j); } else { AvoidsAt(a, 8, j); }
  }

  /** x generates the whole field: its powers return to one after 63 steps, not before. */
  lemma XIsPrimitive(G: Generator<Sym>)
    requires G == Gen()
    ensures G.Primitive()
  {
    GenValid(G);
    var one := WalkTo(7);
    StepsIterate(1, 63);
    forall k | 0 < k < 63 ensures G.Exp(k) != 1 {
      NoShortCycle(k);
      StepsIterate(1, k);
    }
  }

  /** The six bit field. */
  ghost function F64(): (F: Field<Sym>)
    ensures F.Valid() && F.zero == 0 && F.one == 1
    ensures forall a: Sym, b: Sym :: F.add(a, b) == a ^ b
  {
    XIsPrimitive(Gen());
    FieldLaws(Gen());
    FieldOf(Gen())
  }

  lemma F64Laws()
    ensures F64().Valid() && F64().zero == 0 && F64().one == 1
    ensures forall a: Sym, b: Sym :: F64().add(a, b) == a ^ b
  {}

  /** The sum of a * x^i over the low k bits i that are set in b. */
  function Product(a: Sym, b: Sym, k: nat): Sym
    decreases k
  {
    if k == 0 then 0
    else if b & 1 == 1 then a ^ Product(Double(a), b >> 1, k - 1)
    else Product(Double(a), b >> 1, k - 1)
  }

  lemma {:induction false} ProductDouble(a: Sym, b: Sym, k: nat)
    ensures Product(Double(a), b, k) == Double(Product(a, b, k))
    decreases k
  {
    hide Double;
    DoubleAdd(0, 0);
    if k > 0 {
      ProductDouble(Double(a), b >> 1, k - 1);
      DoubleAdd(a, Product(Double(a), b >> 1, k - 1));
    }
  }

  lemma {:induction false} ProductZero(b: Sym, k: nat)
    ensures Product(0, b, k) == 0
    decreases k
  {
    if k > 0 { ProductZero(b >> 1, k - 1); }
  }

  lemma OneTimes(b: Sym)
    ensures Product(1, b, 6) == b
  {}

  lemma {:induction false} ProductOfPower(b: Sym, k: nat)
    ensures Product(Steps(1, k), b, BITS) == Steps(b, k)
  {
    if k == 0 {
      OneTimes(b);
    } else {
      ProductOfPower(b, k - 1);
      ProductDouble(Steps(1, k - 1), b, BITS);
    }
  }

  /** Shift-and-add is the multiplication of the field. */
  lemma ProductIsMul(a: Sym, b: Sym)
    ensures Product(a, b, BITS) == F64().mul(a, b)
  {
    var G := Gen();
    XIsPrimitive(G);
    if a == 0 {
      ProductZero(b, BITS);
    } else {
      var k := G.Log(a);
      G.TimesPower(k, b);
      StepsIterate(1, k);
      StepsIterate(b, k);
      ProductOfPower(b, k);
    }
  }

  lemma LoopStep(p: Sym, a: Sym, b: Sym, k: nat)
    requires k > 0
    ensures p ^ Product(a, b, k) == (if b & 1 == 1 then p ^ a else p) ^ Product(Double(a), b >> 1, k - 1)
  {
    XorGroup(p, a, Product(Double(a), b >> 1, k - 1));
  }

  /** The multiplication loop of the codecs computes the product in the field. */
  method Gf6Mult(a0: Sym, b0: Sym) returns (p: Sym)
    ensures p == F64().mul(a0, b0)
  {
    var a: Sym, b: Sym := a0, b0;
    p := 0;
    ProductNone(0, a0, b0);
    hide Product, Double, F64;
    for i := 0 to BITS
      invariant p ^ Product(a, b, BITS - i) == Product(a0, b0, BITS)
    {
      LoopStep(p, a, b, BITS - i);
      if b & 0x01 == 0x01 { p := p ^ a; }
      a := ShiftLeft(a);
      b := b >> 1;
    }
    ProductNone(p, a, b);
    ProductIsMul(a0, b0);
  }

  lemma ProductNone(p: Sym, a: Sym, b: Sym)
    ensures p ^ Product(a, b, 0) == p && 0 ^ Product(a, b, BITS) == Product(a, b, BITS)
  {}

  /** One left shift in the eight bit register, reduced when the seventh bit comes up. */
  method ShiftLeft(a0: Sym) returns (a: Sym)
    ensures a == Double(a0)
  {
    var d: bv8 := (a0 as bv8) << 1;
    if d & 0x40 == 0x40 { d := d ^ 0x43; }
    a := d as bv6;
  }

  /** Powers of the primitive element x, which is the symbol 2. */
  ghost function Alpha(k: nat): Sym { F64().Pow(2, k) }

  lemma AlphaIsExp(k: nat)
    ensures Alpha(k) == Gen().Exp(k)
  {
    XIsPrimitive(Gen());
    PowIsExp(Gen(), k);
    assert Gen().Exp(1) == Double(Gen().Exp(0));
    assert Double(1) == 2;
  }

  lemma AlphaNonZero(k: nat)
    ensures Alpha(k) != 0
  {
    PowNonZero(F64(), 2, k);
  }

  lemma AlphaSum(j: nat, k: nat)
    ensures F64().mul(Alpha(j), Alpha(k)) == Alpha(j + k)
    ensures Alpha(j * k) == F64().Pow(Alpha(j), k)
  {
    PowAdd(F64(), 2, j, k);
    PowMul(F64(), 2, j, k);
  }

  lemma AlphaPeriod(k: nat)
    ensures Alpha(63 + k) == Alpha(k)
  {
    AlphaIsExp(63 + k);
    AlphaIsExp(k);
    hide F64, Alpha;
    XIsPrimitive(Gen());
    Gen().ExpPeriod(k);
  }

  /** Exponents count modulo 63. */
  lemma {:induction false} AlphaMod(k: nat)
    ensures Alpha(k) == Alpha(k % 63)
    decreases k
  {
    hide Alpha;
    if k >= 63 {
      AlphaMod(k - 63);
      AlphaPeriod(k - 63);
    }
  }

  lemma AlphaDistinct(i: nat, j: nat)
    requires i < j < 63
    ensures Alpha(i) != Alpha(j)
  {
    XIsPrimitive(Gen());
    Gen().ExpDistinct(i, j);
    AlphaIsExp(i);
    AlphaIsExp(j);
  }

  lemma EverySymbol(a: Sym) returns (k: nat)
    requires a != 0
    ensures k < 63 && Alpha(k) == a
  {
    XIsPrimitive(Gen());
    k := Gen().Log(a);
    AlphaIsExp(k);
  }
}
