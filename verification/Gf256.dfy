/** The eight bit field GF(2^8) of the (12,9) code, through its log and antilog tables. */
module Gf256 {
  import opened Fields
  import opened PrimitiveField
  import opened Tables256

  lemma DoublesAt(r: Row<bv8>, next: Row<bv8>, i: nat)
    requires Doubles(r, next) && i < 16
    ensures (if i == 15 then next.x0 else At(r, i + 1)) == Double(At(r, i))
  {
    hide Double;
    match i
    case 0 => case 1 => case 2 => case 3 => case 4 => case 5 => case 6 => case 7 =>
    case 8 => case 9 => case 10 => case 11 => case 12 => case 13 => case 14 => case _ =>
  }

  lemma DoublesLastAt(r: Row<bv8>, i: nat)
    requires DoublesLast(r) && i < 14
    ensures At(r, i + 1) == Double(At(r, i))
  {
    hide Double;
    match i
    case 0 => case 1 => case 2 => case 3 => case 4 => case 5 => case 6 =>
    case 7 => case 8 => case 9 => case 10 => case 11 => case 12 => case _ =>
  }

  lemma ExpRowLast()
    ensures DoublesLast(ExpRow(31))
  {
    LastRow();
    hide DoublesLast;
  }

  lemma Entry(r: nat, i: nat)
    requires i < 16
    ensures ExpTable(16 * r + i) == At(ExpRow(r), i)
    ensures ExpTable(16 * r) == ExpRow(r).x0
  {
    hide ExpRow;
  }

  /** Each antilog is twice the one before. */
  lemma ExpStep(k: nat)
    requires k < 510
    ensures ExpTable(k + 1) == Double(ExpTable(k))
  {
    hide Double, Doubles, DoublesLast, ExpRow, At, ExpTable;
    var r, i := k / 16, k % 16;
    assert k == 16 * r + i;
    Entry(r, i);
    if i < 15 { Entry(r, i + 1); } else { Entry(r + 1, 0); }
    if r == 31 {
      ExpRowLast();
      DoublesLastAt(ExpRow(31), i);
    } else {
      if r < 16 { ExpRowOf(r); } else { ExpRowOfHigh(r); }
      DoublesAt(ExpRow(r), ExpRow(r + 1), i);
    }
  }

  /** One recurs after exactly 255 steps. */
  lemma ExpOne(k: nat)
    requires 0 < k <= 255
    ensures ExpTable(k) == 1 <==> k == 255
  {
    hide ExpRow;
    OneOf(k / 16);
  }

  lemma HitsAt(l: Row<nat>, r: nat, i: nat)
    requires Hits(l, r) && i < 16 && (i == 0 ==> Hit(l.x0, 16 * r))
    ensures Hit(At(l, i), 16 * r + i)
  {
    hide Hit;
  }

  /** The log table is the inverse of the antilog table. */
  lemma LogHit(v: nat)
    requires 0 < v < 256
    ensures LogTable(v) < 255 && ExpTable(LogTable(v)) == v as bv8
  {
    hide Hits, LogRow, ExpRow, At;
    LogRowOf(v / 16);
    HitsAt(LogRow(v / 16), v / 16, v % 16);
  }

  ghost function Gen(): Generator<bv8> {
    Generator<bv8>.Generator(0, 1, (a: bv8, b: bv8) => a ^ b, (a: bv8) => Double(a), (a: bv8) => a as nat, 255)
  }

  lemma Laws(a: bv8, b: bv8, c: bv8)
    ensures a ^ 0 == a && a ^ a == 0 && a ^ b == b ^ a && (a ^ b) ^ c == a ^ (b ^ c)
  {}

  lemma DoubleAdd(a: bv8, b: bv8)
    ensures Double(a ^ b) == Double(a) ^ Double(b)
  {
    if a & 0x80 == 0 {
      if b & 0x80 == 0 {}
    } else {
      if b & 0x80 == 0 {}
    }
  }

  lemma NumInjective(a: bv8, b: bv8)
    ensures a as nat <= 255
    ensures a as nat == b as nat ==> a == b
    ensures a as nat == 0 <==> a == 0
  {
    assert (a as nat) as bv8 == a && (b as nat) as bv8 == b;
  }

  lemma GenAdd(G: Generator<bv8>)
    requires G == Gen()
    ensures forall a :: G.add(a, G.zero) == a && G.add(a, a) == G.zero
    ensures forall a, b :: G.add(a, b) == G.add(b, a)
  {
    forall a: bv8 ensures G.add(a, G.zero) == a && G.add(a, a) == G.zero { Laws(a, a, a); }
    forall a: bv8, b: bv8 ensures G.add(a, b) == G.add(b, a) { Laws(a, b, a); }
  }

  lemma GenAssociates(G: Generator<bv8>)
    requires G == Gen()
    ensures forall a, b, c {:trigger Pick(a, b, c)} :: G.add(G.add(a, b), c) == G.add(a, G.add(b, c))
  {
    forall a: bv8, b: bv8, c: bv8 {:trigger Pick(a, b, c)} ensures G.add(G.add(a, b), c) == G.add(a, G.add(b, c)) {
      Laws(a, b, c);
    }
  }

  lemma GenDouble(G: Generator<bv8>)
    requires G == Gen()
    ensures forall a, b {:trigger G.double(G.add(a, b))} :: G.double(G.add(a, b)) == G.add(G.double(a), G.double(b))
  {
    forall a: bv8, b: bv8 ensures G.double(G.add(a, b)) == G.add(G.double(a), G.double(b)) { DoubleAdd(a, b); }
  }

  lemma GenNum(G: Generator<bv8>)
    requires G == Gen()
    ensures forall a, b :: G.num(a) == G.num(b) ==> a == b
    ensures forall a :: G.num(a) <= G.N && (G.num(a) == 0 <==> a == G.zero)
  {
    hide Double;
    forall a: bv8, b: bv8 | G.num(a) == G.num(b) ensures a == b { NumInjective(a, b); }
    forall a: bv8 ensures G.num(a) <= G.N && (G.num(a) == 0 <==> a == G.zero) { NumInjective(a, a); }
  }

  lemma GenValid(G: Generator<bv8>)
    requires G == Gen()
    ensures G.Valid()
  {
    GenAdd(G);
    GenAssociates(G);
    GenDouble(G);
    GenNum(G);
  }

  /** The antilog table lists the powers of x. */
  lemma {:induction false} ExpIsPower(k: nat)
    requires k <= 510
    ensures Gen().Exp(k) == ExpTable(k)
  {
    if k == 0 {
      assert ExpTable(0) == 1;
    } else {
      ExpIsPower(k - 1);
      ExpStep(k - 1);
    }
  }

  lemma XIsPrimitive(G: Generator<bv8>)
    requires G == Gen()
    ensures G.Primitive()
  {
    GenValid(G);
    hide ExpTable;
    ExpIsPower(255);
    ExpOne(255);
    forall k | 0 < k < 255 ensures G.Exp(k) != 1 {
      ExpIsPower(k);
      ExpOne(k);
    }
  }

  /** The eight bit field. */
  ghost function F256(): (F: Field<bv8>)
    ensures F.Valid() && F.zero == 0 && F.one == 1
    ensures forall a: bv8, b: bv8 :: F.add(a, b) == a ^ b
  {
    XIsPrimitive(Gen());
    FieldLaws(Gen());
    FieldOf(Gen())
  }

  lemma F256Laws()
    ensures F256().Valid() && F256().zero == 0 && F256().one == 1
    ensures forall a: bv8, b: bv8 :: F256().add(a, b) == a ^ b
  {}

  lemma LogHitByte(a: bv8)
    requires a != 0
    ensures LogTable(a as nat) < 255 && ExpTable(LogTable(a as nat)) == a
  {
    NumInjective(a, a);
    assert (a as nat) as bv8 == a;
    hide ExpTable, LogTable;
    LogHit(a as nat);
  }

  lemma MulIsTimes(a: bv8, b: bv8)
    ensures Gen().Primitive() && F256().mul(a, b) == Gen().Times(a, b) && Gen().N == 255
  {
    XIsPrimitive(Gen());
    hide Double;
  }

  lemma PowerTimesPower(i: nat, j: nat)
    requires i < 255 && j < 255
    ensures F256().mul(ExpTable(i), ExpTable(j)) == ExpTable(i + j)
  {
    hide *;
    MulIsTimes(ExpTable(i), ExpTable(j));
    Gen().TimesExp(i, j);
    ExpIsPower(i);
    ExpIsPower(j);
    ExpIsPower(i + j);
  }

  lemma TableMul(a: bv8, b: bv8)
    requires a != 0 && b != 0
    ensures LogTable(a as nat) < 255 && LogTable(b as nat) < 255
    ensures ExpTable(LogTable(a as nat) + LogTable(b as nat)) == F256().mul(a, b)
  {
    hide *;
    LogHitByte(a);
    LogHitByte(b);
    PowerTimesPower(LogTable(a as nat), LogTable(b as nat));
  }

  lemma ZeroTimes(a: bv8, b: bv8)
    requires a == 0 || b == 0
    ensures F256().mul(a, b) == 0
  {
    F256Laws();
    hide FieldOf;
  }

  /** Multiplication by adding logarithms. */
  method Gmult(a: bv8, b: bv8) returns (p: bv8)
    ensures p == F256().mul(a, b)
  {
    hide *;
    if a == 0 || b == 0 {
      ZeroTimes(a, b);
      return 0;
    }
    TableMul(a, b);
    var i := LogTable(a as nat);
    var j := LogTable(b as nat);
    p := ExpTable(i + j);
  }

  /** Powers of x, which is the byte 2. */
  ghost function Alpha(k: nat): bv8 { F256().Pow(2, k) }

  lemma AlphaFacts(i: nat, j: nat)
    ensures Alpha(i) != 0
    ensures i < j < 255 ==> Alpha(i) != Alpha(j)
  {
    F256Laws();
    PowNonZero(F256(), 2, i);
    XIsPrimitive(Gen());
    PowIsExp(Gen(), i);
    PowIsExp(Gen(), j);
    assert Gen().Exp(1) == Double(Gen().Exp(0));
    assert Double(1) == 2;
    if i < j < 255 { Gen().ExpDistinct(i, j); }
  }
}
