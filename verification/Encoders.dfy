/** The matrix encoders: they keep the data symbols and produce code words. */
module Encoders {
  import opened Fields
  import opened Codes
  import opened ShiftRegister
  import opened PrimitiveField
  import opened Gf64
  import opened Bits
  import opened Matrices
  import opened Rs6Spec

  function ToSeq(r: Row): seq<Sym> {
    match r
    case End => []
    case Q(a, b, c, d, t) => [a] + ([b] + ([c] + ([d] + ToSeq(t))))
  }

  lemma FastIsMul(a: Sym, b: Sym)
    ensures Fast(a, b) == F64().mul(a, b)
  {
    FastIsProduct(a, b);
    ProductIsMul(a, b);
  }

  /** All ones when bit i of b is set. */
  function Mask(b: Sym, i: nat): Sym
    requires i < 6
  {
    0 - ((b >> i) & 1)
  }

  function Next(m: Sym, a: Sym, t: Sym): Sym { (m & a) ^ t }

  function Half(b: Sym): Sym { b >> 1 }

  // One more bit of the product: bit i of b is the lowest of b halved i times.

  lemma Bit0(a: Sym, b: Sym, t: Sym)
    requires t == Product(Double(a), Half(b), 5)
    ensures Next(Mask(b, 0), a, t) == Product(a, b, 6)
  {}

  lemma Bit1(a: Sym, b: Sym, t: Sym)
    requires t == Product(Double(a), Half(Half(b)), 4)
    ensures Next(Mask(b, 1), a, t) == Product(a, Half(b), 5)
  {}

  lemma Bit2(a: Sym, b: Sym, t: Sym)
    requires t == Product(Double(a), Half(Half(Half(b))), 3)
    ensures Next(Mask(b, 2), a, t) == Product(a, Half(Half(b)), 4)
  {}

  lemma Bit3(a: Sym, b: Sym, t: Sym)
    requires t == Product(Double(a), Half(Half(Half(Half(b)))), 2)
    ensures Next(Mask(b, 3), a, t) == Product(a, Half(Half(Half(b))), 3)
  {}

  lemma Bit4(a: Sym, b: Sym, t: Sym)
    requires t == Product(Double(a), Half(Half(Half(Half(Half(b))))), 1)
    ensures Next(Mask(b, 4), a, t) == Product(a, Half(Half(Half(Half(b)))), 2)
  {}

  lemma Bit5(a: Sym, b: Sym)
    ensures Mask(b, 5) & a == Product(a, Half(Half(Half(Half(Half(b))))), 1)
  {
    assert Product(Double(a), Half(Half(Half(Half(Half(Half(b)))))), 0) == 0;
  }

  lemma FastForm(a: Sym, b: Sym, a1: Sym, a2: Sym, a3: Sym, a4: Sym, a5: Sym)
    requires a1 == Double(a) && a2 == Double(a1) && a3 == Double(a2) && a4 == Double(a3) && a5 == Double(a4)
    ensures Fast(a, b) == Next(Mask(b, 0), a, Next(Mask(b, 1), a1, Next(Mask(b, 2), a2,
                          Next(Mask(b, 3), a3, Next(Mask(b, 4), a4, Mask(b, 5) & a5)))))
  {
    hide Double;
    ZeroShift(b);
  }

  lemma ZeroShift(b: Sym)
    ensures b >> 0 == b
  {}

  lemma FastIsProduct(a: Sym, b: Sym)
    ensures Fast(a, b) == Product(a, b, 6)
  {
    hide *;
    var a1 := Double(a);
    var a2 := Double(a1);
    var a3 := Double(a2);
    var a4 := Double(a3);
    var a5 := Double(a4);
    FastForm(a, b, a1, a2, a3, a4, a5);
    var t4 := Next(Mask(b, 4), a4, Mask(b, 5) & a5);
    var t3 := Next(Mask(b, 3), a3, t4);
    var t2 := Next(Mask(b, 2), a2, t3);
    var t1 := Next(Mask(b, 1), a1, t2);
    Bit5(a5, b);
    Bit4(a4, b, Mask(b, 5) & a5);
    Bit3(a3, b, t4);
    Bit2(a2, b, t3);
    Bit1(a1, b, t2);
    Bit0(a, b, t1);
  }

  // ----- every row of a matrix is a code word -----

  lemma ShiftsCons<T(!new)>(F: Field<T>, p0: T, P: seq<T>, q0: T, S: seq<T>, k: T, g0: T, G: seq<T>)
    requires Shifts(F, P, S, k, G) && p0 == F.add(q0, F.mul(k, g0))
    ensures Shifts(F, [p0] + P, [q0] + S, k, [g0] + G)
  {
    var p, q, g := [p0] + P, [q0] + S, [g0] + G;
    forall l | 0 <= l < |p| ensures p[l] == F.add(if l < |q| then q[l] else F.zero, F.mul(k, g[l])) {
      if l > 0 { assert p[l] == P[l - 1] && g[l] == G[l - 1]; }
    }
  }

  lemma ShiftsLast<T(!new)>(F: Field<T>, p0: T, k: T, g0: T)
    requires F.Valid() && p0 == F.mul(k, g0)
    ensures Shifts(F, [p0] + [], [], k, [g0] + [])
  {}

  lemma ShiftsThree<T(!new)>(F: Field<T>, a: T, b: T, c: T, P: seq<T>, qa: T, qb: T, qc: T, S: seq<T>, k: T, ga: T,
                             gb: T, gc: T, G: seq<T>)
    requires Shifts(F, P, S, k, G)
    requires a == F.add(qa, F.mul(k, ga)) && b == F.add(qb, F.mul(k, gb)) && c == F.add(qc, F.mul(k, gc))
    ensures Shifts(F, [a] + ([b] + ([c] + P)), [qa] + ([qb] + ([qc] + S)), k, [ga] + ([gb] + ([gc] + G)))
  {
    hide Shifts;
    ShiftsCons(F, c, P, qc, S, k, gc, G);
    ShiftsCons(F, b, [c] + P, qb, [qc] + S, k, gb, [gc] + G);
    ShiftsCons(F, a, [b] + ([c] + P), qa, [qb] + ([qc] + S), k, ga, [gb] + ([gc] + G));
  }

  lemma PlusTimesIs(q: Sym, k: Sym, g: Sym)
    ensures PlusTimes(q, k, g) == F64().add(q, F64().mul(k, g))
  {
    F64Laws();
    hide FieldOf, Fast;
    FastIsMul(k, g);
  }

  /** One group of four, in the field. */
  lemma FollowsGroup(p: Row, qb: Sym, qc: Sym, qd: Sym, q: Row, k: Sym, g: Row)
    requires Follows(p, qb, qc, qd, q, k, g)
    ensures p.Q? && g.Q?
    ensures p.a == F64().add(qb, F64().mul(k, g.a)) && p.b == F64().add(qc, F64().mul(k, g.b))
    ensures p.c == F64().add(qd, F64().mul(k, g.c))
    ensures q.Q? ==> p.d == F64().add(q.a, F64().mul(k, g.d)) && Follows(p.tail, q.b, q.c, q.d, q.tail, k, g.tail)
    ensures q.End? ==> p.d == F64().mul(k, g.d) && p.tail == End == g.tail
  {
    hide F64, Fast, PlusTimes;
    PlusTimesIs(qb, k, g.a);
    PlusTimesIs(qc, k, g.b);
    PlusTimesIs(qd, k, g.c);
    if q.Q? { PlusTimesIs(q.a, k, g.d); } else { FastIsMul(k, g.d); }
  }

  lemma {:induction false} FollowsShifts(p: Row, qb: Sym, qc: Sym, qd: Sym, q: Row, k: Sym, g: Row)
    requires Follows(p, qb, qc, qd, q, k, g)
    ensures Shifts(F64(), ToSeq(p), [qb] + ([qc] + ([qd] + ToSeq(q))), k, ToSeq(g))
  {
    hide F64, Fast, Shifts, Follows;
    F64Laws();
    FollowsGroup(p, qb, qc, qd, q, k, g);
    var P, S, G := ToSeq(p.tail), ToSeq(q), ToSeq(g.tail);
    if q.Q? {
      FollowsShifts(p.tail, q.b, q.c, q.d, q.tail, k, g.tail);
      ShiftsCons(F64(), p.d, P, q.a, [q.b] + ([q.c] + ([q.d] + ToSeq(q.tail))), k, g.d, G);
    } else {
      ShiftsLast(F64(), p.d, k, g.d);
    }
    ShiftsThree(F64(), p.a, p.b, p.c, [p.d] + P, qb, qc, qd, S, k, g.a, g.b, g.c, [g.d] + G);
  }

  function Before<T>(prev: T, p: seq<T>, l: nat): T
    requires l <= |p|
  {
    if l == 0 then prev else p[l - 1]
  }

  /** r is p plus a times p moved down one place, prev standing before p. */
  ghost predicate ByRoot<T(!new)>(F: Field<T>, p: seq<T>, r: seq<T>, prev: T, a: T) {
    && |p| == |r|
    && forall l :: 0 <= l < |p| ==> r[l] == F.add(p[l], F.mul(a, Before(prev, p, l)))
  }

  lemma BeforeCons<T>(prev: T, p0: T, P: seq<T>, l: nat)
    requires l <= |P| + 1
    ensures Before(prev, [p0] + P, l) == if l == 0 then prev else Before(p0, P, l - 1)
  {}

  lemma ByRootCons<T(!new)>(F: Field<T>, p0: T, P: seq<T>, r0: T, R: seq<T>, prev: T, a: T)
    requires ByRoot(F, P, R, p0, a) && r0 == F.add(p0, F.mul(a, prev))
    ensures ByRoot(F, [p0] + P, [r0] + R, prev, a)
  {
    hide Before;
    var p, r := [p0] + P, [r0] + R;
    forall l | 0 <= l < |p| ensures r[l] == F.add(p[l], F.mul(a, Before(prev, p, l))) {
      BeforeCons(prev, p0, P, l);
      if l > 0 {
        var k := l - 1;
        assert r[l] == R[k] && p[l] == P[k];
        assert R[k] == F.add(P[k], F.mul(a, Before(p0, P, k)));
      }
    }
  }

  lemma TimesRootGroup(p: Row, r: Row, prev: Sym, a: Sym)
    requires TimesRoot(p, r, prev, a) && p.Q?
    ensures r.Q? && TimesRoot(p.tail, r.tail, p.d, a)
    ensures r.a == F64().add(p.a, F64().mul(a, prev)) && r.b == F64().add(p.b, F64().mul(a, p.a))
    ensures r.c == F64().add(p.c, F64().mul(a, p.b)) && r.d == F64().add(p.d, F64().mul(a, p.c))
  {
    hide F64, Fast, PlusTimes;
    PlusTimesIs(p.a, a, prev);
    PlusTimesIs(p.b, a, p.a);
    PlusTimesIs(p.c, a, p.b);
    PlusTimesIs(p.d, a, p.c);
  }

  lemma TimesRootEnd(r: Row, prev: Sym, a: Sym)
    requires TimesRoot(End, r, prev, a)
    ensures ByRoot(F64(), ToSeq(End), ToSeq(r), prev, a)
  {}

  lemma {:induction false} TimesRootByRoot(p: Row, r: Row, prev: Sym, a: Sym)
    requires TimesRoot(p, r, prev, a)
    ensures ByRoot(F64(), ToSeq(p), ToSeq(r), prev, a)
  {
    hide F64, TimesRoot, ByRoot;
    if p.End? {
      TimesRootEnd(r, prev, a);
    } else {
      TimesRootGroup(p, r, prev, a);
      var F, P, R := F64(), ToSeq(p.tail), ToSeq(r.tail);
      TimesRootByRoot(p.tail, r.tail, p.d, a);
      ByRootCons(F, p.d, P, r.d, R, p.c, a);
      ByRootCons(F, p.c, [p.d] + P, r.c, [r.d] + R, p.b, a);
      ByRootCons(F, p.b, [p.c] + ([p.d] + P), r.b, [r.c] + ([r.d] + R), p.a, a);
      ByRootCons(F, p.a, [p.b] + ([p.c] + ([p.d] + P)), r.a, [r.b] + ([r.c] + ([r.d] + R)), prev, a);
    }
  }

  /** With a one in front, r is p plus a times p moved down one place. */
  lemma RootCoefficient<T(!new)>(F: Field<T>, p: seq<T>, r: seq<T>, a: T, i: nat)
    requires F.Valid() && ByRoot(F, p, r, F.one, a) && p != [] && i <= |p|
    ensures ([F.one] + r)[i] == F.add(([F.one] + p)[i], F.mul(a, ([F.zero] + ([F.one] + p)[..|p|])[i]))
  {
    FrontZero(F, a);
    hide Field.Valid, Before;
    if i > 0 {
      var k := i - 1;
      BeforeFront(F.one, p, k);
      assert r[k] == F.add(p[k], F.mul(a, Before(F.one, p, k)));
    }
  }

  lemma RootSum<T(!new)>(F: Field<T>, p: seq<T>, r: seq<T>, a: T, y: T)
    requires F.Valid() && ByRoot(F, p, r, F.one, a) && p != []
    ensures |r| == |p|
    ensures F.Horner([F.one] + r, y) ==
      F.add(F.Horner([F.one] + p, y), F.mul(a, F.Horner([F.zero] + ([F.one] + p)[..|p|], y)))
  {
    ByRootSize(F, p, r, F.one, a);
    hide *;
    var W, R := [F.one] + p, [F.one] + r;
    var D := [F.zero] + W[..|p|];
    var aD := seq(|D|, i requires 0 <= i < |D| => F.mul(a, D[i]));
    forall i | 0 <= i < |R| ensures R[i] == F.add(W[i], aD[i]) { RootCoefficient(F, p, r, a, i); }
    HornerAdd(F, W, aD, R, y);
    HornerScale(F, a, D, aD, y);
  }

  lemma ByRootSize<T(!new)>(F: Field<T>, p: seq<T>, r: seq<T>, prev: T, a: T)
    requires ByRoot(F, p, r, prev, a)
    ensures |p| == |r|
  {}

  lemma BeforeFront<T>(prev: T, p: seq<T>, k: nat)
    requires k < |p|
    ensures Before(prev, p, k) == ([prev] + p)[k]
  {}

  lemma FrontZero<T(!new)>(F: Field<T>, a: T)
    requires F.Valid()
    ensures F.one == F.add(F.one, F.mul(a, F.zero))
  {}

  /** Taking in one more root keeps the old roots and adds the new one. */
  lemma RootStep<T(!new)>(F: Field<T>, p: seq<T>, r: seq<T>, a: T, y: T)
    requires F.Valid() && ByRoot(F, p, r, F.one, a) && p != [] && p[|p| - 1] == F.zero && y != F.zero
    requires y == a || F.Horner([F.one] + p, y) == F.zero
    ensures F.Horner([F.one] + r, y) == F.zero
  {
    hide *;
    var W := [F.one] + p;
    var V := W[..|p|];
    RootSum(F, p, r, a, y);
    assert W == V + [F.zero];
    LeadingZero(F, V, y);
    TrailingZero(F, V, y);
    RootAlgebra(F, F.Horner(V, y), a, y);
  }

  lemma LeadingZero<T(!new)>(F: Field<T>, v: seq<T>, y: T)
    requires F.Valid()
    ensures F.Horner([F.zero] + v, y) == F.Horner(v, y)
  {
    HornerConcat(F, [F.zero], v, y);
    HornerZero(F, [F.zero], y);
  }

  lemma TrailingZero<T(!new)>(F: Field<T>, v: seq<T>, y: T)
    requires F.Valid()
    ensures F.Horner(v + [F.zero], y) == F.mul(F.Horner(v, y), y)
  {
    assert (v + [F.zero])[..|v|] == v;
  }

  lemma RootAlgebra<T(!new)>(F: Field<T>, v: T, a: T, y: T)
    requires F.Valid() && y != F.zero && (y == a || F.mul(v, y) == F.zero)
    ensures F.add(F.mul(v, y), F.mul(a, v)) == F.zero
  {
    NoZeroDivisors(F, v, y);
  }

  lemma {:induction false} EndsInZeroSeq(r: Row)
    requires EndsInZero(r)
    ensures ToSeq(r) != [] && ToSeq(r)[|ToSeq(r)| - 1] == 0
  {
    if r.tail.Q? { EndsInZeroSeq(r.tail); }
  }

  lemma RootIsAlpha(j: nat)
    requires 1 <= j <= 16
    ensures Alpha(j) == Root(j)
  {
    hide F64, Alpha;
    AlphaIsExp(j);
    StepsIterate(1, j);
    RootIsSteps(j);
  }

  lemma Doubles()
    ensures Double(1) == 2 && Double(2) == 4 && Double(4) == 8 && Double(8) == 16 && Double(16) == 32
    ensures Double(32) == 3 && Double(3) == 6 && Double(6) == 12 && Double(12) == 24 && Double(24) == 48
    ensures Double(48) == 35 && Double(35) == 5 && Double(5) == 10 && Double(10) == 20 && Double(20) == 40
    ensures Double(40) == 19
  {}

  lemma {:induction false} RootIsSteps(j: nat)
    requires j <= 16
    ensures Steps(1, j) == Root(j)
  {
    Doubles();
    hide Double;
    if j > 0 { RootIsSteps(j - 1); }
  }

  /** The i-th generator vanishes at alpha^1 .. alpha^i. */
  lemma {:induction false} RootProductVanishes(i: nat, j: nat)
    requires 1 <= j <= i <= 16
    ensures F64().Horner([1] + ToSeq(RootProduct(i)), Alpha(j)) == 0
    decreases i
  {
    F64Laws();
    AlphaNonZero(j);
    hide F64, Alpha, TimesRoot, ByRoot, EndsInZero, Root, RootProduct;
    RootProductOf(i - 1);
    RootIsAlpha(i);
    var p, r := RootProduct(i - 1), RootProduct(i);
    TimesRootByRoot(p, r, 1, Root(i));
    EndsInZeroSeq(p);
    if j < i { RootProductVanishes(i - 1, j); }
    RootStep(F64(), ToSeq(p), ToSeq(r), Root(i), Alpha(j));
  }

  function Zeros(n: nat): (z: seq<Sym>)
    ensures |z| == n && forall i :: 0 <= i < n ==> z[i] == 0
  {
    seq(n, _ => 0)
  }

  lemma LastRow362017()
    ensures ToSeq(G16) == ToSeq(A19) + Zeros(0)
  {}

  lemma LastRow24169()
    ensures ToSeq(G8) == ToSeq(B15) + Zeros(8)
  {
    assert ToSeq(G8.tail.tail) == Zeros(8);
    assert ToSeq(B15.tail.tail) == [];
  }

  lemma LastRow241213()
    ensures ToSeq(G12) == ToSeq(C11) + Zeros(4)
  {
    assert ToSeq(G12.tail.tail.tail) == Zeros(4);
    assert ToSeq(C11.tail.tail.tail) == [];
  }

  lemma LastRow(c: Code)
    ensures ToSeq(RootProduct(c.Par())) == ToSeq(ParityRow(c, c.K() - 1)) + Zeros(16 - c.Par())
  {
    hide ToSeq, Zeros;
    match c {
      case C362017 => LastRow362017();
      case C24169 => LastRow24169();
      case C241213 => LastRow241213();
    }
  }

  lemma LastRowSize(c: Code)
    ensures |ToSeq(ParityRow(c, c.K() - 1))| == c.Par()
  {
    match c {
      case C362017 => assert |ToSeq(A19)| == 16;
      case C24169 => assert |ToSeq(B15)| == 8;
      case C241213 => assert |ToSeq(C11)| == 12;
    }
  }

  /** The last parity row equals the power it stands for at every root. */
  lemma LastRowPower(c: Code, j: nat)
    requires 1 <= j <= c.Par()
    ensures F64().Horner(ToSeq(ParityRow(c, c.K() - 1)), Alpha(j)) == F64().Pow(Alpha(j), c.Par())
  {
    F64Laws();
    AlphaNonZero(j);
    hide F64, Alpha, ParityRow, RootProduct;
    LastRow(c);
    RootProductVanishes(c.Par(), j);
    LastRowSize(c);
    var g, z := ToSeq(ParityRow(c, c.K() - 1)), Zeros(16 - c.Par());
    assert [1] + ToSeq(RootProduct(c.Par())) == ([1] + g) + z;
    LastPower(F64(), g, z, Alpha(j));
  }

  lemma LastPower<T(!new)>(F: Field<T>, g: seq<T>, z: seq<T>, y: T)
    requires F.Valid() && y != F.zero && F.Horner(([F.one] + g) + z, y) == F.zero
    requires forall i :: 0 <= i < |z| ==> z[i] == F.zero
    ensures F.Horner(g, y) == F.Pow(y, |g|)
  {
    hide Field.Horner, Field.Pow;
    HornerConcat(F, [F.one] + g, z, y);
    HornerZero(F, z, y);
    PowNonZero(F, y, |z|);
    NoZeroDivisors(F, F.Horner([F.one] + g, y), F.Pow(y, |z|));
    HornerConcat(F, [F.one], g, y);
    HornerSingle(F, F.one, y);
    AddCancel(F, F.Horner(g, y), F.Pow(y, |g|));
  }

  /** One row up, one power more. */
  lemma ShiftPower<T(!new)>(F: Field<T>, p: seq<T>, q: seq<T>, k: T, g: seq<T>, y: T, d: nat)
    requires F.Valid() && Shifts(F, p, q, k, g)
    requires F.Horner(g, y) == F.Pow(y, |p|) && F.Horner([k] + q, y) == F.Pow(y, |p| + d)
    ensures F.Horner(p, y) == F.Pow(y, |p| + d + 1)
  {
    ShiftValue(F, p, q, k, g, y);
    HornerConcat(F, [k], q, y);
    HornerSingle(F, k, y);
    PowerAlgebra(F, F.Horner(q, y), k, y, |p|, d);
  }

  lemma PowerAlgebra<T(!new)>(F: Field<T>, v: T, k: T, y: T, m: nat, d: nat)
    requires F.Valid() && m >= 1 && F.add(F.mul(k, F.Pow(y, m - 1)), v) == F.Pow(y, m + d)
    ensures F.add(F.mul(v, y), F.mul(k, F.Pow(y, m))) == F.Pow(y, m + d + 1)
  {
    var w := F.mul(k, F.Pow(y, m - 1));
    Distribute(F, y, w, v);
    MulAssoc(F, y, k, F.Pow(y, m - 1));
    MulAssoc(F, k, y, F.Pow(y, m - 1));
    assert F.Pow(y, m + d + 1) == F.mul(y, F.Pow(y, m + d));
  }

  lemma RowOf(c: Code, j: nat)
    requires j < c.K() - 1
    ensures RowFollows(ParityRow(c, j), ParityRow(c, j + 1), ParityRow(c, c.K() - 1))
  {
    hide RowFollows;
    match c { case C362017 => RowOf362017(j); case C24169 => RowOf24169(j); case C241213 => RowOf241213(j); }
  }

  /** A row without its head. */
  function Rest(q: Row): seq<Sym>
    requires q.Q?
  {
    [q.b] + ([q.c] + ([q.d] + ToSeq(q.tail)))
  }

  lemma RowFollowsShifts(p: Row, q: Row, g: Row)
    requires RowFollows(p, q, g)
    ensures q.Q? && ToSeq(q) == [q.a] + Rest(q) && Shifts(F64(), ToSeq(p), Rest(q), q.a, ToSeq(g))
  {
    hide F64, Follows, Shifts;
    FollowsShifts(p, q.b, q.c, q.d, q.tail, q.a, g);
  }

  lemma RowShifts(c: Code, j: nat)
    requires j < c.K() - 1
    ensures var q := ParityRow(c, j + 1);
      q.Q? && ToSeq(q) == [q.a] + Rest(q)
      && Shifts(F64(), ToSeq(ParityRow(c, j)), Rest(q), q.a, ToSeq(ParityRow(c, c.K() - 1)))
  {
    hide *;
    RowOf(c, j);
    RowFollowsShifts(ParityRow(c, j), ParityRow(c, j + 1), ParityRow(c, c.K() - 1));
  }

  lemma RowSize(c: Code, j: nat)
    requires j < c.K()
    ensures |ToSeq(ParityRow(c, j))| == c.Par()
  {
    LastRowSize(c);
    hide F64, ParityRow, ToSeq;
    if j < c.K() - 1 { RowShifts(c, j); }
  }

  lemma {:induction false} ParityPower(c: Code, j: nat, i: nat)
    requires j < c.K() && 1 <= i <= c.Par()
    ensures F64().Horner(ToSeq(ParityRow(c, j)), Alpha(i)) == F64().Pow(Alpha(i), c.Par() + (c.K() - 1 - j))
    decreases c.K() - j
  {
    F64Laws();
    hide F64, Alpha, ParityRow, Shifts, ToSeq, Rest;
    LastRowPower(c, i);
    if j < c.K() - 1 {
      var q := ParityRow(c, j + 1);
      RowShifts(c, j);
      RowSize(c, j);
      ParityPower(c, j + 1, i);
      ShiftPower(F64(), ToSeq(ParityRow(c, j)), Rest(q), q.a,
                 ToSeq(ParityRow(c, c.K() - 1)), Alpha(i), c.K() - 2 - j);
    }
  }

  // ----- encoding -----

  /** Row j of an encoding matrix: the identity, then the parity columns. */
  function MatrixRow(c: Code, j: nat): (w: seq<Sym>)
    requires j < c.K()
  {
    (Zeros(j) + [1] + Zeros(c.K() - 1 - j)) + ToSeq(ParityRow(c, j))
  }

  lemma UnitValue<T(!new)>(F: Field<T>, a: seq<T>, b: seq<T>, y: T)
    requires F.Valid()
    requires forall i :: 0 <= i < |a| ==> a[i] == F.zero
    requires forall i :: 0 <= i < |b| ==> b[i] == F.zero
    ensures F.Horner(a + [F.one] + b, y) == F.Pow(y, |b|)
  {
    HornerConcat(F, a + [F.one], b, y);
    HornerConcat(F, a, [F.one], y);
    HornerZero(F, a, y);
    HornerZero(F, b, y);
    HornerSingle(F, F.one, y);
  }

  /** Every row of every matrix is a code word. */
  lemma RowIsCodeword(c: Code, j: nat)
    requires j < c.K()
    ensures |MatrixRow(c, j)| == c.N() && IsCodeword(MatrixRow(c, j), c.Par())
  {
    hide F64, Alpha, ParityRow, ToSeq;
    RowSize(c, j);
    forall i | 1 <= i <= c.Par() ensures F64().Horner(MatrixRow(c, j), Alpha(i)) == 0 { RowVanishes(c, j, i); }
  }

  lemma RowVanishes(c: Code, j: nat, i: nat)
    requires j < c.K() && 1 <= i <= c.Par()
    ensures F64().Horner(MatrixRow(c, j), Alpha(i)) == 0
  {
    F64Laws();
    hide F64, Alpha, ParityRow, ToSeq;
    RowSize(c, j);
    var u, p, y := Zeros(j) + [1] + Zeros(c.K() - 1 - j), ToSeq(ParityRow(c, j)), Alpha(i);
    HornerConcat(F64(), u, p, y);
    UnitValue(F64(), Zeros(j), Zeros(c.K() - 1 - j), y);
    ParityPower(c, j, i);
    PowAdd(F64(), y, c.Par(), c.K() - 1 - j);
    AddCancel(F64(), F64().Pow(y, c.Par() + (c.K() - 1 - j)), F64().Pow(y, c.Par() + (c.K() - 1 - j)));
  }

  /** The first m data symbols times their rows, added up. */
  ghost function Combination(c: Code, s: seq<Sym>, m: nat): (w: seq<Sym>)
    requires m <= |s| == c.K()
    ensures |w| == c.N()
  {
    if m == 0 then Zeros(c.N())
    else
      RowIsCodeword(c, m - 1);
      var v, r := Combination(c, s, m - 1), MatrixRow(c, m - 1);
      seq(c.N(), i requires 0 <= i < c.N() => F64().add(v[i], F64().mul(s[m - 1], r[i])))
  }

  /** A scaled code word added to a code word. */
  lemma SumVanishes<T(!new)>(F: Field<T>, v: seq<T>, k: T, r: seq<T>, w: seq<T>, y: T)
    requires F.Valid() && |v| == |r| == |w| && F.Horner(v, y) == F.zero == F.Horner(r, y)
    requires forall i :: 0 <= i < |w| ==> w[i] == F.add(v[i], F.mul(k, r[i]))
    ensures F.Horner(w, y) == F.zero
  {
    var t := seq(|r|, i requires 0 <= i < |r| => F.mul(k, r[i]));
    hide Field.Horner;
    HornerScale(F, k, r, t, y);
    HornerAdd(F, v, t, w, y);
  }

  lemma {:induction false} CombinationIsCodeword(c: Code, s: seq<Sym>, m: nat)
    requires m <= |s| == c.K()
    ensures IsCodeword(Combination(c, s, m), c.Par())
  {
    F64Laws();
    hide F64, Alpha, MatrixRow, Field.Valid, Field.Horner;
    var F, w := F64(), Combination(c, s, m);
    if m > 0 {
      CombinationIsCodeword(c, s, m - 1);
      RowIsCodeword(c, m - 1);
    }
    forall i | 1 <= i <= c.Par() ensures F.Horner(w, Alpha(i)) == 0 {
      if m == 0 {
        HornerZero(F, w, Alpha(i));
      } else {
        SumVanishes(F, Combination(c, s, m - 1), s[m - 1], MatrixRow(c, m - 1), w, Alpha(i));
      }
    }
  }

  lemma {:induction false} CombinationData(c: Code, s: seq<Sym>, m: nat)
    requires m <= |s| == c.K()
    ensures forall i :: 0 <= i < c.K() ==> Combination(c, s, m)[i] == if i < m then s[i] else 0
  {
    F64Laws();
    hide F64, ParityRow, ToSeq;
    if m > 0 {
      CombinationData(c, s, m - 1);
      RowIsCodeword(c, m - 1);
      var r := MatrixRow(c, m - 1);
      forall i | 0 <= i < c.K() ensures Combination(c, s, m)[i] == if i < m then s[i] else 0 {
        assert r[i] == if i == m - 1 then 1 else 0;
      }
    }
  }

  ghost predicate Encoded(c: Code, d: seq<bv8>, e: seq<bv8>)
    requires 6 * c.N() <= 8 * |d| && |d| == |e|
  {
    && Symbols(e, c.N())[..c.K()] == Symbols(d, c.N())[..c.K()]
    && IsCodeword(Symbols(e, c.N()), c.Par())
    && SameOutside(e, d, 6 * c.K(), 6 * c.N())
  }

  lemma EncodedFacts(c: Code, d: seq<bv8>, e: seq<bv8>, s: seq<Sym>)
    requires 6 * c.N() <= 8 * |d| && s == Symbols(d, c.N())[..c.K()]
    requires SameOutside(e, d, 0, 6 * c.N()) && Symbols(e, c.N()) == Combination(c, s, c.K())
    ensures Encoded(c, d, e)
  {
    hide F64, Alpha, MatrixRow, SymbolAt, BitAt;
    CombinationData(c, s, c.K());
    CombinationIsCodeword(c, s, c.K());
    forall i | 0 <= i < c.K() ensures SymbolAt(d, 6 * i) == SymbolAt(e, 6 * i) {
      assert Symbols(e, c.N())[i] == s[i];
    }
    SameSymbolsSameBits(d, e, c.K(), 6 * c.N());
  }

  method MatrixProduct(c: Code, data: array<bv8>, ghost d: seq<bv8>, ghost s: seq<Sym>) returns (codeword: seq<Sym>)
    requires 6 * c.N() <= 8 * |d| && d == data[..] && s == Symbols(d, c.N())[..c.K()]
    ensures codeword == Combination(c, s, c.K())
  {
    hide Symbols, MatrixRow, F64;
    codeword := [];
    for i := 0 to c.N()
      invariant |codeword| == i && forall l :: 0 <= l < i ==> codeword[l] == Combination(c, s, c.K())[l]
    {
      var x := Column(c, data, i, d, s);
      codeword := codeword + [x];
    }
  }

  /** Encoding: the matrix product, column by column, then packed over the buffer.  The data
      symbols stay as they were, the whole word is a code word, and only parity bits change. */
  method Encode(c: Code, data: array<bv8>)
    requires 6 * c.N() <= 8 * data.Length
    modifies data
    ensures Encoded(c, old(data[..]), data[..])
  {
    ghost var d := data[..];
    ghost var s: seq<Sym> := Symbols(d, c.N())[..c.K()];
    hide Combination, Encoded, SameOutside, SymbolAt;
    var codeword := MatrixProduct(c, data, d, s);
    Pack(codeword, data);
    EncodedFacts(c, d, data[..], s);
  }

  method Column(c: Code, data: array<bv8>, i: nat, ghost d: seq<bv8>, ghost s: seq<Sym>) returns (x: Sym)
    requires i < c.N() && 6 * c.N() <= 8 * |d| && d == data[..] && s == Symbols(d, c.N())[..c.K()]
    ensures x == Combination(c, s, c.K())[i]
  {
    F64Laws();
    hide F64, MatrixRow, SymbolAt;
    x := 0;
    var offset := 0;
    for j := 0 to c.K()
      invariant offset == 6 * j && x == Combination(c, s, j)[i]
    {
      var hexbit := Bin2Hex(data, offset);
      RowIsCodeword(c, j);
      var t := Gf6Mult(hexbit, MatrixRow(c, j)[i]);
      x := x ^ t;
      offset := offset + 6;
    }
  }
}
