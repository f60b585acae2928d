/** The parity columns of the three encoding matrices (their other columns are the identity),
    written in decimal, four symbols to a group, and the computed facts that make every row a
    code word: each row is the next one multiplied by x and reduced by the last, and the last
    vanishes at the roots. */
module Matrices {
  import opened Gf64

  datatype Row = End | Q(a: Sym, b: Sym, c: Sym, d: Sym, tail: Row)

  datatype Code = C362017 | C24169 | C241213 {
    function K(): nat { match this case C362017 => 20 case C24169 => 16 case C241213 => 12 }

    function Par(): nat { match this case C362017 => 16 case C24169 => 8 case C241213 => 12 }

    function N(): nat { K() + Par() }
  }

  // (36,20,17)
  const A0: Row := Q(60, 31, 28, 6, Q(2, 7, 36, 52, Q(22, 12, 22, 36, Q(44, 11, 63, 5, End))))
  const A1: Row := Q(4, 15, 40, 20, Q(9, 5, 24, 47, Q(27, 3, 2, 2, Q(13, 14, 21, 22, End))))
  const A2: Row := Q(7, 19, 31, 38, Q(46, 61, 35, 37, Q(45, 17, 40, 25, Q(37, 23, 57, 50, End))))
  const A3: Row := Q(22, 5, 7, 51, Q(51, 23, 51, 32, Q(6, 4, 32, 37, Q(39, 24, 61, 7, End))))
  const A4: Row := Q(19, 59, 59, 33, Q(58, 28, 17, 41, Q(55, 14, 25, 60, Q(9, 17, 10, 17, End))))
  const A5: Row := Q(20, 41, 21, 19, Q(18, 33, 60, 54, Q(60, 53, 56, 30, Q(55, 37, 52, 1, End))))
  const A6: Row := Q(42, 27, 12, 2, Q(16, 6, 12, 21, Q(42, 19, 29, 60, Q(61, 61, 35, 23, End))))
  const A7: Row := Q(45, 50, 46, 21, Q(59, 48, 13, 24, Q(11, 15, 16, 2, Q(56, 45, 12, 39, End))))
  const A8: Row := Q(44, 41, 26, 53, Q(63, 10, 44, 11, Q(29, 26, 46, 10, Q(61, 1, 58, 51, End))))
  const A9: Row := Q(60, 33, 24, 33, Q(35, 18, 41, 6, Q(52, 27, 3, 39, Q(23, 10, 45, 39, End))))
  const A10: Row := Q(44, 56, 9, 3, Q(11, 18, 14, 47, Q(3, 37, 58, 25, Q(24, 46, 29, 18, End))))
  const A11: Row := Q(41, 7, 58, 24, Q(53, 44, 6, 17, Q(30, 51, 40, 49, Q(52, 42, 1, 48, End))))
  const A12: Row := Q(1, 53, 26, 56, Q(11, 36, 59, 20, Q(10, 42, 17, 45, Q(10, 29, 12, 58, End))))
  const A13: Row := Q(9, 56, 5, 8, Q(53, 20, 13, 63, Q(18, 20, 20, 60, Q(7, 36, 7, 38, End))))
  const A14: Row := Q(6, 2, 53, 9, Q(33, 16, 37, 34, Q(38, 44, 29, 10, Q(32, 52, 53, 27, End))))
  const A15: Row := Q(28, 25, 1, 13, Q(36, 52, 14, 20, Q(42, 14, 6, 50, Q(16, 11, 45, 47, End))))
  const A16: Row := Q(51, 35, 21, 36, Q(63, 51, 15, 15, Q(52, 12, 32, 60, Q(25, 58, 44, 6, End))))
  const A17: Row := Q(57, 17, 56, 36, Q(46, 4, 24, 60, Q(4, 19, 57, 56, Q(51, 37, 46, 35, End))))
  const A18: Row := Q(2, 1, 43, 60, Q(2, 12, 42, 60, Q(10, 47, 20, 51, Q(13, 34, 42, 27, End))))
  const A19: Row := Q(28, 29, 2, 19, Q(17, 23, 18, 27, Q(52, 34, 5, 59, Q(41, 38, 59, 48, End))))

  // (24,16,9)
  const B0: Row := Q(41, 37, 55, 13, Q(52, 55, 42, 10, End))
  const B1: Row := Q(47, 21, 51, 59, Q(57, 18, 32, 13, End))
  const B2: Row := Q(5, 1, 25, 4, Q(14, 44, 21, 62, End))
  const B3: Row := Q(59, 7, 39, 12, Q(33, 63, 39, 9, End))
  const B4: Row := Q(61, 13, 41, 41, Q(15, 55, 15, 47, End))
  const B5: Row := Q(16, 26, 12, 34, Q(61, 34, 56, 44, End))
  const B6: Row := Q(2, 61, 35, 5, Q(1, 32, 10, 52, End))
  const B7: Row := Q(20, 60, 13, 58, Q(20, 22, 60, 49, End))
  const B8: Row := Q(34, 52, 7, 18, Q(49, 16, 32, 53, End))
  const B9: Row := Q(26, 26, 45, 33, Q(47, 54, 17, 63, End))
  const B10: Row := Q(53, 30, 21, 7, Q(40, 14, 32, 41, End))
  const B11: Row := Q(52, 6, 44, 26, Q(62, 38, 12, 30, End))
  const B12: Row := Q(50, 51, 60, 56, Q(5, 23, 31, 38, End))
  const B13: Row := Q(45, 35, 28, 57, Q(47, 62, 40, 52, End))
  const B14: Row := Q(20, 19, 19, 5, Q(40, 56, 34, 19, End))
  const B15: Row := Q(55, 61, 37, 48, Q(47, 20, 6, 22, End))

  // (24,12,13)
  const C0: Row := Q(50, 36, 3, 21, Q(12, 14, 23, 3, Q(43, 4, 30, 39, End)))
  const C1: Row := Q(9, 10, 9, 9, Q(14, 52, 55, 45, Q(1, 62, 22, 59, End)))
  const C2: Row := Q(3, 1, 5, 61, Q(12, 6, 16, 36, Q(54, 6, 56, 54, End)))
  const C3: Row := Q(17, 56, 23, 37, Q(14, 55, 19, 52, Q(59, 27, 36, 17, End)))
  const C4: Row := Q(24, 18, 3, 61, Q(13, 13, 27, 13, Q(41, 3, 43, 40, End)))
  const C5: Row := Q(1, 33, 23, 46, Q(62, 52, 17, 43, Q(4, 21, 1, 10, End)))
  const C6: Row := Q(49, 62, 17, 45, Q(62, 1, 51, 29, Q(24, 11, 52, 56, End)))
  const C7: Row := Q(20, 18, 57, 46, Q(17, 29, 59, 34, Q(47, 60, 35, 62, End)))
  const C8: Row := Q(58, 34, 5, 16, Q(35, 39, 27, 46, Q(1, 14, 11, 62, End)))
  const C9: Row := Q(58, 12, 53, 44, Q(29, 21, 33, 14, Q(13, 32, 57, 22, End)))
  const C10: Row := Q(59, 53, 30, 49, Q(34, 18, 15, 4, Q(36, 16, 21, 5, End)))
  const C11: Row := Q(57, 5, 45, 3, Q(57, 28, 48, 9, Q(60, 2, 33, 40, End)))

  function Parity362017(j: nat): Row {
    match j
    case 0 => A0 case 1 => A1 case 2 => A2 case 3 => A3 case 4 => A4
    case 5 => A5 case 6 => A6 case 7 => A7 case 8 => A8 case 9 => A9
    case 10 => A10 case 11 => A11 case 12 => A12 case 13 => A13 case 14 => A14
    case 15 => A15 case 16 => A16 case 17 => A17 case 18 => A18 case _ => A19
  }

  function Parity24169(j: nat): Row {
    match j
    case 0 => B0 case 1 => B1 case 2 => B2 case 3 => B3 case 4 => B4
    case 5 => B5 case 6 => B6 case 7 => B7 case 8 => B8 case 9 => B9
    case 10 => B10 case 11 => B11 case 12 => B12 case 13 => B13 case 14 => B14
    case _ => B15
  }

  function Parity241213(j: nat): Row {
    match j
    case 0 => C0 case 1 => C1 case 2 => C2 case 3 => C3 case 4 => C4
    case 5 => C5 case 6 => C6 case 7 => C7 case 8 => C8 case 9 => C9
    case 10 => C10 case _ => C11
  }

  function ParityRow(c: Code, j: nat): Row {
    match c
    case C362017 => Parity362017(j)
    case C24169 => Parity24169(j)
    case C241213 => Parity241213(j)
  }

  /** The product written out, so that the verifier can compute with it: a doubled i times
      counts where bit i of b is set. */
  function Fast(a: Sym, b: Sym): Sym {
    var a1 := Double(a);
    var a2 := Double(a1);
    var a3 := Double(a2);
    var a4 := Double(a3);
    var a5 := Double(a4);
    ((0 - (b & 1)) & a) ^ (((0 - ((b >> 1) & 1)) & a1) ^ (((0 - ((b >> 2) & 1)) & a2)
    ^ (((0 - ((b >> 3) & 1)) & a3) ^ (((0 - ((b >> 4) & 1)) & a4) ^ ((0 - ((b >> 5) & 1)) & a5)))))
  }

  function PlusTimes(q: Sym, k: Sym, g: Sym): Sym { q ^ Fast(k, g) }

  /** p is q moved up by one place plus k times g; q is given without its head. */
  predicate Follows(p: Row, qb: Sym, qc: Sym, qd: Sym, q: Row, k: Sym, g: Row) {
    match (p, g)
    case (Q(p0, p1, p2, p3, p4), Q(g0, g1, g2, g3, g4)) =>
      p0 == PlusTimes(qb, k, g0) && p1 == PlusTimes(qc, k, g1) && p2 == PlusTimes(qd, k, g2)
      && (match q
          case End => p3 == Fast(k, g3) && p4 == End && g4 == End
          case Q(q0, q1, q2, q3, q4) => p3 == PlusTimes(q0, k, g3) && Follows(p4, q1, q2, q3, q4, k, g4))
    case _ => false
  }

  predicate RowFollows(p: Row, q: Row, g: Row) {
    q.Q? && Follows(p, q.b, q.c, q.d, q.tail, q.a, g)
  }

  // the products of (x + alpha^1) .. (x + alpha^i), times x^(16 - i), without their leading one
  const G0: Row := Q(0, 0, 0, 0, Q(0, 0, 0, 0, Q(0, 0, 0, 0, Q(0, 0, 0, 0, End))))
  const G1: Row := Q(2, 0, 0, 0, Q(0, 0, 0, 0, Q(0, 0, 0, 0, Q(0, 0, 0, 0, End))))
  const G2: Row := Q(6, 8, 0, 0, Q(0, 0, 0, 0, Q(0, 0, 0, 0, Q(0, 0, 0, 0, End))))
  const G3: Row := Q(14, 56, 3, 0, Q(0, 0, 0, 0, Q(0, 0, 0, 0, Q(0, 0, 0, 0, End))))
  const G4: Row := Q(30, 29, 17, 48, Q(0, 0, 0, 0, Q(0, 0, 0, 0, Q(0, 0, 0, 0, End))))
  const G5: Row := Q(62, 12, 35, 8, Q(40, 0, 0, 0, Q(0, 0, 0, 0, Q(0, 0, 0, 0, End))))
  const G6: Row := Q(61, 13, 55, 46, Q(48, 59, 0, 0, Q(0, 0, 0, 0, Q(0, 0, 0, 0, End))))
  const G7: Row := Q(59, 5, 25, 26, Q(17, 29, 28, 0, Q(0, 0, 0, 0, Q(0, 0, 0, 0, End))))
  const G8: Row := Q(55, 61, 37, 48, Q(47, 20, 6, 22, Q(0, 0, 0, 0, Q(0, 0, 0, 0, End))))
  const G9: Row := Q(47, 40, 5, 31, Q(49, 14, 47, 5, Q(25, 0, 0, 0, Q(0, 0, 0, 0, End))))
  const G10: Row := Q(31, 28, 39, 42, Q(57, 2, 3, 49, Q(44, 46, 0, 0, Q(0, 0, 0, 0, End))))
  const G11: Row := Q(60, 12, 17, 21, Q(59, 14, 6, 23, Q(52, 35, 8, 0, Q(0, 0, 0, 0, End))))
  const G12: Row := Q(57, 5, 45, 3, Q(57, 28, 48, 9, Q(60, 2, 33, 40, Q(0, 0, 0, 0, End))))
  const G13: Row := Q(51, 53, 15, 61, Q(39, 44, 45, 32, Q(37, 16, 53, 45, Q(28, 0, 0, 0, End))))
  const G14: Row := Q(39, 24, 25, 52, Q(23, 29, 6, 31, Q(59, 9, 58, 59, Q(35, 58, 0, 0, End))))
  const G15: Row := Q(15, 57, 8, 13, Q(19, 30, 25, 42, Q(55, 31, 29, 5, Q(53, 61, 62, 0, End))))
  const G16: Row := Q(28, 29, 2, 19, Q(17, 23, 18, 27, Q(52, 34, 5, 59, Q(41, 38, 59, 48, End))))

  function RootProduct(i: nat): Row {
    match i
    case 0 => G0 case 1 => G1 case 2 => G2 case 3 => G3 case 4 => G4
    case 5 => G5 case 6 => G6 case 7 => G7 case 8 => G8 case 9 => G9
    case 10 => G10 case 11 => G11 case 12 => G12 case 13 => G13 case 14 => G14
    case 15 => G15 case _ => G16
  }

  /** The powers alpha^j of the primitive element. */
  function Root(j: nat): Sym {
    match j
    case 0 => 1 case 1 => 2 case 2 => 4 case 3 => 8 case 4 => 16 case 5 => 32 case 6 => 3 case 7 => 6 case 8 => 12
    case 9 => 24 case 10 => 48 case 11 => 35 case 12 => 5 case 13 => 10 case 14 => 20 case 15 => 40 case _ => 19
  }

  predicate EndsInZero(r: Row) {
    match r
    case End => false
    case Q(_, _, _, d, End) => d == 0
    case Q(_, _, _, _, t) => EndsInZero(t)
  }

  /** r is p plus a times p moved down by one place, where prev stands before p's head. */
  predicate TimesRoot(p: Row, r: Row, prev: Sym, a: Sym) {
    match (p, r)
    case (End, End) => true
    case (Q(p0, p1, p2, p3, p4), Q(r0, r1, r2, r3, r4)) =>
      && r0 == PlusTimes(p0, a, prev) && r1 == PlusTimes(p1, a, p0)
      && r2 == PlusTimes(p2, a, p1) && r3 == PlusTimes(p3, a, p2)
      && TimesRoot(p4, r4, p3, a)
    case _ => false
  }

  // ----- the tables satisfy these relations; each lemma is a computation -----

  lemma RowsA0()
    ensures RowFollows(A0, A1, A19)
    ensures RowFollows(A1, A2, A19)
    ensures RowFollows(A2, A3, A19)
    ensures RowFollows(A3, A4, A19)
    ensures RowFollows(A4, A5, A19)
  {}

  lemma RowsA1()
    ensures RowFollows(A5, A6, A19)
    ensures RowFollows(A6, A7, A19)
    ensures RowFollows(A7, A8, A19)
    ensures RowFollows(A8, A9, A19)
    ensures RowFollows(A9, A10, A19)
  {}

  lemma RowsA2()
    ensures RowFollows(A10, A11, A19)
    ensures RowFollows(A11, A12, A19)
    ensures RowFollows(A12, A13, A19)
    ensures RowFollows(A13, A14, A19)
    ensures RowFollows(A14, A15, A19)
  {}

  lemma RowsA3()
    ensures RowFollows(A15, A16, A19)
    ensures RowFollows(A16, A17, A19)
    ensures RowFollows(A17, A18, A19)
    ensures RowFollows(A18, A19, A19)
  {}

  lemma RowsB0()
    ensures RowFollows(B0, B1, B15)
    ensures RowFollows(B1, B2, B15)
    ensures RowFollows(B2, B3, B15)
    ensures RowFollows(B3, B4, B15)
    ensures RowFollows(B4, B5, B15)
  {}

  lemma RowsB1()
    ensures RowFollows(B5, B6, B15)
    ensures RowFollows(B6, B7, B15)
    ensures RowFollows(B7, B8, B15)
    ensures RowFollows(B8, B9, B15)
    ensures RowFollows(B9, B10, B15)
  {}

  lemma RowsB2()
    ensures RowFollows(B10, B11, B15)
    ensures RowFollows(B11, B12, B15)
    ensures RowFollows(B12, B13, B15)
    ensures RowFollows(B13, B14, B15)
    ensures RowFollows(B14, B15, B15)
  {}

  lemma RowsC0()
    ensures RowFollows(C0, C1, C11)
    ensures RowFollows(C1, C2, C11)
    ensures RowFollows(C2, C3, C11)
    ensures RowFollows(C3, C4, C11)
  {}

  lemma RowsC1()
    ensures RowFollows(C4, C5, C11)
    ensures RowFollows(C5, C6, C11)
    ensures RowFollows(C6, C7, C11)
    ensures RowFollows(C7, C8, C11)
  {}

  lemma RowsC2()
    ensures RowFollows(C8, C9, C11)
    ensures RowFollows(C9, C10, C11)
    ensures RowFollows(C10, C11, C11)
  {}

  lemma Generators0()
    ensures TimesRoot(G0, G1, 1, 2) && EndsInZero(G0)
    ensures TimesRoot(G1, G2, 1, 4) && EndsInZero(G1)
    ensures TimesRoot(G2, G3, 1, 8) && EndsInZero(G2)
    ensures TimesRoot(G3, G4, 1, 16) && EndsInZero(G3)
  {}

  lemma Generators1()
    ensures TimesRoot(G4, G5, 1, 32) && EndsInZero(G4)
    ensures TimesRoot(G5, G6, 1, 3) && EndsInZero(G5)
    ensures TimesRoot(G6, G7, 1, 6) && EndsInZero(G6)
    ensures TimesRoot(G7, G8, 1, 12) && EndsInZero(G7)
  {}

  lemma Generators2()
    ensures TimesRoot(G8, G9, 1, 24) && EndsInZero(G8)
    ensures TimesRoot(G9, G10, 1, 48) && EndsInZero(G9)
    ensures TimesRoot(G10, G11, 1, 35) && EndsInZero(G10)
    ensures TimesRoot(G11, G12, 1, 5) && EndsInZero(G11)
  {}

  lemma Generators3()
    ensures TimesRoot(G12, G13, 1, 10) && EndsInZero(G12)
    ensures TimesRoot(G13, G14, 1, 20) && EndsInZero(G13)
    ensures TimesRoot(G14, G15, 1, 40) && EndsInZero(G14)
    ensures TimesRoot(G15, G16, 1, 19) && EndsInZero(G15)
  {}

  lemma RowOf362017(j: nat)
    requires j < 19
    ensures RowFollows(Parity362017(j), Parity362017(j + 1), Parity362017(19))
  {
    hide RowFollows, TimesRoot, EndsInZero;
    if j < 5 { RowsA0(); } else if j < 10 { RowsA1(); } else if j < 15 { RowsA2(); } else { RowsA3(); }
  }

  lemma RowOf24169(j: nat)
    requires j < 15
    ensures RowFollows(Parity24169(j), Parity24169(j + 1), Parity24169(15))
  {
    hide RowFollows, TimesRoot, EndsInZero;
    if j < 5 { RowsB0(); } else if j < 10 { RowsB1(); } else { RowsB2(); }
  }

  lemma RowOf241213(j: nat)
    requires j < 11
    ensures RowFollows(Parity241213(j), Parity241213(j + 1), Parity241213(11))
  {
    hide RowFollows, TimesRoot, EndsInZero;
    if j < 4 { RowsC0(); } else if j < 8 { RowsC1(); } else { RowsC2(); }
  }

  lemma RootProductOf(j: nat)
    requires j < 16
    ensures TimesRoot(RootProduct(j), RootProduct(j + 1), 1, Root(j + 1)) && EndsInZero(RootProduct(j))
  {
    hide RowFollows, TimesRoot, EndsInZero;
    if j < 4 { Generators0(); } else if j < 8 { Generators1(); }
    else if j < 12 { Generators2(); } else { Generators3(); }
  }

}
