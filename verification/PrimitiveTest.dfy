/** What the construction's test for a primitive polynomial is worth: the condition under which
    an accepted polynomial is primitive, and the two ways in which one is not. */
module PrimitiveTest {
  import opened Fields
  import opened PrimitiveField
  import opened ReedSolomon

  /** Once the walk is back at one it repeats itself. */
  lemma {:induction false} WalkRepeats<T(!new)>(G: Generator<T>, p: nat, k: nat)
    requires G.Valid() && Walk(G, p) == G.one
    ensures Walk(G, p + k) == Walk(G, k)
  {
    if k > 0 {
      WalkRepeats(G, p, k - 1);
      assert p + k - 1 == p + (k - 1);
    }
  }

  /** So it can be read at remainders of any return to one. */
  lemma {:induction false} WalkMod<T(!new)>(G: Generator<T>, p: nat, k: nat)
    requires G.Valid() && p > 0 && Walk(G, p) == G.one
    ensures Walk(G, k % p) == Walk(G, k)
    decreases k
  {
    if k >= p {
      WalkMod(G, p, k - p);
      WalkRepeats(G, p, k - p);
      ModDrop(k - p, 1, p);
    } else {
      Small(k, p);
    }
  }

  /** The first return to one. */
  lemma {:induction false} FirstReturn<T(!new)>(G: Generator<T>, n: nat) returns (p: nat)
    requires n > 0 && Walk(G, n) == G.one
    ensures 0 < p <= n && Walk(G, p) == G.one && forall k :: 0 < k < p ==> Walk(G, k) != G.one
  {
    p := 1;
    while Walk(G, p) != G.one
      invariant 0 < p <= n && forall k :: 0 < k < p ==> Walk(G, k) != G.one
      decreases n - p
    {
      p := p + 1;
    }
  }

  /** The first return divides every other. */
  lemma ReturnDivides<T(!new)>(G: Generator<T>, p: nat, n: nat)
    requires G.Valid() && p > 0 && Walk(G, p) == G.one == Walk(G, n)
    requires forall k :: 0 < k < p ==> Walk(G, k) != G.one
    ensures n % p == 0
  {
    WalkMod(G, p, n);
    var r := n % p;
  }

  /** The functor leaves zero for one. */
  lemma AfterZero<T(!new)>(G: Generator<T>, i: nat)
    ensures Walk(G, i) == G.zero ==> Walk(G, i + 1) == G.one
  {}

  /** A walk that keeps off zero doubles at every step. */
  lemma {:induction false} WalkDoubles<T(!new)>(G: Generator<T>, n: nat, k: nat)
    requires G.Valid() && k <= n && forall i :: 0 <= i < n ==> Walk(G, i) != G.zero
    ensures Walk(G, k) == G.Exp(k)
  {
    if k > 0 { WalkDoubles(G, n, k - 1); }
  }

  /** The earliest returns to one that need checking: the proper divisors of N. */
  ghost predicate NoEarlyReturn<T(!new)>(G: Generator<T>) {
    forall d: nat | 0 < d < G.N && G.N % d == 0 :: Walk(G, d) != G.one
  }

  /** A polynomial that passes the test of the construction is primitive exactly when the last
      symbol of the walk is not zero and the walk is not back at one after a proper divisor of
      N steps. */
  lemma AcceptedPrimitive<T(!new)>(G: Generator<T>)
    requires G.Valid() && Walk(G, G.N) == G.one
    ensures G.Primitive() <==> Walk(G, G.N - 1) != G.zero && NoEarlyReturn(G)
  {
    if G.Primitive() {
      WalkIsExp(G, G.N - 1);
      G.ExpNonZero(G.N - 1);
      forall d: nat | 0 < d < G.N && G.N % d == 0 ensures Walk(G, d) != G.one { WalkIsExp(G, d); }
    }
    if Walk(G, G.N - 1) != G.zero && NoEarlyReturn(G) {
      var p := FirstReturn(G, G.N);
      ReturnDivides(G, p, G.N);
      assert p == G.N;
      forall i | 0 <= i < G.N ensures Walk(G, i) != G.zero {
        AfterZero(G, i);
      }
      WalkDoubles(G, G.N, G.N);
      forall k | 0 < k < G.N ensures G.Exp(k) != G.one { WalkDoubles(G, G.N, k); }
    }
  }

  // ---- A walk that is back at one too early ----

  /** Four bit symbols under x^4 + x^3 + x^2 + x + 1, in which x has order five. */
  function TwiceOrderFive(a: bv4): bv4 {
    if a & 8 == 0 then a << 1 else (a << 1) ^ 15
  }

  function OrderFive(): Generator<bv4> {
    Generator<bv4>.Generator(0, 1, (a: bv4, b: bv4) => a ^ b, (a: bv4) => TwiceOrderFive(a), (a: bv4) => a as nat, 15)
  }

  lemma TwiceAdds(a: bv4, b: bv4)
    ensures TwiceOrderFive(a ^ b) == TwiceOrderFive(a) ^ TwiceOrderFive(b)
  {}

  lemma OrderFiveLaws(a: bv4, b: bv4, d: bv4)
    ensures a ^ 0 == a && a ^ a == 0 && a ^ b == b ^ a && (a ^ b) ^ d == a ^ (b ^ d)
    ensures a as nat <= 15 && (a as nat == 0 <==> a == 0) && (a as nat == b as nat ==> a == b)
  {
    assert (a as nat) as bv4 == a && (b as nat) as bv4 == b;
  }

  lemma OrderFiveGroup(G: Generator<bv4>)
    requires G == OrderFive()
    ensures forall a :: G.add(a, G.zero) == a && G.add(a, a) == G.zero
    ensures forall a, b :: G.add(a, b) == G.add(b, a)
    ensures forall a, b, c {:trigger Pick(a, b, c)} :: G.add(G.add(a, b), c) == G.add(a, G.add(b, c))
  {
    hide TwiceOrderFive;
    forall a: bv4 ensures G.add(a, G.zero) == a && G.add(a, a) == G.zero { OrderFiveLaws(a, a, a); }
    forall a: bv4, b: bv4 ensures G.add(a, b) == G.add(b, a) { OrderFiveLaws(a, b, a); }
    forall a: bv4, b: bv4, c: bv4 {:trigger Pick(a, b, c)} ensures G.add(G.add(a, b), c) == G.add(a, G.add(b, c)) {
      OrderFiveLaws(a, b, c);
    }
  }

  lemma OrderFiveDouble(G: Generator<bv4>)
    requires G == OrderFive()
    ensures forall a, b {:trigger G.double(G.add(a, b))} :: G.double(G.add(a, b)) == G.add(G.double(a), G.double(b))
  {
    hide TwiceOrderFive;
    forall a: bv4, b: bv4 ensures G.double(G.add(a, b)) == G.add(G.double(a), G.double(b)) { TwiceAdds(a, b); }
  }

  lemma OrderFiveNum(G: Generator<bv4>)
    requires G == OrderFive()
    ensures forall a, b :: G.num(a) == G.num(b) ==> a == b
    ensures forall a :: G.num(a) <= G.N && (G.num(a) == 0 <==> a == G.zero)
  {
    hide TwiceOrderFive;
    forall a: bv4, b: bv4 | G.num(a) == G.num(b) ensures a == b { OrderFiveLaws(a, b, a); }
    forall a: bv4 ensures G.num(a) <= G.N && (G.num(a) == 0 <==> a == G.zero) { OrderFiveLaws(a, a, a); }
  }

  lemma OrderFiveValid(G: Generator<bv4>)
    requires G == OrderFive()
    ensures G.Valid()
  {
    OrderFiveGroup(G);
    OrderFiveDouble(G);
    OrderFiveNum(G);
  }

  /** After five steps the walk is where it was. */
  lemma FiveSteps(k: nat)
    requires Walk(OrderFive(), k) == 1
    ensures Walk(OrderFive(), k + 5) == 1
  {
    var G := OrderFive();
    assert Walk(G, k + 1) == 2;
    assert Walk(G, k + 2) == 4;
    assert Walk(G, k + 3) == 8;
    assert Walk(G, k + 4) == 15;
  }

  lemma OrderFiveStart()
    ensures Walk(OrderFive(), 0) == 1 && OrderFive().N == 15 && OrderFive().one == 1
  {}

  /** The construction accepts a polynomial that is not primitive: its walk is also back at one
      after fifteen steps, having been there after five. */
  lemma NotPrimitiveAccepted()
    ensures OrderFive().Valid() && Walk(OrderFive(), OrderFive().N) == OrderFive().one && !OrderFive().Primitive()
  {
    var G := OrderFive();
    hide *;
    OrderFiveValid(G);
    OrderFiveStart();
    FiveSteps(0);
    FiveSteps(5);
    FiveSteps(10);
    EarlyReturn(G, 5);
  }

  lemma EarlyReturn<T(!new)>(G: Generator<T>, d: nat)
    requires G.Valid() && Walk(G, G.N) == G.one && 0 < d < G.N && G.N % d == 0 && Walk(G, d) == G.one
    ensures !G.Primitive()
  {
    AcceptedPrimitive(G);
  }

  // ---- A walk that passes through zero ----

  /** Two bit symbols under x^2: doubling twice leaves nothing. */
  function Square(): Generator<bv2> {
    Generator<bv2>.Generator(0, 1, (a: bv2, b: bv2) => a ^ b, (a: bv2) => a << 1, (a: bv2) => a as nat, 3)
  }

  lemma SquareLaws(a: bv2, b: bv2, d: bv2)
    ensures a ^ 0 == a && a ^ a == 0 && a ^ b == b ^ a && (a ^ b) ^ d == a ^ (b ^ d)
    ensures (a ^ b) << 1 == (a << 1) ^ (b << 1)
    ensures a as nat <= 3 && (a as nat == 0 <==> a == 0) && (a as nat == b as nat ==> a == b)
  {
    assert (a as nat) as bv2 == a && (b as nat) as bv2 == b;
  }

  lemma SquareGroup(G: Generator<bv2>)
    requires G == Square()
    ensures forall a :: G.add(a, G.zero) == a && G.add(a, a) == G.zero
    ensures forall a, b :: G.add(a, b) == G.add(b, a)
    ensures forall a, b, c {:trigger Pick(a, b, c)} :: G.add(G.add(a, b), c) == G.add(a, G.add(b, c))
  {
    forall a: bv2 ensures G.add(a, G.zero) == a && G.add(a, a) == G.zero { SquareLaws(a, a, a); }
    forall a: bv2, b: bv2 ensures G.add(a, b) == G.add(b, a) { SquareLaws(a, b, a); }
    forall a: bv2, b: bv2, c: bv2 {:trigger Pick(a, b, c)} ensures G.add(G.add(a, b), c) == G.add(a, G.add(b, c)) {
      SquareLaws(a, b, c);
    }
  }

  lemma SquareDouble(G: Generator<bv2>)
    requires G == Square()
    ensures forall a, b {:trigger G.double(G.add(a, b))} :: G.double(G.add(a, b)) == G.add(G.double(a), G.double(b))
  {
    forall a: bv2, b: bv2 ensures G.double(G.add(a, b)) == G.add(G.double(a), G.double(b)) { SquareLaws(a, b, a); }
  }

  lemma SquareNum(G: Generator<bv2>)
    requires G == Square()
    ensures forall a, b :: G.num(a) == G.num(b) ==> a == b
    ensures forall a :: G.num(a) <= G.N && (G.num(a) == 0 <==> a == G.zero)
  {
    forall a: bv2, b: bv2 | G.num(a) == G.num(b) ensures a == b { SquareLaws(a, b, a); }
    forall a: bv2 ensures G.num(a) <= G.N && (G.num(a) == 0 <==> a == G.zero) { SquareLaws(a, a, a); }
  }

  lemma SquareValid(G: Generator<bv2>)
    requires G == Square()
    ensures G.Valid()
  {
    SquareGroup(G);
    SquareDouble(G);
    SquareNum(G);
  }

  lemma SquareWalk()
    ensures Walk(Square(), 1) == 2 && Walk(Square(), 2) == 0 && Walk(Square(), 3) == 1 && Square().N == 3
  {
    var G := Square();
    assert Walk(G, 0) == 1;
    assert Walk(G, 1) == 2;
    assert Walk(G, 2) == 0;
  }

  /** The construction accepts x^2: its walk has no early return, but it reaches one again only
      because the functor leaves zero for one, and zero stands in the antilog table. */
  lemma ZeroWalkAccepted()
    ensures var G := Square();
      G.Valid() && Walk(G, G.N) == G.one && NoEarlyReturn(G) && Walk(G, G.N - 1) == G.zero && !G.Primitive()
  {
    SquareValid(Square());
    SquareWalk();
    hide Walk;
    AcceptedPrimitive(Square());
  }
}
