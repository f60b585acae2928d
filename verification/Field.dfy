/** Fields of characteristic two, kept abstract so that one theory serves both the six bit
    and the eight bit codes: addition is the exclusive or of the symbols, multiplication is
    whatever the codec uses. */
module Fields {

  /** Instantiating associativity and distributivity freely would never end, so these two
      laws are only used where a proof names the elements with Pick. */
  ghost predicate Pick<T>(a: T, b: T, c: T) { true }

  datatype Field<!T(!new)> = Field(zero: T, one: T, add: (T, T) -> T, mul: (T, T) -> T, inv: T -> T) {

    ghost predicate Valid() {
      && zero != one
      && (forall a :: add(a, zero) == a)
      && (forall a :: add(a, a) == zero)
      && (forall a, b :: add(a, b) == add(b, a))
      && (forall a, b, c {:trigger Pick(a, b, c)} :: add(add(a, b), c) == add(a, add(b, c)))
      && (forall a :: mul(a, one) == a)
      && (forall a :: mul(a, zero) == zero)
      && (forall a, b :: mul(a, b) == mul(b, a))
      && (forall a, b, c {:trigger Pick(a, b, c)} :: mul(mul(a, b), c) == mul(a, mul(b, c)))
      && (forall a, b, c {:trigger Pick(a, b, c)} :: mul(a, add(b, c)) == add(mul(a, b), mul(a, c)))
      && (forall a :: a != zero ==> mul(a, inv(a)) == one)
    }

    function Pow(a: T, k: nat): T {
      if k == 0 then one else mul(a, Pow(a, k - 1))
    }

    /** The polynomial with coefficients p, lowest power first, at x. */
    function Eval(p: seq<T>, x: T): T {
      if p == [] then zero else add(p[0], mul(x, Eval(p[1..], x)))
    }

    /** A received word, highest power first, at x: what the syndrome loops compute. */
    function Horner(w: seq<T>, x: T): T {
      if w == [] then zero else add(mul(Horner(w[..|w| - 1], x), x), w[|w| - 1])
    }
  }

  lemma AddAssoc<T(!new)>(F: Field<T>, a: T, b: T, c: T)
    requires F.Valid()
    ensures F.add(F.add(a, b), c) == F.add(a, F.add(b, c))
  { assert Pick(a, b, c); }

  lemma MulAssoc<T(!new)>(F: Field<T>, a: T, b: T, c: T)
    requires F.Valid()
    ensures F.mul(F.mul(a, b), c) == F.mul(a, F.mul(b, c))
  { assert Pick(a, b, c); }

  lemma Distribute<T(!new)>(F: Field<T>, a: T, b: T, c: T)
    requires F.Valid()
    ensures F.mul(a, F.add(b, c)) == F.add(F.mul(a, b), F.mul(a, c))
  { assert Pick(a, b, c); }

  lemma AddSwap<T(!new)>(F: Field<T>, a: T, b: T, c: T, d: T)
    requires F.Valid()
    ensures F.add(F.add(a, b), F.add(c, d)) == F.add(F.add(a, c), F.add(b, d))
  {
    AddAssoc(F, a, b, F.add(c, d));
    AddAssoc(F, b, c, d);
    AddAssoc(F, c, b, d);
    AddAssoc(F, a, c, F.add(b, d));
  }

  /** Equal elements are the ones whose sum is zero. */
  lemma AddCancel<T(!new)>(F: Field<T>, a: T, b: T)
    requires F.Valid()
    ensures F.add(a, b) == F.zero <==> a == b
    ensures F.add(F.add(a, b), b) == a
  {
    AddAssoc(F, a, b, b);
    AddAssoc(F, b, a, a);
  }

  lemma MulSwap<T(!new)>(F: Field<T>, a: T, b: T, c: T, d: T)
    requires F.Valid()
    ensures F.mul(F.mul(a, b), F.mul(c, d)) == F.mul(F.mul(a, c), F.mul(b, d))
  {
    MulAssoc(F, a, b, F.mul(c, d));
    MulAssoc(F, b, c, d);
    MulAssoc(F, c, b, d);
    MulAssoc(F, a, c, F.mul(b, d));
  }

  lemma NoZeroDivisors<T(!new)>(F: Field<T>, a: T, b: T)
    requires F.Valid()
    ensures F.mul(a, b) == F.zero <==> a == F.zero || b == F.zero
  {
    if a != F.zero && F.mul(a, b) == F.zero {
      MulAssoc(F, F.inv(a), a, b);
    }
  }

  lemma {:induction false} PowNonZero<T(!new)>(F: Field<T>, a: T, k: nat)
    requires F.Valid() && a != F.zero
    ensures F.Pow(a, k) != F.zero
  {
    if k > 0 {
      PowNonZero(F, a, k - 1);
      NoZeroDivisors(F, a, F.Pow(a, k - 1));
    }
  }

  lemma {:induction false} PowAdd<T(!new)>(F: Field<T>, a: T, j: nat, k: nat)
    requires F.Valid()
    ensures F.Pow(a, j + k) == F.mul(F.Pow(a, j), F.Pow(a, k))
  {
    if j > 0 {
      PowAdd(F, a, j - 1, k);
      MulAssoc(F, a, F.Pow(a, j - 1), F.Pow(a, k));
    }
  }

  lemma {:induction false} PowMul<T(!new)>(F: Field<T>, a: T, j: nat, k: nat)
    requires F.Valid()
    ensures F.Pow(a, j * k) == F.Pow(F.Pow(a, j), k)
  {
    if k > 0 {
      PowMul(F, a, j, k - 1);
      assert j * k == j + j * (k - 1);
      PowAdd(F, a, j, j * (k - 1));
    }
  }
}
