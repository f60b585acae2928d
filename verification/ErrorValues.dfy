/** What the decoder may read off a generator of all the syndromes when few symbols are wrong:
    its roots are exactly the inverse locators of the errors, and Forney's quotient is the
    error value. */
module ErrorValues {
  import opened Fields
  import opened Codes
  import opened KeyEquation
  import opened Sets

  lemma {:induction false} TrimTail<T(!new)>(F: Field<T>, A: seq<T>, d: nat, s: seq<T>, k: int, x: T)
    requires F.Valid() && d <= |A| && (forall i :: d <= i < |A| ==> A[i] == F.zero || (i > k && k < |s|))
    ensures Conv(F, A[..d], s, k) == Conv(F, A, s, k)
    ensures ZeroFrom(F, A, d) ==> F.Eval(A[..d], x) == F.Eval(A, x)
  {
    if A == [] {
    } else if d == 0 {
      TrimTail(F, A[1..], 0, s, k - 1, x);
    } else {
      TrimTail(F, A[1..], d - 1, s, k - 1, x);
      assert A[..d][1..] == A[1..][..d - 1];
    }
  }

  /** The setting of a correctable word: e has few errors at locators X (inverses Z), s are its
      syndromes, and A of length L, no longer than the number of errors, generates them all. */
  ghost predicate Correctable<T(!new)>(F: Field<T>, e: seq<T>, X: seq<T>, Z: seq<T>, s: seq<T>, A: seq<T>, L: nat) {
    && |e| == |X| && Inverses(F, X, Z) && Distinct(X) && Distinct(Z) && F.zero !in X
    && Syndromes(F, e, X, s)
    && Generates(F, A, L, s, |s|) && L < |A|
    && L <= |Support(F, e)| && 2 * |Support(F, e)| <= |s|
  }

  lemma WeightedPowerSums<T(!new)>(F: Field<T>, e: seq<T>, X: seq<T>, Z: seq<T>, s: seq<T>, A: seq<T>, L: nat, j: nat)
    requires F.Valid() && Correctable(F, e, X, Z, s, A, L) && L <= j < |s|
    ensures Moment(F, Weighted(F, e, A[..L + 1], Z), X, j + 1) == F.zero
  {
    ConvOfMoments(F, A[..L + 1], e, X, Z, s, j);
    TrimTail(F, A, L + 1, s, j, F.one);
  }

  lemma ErrorsAreRoots<T(!new)>(F: Field<T>, e: seq<T>, X: seq<T>, Z: seq<T>, s: seq<T>, A: seq<T>, L: nat)
    requires F.Valid() && Correctable(F, e, X, Z, s, A, L)
    ensures forall i :: i in Support(F, e) ==> F.Eval(A, Z[i]) == F.zero
  {
    var v := |Support(F, e)|;
    var w := Weighted(F, e, A[..L + 1], Z);
    forall j | L + 1 <= j < L + 1 + v ensures Moment(F, w, X, j) == F.zero {
      WeightedPowerSums(F, e, X, Z, s, A, L, j - 1);
    }
    WeightedSupport(F, e, A[..L + 1], Z);
    FewSymbolsVanish(F, w, X, v, L + 1);
    forall i | i in Support(F, e) ensures F.Eval(A, Z[i]) == F.zero {
      RootOfWeight(F, e[i], A, L, Z[i]);
    }
  }

  lemma RootOfWeight<T(!new)>(F: Field<T>, e: T, A: seq<T>, L: nat, z: T)
    requires F.Valid() && ZeroFrom(F, A, L + 1) && L < |A| && e != F.zero
    requires F.mul(e, F.Eval(A[..L + 1], z)) == F.zero
    ensures F.Eval(A, z) == F.zero
  {
    NoZeroDivisors(F, e, F.Eval(A[..L + 1], z));
    TrimTail(F, A, L + 1, [], -1, z);
  }

  lemma WeightedSupport<T(!new)>(F: Field<T>, e: seq<T>, A: seq<T>, Z: seq<T>)
    requires F.Valid() && |e| == |Z|
    ensures |Support(F, Weighted(F, e, A, Z))| <= |Support(F, e)|
  {
    assert Support(F, Weighted(F, e, A, Z)) <= Support(F, e);
    SubsetSize(Support(F, Weighted(F, e, A, Z)), Support(F, e));
  }

  /** A nonzero polynomial has no more distinct roots than its degree. */
  lemma RootsBounded<T(!new)>(F: Field<T>, A: seq<T>, L: nat, R: seq<T>)
    requires F.Valid() && A != [] && A[0] == F.one && ZeroFrom(F, A, L + 1) && L < |A|
    requires Distinct(R) && forall r :: 0 <= r < |R| ==> F.Eval(A, R[r]) == F.zero
    ensures |R| <= L
  {
    if |R| > L {
      forall r | 0 <= r < |R| ensures F.Eval(A[..L + 1], R[r]) == F.zero {
        TrimTail(F, A, L + 1, [], -1, R[r]);
      }
      TooManyRoots(F, A[..L + 1], R);
    }
  }

  /** The generator's length is the number of errors, and the Chien search over all positions
      finds exactly the positions in error. */
  lemma RootsAreErrors<T(!new)>(F: Field<T>, e: seq<T>, X: seq<T>, Z: seq<T>, s: seq<T>, A: seq<T>, L: nat)
    requires F.Valid() && Correctable(F, e, X, Z, s, A, L)
    ensures L == |Support(F, e)|
    ensures forall i :: 0 <= i < |e| ==> (F.Eval(A, Z[i]) == F.zero <==> i in Support(F, e))
  {
    ErrorsAreRoots(F, e, X, Z, s, A, L);
    var R := ErrorRoots(F, e, Z);
    RootsShape(F, e, Z);
    RootsDistinct(F, e, Z);
    RootsBounded(F, A, L, R);
    forall i | 0 <= i < |e| && F.Eval(A, Z[i]) == F.zero ensures i in Support(F, e) {
      if i !in Support(F, e) {
        var R' := R + [Z[i]];
        forall r | 0 <= r < |R| ensures R[r] != Z[i] {
          var i' :| i' in Support(F, e) && R[r] == Z[i'];
        }
        RootsBounded(F, A, L, R');
      }
    }
  }

  /** The formal derivative of p at x: only the odd terms remain. */
  function Derivative<T(!new)>(F: Field<T>, p: seq<T>, x: T): T {
    if |p| < 2 then F.zero else F.add(p[1], F.mul(F.mul(x, x), Derivative(F, p[2..], x)))
  }

  lemma {:induction false} DerivativeSnoc<T(!new)>(F: Field<T>, A: seq<T>, m: nat, x: T)
    requires F.Valid() && m < |A|
    ensures Derivative(F, A[..m + 1], x)
         == if m % 2 == 1 then F.add(Derivative(F, A[..m], x), F.mul(A[m], F.Pow(x, m - 1)))
            else Derivative(F, A[..m], x)
    decreases m
  {
    if m >= 2 {
      var B, q := A[2..], F.mul(x, x);
      DerivativeSnoc(F, B, m - 2, x);
      assert A[..m + 1][2..] == B[..m - 1] && A[..m][2..] == B[..m - 2];
      if m % 2 == 1 {
        var d, t := Derivative(F, B[..m - 2], x), F.mul(A[m], F.Pow(x, m - 3));
        Distribute(F, q, d, t);
        MulAssoc(F, x, x, F.Pow(x, m - 3));
        MulAssoc(F, A[m], F.Pow(x, m - 3), q);
        AddAssoc(F, A[1], F.mul(q, d), F.mul(q, t));
      }
    }
  }

  /** At r, the derivative of p is the value of p divided by (x + r). */
  lemma {:induction false} DerivativeIsQuotient<T(!new)>(F: Field<T>, p: seq<T>, r: T)
    requires F.Valid() && p != []
    ensures Derivative(F, p, r) == F.Eval(Quotient(F, p, r), r)
  {
    if |p| >= 2 {
      var p1, p2 := p[1..], p[2..];
      assert p1[1..] == p2;
      var q := Quotient(F, p, r);
      assert q[1..] == Quotient(F, p1, r);
      var c := F.mul(r, F.Eval(p2, r));
      if p2 == [] {
      } else {
        DerivativeIsQuotient(F, p2, r);
        var q1 := Quotient(F, p1, r);
        assert q1[1..] == Quotient(F, p2, r);
        var d := F.mul(r, F.Eval(q1[1..], r));
        // q(r) = p(r)/.. : (p[1] + c) + r (p2(r) + d)
        Distribute(F, r, F.Eval(p2, r), d);
        MulAssoc(F, r, r, F.Eval(q1[1..], r));
        AddAssoc(F, p[1], c, F.add(c, F.mul(r, d)));
        AddAssoc(F, c, c, F.mul(r, d));
      }
    }
  }

  /** The coefficients of p divided by (x + r) are p's upper parts at r. */
  lemma {:induction false} QuotientAt<T(!new)>(F: Field<T>, p: seq<T>, r: T, i: nat)
    requires i < |p| - 1
    ensures Quotient(F, p, r)[i] == F.Eval(p[i + 1..], r)
  {
    if i > 0 {
      QuotientAt(F, p[1..], r, i - 1);
      assert p[1..][i..] == p[i + 1..];
    }
  }

  lemma {:induction false} EvalSplit<T(!new)>(F: Field<T>, p: seq<T>, i: nat, x: T)
    requires F.Valid() && i <= |p|
    ensures F.Eval(p, x) == F.add(F.Eval(p[..i], x), F.mul(F.Pow(x, i), F.Eval(p[i..], x)))
  {
    if i > 0 {
      EvalSplit(F, p[1..], i - 1, x);
      assert p[..i][1..] == p[1..][..i - 1] && p[1..][i - 1..] == p[i..];
      var u, v := F.Eval(p[1..][..i - 1], x), F.mul(F.Pow(x, i - 1), F.Eval(p[i..], x));
      Distribute(F, x, u, v);
      MulAssoc(F, x, F.Pow(x, i - 1), F.Eval(p[i..], x));
      AddAssoc(F, p[0], F.mul(x, u), F.mul(x, v));
    } else {
      assert p[..0] == [] && p[0..] == p;
    }
  }

  /** For a root z of A with inverse x: x^i times the lower part of A is the quotient's
      coefficient. */
  lemma LowerPart<T(!new)>(F: Field<T>, A: seq<T>, x: T, z: T, i: nat)
    requires F.Valid() && i < |A| - 1 && F.Eval(A, z) == F.zero && F.mul(x, z) == F.one
    ensures F.mul(F.Eval(A[..i + 1], z), F.Pow(x, i + 1)) == Quotient(F, A, z)[i]
  {
    var u, v := F.Eval(A[..i + 1], z), F.Eval(A[i + 1..], z);
    EvalSplit(F, A, i + 1, z);
    AddCancel(F, u, F.mul(F.Pow(z, i + 1), v));
    PowProduct(F, x, z, i + 1);
    PowOne(F, i + 1);
    MulAssoc(F, F.Pow(x, i + 1), F.Pow(z, i + 1), v);
    QuotientAt(F, A, z, i);
  }

  /** The error evaluator's coefficients: each error contributes its value times the
      coefficient of A divided by (x + Z[f]). */
  function Shares<T(!new)>(F: Field<T>, e: seq<T>, A: seq<T>, Z: seq<T>, i: nat): (t: seq<T>)
    requires |e| == |Z| && i < |A| - 1
    ensures |t| == |e|
    ensures forall f :: 0 <= f < |t| ==> t[f] == F.mul(e[f], Quotient(F, A, Z[f])[i])
  {
    seq(|e|, f requires 0 <= f < |e| => F.mul(e[f], Quotient(F, A, Z[f])[i]))
  }

  lemma EvaluatorTerm<T(!new)>(F: Field<T>, e: seq<T>, X: seq<T>, Z: seq<T>, s: seq<T>, A: seq<T>, i: nat)
    requires F.Valid() && |e| == |X| && Inverses(F, X, Z) && Syndromes(F, e, X, s)
    requires i < |A| - 1 && i < |s|
    requires forall f :: f in Support(F, e) ==> F.Eval(A, Z[f]) == F.zero
    ensures Conv(F, A, s, i) == Sum(F, Shares(F, e, A, Z, i))
  {
    var B := A[..i + 1];
    TrimTail(F, A, i + 1, s, i, F.one);
    ConvOfMoments(F, B, e, X, Z, s, i);
    var t := Terms(F, Weighted(F, e, B, Z), X, i + 1);
    forall f | 0 <= f < |e| ensures t[f] == Shares(F, e, A, Z, i)[f] {
      if f in Support(F, e) {
        LowerPart(F, A, X[f], Z[f], i);
        MulAssoc(F, e[f], F.Eval(B, Z[f]), F.Pow(X[f], i + 1));
      }
    }
    assert t == Shares(F, e, A, Z, i);
  }

  function QuotientValues<T(!new)>(F: Field<T>, e: seq<T>, q: seq<seq<T>>, z: T): (t: seq<T>)
    requires |e| == |q|
    ensures |t| == |e|
    ensures forall f :: 0 <= f < |t| ==> t[f] == F.mul(e[f], F.Eval(q[f], z))
  {
    seq(|e|, f requires 0 <= f < |e| => F.mul(e[f], F.Eval(q[f], z)))
  }

  function Column<T(!new)>(F: Field<T>, e: seq<T>, q: seq<seq<T>>, i: nat): (t: seq<T>)
    requires |e| == |q| && forall f :: 0 <= f < |q| ==> i < |q[f]|
    ensures |t| == |e|
    ensures forall f :: 0 <= f < |t| ==> t[f] == F.mul(e[f], q[f][i])
  {
    seq(|e|, f requires 0 <= f < |e| => F.mul(e[f], q[f][i]))
  }

  /** Evaluating a combination of polynomials is combining their values. */
  lemma {:induction false} EvalCombination<T(!new)>(F: Field<T>, e: seq<T>, q: seq<seq<T>>, W: seq<T>, z: T)
    requires F.Valid() && |e| == |q|
    requires forall f :: 0 <= f < |q| ==> |q[f]| == |W|
    requires forall i :: 0 <= i < |W| ==> W[i] == Sum(F, Column(F, e, q, i))
    ensures F.Eval(W, z) == Sum(F, QuotientValues(F, e, q, z))
    decreases |W|
  {
    var t := QuotientValues(F, e, q, z);
    if W == [] {
      SumSingle(F, t, -1);
    } else {
      var r := seq(|q|, f requires 0 <= f < |q| => q[f][1..]);
      forall i | 0 <= i < |W[1..]| ensures W[1..][i] == Sum(F, Column(F, e, r, i)) {
        assert Column(F, e, r, i) == Column(F, e, q, i + 1);
      }
      EvalCombination(F, e, r, W[1..], z);
      var u, c := QuotientValues(F, e, r, z), Column(F, e, q, 0);
      var zu := seq(|e|, f requires 0 <= f < |e| => F.mul(z, u[f]));
      SumScale(F, z, u, zu);
      forall f | 0 <= f < |e| ensures t[f] == F.add(c[f], zu[f]) {
        Distribute(F, e[f], q[f][0], F.mul(z, F.Eval(r[f], z)));
        MulAssoc(F, e[f], z, F.Eval(r[f], z));
        MulAssoc(F, z, e[f], F.Eval(r[f], z));
      }
      SumAdd(F, c, zu, t);
    }
  }

  /** Forney: at the inverse locator of an error p, the evaluator W is the error's value times
      the derivative of A, and that derivative is not zero. */
  lemma Forney<T(!new)>(F: Field<T>, e: seq<T>, X: seq<T>, Z: seq<T>, s: seq<T>, A: seq<T>, L: nat, W: seq<T>, p: nat)
    requires F.Valid() && Correctable(F, e, X, Z, s, A, L) && p in Support(F, e)
    requires |W| == |s| && forall i :: 0 <= i < |W| ==> W[i] == Conv(F, A, s, i)
    ensures F.Eval(W, Z[p]) == F.mul(e[p], Derivative(F, A[..L + 1], Z[p]))
    ensures Derivative(F, A[..L + 1], Z[p]) != F.zero
  {
    RootsAreErrors(F, e, X, Z, s, A, L);
    assert L > 0 by { assert Support(F, e) != {}; }
    var B := A[..L + 1];
    forall f | f in Support(F, e) ensures F.Eval(B, Z[f]) == F.zero {
      TrimTail(F, A, L + 1, s, -1, Z[f]);
    }
    EvaluatorEval(F, e, X, Z, s, A, L, W, Z[p]);
    var q := seq(|e|, f requires 0 <= f < |e| => Quotient(F, B, Z[f]));
    var t := QuotientValues(F, e, q, Z[p]);
    forall f | 0 <= f < |e| && f != p ensures t[f] == F.zero {
      if f in Support(F, e) {
        DivideByRoot(F, B, Z[f], Z[p]);
        AddCancel(F, Z[p], Z[f]);
        NoZeroDivisors(F, F.add(Z[p], Z[f]), F.Eval(q[f], Z[p]));
      }
    }
    SumSingle(F, t, p);
    DerivativeIsQuotient(F, B, Z[p]);
    DerivativeNonZero(F, e, Z, B, p);
  }

  lemma EvaluatorEval<T(!new)>(F: Field<T>, e: seq<T>, X: seq<T>, Z: seq<T>, s: seq<T>, A: seq<T>, L: nat, W: seq<T>,
                               z: T)
    requires F.Valid() && Correctable(F, e, X, Z, s, A, L) && 0 < L
    requires forall f :: f in Support(F, e) ==> F.Eval(A[..L + 1], Z[f]) == F.zero
    requires |W| == |s| && forall i :: 0 <= i < |W| ==> W[i] == Conv(F, A, s, i)
    ensures F.Eval(W, z)
         == Sum(F, QuotientValues(F, e, seq(|e|, f requires 0 <= f < |e| => Quotient(F, A[..L + 1], Z[f])), z))
  {
    var B := A[..L + 1];
    var q := seq(|e|, f requires 0 <= f < |e| => Quotient(F, B, Z[f]));
    TrimTail(F, W, L, s, -1, z);
    forall i | 0 <= i < L ensures W[..L][i] == Sum(F, Column(F, e, q, i)) {
      TrimTail(F, A, L + 1, s, i, F.one);
      EvaluatorTerm(F, e, X, Z, s, B, i);
      assert Column(F, e, q, i) == Shares(F, e, B, Z, i);
    }
    EvalCombination(F, e, q, W[..L], z);
  }

  /** The locator's roots are simple. */
  lemma DerivativeNonZero<T(!new)>(F: Field<T>, e: seq<T>, Z: seq<T>, B: seq<T>, p: nat)
    requires F.Valid() && |e| == |Z| && Distinct(Z) && p in Support(F, e)
    requires |B| == |Support(F, e)| + 1 && B[0] == F.one
    requires forall f :: f in Support(F, e) ==> F.Eval(B, Z[f]) == F.zero
    ensures F.Eval(Quotient(F, B, Z[p]), Z[p]) != F.zero
  {
    var q := Quotient(F, B, Z[p]);
    if F.Eval(q, Z[p]) == F.zero {
      RootsShape(F, e, Z);
      RootsDistinct(F, e, Z);
      var R := ErrorRoots(F, e, Z);
      forall r | 0 <= r < |R| ensures F.Eval(q, R[r]) == F.zero {
        var i :| i in Support(F, e) && R[r] == Z[i];
        if i != p {
          DivideByRoot(F, B, Z[p], Z[i]);
          AddCancel(F, Z[i], Z[p]);
          NoZeroDivisors(F, F.add(Z[i], Z[p]), F.Eval(q, Z[i]));
        }
      }
      TooManyRoots(F, q, R);
      QuotientZero(F, B, Z[p]);
      assert false;
    }
  }
}
