/** Words over a field, their power sums, and the two counting arguments every Reed-Solomon
    code here rests on: few nonzero symbols cannot cancel in many consecutive power sums,
    and a polynomial has no more roots than its degree. */
module Codes {
  import opened Fields

  function Sum<T(!new)>(F: Field<T>, s: seq<T>): T {
    if s == [] then F.zero else F.add(s[0], Sum(F, s[1..]))
  }

  lemma {:induction false} SumAdd<T(!new)>(F: Field<T>, u: seq<T>, v: seq<T>, t: seq<T>)
    requires F.Valid() && |u| == |v| == |t|
    requires forall i :: 0 <= i < |t| ==> t[i] == F.add(u[i], v[i])
    ensures Sum(F, t) == F.add(Sum(F, u), Sum(F, v))
  {
    if t != [] {
      SumAdd(F, u[1..], v[1..], t[1..]);
      AddSwap(F, u[0], v[0], Sum(F, u[1..]), Sum(F, v[1..]));
    }
  }

  lemma {:induction false} SumScale<T(!new)>(F: Field<T>, c: T, u: seq<T>, t: seq<T>)
    requires F.Valid() && |u| == |t|
    requires forall i :: 0 <= i < |t| ==> t[i] == F.mul(c, u[i])
    ensures Sum(F, t) == F.mul(c, Sum(F, u))
  {
    if t != [] {
      SumScale(F, c, u[1..], t[1..]);
      Distribute(F, c, u[0], Sum(F, u[1..]));
    }
  }

  lemma {:induction false} SumSingle<T(!new)>(F: Field<T>, s: seq<T>, p: int)
    requires F.Valid()
    requires forall i :: 0 <= i < |s| && i != p ==> s[i] == F.zero
    ensures Sum(F, s) == if 0 <= p < |s| then s[p] else F.zero
  {
    if s != [] { SumSingle(F, s[1..], p - 1); }
  }

  lemma {:induction false} SumLast<T(!new)>(F: Field<T>, s: seq<T>)
    requires F.Valid() && s != []
    ensures Sum(F, s) == F.add(Sum(F, s[..|s| - 1]), s[|s| - 1])
  {
    if |s| > 1 {
      SumLast(F, s[1..]);
      assert s[1..][..|s| - 2] == s[..|s| - 1][1..];
      AddAssoc(F, s[0], Sum(F, s[1..|s| - 1]), s[|s| - 1]);
      assert s[..|s| - 1][1..] == s[1..|s| - 1];
    } else {
      assert s[..0] == [];
    }
  }

  function Terms<T(!new)>(F: Field<T>, a: seq<T>, X: seq<T>, j: nat): (t: seq<T>)
    requires |a| == |X|
    ensures |t| == |a|
    ensures forall i :: 0 <= i < |t| ==> t[i] == F.mul(a[i], F.Pow(X[i], j))
  {
    seq(|a|, i requires 0 <= i < |a| => F.mul(a[i], F.Pow(X[i], j)))
  }

  /** The j-th power sum of the symbols a at the locators X. */
  function Moment<T(!new)>(F: Field<T>, a: seq<T>, X: seq<T>, j: nat): T
    requires |a| == |X|
  {
    Sum(F, Terms(F, a, X, j))
  }

  /** Position i of a word of n symbols stands for the power n - 1 - i. */
  function Locators<T(!new)>(F: Field<T>, x: T, n: nat): (X: seq<T>)
    ensures |X| == n
    ensures forall i :: 0 <= i < n ==> X[i] == F.Pow(x, n - 1 - i)
  {
    seq(n, i requires 0 <= i < n => F.Pow(x, n - 1 - i))
  }

  /** Evaluating a word by Horner's rule at x^j gives its j-th power sum. */
  lemma {:induction false} HornerIsMoment<T(!new)>(F: Field<T>, w: seq<T>, x: T, j: nat)
    requires F.Valid()
    ensures F.Horner(w, F.Pow(x, j)) == Moment(F, w, Locators(F, x, |w|), j)
  {
    if w != [] {
      var n := |w| - 1;
      var v, y := w[..n], F.Pow(x, j);
      HornerIsMoment(F, v, x, j);
      var t := Terms(F, w, Locators(F, x, |w|), j);
      SumLast(F, t);
      var u := Terms(F, v, Locators(F, x, n), j);
      forall i | 0 <= i < n ensures t[..n][i] == F.mul(y, u[i]) {
        var z := F.Pow(x, n - 1 - i);
        assert |w| - 1 - i == n - 1 - i + 1;
        assert F.Pow(x, n - 1 - i + 1) == F.mul(x, z);
        PowProduct(F, x, z, j);
        MulAssoc(F, w[i], F.Pow(z, j), y);
        assert u[i] == F.mul(w[i], F.Pow(z, j));
      }
      SumScale(F, y, u, t[..n]);
      PowOne(F, j);
      assert t[n] == F.mul(w[n], F.Pow(F.one, j));
    }
  }

  lemma {:induction false} PowProduct<T(!new)>(F: Field<T>, a: T, b: T, j: nat)
    requires F.Valid()
    ensures F.Pow(F.mul(a, b), j) == F.mul(F.Pow(a, j), F.Pow(b, j))
  {
    if j > 0 {
      PowProduct(F, a, b, j - 1);
      MulSwap(F, a, b, F.Pow(a, j - 1), F.Pow(b, j - 1));
    }
  }

  lemma {:induction false} PowOne<T(!new)>(F: Field<T>, j: nat)
    requires F.Valid()
    ensures F.Pow(F.one, j) == F.one
  {
    if j > 0 { PowOne(F, j - 1); }
  }

  // ----- evaluating words by Horner's rule is linear -----

  lemma {:induction false} HornerAdd<T(!new)>(F: Field<T>, a: seq<T>, b: seq<T>, c: seq<T>, x: T)
    requires F.Valid() && |a| == |b| == |c|
    requires forall i :: 0 <= i < |c| ==> c[i] == F.add(a[i], b[i])
    ensures F.Horner(c, x) == F.add(F.Horner(a, x), F.Horner(b, x))
    decreases |c|
  {
    if c != [] {
      var n := |c| - 1;
      HornerAdd(F, a[..n], b[..n], c[..n], x);
      Distribute(F, x, F.Horner(a[..n], x), F.Horner(b[..n], x));
      AddSwap(F, F.mul(F.Horner(a[..n], x), x), F.mul(F.Horner(b[..n], x), x), a[n], b[n]);
    }
  }

  lemma {:induction false} HornerScale<T(!new)>(F: Field<T>, k: T, a: seq<T>, b: seq<T>, x: T)
    requires F.Valid() && |a| == |b|
    requires forall i :: 0 <= i < |b| ==> b[i] == F.mul(k, a[i])
    ensures F.Horner(b, x) == F.mul(k, F.Horner(a, x))
    decreases |b|
  {
    if b != [] {
      var n := |b| - 1;
      HornerScale(F, k, a[..n], b[..n], x);
      MulAssoc(F, k, F.Horner(a[..n], x), x);
      Distribute(F, k, F.mul(F.Horner(a[..n], x), x), a[n]);
    }
  }

  lemma {:induction false} HornerConcat<T(!new)>(F: Field<T>, a: seq<T>, b: seq<T>, x: T)
    requires F.Valid()
    ensures F.Horner(a + b, x) == F.add(F.mul(F.Horner(a, x), F.Pow(x, |b|)), F.Horner(b, x))
    decreases |b|
  {
    if b == [] {
      assert a + b == a;
    } else {
      var n := |b| - 1;
      HornerConcat(F, a, b[..n], x);
      assert (a + b)[..|a| + n] == a + b[..n];
      var u, v := F.Horner(a, x), F.Horner(b[..n], x);
      Distribute(F, x, F.mul(u, F.Pow(x, n)), v);
      MulAssoc(F, u, F.Pow(x, n), x);
      AddAssoc(F, F.mul(u, F.Pow(x, n + 1)), F.mul(v, x), b[n]);
    }
  }

  lemma {:induction false} HornerZero<T(!new)>(F: Field<T>, a: seq<T>, x: T)
    requires F.Valid() && forall i :: 0 <= i < |a| ==> a[i] == F.zero
    ensures F.Horner(a, x) == F.zero
    decreases |a|
  {
    if a != [] { HornerZero(F, a[..|a| - 1], x); }
  }

  ghost predicate Distinct<T>(X: seq<T>) {
    forall i, j :: 0 <= i < j < |X| ==> X[i] != X[j]
  }

  function Support<T(!new, ==)>(F: Field<T>, a: seq<T>): set<int> {
    set i | 0 <= i < |a| && a[i] != F.zero
  }

  function AddWords<T(!new)>(F: Field<T>, a: seq<T>, b: seq<T>): (c: seq<T>)
    requires |a| == |b|
    ensures |c| == |a|
    ensures forall i :: 0 <= i < |c| ==> c[i] == F.add(a[i], b[i])
  {
    seq(|a|, i requires 0 <= i < |a| => F.add(a[i], b[i]))
  }

  lemma MomentAdd<T(!new)>(F: Field<T>, a: seq<T>, b: seq<T>, X: seq<T>, j: nat)
    requires F.Valid() && |a| == |b| == |X|
    ensures Moment(F, AddWords(F, a, b), X, j) == F.add(Moment(F, a, X, j), Moment(F, b, X, j))
  {
    var t := Terms(F, AddWords(F, a, b), X, j);
    forall i | 0 <= i < |t|
      ensures t[i] == F.add(Terms(F, a, X, j)[i], Terms(F, b, X, j)[i])
    {
      Distribute(F, F.Pow(X[i], j), a[i], b[i]);
    }
    SumAdd(F, Terms(F, a, X, j), Terms(F, b, X, j), t);
  }

  /** Weighting each symbol by (X[i] + c) combines two neighbouring power sums. */
  lemma MomentEliminate<T(!new)>(F: Field<T>, a: seq<T>, X: seq<T>, c: T, b: seq<T>, j: nat)
    requires F.Valid() && |a| == |X| == |b|
    requires forall i :: 0 <= i < |a| ==> b[i] == F.mul(a[i], F.add(X[i], c))
    ensures Moment(F, b, X, j) == F.add(Moment(F, a, X, j + 1), F.mul(c, Moment(F, a, X, j)))
  {
    var u := Terms(F, a, X, j);
    var cu := seq(|a|, i requires 0 <= i < |a| => F.mul(c, u[i]));
    var t := Terms(F, b, X, j);
    forall i | 0 <= i < |a|
      ensures t[i] == F.add(Terms(F, a, X, j + 1)[i], cu[i])
    {
      var p := F.Pow(X[i], j);
      assert t[i] == F.mul(F.mul(a[i], F.add(X[i], c)), p);
      Distribute(F, a[i], X[i], c);
      Distribute(F, p, F.mul(a[i], X[i]), F.mul(a[i], c));
      MulAssoc(F, a[i], X[i], p);
      MulAssoc(F, c, a[i], p);
    }
    SumScale(F, c, u, cu);
    SumAdd(F, Terms(F, a, X, j + 1), cu, t);
  }

  /** The distance argument: a word with at most d nonzero symbols, whose d consecutive power
      sums at distinct nonzero locators all vanish, is zero. */
  lemma {:induction false} FewSymbolsVanish<T(!new)>(F: Field<T>, a: seq<T>, X: seq<T>, d: nat, j0: nat)
    requires F.Valid() && |a| == |X| && Distinct(X) && F.zero !in X
    requires |Support(F, a)| <= d
    requires forall j :: j0 <= j < j0 + d ==> Moment(F, a, X, j) == F.zero
    ensures forall i :: 0 <= i < |a| ==> a[i] == F.zero
    decreases d
  {
    if Support(F, a) != {} {
      var p :| p in Support(F, a);
      var b := seq(|a|, i requires 0 <= i < |a| => F.mul(a[i], F.add(X[i], X[p])));
      forall i | 0 <= i < |a| ensures b[i] == F.zero <==> a[i] == F.zero || i == p {
        AddCancel(F, X[i], X[p]);
        NoZeroDivisors(F, a[i], F.add(X[i], X[p]));
      }
      assert Support(F, b) == Support(F, a) - {p};
      forall j | j0 <= j < j0 + (d - 1) ensures Moment(F, b, X, j) == F.zero {
        MomentEliminate(F, a, X, X[p], b, j);
      }
      FewSymbolsVanish(F, b, X, d - 1, j0);
      assert Moment(F, a, X, j0) == F.zero;
      forall i | 0 <= i < |a| && i != p ensures Terms(F, a, X, j0)[i] == F.zero {
        assert a[i] == F.zero;
      }
      SumSingle(F, Terms(F, a, X, j0), p);
      PowNonZero(F, X[p], j0);
      NoZeroDivisors(F, a[p], F.Pow(X[p], j0));
      assert false;
    } else {
      forall i | 0 <= i < |a| ensures a[i] == F.zero {
        assert i !in Support(F, a);
      }
    }
  }

  /** Positions where two words differ. */
  function Difference<T(!new, ==)>(a: seq<T>, b: seq<T>): set<int>
    requires |a| == |b|
  {
    set i | 0 <= i < |a| && a[i] != b[i]
  }

  /** Two words with the same d consecutive power sums that differ in at most d places are
      the same word. */
  lemma CloseWordsEqual<T(!new)>(F: Field<T>, a: seq<T>, b: seq<T>, X: seq<T>, d: nat, j0: nat)
    requires F.Valid() && |a| == |b| == |X| && Distinct(X) && F.zero !in X
    requires |Difference(a, b)| <= d
    requires forall j :: j0 <= j < j0 + d ==> Moment(F, a, X, j) == Moment(F, b, X, j)
    ensures a == b
  {
    var e := AddWords(F, a, b);
    forall i | 0 <= i < |a| ensures e[i] == F.zero <==> a[i] == b[i] {
      AddCancel(F, a[i], b[i]);
    }
    assert Support(F, e) == Difference(a, b);
    forall j | j0 <= j < j0 + d ensures Moment(F, e, X, j) == F.zero {
      MomentAdd(F, a, b, X, j);
    }
    FewSymbolsVanish(F, e, X, d, j0);
  }

  /** Dividing p by (x + r): the quotient, by synthetic division from the top. */
  function Quotient<T(!new)>(F: Field<T>, p: seq<T>, r: T): (q: seq<T>)
    requires p != []
    ensures |q| == |p| - 1
  {
    if |p| == 1 then [] else [F.Eval(p[1..], r)] + Quotient(F, p[1..], r)
  }

  lemma {:induction false} DivideByRoot<T(!new)>(F: Field<T>, p: seq<T>, r: T, x: T)
    requires F.Valid() && p != []
    ensures F.Eval(p, x) == F.add(F.mul(F.add(x, r), F.Eval(Quotient(F, p, r), x)), F.Eval(p, r))
  {
    var t := p[1..];
    if t == [] {
    } else {
      DivideByRoot(F, t, r, x);
      var q := Quotient(F, t, r);
      var e, z, c := F.Eval(q, x), F.add(x, r), F.Eval(t, r);
      var full := Quotient(F, p, r);
      assert full == [c] + q;
      assert full[1..] == q;
      calc {
        F.mul(x, F.Eval(t, x));
        F.mul(x, F.add(F.mul(z, e), c));
        { Distribute(F, x, F.mul(z, e), c); MulAssoc(F, x, z, e); MulAssoc(F, z, x, e); }
        F.add(F.mul(z, F.mul(x, e)), F.mul(x, c));
      }
      Distribute(F, z, c, F.mul(x, e));
      Distribute(F, c, x, r);
      // the two sides now differ by r * c twice
      var ze, xc, rc := F.mul(z, F.mul(x, e)), F.mul(x, c), F.mul(r, c);
      assert F.Eval(p, x) == F.add(p[0], F.add(ze, xc));
      assert F.Eval(p, r) == F.add(p[0], rc);
      assert F.mul(z, F.Eval(full, x)) == F.add(F.add(xc, rc), ze);
      RegroupTwice(F, p[0], ze, xc, rc);
    }
  }

  lemma RegroupTwice<T(!new)>(F: Field<T>, a: T, b: T, c: T, d: T)
    requires F.Valid()
    ensures F.add(a, F.add(b, c)) == F.add(F.add(F.add(c, d), b), F.add(a, d))
  {
    AddAssoc(F, c, d, b);
    AddSwap(F, c, F.add(d, b), a, d);
    AddCancel(F, b, d);
    AddAssoc(F, a, b, c);
    AddSwap(F, a, b, c, F.zero);
    AddAssoc(F, a, c, b);
  }

  /** A polynomial with |p| coefficients and |p| distinct roots is zero. */
  lemma {:induction false} TooManyRoots<T(!new)>(F: Field<T>, p: seq<T>, R: seq<T>)
    requires F.Valid() && Distinct(R) && |R| >= |p|
    requires forall i :: 0 <= i < |R| ==> F.Eval(p, R[i]) == F.zero
    ensures forall i :: 0 <= i < |p| ==> p[i] == F.zero
    decreases |p|
  {
    if p != [] {
      var r, q := R[0], Quotient(F, p, R[0]);
      forall i | 0 <= i < |R[1..]| ensures F.Eval(q, R[1..][i]) == F.zero {
        DivideByRoot(F, p, r, R[i + 1]);
        AddCancel(F, R[i + 1], r);
        NoZeroDivisors(F, F.add(R[i + 1], r), F.Eval(q, R[i + 1]));
      }
      TooManyRoots(F, q, R[1..]);
      QuotientZero(F, p, r);
    }
  }

  lemma {:induction false} QuotientZero<T(!new)>(F: Field<T>, p: seq<T>, r: T)
    requires F.Valid() && p != [] && F.Eval(p, r) == F.zero
    requires forall i :: 0 <= i < |p| - 1 ==> Quotient(F, p, r)[i] == F.zero
    ensures forall i :: 0 <= i < |p| ==> p[i] == F.zero
  {
    if |p| > 1 {
      assert Quotient(F, p, r)[0] == F.Eval(p[1..], r);
      forall i | 0 <= i < |p| - 2 ensures Quotient(F, p[1..], r)[i] == F.zero {
        assert Quotient(F, p, r)[i + 1] == Quotient(F, p[1..], r)[i];
      }
      QuotientZero(F, p[1..], r);
    }
  }
}
