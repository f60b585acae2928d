/** The algebra behind the decoder: a connection polynomial A generates the syndrome sequence
    s when the convolution of A with s vanishes.  Berlekamp-Massey keeps one that generates a
    longer and longer prefix; the syndromes of few errors are generated by their locator
    polynomial alone, and Forney's quotient then gives the error values. */
module KeyEquation {
  import opened Fields
  import opened Codes

  function At<T(!new)>(F: Field<T>, s: seq<T>, k: int): T {
    if 0 <= k < |s| then s[k] else F.zero
  }

  /** The k-th term of the product of A and s (s[0] is the lowest term). */
  function Conv<T(!new)>(F: Field<T>, A: seq<T>, s: seq<T>, k: int): T {
    if A == [] then F.zero else F.add(F.mul(A[0], At(F, s, k)), Conv(F, A[1..], s, k - 1))
  }

  /** The k-th term of A times (B times s). */
  function Conv2<T(!new)>(F: Field<T>, A: seq<T>, B: seq<T>, s: seq<T>, k: int): T {
    if A == [] then F.zero
    else F.add(F.mul(A[0], Conv(F, B, s, k)), Conv2(F, A[1..], B, s, k - 1))
  }

  lemma {:induction false} Conv2Nil<T(!new)>(F: Field<T>, A: seq<T>, s: seq<T>, k: int)
    requires F.Valid()
    ensures Conv2(F, A, [], s, k) == F.zero
  {
    if A != [] { Conv2Nil(F, A[1..], s, k - 1); }
  }

  lemma {:induction false} Conv2Cons<T(!new)>(F: Field<T>, A: seq<T>, B: seq<T>, s: seq<T>, k: int)
    requires F.Valid() && B != []
    ensures Conv2(F, A, B, s, k) == F.add(F.mul(B[0], Conv(F, A, s, k)), Conv2(F, A, B[1..], s, k - 1))
  {
    if A != [] {
      Conv2Cons(F, A[1..], B, s, k - 1);
      var a, b, x := A[0], B[0], At(F, s, k);
      var c, d := Conv(F, B[1..], s, k - 1), Conv(F, A[1..], s, k - 1);
      var e := Conv2(F, A[1..], B[1..], s, k - 2);
      Distribute(F, a, F.mul(b, x), c);
      Distribute(F, b, F.mul(a, x), d);
      MulAssoc(F, a, b, x);
      MulAssoc(F, b, a, x);
      AddSwap(F, F.mul(a, F.mul(b, x)), F.mul(a, c), F.mul(b, d), e);
    }
  }

  lemma {:induction false} Conv2Commutes<T(!new)>(F: Field<T>, A: seq<T>, B: seq<T>, s: seq<T>, k: int)
    requires F.Valid()
    ensures Conv2(F, A, B, s, k) == Conv2(F, B, A, s, k)
  {
    if A == [] {
      Conv2Nil(F, B, s, k);
    } else {
      Conv2Commutes(F, A[1..], B, s, k - 1);
      Conv2Cons(F, B, A, s, k);
    }
  }

  ghost predicate ZeroFrom<T(!new)>(F: Field<T>, A: seq<T>, d: int) {
    forall i :: 0 <= i < |A| && d <= i ==> A[i] == F.zero
  }

  /** A has constant term one, degree at most L, and generates the first k syndromes. */
  ghost predicate Generates<T(!new)>(F: Field<T>, A: seq<T>, L: nat, s: seq<T>, k: int) {
    && A != [] && A[0] == F.one && ZeroFrom(F, A, L + 1)
    && forall j :: L <= j < k ==> Conv(F, A, s, j) == F.zero
  }

  lemma {:induction false} Conv2Vanishes<T(!new)>(F: Field<T>, A: seq<T>, B: seq<T>, s: seq<T>, k: int, m: nat)
    requires F.Valid() && ZeroFrom(F, A, m)
    requires forall j :: k - m < j <= k ==> Conv(F, B, s, j) == F.zero
    ensures Conv2(F, A, B, s, k) == F.zero
  {
    if A != [] {
      Conv2Vanishes(F, A[1..], B, s, k - 1, if m == 0 then 0 else m - 1);
    }
  }

  lemma DiscrepancyOfProduct<T(!new)>(F: Field<T>, A: seq<T>, La: nat, B: seq<T>, Lb: nat, s: seq<T>, k: nat)
    requires F.Valid() && Generates(F, A, La, s, k) && Generates(F, B, Lb, s, k) && La + Lb <= k
    ensures Conv2(F, A, B, s, k) == Conv(F, B, s, k)
  {
    Conv2Vanishes(F, A[1..], B, s, k - 1, La);
  }

  /** Massey's lemma: two short generators of the same prefix agree on the next syndrome. */
  lemma SameDiscrepancy<T(!new)>(F: Field<T>, A: seq<T>, La: nat, B: seq<T>, Lb: nat, s: seq<T>, k: nat)
    requires F.Valid() && Generates(F, A, La, s, k) && Generates(F, B, Lb, s, k) && La + Lb <= k
    ensures Conv(F, A, s, k) == Conv(F, B, s, k)
  {
    DiscrepancyOfProduct(F, A, La, B, Lb, s, k);
    DiscrepancyOfProduct(F, B, Lb, A, La, s, k);
    Conv2Commutes(F, A, B, s, k);
  }

  /** A plus f times x^m times P, cut to the length of A: the decoder's update. */
  function Update<T(!new)>(F: Field<T>, A: seq<T>, f: T, P: seq<T>, m: nat): (R: seq<T>)
    requires |A| == |P|
    ensures |R| == |A|
    ensures forall i :: 0 <= i < |A| ==>
              R[i] == if i < m then A[i] else F.add(A[i], F.mul(f, P[i - m]))
  {
    seq(|A|, i requires 0 <= i < |A| => if i < m then A[i] else F.add(A[i], F.mul(f, P[i - m])))
  }

  lemma {:induction false} ConvLinear<T(!new)>(F: Field<T>, A: seq<T>, f: T, P: seq<T>, R: seq<T>, s: seq<T>, k: int)
    requires F.Valid() && |P| == |A| == |R|
    requires forall i :: 0 <= i < |A| ==> R[i] == F.add(A[i], F.mul(f, P[i]))
    ensures Conv(F, R, s, k) == F.add(Conv(F, A, s, k), F.mul(f, Conv(F, P, s, k)))
  {
    if A != [] {
      ConvLinear(F, A[1..], f, P[1..], R[1..], s, k - 1);
      var x, c, d := At(F, s, k), Conv(F, A[1..], s, k - 1), Conv(F, P[1..], s, k - 1);
      Distribute(F, x, A[0], F.mul(f, P[0]));
      MulAssoc(F, f, P[0], x);
      AddSwap(F, F.mul(A[0], x), F.mul(f, F.mul(P[0], x)), c, F.mul(f, d));
      Distribute(F, f, F.mul(P[0], x), d);
    }
  }

  /** Updating A adds f times the shifted convolution of P. */
  lemma UpdateTail<T(!new)>(F: Field<T>, A: seq<T>, f: T, P: seq<T>, m: nat)
    requires |A| == |P| > 0 && m > 0
    ensures Update(F, A, f, P, m)[0] == A[0]
    ensures Update(F, A, f, P, m)[1..] == Update(F, A[1..], f, P[..|P| - 1], m - 1)
  {}

  lemma {:induction false} ConvUpdate<T(!new)>(F: Field<T>, A: seq<T>, f: T, P: seq<T>, m: nat, s: seq<T>, k: int)
    requires F.Valid() && |A| == |P| && ZeroFrom(F, P, |P| - m)
    ensures Conv(F, Update(F, A, f, P, m), s, k) == F.add(Conv(F, A, s, k), F.mul(f, Conv(F, P, s, k - m)))
    decreases m
  {
    hide *;
    if m == 0 || A == [] {
      ConvUpdateStart(F, A, f, P, m, s, k);
    } else {
      var R, n := Update(F, A, f, P, m), |P| - 1;
      UpdateTail(F, A, f, P, m);
      ConvFirst(F, R, s, k);
      ConvFirst(F, A, s, k);
      LastZero(F, P, m);
      ConvUpdate(F, A[1..], f, P[..n], m - 1, s, k - 1);
      ConvDropLast(F, P, s, k - m);
      assert k - 1 - (m - 1) == k - m;
      AddAssoc(F, F.mul(A[0], At(F, s, k)), Conv(F, A[1..], s, k - 1), F.mul(f, Conv(F, P, s, k - m)));
    }
  }

  lemma ConvUpdateStart<T(!new)>(F: Field<T>, A: seq<T>, f: T, P: seq<T>, m: nat, s: seq<T>, k: int)
    requires F.Valid() && |A| == |P| && (m == 0 || A == [])
    ensures Conv(F, Update(F, A, f, P, m), s, k) == F.add(Conv(F, A, s, k), F.mul(f, Conv(F, P, s, k - m)))
  {
    if m == 0 { ConvLinear(F, A, f, P, Update(F, A, f, P, m), s, k); }
  }

  lemma LastZero<T(!new)>(F: Field<T>, P: seq<T>, m: nat)
    requires P != [] && m > 0 && ZeroFrom(F, P, |P| - m)
    ensures P[|P| - 1] == F.zero && ZeroFrom(F, P[..|P| - 1], |P[..|P| - 1]| - (m - 1))
  {}

  lemma ConvFirst<T(!new)>(F: Field<T>, A: seq<T>, s: seq<T>, k: int)
    requires A != []
    ensures Conv(F, A, s, k) == F.add(F.mul(A[0], At(F, s, k)), Conv(F, A[1..], s, k - 1))
  {}

  lemma {:induction false} ConvDropLast<T(!new)>(F: Field<T>, P: seq<T>, s: seq<T>, k: int)
    requires F.Valid() && P != [] && P[|P| - 1] == F.zero
    ensures Conv(F, P[..|P| - 1], s, k) == Conv(F, P, s, k)
  {
    if |P| > 1 {
      ConvDropLast(F, P[1..], s, k - 1);
      assert P[1..][..|P| - 2] == P[..|P| - 1][1..];
    }
  }

  /** One more coefficient adds one more term. */
  lemma {:induction false} ConvSnoc<T(!new)>(F: Field<T>, A: seq<T>, i: nat, s: seq<T>, k: int)
    requires F.Valid() && i < |A|
    ensures Conv(F, A[..i + 1], s, k) == F.add(Conv(F, A[..i], s, k), F.mul(A[i], At(F, s, k - i)))
  {
    if i > 0 {
      ConvSnoc(F, A[1..], i - 1, s, k - 1);
      assert A[..i + 1][1..] == A[1..][..i] && A[..i][1..] == A[1..][..i - 1];
      AddAssoc(F, F.mul(A[0], At(F, s, k)), Conv(F, A[1..][..i - 1], s, k - 1), F.mul(A[i], At(F, s, k - i)));
    }
  }

  /** What Berlekamp-Massey knows after k syndromes: A generates them with length L, and P is
      the generator from before the last length change, m steps ago, which first failed with
      discrepancy b.  When the length never changed, P is still the constant one. */
  ghost predicate BmState<T(!new)>(F: Field<T>, s: seq<T>, k: nat, A: seq<T>, L: nat, P: seq<T>, b: T, m: nat) {
    && |A| == |P| && L <= k < |A| && 1 <= m <= k + 1 - L
    && b != F.zero
    && Generates(F, A, L, s, k)
    && ZeroFrom(F, P, k + 2 - L - m)
    && (if m == k + 1 then L == 0 && P[0] == F.one else
          Conv(F, P, s, k - m) == b && forall j :: k + 1 - L - m <= j < k - m ==> Conv(F, P, s, j) == F.zero)
  }

  lemma BmStart<T(!new)>(F: Field<T>, s: seq<T>, A: seq<T>)
    requires F.Valid() && A != [] && A[0] == F.one && ZeroFrom(F, A, 1)
    ensures BmState(F, s, 0, A, 0, A, F.one, 1) && Shortest(F, s, 0, 0)
  {}

  lemma BmFacts<T(!new)>(F: Field<T>, s: seq<T>, k: nat, A: seq<T>, L: nat, P: seq<T>, b: T, m: nat)
    requires F.Valid() && BmState(F, s, k, A, L, P, b, m)
    ensures L <= k && 1 <= m <= k + 1 && b != F.zero && A[0] == F.one && ZeroFrom(F, A, L + 1)
    ensures Generates(F, A, L, s, k)
  {}

  lemma BmStepZero<T(!new)>(F: Field<T>, s: seq<T>, k: nat, A: seq<T>, L: nat, P: seq<T>, b: T, m: nat)
    requires F.Valid() && BmState(F, s, k, A, L, P, b, m) && k + 1 < |A|
    requires Conv(F, A, s, k) == F.zero
    ensures BmState(F, s, k + 1, A, L, P, b, m + 1)
  {
    assert k + 2 - L - m == k + 1 + 2 - L - (m + 1);
    assert k - m == k + 1 - (m + 1);
  }

  /** A nonzero discrepancy d == f * b is cancelled by the update; the length grows exactly
      when twice the old one does not exceed k. */
  lemma BmStepUpdate<T(!new)>(F: Field<T>, s: seq<T>, k: nat, A: seq<T>, L: nat, P: seq<T>, b: T, m: nat, f: T, d: T)
    requires F.Valid() && BmState(F, s, k, A, L, P, b, m) && k + 1 < |A|
    requires Conv(F, A, s, k) == d == F.mul(f, b) && d != F.zero
    ensures 2 * L <= k ==> BmState(F, s, k + 1, Update(F, A, f, P, m), k + 1 - L, A, d, 1)
    ensures 2 * L > k ==> BmState(F, s, k + 1, Update(F, A, f, P, m), L, P, b, m + 1)
  {
    var L' := if 2 * L <= k then k + 1 - L else L;
    UpdatedGenerates(F, s, k, A, L, P, b, m, f, L');
    hide Update, Conv;
    assert k + 2 - L - m == k + 1 + 2 - L - (m + 1);
    assert k - m == k + 1 - (m + 1);
  }

  /** The updated polynomial generates one syndrome more with the length L'. */
  lemma UpdatedGenerates<T(!new)>(F: Field<T>, s: seq<T>, k: nat, A: seq<T>, L: nat, P: seq<T>, b: T, m: nat, f: T,
                                  L': nat)
    requires F.Valid() && BmState(F, s, k, A, L, P, b, m) && k + 1 < |A|
    requires Conv(F, A, s, k) == F.mul(f, b)
    requires L' == if 2 * L <= k then k + 1 - L else L
    ensures Generates(F, Update(F, A, f, P, m), L', s, k + 1)
  {
    hide Conv, Field.Valid;
    UpdatedZeros(F, s, k, A, L, P, b, m, f, L');
    forall j | L' <= j < k + 1 ensures Conv(F, Update(F, A, f, P, m), s, j) == F.zero {
      ConvUpdate(F, A, f, P, m, s, j);
      UpdatedTerm(F, s, k, A, L, P, b, m, f, j);
    }
  }

  lemma UpdatedZeros<T(!new)>(F: Field<T>, s: seq<T>, k: nat, A: seq<T>, L: nat, P: seq<T>, b: T, m: nat, f: T, L': nat)
    requires F.Valid() && BmState(F, s, k, A, L, P, b, m)
    requires L' == if 2 * L <= k then k + 1 - L else L
    ensures Update(F, A, f, P, m)[0] == F.one && ZeroFrom(F, Update(F, A, f, P, m), L' + 1)
  {
    hide Conv;
    var R := Update(F, A, f, P, m);
    forall i | 0 <= i < |R| && L' + 1 <= i ensures R[i] == F.zero {
      if i >= m { assert P[i - m] == F.zero; }
    }
  }

  lemma UpdatedTerm<T(!new)>(F: Field<T>, s: seq<T>, k: nat, A: seq<T>, L: nat, P: seq<T>, b: T, m: nat, f: T, j: int)
    requires F.Valid() && BmState(F, s, k, A, L, P, b, m) && Conv(F, A, s, k) == F.mul(f, b)
    requires (if 2 * L <= k then k + 1 - L else L) <= j < k + 1
    ensures F.add(Conv(F, A, s, j), F.mul(f, Conv(F, P, s, j - m))) == F.zero
  {
    hide Conv;
    var c := Conv(F, P, s, j - m);
  }

  /** No generator of the first k syndromes is shorter than L. */
  ghost predicate Shortest<T(!new)>(F: Field<T>, s: seq<T>, k: nat, L: nat) {
    forall B, v: nat :: Generates(F, B, v, s, k) ==> L <= v
  }

  lemma ShortestStep<T(!new)>(F: Field<T>, s: seq<T>, k: nat, A: seq<T>, L: nat)
    requires F.Valid() && Generates(F, A, L, s, k) && Shortest(F, s, k, L) && L <= k
    ensures Shortest(F, s, k + 1, if Conv(F, A, s, k) != F.zero && 2 * L <= k then k + 1 - L else L)
  {
    var k' := k + 1;
    forall B, v: nat | Generates(F, B, v, s, k')
      ensures (if Conv(F, A, s, k) != F.zero && 2 * L <= k then k + 1 - L else L) <= v
    {
      assert Generates(F, B, v, s, k);
      if L + v <= k {
        SameDiscrepancy(F, A, L, B, v, s, k);
        assert Conv(F, B, s, k) == F.zero;
      }
    }
  }

  // ----- the syndromes of an error word -----

  /** Z holds the inverses of X. */
  ghost predicate Inverses<T(!new)>(F: Field<T>, X: seq<T>, Z: seq<T>) {
    |X| == |Z| && forall i :: 0 <= i < |X| ==> F.mul(X[i], Z[i]) == F.one
  }

  /** s[l] is the (l + 1)-th power sum of e: the syndromes of a word with errors e. */
  ghost predicate Syndromes<T(!new)>(F: Field<T>, e: seq<T>, X: seq<T>, s: seq<T>)
    requires |e| == |X|
  {
    forall l :: 0 <= l < |s| ==> s[l] == Moment(F, e, X, l + 1)
  }

  function Weighted<T(!new)>(F: Field<T>, e: seq<T>, A: seq<T>, Z: seq<T>): (w: seq<T>)
    requires |e| == |Z|
    ensures |w| == |e|
    ensures forall i :: 0 <= i < |w| ==> w[i] == F.mul(e[i], F.Eval(A, Z[i]))
  {
    seq(|e|, i requires 0 <= i < |e| => F.mul(e[i], F.Eval(A, Z[i])))
  }

  lemma MomentZero<T(!new)>(F: Field<T>, a: seq<T>, X: seq<T>, j: nat)
    requires F.Valid() && |a| == |X|
    requires forall i :: 0 <= i < |a| ==> a[i] == F.zero
    ensures Moment(F, a, X, j) == F.zero
  {
    SumSingle(F, Terms(F, a, X, j), -1);
  }

  lemma WeightedMoment<T(!new)>(F: Field<T>, A: seq<T>, e: seq<T>, X: seq<T>, Z: seq<T>, j: nat)
    requires F.Valid() && Inverses(F, X, Z) && |e| == |X| && A != []
    ensures Moment(F, Weighted(F, e, A, Z), X, j + 1)
         == F.add(F.mul(A[0], Moment(F, e, X, j + 1)), Moment(F, Weighted(F, e, A[1..], Z), X, j))
  {
    var t, u := Terms(F, Weighted(F, e, A, Z), X, j + 1), Terms(F, e, X, j + 1);
    var v := Terms(F, Weighted(F, e, A[1..], Z), X, j);
    var au := seq(|e|, i requires 0 <= i < |e| => F.mul(A[0], u[i]));
    forall i | 0 <= i < |e| ensures t[i] == F.add(au[i], v[i]) {
      WeightedTerm(F, e[i], A[0], F.Eval(A[1..], Z[i]), X[i], Z[i], F.Pow(X[i], j));
    }
    SumScale(F, A[0], u, au);
    SumAdd(F, au, v, t);
  }

  /** Convolving A with the syndromes weights every error by A at its inverse locator. */
  lemma {:induction false} ConvOfMoments<T(!new)>(F: Field<T>, A: seq<T>, e: seq<T>, X: seq<T>, Z: seq<T>, s: seq<T>,
                                                 j: nat)
    requires F.Valid() && Inverses(F, X, Z) && |e| == |X| && Syndromes(F, e, X, s)
    requires |A| <= j + 1 && j < |s|
    ensures Conv(F, A, s, j) == Moment(F, Weighted(F, e, A, Z), X, j + 1)
    decreases |A|
  {
    if A == [] {
      MomentZero(F, Weighted(F, e, A, Z), X, j + 1);
    } else {
      var B := A[1..];
      WeightedMoment(F, A, e, X, Z, j);
      if B == [] {
        MomentZero(F, Weighted(F, e, B, Z), X, j);
      } else {
        ConvOfMoments(F, B, e, X, Z, s, j - 1);
      }
    }
  }

  lemma WeightedTerm<T(!new)>(F: Field<T>, e: T, a: T, v: T, x: T, z: T, p: T)
    requires F.Valid() && F.mul(x, z) == F.one
    ensures F.mul(F.mul(e, F.add(a, F.mul(z, v))), F.mul(x, p))
         == F.add(F.mul(a, F.mul(e, F.mul(x, p))), F.mul(F.mul(e, v), p))
  {
    var q := F.mul(x, p);
    Distribute(F, e, a, F.mul(z, v));
    Distribute(F, q, F.mul(e, a), F.mul(e, F.mul(z, v)));
    MulAssoc(F, a, e, q);
    MulAssoc(F, e, z, v);
    MulAssoc(F, e, v, z);
    MulAssoc(F, z, e, v);
    MulSwap(F, F.mul(e, v), z, p, x);
  }

  /** p times (1 + c x), plus y. */
  function TimesLinear<T(!new)>(F: Field<T>, p: seq<T>, c: T, y: T): (q: seq<T>)
    ensures |q| == |p| + 1
    ensures p != [] ==> q[0] == F.add(p[0], y)
  {
    if p == [] then [y] else [F.add(p[0], y)] + TimesLinear(F, p[1..], c, F.mul(c, p[0]))
  }

  lemma {:induction false} EvalTimesLinear<T(!new)>(F: Field<T>, p: seq<T>, c: T, y: T, x: T)
    requires F.Valid()
    ensures F.Eval(TimesLinear(F, p, c, y), x)
         == F.add(y, F.mul(F.add(F.one, F.mul(c, x)), F.Eval(p, x)))
  {
    if p != [] {
      var r, z := p[1..], F.add(F.one, F.mul(c, x));
      EvalTimesLinear(F, r, c, F.mul(c, p[0]), x);
      var q := TimesLinear(F, p, c, y);
      assert q[1..] == TimesLinear(F, r, c, F.mul(c, p[0]));
      var v, a := F.Eval(r, x), p[0];
      Distribute(F, x, F.mul(c, a), F.mul(z, v));
      MulAssoc(F, x, z, v);
      MulAssoc(F, z, x, v);
      Distribute(F, z, a, F.mul(x, v));
      Distribute(F, a, F.one, F.mul(c, x));
      MulAssoc(F, x, c, a);
      // q(x) = (a + y) + (cx a + z x v); y + (a + cx a + z x v)
      var g, h := F.mul(F.mul(c, x), a), F.mul(z, F.mul(x, v));
      AddAssoc(F, y, a, F.add(g, h));
      AddAssoc(F, a, g, h);
    }
  }

  /** The product of (1 + X[i] x) over the positions in error. */
  function Locator<T(!new, ==)>(F: Field<T>, e: seq<T>, X: seq<T>): (A: seq<T>)
    requires |e| == |X|
  {
    if e == [] then [F.one]
    else
      var n := |e| - 1;
      var B := Locator(F, e[..n], X[..n]);
      if e[n] == F.zero then B else TimesLinear(F, B, X[n], F.zero)
  }

  /** The inverse locators of the positions in error. */
  function ErrorRoots<T(!new, ==)>(F: Field<T>, e: seq<T>, Z: seq<T>): (R: seq<T>)
    requires |e| == |Z|
  {
    if e == [] then []
    else
      var n := |e| - 1;
      var S := ErrorRoots(F, e[..n], Z[..n]);
      if e[n] == F.zero then S else S + [Z[n]]
  }

  lemma SupportSnoc<T(!new)>(F: Field<T>, e: seq<T>)
    requires e != []
    ensures var n := |e| - 1;
            && |Support(F, e)| == |Support(F, e[..n])| + (if e[n] == F.zero then 0 else 1)
            && (forall i :: i in Support(F, e) <==> i in Support(F, e[..n]) || (i == n && e[n] != F.zero))
  {
    var n := |e| - 1;
    var S := Support(F, e[..n]);
    assert Support(F, e) == if e[n] == F.zero then S else S + {n};
  }

  lemma {:induction false} LocatorShape<T(!new)>(F: Field<T>, e: seq<T>, X: seq<T>)
    requires F.Valid() && |e| == |X|
    ensures |Locator(F, e, X)| == |Support(F, e)| + 1 && Locator(F, e, X)[0] == F.one
  {
    if e != [] {
      LocatorShape(F, e[..|e| - 1], X[..|e| - 1]);
      SupportSnoc(F, e);
    }
  }

  lemma {:induction false} LocatorRoots<T(!new)>(F: Field<T>, e: seq<T>, X: seq<T>, Z: seq<T>, i: nat)
    requires F.Valid() && |e| == |X| && Inverses(F, X, Z) && i in Support(F, e)
    ensures F.Eval(Locator(F, e, X), Z[i]) == F.zero
  {
    var n := |e| - 1;
    SupportSnoc(F, e);
    var B := Locator(F, e[..n], X[..n]);
    if e[n] != F.zero { EvalTimesLinear(F, B, X[n], F.zero, Z[i]); }
    if i < n { LocatorRoots(F, e[..n], X[..n], Z[..n], i); }
  }

  lemma LocatorConv<T(!new)>(F: Field<T>, A: seq<T>, e: seq<T>, X: seq<T>, Z: seq<T>, s: seq<T>, j: nat)
    requires F.Valid() && Inverses(F, X, Z) && |e| == |X| && Syndromes(F, e, X, s)
    requires |A| <= j + 1 && j < |s|
    requires forall i :: 0 <= i < |e| ==> Weighted(F, e, A, Z)[i] == F.zero
    ensures Conv(F, A, s, j) == F.zero
  {
    ConvOfMoments(F, A, e, X, Z, s, j);
    MomentZero(F, Weighted(F, e, A, Z), X, j + 1);
  }

  lemma LocatorGenerates<T(!new)>(F: Field<T>, e: seq<T>, X: seq<T>, Z: seq<T>, s: seq<T>)
    requires F.Valid() && Inverses(F, X, Z) && |e| == |X| && Syndromes(F, e, X, s)
    ensures Generates(F, Locator(F, e, X), |Support(F, e)|, s, |s|)
  {
    var A := Locator(F, e, X);
    LocatorShape(F, e, X);
    forall i | 0 <= i < |e| ensures Weighted(F, e, A, Z)[i] == F.zero {
      if i in Support(F, e) { LocatorRoots(F, e, X, Z, i); }
    }
    forall j | |Support(F, e)| <= j < |s| ensures Conv(F, A, s, j) == F.zero {
      LocatorConv(F, A, e, X, Z, s, j);
    }
  }

  lemma {:induction false} RootsShape<T(!new)>(F: Field<T>, e: seq<T>, Z: seq<T>)
    requires F.Valid() && |e| == |Z|
    ensures |ErrorRoots(F, e, Z)| == |Support(F, e)|
    ensures forall r :: 0 <= r < |ErrorRoots(F, e, Z)| ==>
              exists i :: i in Support(F, e) && ErrorRoots(F, e, Z)[r] == Z[i]
  {
    if e != [] {
      var n := |e| - 1;
      RootsShape(F, e[..n], Z[..n]);
      SupportSnoc(F, e);
      var R, S := ErrorRoots(F, e, Z), ErrorRoots(F, e[..n], Z[..n]);
      forall r | 0 <= r < |R| ensures exists i :: i in Support(F, e) && R[r] == Z[i] {
        if r < |S| {
          var i :| i in Support(F, e[..n]) && S[r] == Z[..n][i];
          assert i in Support(F, e) && R[r] == Z[i];
        } else {
          assert n in Support(F, e) && R[r] == Z[n];
        }
      }
    }
  }

  lemma {:induction false} RootsDistinct<T(!new)>(F: Field<T>, e: seq<T>, Z: seq<T>)
    requires F.Valid() && |e| == |Z| && Distinct(Z)
    ensures Distinct(ErrorRoots(F, e, Z))
  {
    if e != [] {
      var n := |e| - 1;
      RootsDistinct(F, e[..n], Z[..n]);
      RootsShape(F, e[..n], Z[..n]);
    }
  }
}
