/** The decoder of the (36,20,17) and (24,16,9) codes, stage by stage as its loops run, and
    what it guarantees as a whole. */
module Rs6 {
  import opened Fields
  import opened Codes
  import opened Sets
  import opened KeyEquation
  import opened ErrorValues
  import opened PrimitiveField
  import opened Gf64
  import opened Bits
  import opened Rs6Spec

  /** The antilog and log tables built by the decoder. */
  ghost predicate Tables(expTab: seq<Sym>, logTab: seq<nat>) {
    && |expTab| == 63 && |logTab| == 64
    && (forall i :: 0 <= i < 63 ==> expTab[i] == Alpha(i))
    && (forall i :: 0 <= i < 63 ==> logTab[Alpha(i) as nat] == i)
  }

  lemma AlphaNext(k: nat)
    requires k > 0
    ensures Alpha(k) == F64().mul(Alpha(k - 1), 2)
  {
    F64Laws();
    hide FieldOf;
  }

  method BuildExp() returns (expTab: array<Sym>)
    ensures expTab.Length == 63 && (forall i :: 0 <= i < 63 ==> expTab[i] == Alpha(i)) && fresh(expTab)
  {
    hide *;
    AlphaZero();
    expTab := new Sym[63];
    expTab[0] := 1;
    for i := 1 to 63
      invariant forall k :: 0 <= k < i ==> expTab[k] == Alpha(k)
    {
      AlphaNext(i);
      assert expTab[i - 1] == Alpha(i - 1);
      var next := Gf6Mult(expTab[i - 1], 2);
      expTab[i] := next;
    }
  }

  lemma LogSlot(i: nat)
    requires i < 63
    ensures Alpha(i) as nat < 64
    ensures forall k :: 0 <= k < 63 && k != i ==> Alpha(k) as nat != Alpha(i) as nat
  {
    hide Alpha;
    NumInjective(Alpha(i), 0);
    forall k | 0 <= k < 63 && k != i ensures Alpha(k) as nat != Alpha(i) as nat {
      if k < i { AlphaDistinct(k, i); } else { AlphaDistinct(i, k); }
      NumInjective(Alpha(k), Alpha(i));
    }
  }

  method BuildLog(expTab: array<Sym>) returns (logTab: array<nat>)
    requires expTab.Length == 63 && forall i :: 0 <= i < 63 ==> expTab[i] == Alpha(i)
    ensures Tables(expTab[..], logTab[..]) && fresh(logTab)
  {
    hide Alpha;
    logTab := new nat[64];
    logTab[0] := 0;
    for i := 0 to 63
      invariant forall k :: 0 <= k < i ==> Alpha(k) as nat < 64 && logTab[Alpha(k) as nat] == k
    {
      LogSlot(i);
      logTab[expTab[i] as nat] := i;
    }
  }

  lemma HornerStep(w: seq<Sym>, i: nat, x: Sym)
    requires i < |w|
    ensures F64().Horner(w[..i + 1], x) == F64().mul(F64().Horner(w[..i], x), x) ^ w[i]
    ensures F64().Horner(w[..0], x) == 0
  {
    F64Laws();
    hide FieldOf;
    assert w[..i + 1][..i] == w[..i];
  }

  /** The word evaluated at x by Horner's rule, first symbol highest. */
  method EvaluateAt(cw: array<Sym>, n: nat, x: Sym) returns (r: Sym)
    requires n <= cw.Length
    ensures r == F64().Horner(cw[..n], x)
  {
    F64Laws();
    hide F64;
    r := 0;
    assert cw[..0] == [];
    for i := 0 to n
      invariant r == F64().Horner(cw[..i], x)
    {
      HornerStep(cw[..], i, x);
      assert cw[..][..i] == cw[..i] && cw[..][..i + 1] == cw[..i + 1];
      r := Gf6Mult(r, x);
      r := r ^ cw[i];
    }
  }

  method ComputeSyndromes(cw: array<Sym>, n: nat, par: nat, expTab: array<Sym>)
    returns (synd: array<Sym>, allZero: bool)
    requires n <= cw.Length && par <= 16
    requires expTab.Length == 63 && forall i :: 0 <= i < 63 ==> expTab[i] == Alpha(i)
    ensures synd.Length == 17 && fresh(synd)
    ensures synd[1..par + 1] == SyndromesOf(cw[..n], par)
    ensures allZero <==> IsCodeword(cw[..n], par)
  {
    hide F64, Alpha, SyndromesOf;
    synd := new Sym[17];
    allZero := true;
    for j := 1 to par + 1
      invariant forall l :: 1 <= l < j ==> synd[l] == F64().Horner(cw[..n], Alpha(l))
      invariant allZero <==> forall l :: 1 <= l < j ==> F64().Horner(cw[..n], Alpha(l)) == 0
    {
      var r := EvaluateAt(cw, n, expTab[j]);
      synd[j] := r;
      if r != 0 { allZero := false; }
    }
    SyndromesAre(cw[..n], par);
  }

  /** The closing check of the decoder. */
  method IsCodewordCheck(cw: array<Sym>, n: nat, par: nat, expTab: array<Sym>) returns (ok: bool)
    requires n <= cw.Length && par <= 16
    requires expTab.Length == 63 && forall i :: 0 <= i < 63 ==> expTab[i] == Alpha(i)
    ensures ok <==> IsCodeword(cw[..n], par)
  {
    hide F64, Alpha;
    for j := 1 to par + 1
      invariant forall l :: 1 <= l < j ==> F64().Horner(cw[..n], Alpha(l)) == 0
    {
      var r := EvaluateAt(cw, n, expTab[j]);
      if r != 0 { return false; }
    }
    return true;
  }

  /** Dividing by subtracting logarithms. */
  lemma LogQuotient(expTab: seq<Sym>, logTab: seq<nat>, d: Sym, b: Sym)
    requires Tables(expTab, logTab) && d != 0 && b != 0
    ensures d as nat < 64 && b as nat < 64 && logTab[d as nat] < 63 && logTab[b as nat] < 63
    ensures F64().mul(expTab[(logTab[d as nat] + 63 - logTab[b as nat]) % 63], b) == d
  {
    hide FieldOf, Alpha;
    var i := EverySymbol(d);
    var j := EverySymbol(b);
    NumInjective(d, b);
    AlphaMod(i + 63 - j);
    AlphaSum(i + 63 - j, j);
    AlphaMod(i + 63);
    assert (i + 63) % 63 == i;
  }

  method LogDivide(expTab: array<Sym>, logTab: array<nat>, d: Sym, b: Sym) returns (q: Sym)
    requires Tables(expTab[..], logTab[..]) && d != 0 && b != 0
    ensures F64().mul(q, b) == d
  {
    hide *;
    LogQuotient(expTab[..], logTab[..], d, b);
    TablesLength(expTab[..], logTab[..]);
    q := expTab[(logTab[d as nat] + 63 - logTab[b as nat]) % 63];
  }

  /** The discrepancy: the next syndrome against the one the locator predicts. */
  method Discrepancy(lambda: array<Sym>, L: nat, synd: array<Sym>, par: nat, k: nat) returns (d: Sym)
    requires lambda.Length == 18 && synd.Length == 17 && L <= k < par <= 16
    requires lambda[0] == 1 && ZeroFrom(F64(), lambda[..], L + 1)
    ensures d == Conv(F64(), lambda[..], synd[1..par + 1], k)
  {
    hide *;
    ghost var A: seq<Sym>, s: seq<Sym> := lambda[..], synd[1..par + 1];
    d := synd[k + 1];
    ConvOne(A, s, k);
    for i := 1 to L + 1
      invariant d == Conv(F64(), A[..i], s, k)
    {
      ConvStep(A, i, s, k);
      var t := Gf6Mult(lambda[i], synd[k + 1 - i]);
      d := d ^ t;
    }
    TrimConv(A, L, L + 1, s, k);
  }

  /** One more product of the convolution sum. */
  lemma ConvStep(A: seq<Sym>, i: nat, s: seq<Sym>, k: nat)
    requires i < |A| && i <= k < |s|
    ensures Conv(F64(), A[..i + 1], s, k) == Conv(F64(), A[..i], s, k) ^ F64().mul(A[i], s[k - i])
  {
    F64Laws();
    hide F64, Conv, Field.Valid;
    ConvSnoc(F64(), A, i, s, k);
  }

  lemma ConvNone(A: seq<Sym>, s: seq<Sym>, k: nat)
    ensures Conv(F64(), A[..0], s, k) == 0
  {
    F64Laws();
    hide FieldOf;
  }

  lemma ConvOne(A: seq<Sym>, s: seq<Sym>, k: nat)
    requires A != [] && A[0] == 1 && k < |s|
    ensures Conv(F64(), A[..1], s, k) == s[k]
  {
    hide F64, Conv, Field.Valid;
    ConvNone(A, s, k);
    ConvStep(A, 0, s, k);
    UnitTimes(s[k]);
  }

  lemma UnitTimes(x: Sym)
    ensures F64().mul(1, x) == x && 0 ^ x == x
  {
    F64Laws();
    hide FieldOf;
  }

  /** What is left out of the sum are zeros, or products before the first syndrome. */
  lemma TrimConv(A: seq<Sym>, L: nat, d: nat, s: seq<Sym>, k: nat)
    requires d <= |A| && ZeroFrom(F64(), A, L + 1) && k < |s| && (d > L || d > k)
    ensures Conv(F64(), A[..d], s, k) == Conv(F64(), A, s, k)
  {
    F64Laws();
    hide FieldOf, Conv;
    TrimTail(F64(), A, d, s, k, 1);
  }

  method AddShifted(lambda: array<Sym>, factor: Sym, prev: array<Sym>, m: nat)
    requires lambda.Length == prev.Length == 18 && lambda != prev && 1 <= m <= 18
    modifies lambda
    ensures lambda[..] == Update(F64(), old(lambda[..]), factor, prev[..], m)
  {
    hide *;
    ghost var A, P := lambda[..], prev[..];
    ghost var R := Update(F64(), A, factor, P, m);
    UpdateLow(A, factor, P, m);
    for i := 0 to 18 - m
      invariant prev[..] == P
      invariant forall l :: 0 <= l < 18 ==> lambda[l] == if l < i + m then R[l] else A[l]
    {
      UpdateAt(A, factor, P, m, i);
      var t := Gf6Mult(factor, prev[i]);
      lambda[i + m] := lambda[i + m] ^ t;
    }
    assert lambda[..] == R;
  }

  lemma UpdateLow(A: seq<Sym>, f: Sym, P: seq<Sym>, m: nat)
    requires |A| == |P|
    ensures |Update(F64(), A, f, P, m)| == |A|
    ensures forall l :: 0 <= l < m && l < |A| ==> Update(F64(), A, f, P, m)[l] == A[l]
  {
    hide F64;
  }

  lemma UpdateAt(A: seq<Sym>, f: Sym, P: seq<Sym>, m: nat, i: nat)
    requires |A| == |P| && i + m < |A|
    ensures |Update(F64(), A, f, P, m)| == |A|
    ensures Update(F64(), A, f, P, m)[i + m] == A[i + m] ^ F64().mul(f, P[i])
  {
    F64Laws();
    hide F64, Field.Valid;
  }

  /** One round of Berlekamp-Massey. */
  method BmRound(k: nat, synd: array<Sym>, par: nat, expTab: array<Sym>, logTab: array<nat>,
                 lambda: array<Sym>, prev: array<Sym>, temp: array<Sym>, L0: nat, m0: nat, b0: Sym)
      returns (L: nat, m: nat, b: Sym)
    requires synd.Length == 17 && k < par <= 16 && Tables(expTab[..], logTab[..])
    requires lambda.Length == prev.Length == temp.Length == 18
    requires lambda !in {prev, temp, synd, expTab} && prev !in {temp, synd, expTab} && temp !in {synd, expTab}
    requires BmState(F64(), synd[1..par + 1], k, lambda[..], L0, prev[..], b0, m0)
    requires Shortest(F64(), synd[1..par + 1], k, L0)
    modifies lambda, prev, temp
    ensures BmState(F64(), synd[1..par + 1], k + 1, lambda[..], L, prev[..], b, m)
    ensures Shortest(F64(), synd[1..par + 1], k + 1, L)
  {
    hide *;
    F64Laws();
    L, m, b := L0, m0, b0;
    ghost var s := synd[1..par + 1];
    ghost var A, P := lambda[..], prev[..];
    BmFacts(F64(), s, k, A, L, P, b, m);
    var d := Discrepancy(lambda, L, synd, par, k);
    ShortestStep(F64(), s, k, A, L);
    if d == 0 {
      BmStepZero(F64(), s, k, A, L, P, b, m);
      m := m + 1;
      assert lambda[..] == A && prev[..] == P;
    } else {
      var factor := LogDivide(expTab, logTab, d, b);
      BmStepUpdate(F64(), s, k, A, L, P, b, m, factor, d);
      forall i | 0 <= i < 18 { temp[i] := lambda[i]; }
      assert temp[..] == A && prev[..] == P;
      AddShifted(lambda, factor, prev, m);
      assert prev[..] == P && temp[..] == A;
      ghost var R := lambda[..];
      assert R == Update(F64(), A, factor, P, m);
      if 2 * L <= k {
        L := k + 1 - L;
        forall i | 0 <= i < 18 { prev[i] := temp[i]; }
        assert prev[..] == A && lambda[..] == R;
        b := d;
        m := 1;
        assert BmState(F64(), s, k + 1, R, L, A, b, m);
      } else {
        m := m + 1;
        assert BmState(F64(), s, k + 1, R, L, P, b, m);
      }
    }
    assert synd[1..par + 1] == s;
  }

  /** Berlekamp-Massey: the shortest polynomial that generates the syndromes. */
  method BerlekampMassey(synd: array<Sym>, par: nat, expTab: array<Sym>, logTab: array<nat>)
      returns (lambda: array<Sym>, L: nat)
    requires synd.Length == 17 && par <= 16 && Tables(expTab[..], logTab[..])
    ensures lambda.Length == 18 && fresh(lambda) && L <= par
    ensures Generates(F64(), lambda[..], L, synd[1..par + 1], par)
    ensures Shortest(F64(), synd[1..par + 1], par, L)
  {
    F64Laws();
    hide F64, Conv, BmState, Shortest, Generates, Tables;
    ghost var s := synd[1..par + 1];
    lambda := new Sym[18](_ => 0);
    var prev := new Sym[18](_ => 0);
    var temp := new Sym[18](_ => 0);
    L := 0;
    var m, b: Sym := 1, 1;
    lambda[0] := 1;
    prev[0] := 1;
    assert lambda[..] == prev[..];
    BmStart(F64(), s, lambda[..]);
    for k := 0 to par
      invariant BmState(F64(), s, k, lambda[..], L, prev[..], b, m)
      invariant Shortest(F64(), s, k, L)
    {
      L, m, b := BmRound(k, synd, par, expTab, logTab, lambda, prev, temp, L, m, b);
    }
    BmFacts(F64(), s, par, lambda[..], L, prev[..], b, m);
  }

  lemma EvalSnoc(A: seq<Sym>, k: nat, x: Sym)
    requires k < |A|
    ensures F64().Eval(A[..k + 1], x) == F64().Eval(A[..k], x) ^ F64().mul(A[k], F64().Pow(x, k))
  {
    F64Laws();
    hide FieldOf;
    EvalSplit(F64(), A[..k + 1], k, x);
    assert A[..k + 1][..k] == A[..k] && A[..k + 1][k..] == [A[k]];
  }

  /** A coefficient times a power of the locator, by adding logarithms. */
  lemma LogTerm(expTab: seq<Sym>, logTab: seq<nat>, c: Sym, k: nat, xinv: nat)
    requires Tables(expTab, logTab)
    ensures c != 0 ==> c as nat < 64
    ensures c != 0 ==> expTab[(logTab[c as nat] + k * xinv) % 63] == F64().mul(c, F64().Pow(Alpha(xinv), k))
    ensures c == 0 ==> F64().mul(c, F64().Pow(Alpha(xinv), k)) == 0
  {
    hide *;
    if c != 0 {
      var i := EverySymbol(c);
      NumInjective(c, c);
      TableEntries(expTab, logTab, i);
      AlphaSum(i, k * xinv);
      AlphaSum(xinv, k);
      assert xinv * k == k * xinv;
      AlphaMod(i + k * xinv);
      TableEntries(expTab, logTab, (i + k * xinv) % 63);
    } else {
      ZeroTerm(c, Alpha(xinv), k);
    }
  }

  lemma TableEntries(expTab: seq<Sym>, logTab: seq<nat>, i: nat)
    requires Tables(expTab, logTab) && i < 63
    ensures |logTab| == 64 && |expTab| == 63 && expTab[i] == Alpha(i)
    ensures Alpha(i) as nat < 64 && logTab[Alpha(i) as nat] == i
  {
    LogSlot(i);
    hide Alpha;
  }

  method LogMultiply(expTab: array<Sym>, logTab: array<nat>, c: Sym, k: nat, xinv: nat) returns (t: Sym)
    requires Tables(expTab[..], logTab[..]) && c != 0
    ensures t == F64().mul(c, F64().Pow(Alpha(xinv), k))
  {
    hide *;
    LogTerm(expTab[..], logTab[..], c, k, xinv);
    TablesLength(expTab[..], logTab[..]);
    t := expTab[(logTab[c as nat] + k * xinv) % 63];
  }

  lemma ZeroTerm(c: Sym, x: Sym, k: nat)
    requires c == 0
    ensures F64().mul(c, F64().Pow(x, k)) == 0
  {
    F64Laws();
    hide FieldOf;
  }

  /** The polynomial poly[0..len) at alpha^xinv, term by term through the tables. */
  method EvalByLogs(poly: array<Sym>, len: nat, xinv: nat, expTab: array<Sym>, logTab: array<nat>) returns (v: Sym)
    requires len <= poly.Length && Tables(expTab[..], logTab[..])
    ensures v == F64().Eval(poly[..len], Alpha(xinv))
  {
    F64Laws();
    hide *;
    ghost var A: seq<Sym>, x: Sym := poly[..], Alpha(xinv);
    v := 0;
    EvalNil(A, x);
    for k := 0 to len
      invariant v == F64().Eval(A[..k], x)
    {
      EvalSnoc(A, k, x);
      if poly[k] != 0 {
        var t := LogMultiply(expTab, logTab, poly[k], k, xinv);
        v := v ^ t;
      } else {
        ZeroTerm(poly[k], x, k);
      }
    }
    assert A[..len] == poly[..len];
  }

  lemma EvalNil(A: seq<Sym>, x: Sym)
    ensures F64().Eval(A[..0], x) == 0
  {
    F64Laws();
    hide FieldOf;
  }

  /** Chien search: the positions where the locator vanishes, in order; it gives up when there
      are more than maxErr of them. */
  method ChienSearch(lambda: array<Sym>, L: nat, n: nat, maxErr: nat, expTab: array<Sym>, logTab: array<nat>)
      returns (ok: bool, errPos: array<nat>, numErr: nat)
    requires lambda.Length == 18 && L < 18 && n <= 36 && maxErr <= 8 && Tables(expTab[..], logTab[..])
    requires ZeroFrom(F64(), lambda[..], L + 1)
    ensures fresh(errPos) && errPos.Length == 8 && numErr <= maxErr
    ensures ok ==> errPos[..numErr] == RootList(lambda[..], n, n)
    ensures !ok ==> |RootList(lambda[..], n, n)| > maxErr
  {
    hide F64, Alpha, Tables, IsRoot;
    ghost var A := lambda[..];
    errPos := new nat[8];
    numErr := 0;
    ok := true;
    for i := 0 to n
      invariant numErr <= maxErr
      invariant errPos[..numErr] == RootList(A, n, i)
    {
      var v := EvalByLogs(lambda, L + 1, InverseLog(n, i), expTab, logTab);
      assert A[..L + 1] == lambda[..L + 1];
      ChienTerm(A, L, n, i);
      if v == 0 {
        if numErr >= maxErr {
          RootListGrows(A, n, i + 1, n);
          ok := false;
          return;
        }
        errPos[numErr] := i;
        numErr := numErr + 1;
      }
    }
  }

  lemma ChienTerm(A: seq<Sym>, L: nat, n: nat, i: nat)
    requires i < n <= 36 && L < |A| && ZeroFrom(F64(), A, L + 1)
    ensures F64().Eval(A[..L + 1], Alpha(InverseLog(n, i))) == 0 <==> IsRoot(A, n, i)
  {
    F64Laws();
    hide FieldOf, Alpha;
    TrimTail(F64(), A, L + 1, [], -1, Zs(n)[i]);
  }

  /** Error evaluator: the syndromes times the locator, up to x^par. */
  method ErrorEvaluator(lambda: array<Sym>, L: nat, synd: array<Sym>, par: nat) returns (omega: array<Sym>)
    requires lambda.Length == 18 && synd.Length == 17 && L < 18 && par <= 16
    requires ZeroFrom(F64(), lambda[..], L + 1)
    ensures omega.Length == 16 && fresh(omega)
    ensures IsEvaluator(omega[..par], lambda[..], synd[1..par + 1])
  {
    hide F64, Conv;
    ghost var A, s := lambda[..], synd[1..par + 1];
    omega := new Sym[16];
    for i := 0 to par
      invariant forall l :: 0 <= l < i ==> omega[l] == Conv(F64(), A, s, l)
    {
      var v := EvaluatorCoefficient(lambda, L, synd, par, i);
      omega[i] := v;
    }
  }

  method EvaluatorCoefficient(lambda: array<Sym>, L: nat, synd: array<Sym>, par: nat, i: nat) returns (v: Sym)
    requires lambda.Length == 18 && synd.Length == 17 && L < 18 && i < par <= 16
    requires ZeroFrom(F64(), lambda[..], L + 1)
    ensures v == Conv(F64(), lambda[..], synd[1..par + 1], i)
  {
    hide *;
    ghost var A: seq<Sym>, s: seq<Sym> := lambda[..], synd[1..par + 1];
    v := 0;
    var k := 0;
    ConvNone(A, s, i);
    while k <= i && k <= L
      invariant 0 <= k <= i + 1 && k <= L + 1
      invariant v == Conv(F64(), A[..k], s, i)
    {
      ConvStep(A, k, s, i);
      var t := Gf6Mult(lambda[k], synd[i - k + 1]);
      v := v ^ t;
      k := k + 1;
    }
    TrimConv(A, L, k, s, i);
  }

  lemma DerivativeTerm(A: seq<Sym>, m: nat, x: Sym)
    requires m < |A|
    ensures m % 2 == 1 ==>
      Derivative(F64(), A[..m + 1], x) == F64().add(Derivative(F64(), A[..m], x), F64().mul(A[m], F64().Pow(x, m - 1)))
    ensures m % 2 == 0 ==> Derivative(F64(), A[..m + 1], x) == Derivative(F64(), A[..m], x)
    ensures Derivative(F64(), A[..1], x) == 0
  {
    F64Laws();
    hide FieldOf;
    DerivativeSnoc(F64(), A, m, x);
  }

  /** The locator's derivative: only the odd terms. */
  method LocatorDerivative(lambda: array<Sym>, L: nat, xinv: nat, expTab: array<Sym>, logTab: array<nat>)
    returns (den: Sym)
    requires lambda.Length == 18 && L < 18 && Tables(expTab[..], logTab[..])
    ensures den == Derivative(F64(), lambda[..L + 1], Alpha(xinv))
  {
    F64Laws();
    hide *;
    ghost var A: seq<Sym>, x: Sym := lambda[..], Alpha(xinv);
    den := 0;
    var k := 1;
    DerivativeTerm(A, 0, x);
    while k <= L
      invariant 1 <= k <= L + 2 && k % 2 == 1
      invariant den == Derivative(F64(), A[..if k <= L then k else L + 1], x)
    {
      DerivativeTerm(A, k, x);
      if k + 1 <= L { DerivativeTerm(A, k + 1, x); }
      if lambda[k] != 0 {
        var t := LogMultiply(expTab, logTab, lambda[k], k - 1, xinv);
        den := den ^ t;
      } else {
        ZeroTerm(lambda[k], x, k - 1);
      }
      k := k + 2;
    }
    assert A[..L + 1] == lambda[..L + 1];
  }

  lemma QuotientIsCorrection(W: seq<Sym>, A: seq<Sym>, z: Sym, q: Sym)
    requires Derivative(F64(), A, z) != 0
    requires F64().mul(q, Derivative(F64(), A, z)) == F64().Eval(W, z)
    ensures q == Correction(W, A, z)
  {
    F64Laws();
    hide FieldOf, Derivative;
    var d := Derivative(F64(), A, z);
    MulAssoc(F64(), q, d, F64().inv(d));
  }

  lemma ZeroCorrection(W: seq<Sym>, A: seq<Sym>, z: Sym)
    requires F64().Eval(W, z) == 0
    ensures Correction(W, A, z) == 0
  {
    F64Laws();
    hide FieldOf, Derivative;
  }

  /** The received word with the positions listed in E corrected. */
  ghost function Corrected(r: seq<Sym>, E: seq<nat>, W: seq<Sym>, A: seq<Sym>): (w: seq<Sym>)
    requires |r| <= 36
    ensures |w| == |r|
    ensures forall p :: 0 <= p < |r| ==> w[p] == if p in E then r[p] ^ Correction(W, A, Zs(|r|)[p]) else r[p]
  {
    seq(|r|, p requires 0 <= p < |r| => if p in E then r[p] ^ Correction(W, A, Zs(|r|)[p]) else r[p])
  }

  lemma CorrectedStep(r: seq<Sym>, E: seq<nat>, e: nat, W: seq<Sym>, A: seq<Sym>)
    requires |r| <= 36 && e < |E| && E[e] < |r|
    requires forall f, g :: 0 <= f < g < |E| ==> E[f] < E[g]
    ensures var w, p := Corrected(r, E[..e], W, A), E[e];
      w[p := w[p] ^ Correction(W, A, Zs(|r|)[p])] == Corrected(r, E[..e + 1], W, A)
    ensures Corrected(r, [], W, A) == r
  {
    hide Correction, Zs;
    var v := Corrected(r, E[..e + 1], W, A);
    forall p | 0 <= p < |r| ensures p in E[..e + 1] <==> p == E[e] || p in E[..e] {
      assert E[..e + 1] == E[..e] + [E[e]];
    }
    assert E[e] !in E[..e];
  }

  lemma CorrectedNone(r: seq<Sym>, W: seq<Sym>, A: seq<Sym>)
    requires |r| <= 36
    ensures Corrected(r, [], W, A) == r
  {}

  /** Forney at one position: the error value, unless the denominator vanishes. */
  method ErrorValue(lambda: array<Sym>, L: nat, omega: array<Sym>, par: nat, n: nat, p: nat,
                    expTab: array<Sym>, logTab: array<nat>) returns (ok: bool, value: Sym)
    requires p < n <= 36 && par <= 16 && lambda.Length == 18 && L < 18 && omega.Length == 16
    requires Tables(expTab[..], logTab[..])
    ensures ok <==> Derivative(F64(), lambda[..L + 1], Zs(n)[p]) != 0
    ensures ok ==> value == Correction(omega[..par], lambda[..L + 1], Zs(n)[p])
  {
    ghost var W: seq<Sym>, A: seq<Sym> := omega[..par], lambda[..L + 1];
    hide F64, Derivative, Alpha, Tables, Correction;
    var xinv := InverseLog(n, p);
    assert Zs(n)[p] == Alpha(xinv);
    var num := EvalByLogs(omega, par, xinv, expTab, logTab);
    var den := LocatorDerivative(lambda, L, xinv, expTab, logTab);
    value := 0;
    if den == 0 { return false, 0; }
    if num != 0 {
      value := LogDivide(expTab, logTab, num, den);
      QuotientIsCorrection(W, A, Zs(n)[p], value);
    } else {
      ZeroCorrection(W, A, Zs(n)[p]);
    }
    ok := true;
  }

  /** Forney: corrects the listed positions in place, unless a denominator vanishes. */
  method ForneyCorrect(cw: array<Sym>, n: nat, par: nat, lambda: array<Sym>, L: nat, omega: array<Sym>,
                       errPos: array<nat>, numErr: nat, expTab: array<Sym>, logTab: array<nat>,
                       ghost r: seq<Sym>, ghost E: seq<nat>, ghost W: seq<Sym>, ghost A: seq<Sym>) returns (ok: bool)
    requires cw.Length == 36 && n <= 36 && par <= 16 && lambda.Length == 18 && L < 18 && omega.Length == 16
    requires errPos.Length == 8 && numErr <= 8 && Tables(expTab[..], logTab[..])
    requires cw != lambda && cw != omega && cw != expTab && cw as object != logTab
    requires r == cw[..n] && E == errPos[..numErr] && W == omega[..par] && A == lambda[..L + 1]
    requires forall e :: 0 <= e < |E| ==> E[e] < n
    requires forall e, f :: 0 <= e < f < |E| ==> E[e] < E[f]
    modifies cw
    ensures ok ==> cw[..n] == Corrected(r, E, W, A)
    ensures !ok ==> exists p :: p in E && Derivative(F64(), A, Zs(n)[p]) == 0
  {
    hide *;
    CorrectedNone(r, W, A);
    assert E[..0] == [];
    for e := 0 to numErr
      invariant cw[..n] == Corrected(r, E[..e], W, A)
      invariant omega[..par] == W && lambda[..L + 1] == A
    {
      var p := errPos[e];
      assert p == E[e];
      CorrectedStep(r, E, e, W, A);
      var value;
      ok, value := ErrorValue(lambda, L, omega, par, n, p, expTab, logTab);
      if !ok { return; }
      ghost var tables := (expTab[..], logTab[..]);
      cw[p] := cw[p] ^ value;
      assert expTab[..] == tables.0 && logTab[..] == tables.1;
    }
    assert E[..numErr] == E;
    ok := true;
  }

  /** c is a code word within half the distance of the received word. */
  ghost predicate Near(r: seq<Sym>, c: seq<Sym>, par: nat) {
    |c| == |r| && IsCodeword(c, par) && |Difference(r, c)| <= par / 2
  }

  ghost function EvaluatorOf(A: seq<Sym>, s: seq<Sym>): (W: seq<Sym>)
    ensures IsEvaluator(W, A, s)
  {
    seq(|s|, i requires 0 <= i < |s| => Conv(F64(), A, s, i))
  }

  lemma NearFacts(r: seq<Sym>, c: seq<Sym>, par: nat)
    requires Near(r, c, par)
    ensures |c| == |r| && IsCodeword(c, par) && |Difference(r, c)| <= par / 2
  {}

  lemma ListIsSet(A: seq<Sym>, n: nat, D: set<int>)
    requires n <= 36 && RootSet(A, n, n) == D
    ensures |RootList(A, n, n)| == |D| && forall p: nat :: p in RootList(A, n, n) <==> p in D
    ensures forall p :: p in D ==> 0 <= p < n
  {
    RootListSet(A, n, n);
    hide IsRoot, RootList;
  }

  /** The listed corrections turn r into c when they do so where the two differ. */
  lemma CorrectedIs(r: seq<Sym>, c: seq<Sym>, E: seq<nat>, W: seq<Sym>, A: seq<Sym>)
    requires |r| == |c| <= 36 && forall p: nat :: p in E <==> p in Difference(r, c)
    requires forall p :: p in Difference(r, c) ==> F64().add(r[p], Correction(W, A, Zs(|r|)[p])) == c[p]
    ensures Corrected(r, E, W, A) == c
  {
    F64Laws();
    hide F64, Correction, Zs;
    forall p: nat | p < |r| ensures Corrected(r, E, W, A)[p] == c[p] {
      if p !in Difference(r, c) { assert r[p] == c[p]; }
    }
  }

  /** With a code word near, no stage gives up and the corrected word is that code word. */
  lemma NearIsFound(r: seq<Sym>, c: seq<Sym>, par: nat, A: seq<Sym>, L: nat)
    requires |r| <= 36 && Near(r, c, par)
    requires Generates(F64(), A, L, SyndromesOf(r, par), par) && L < |A|
    requires Shortest(F64(), SyndromesOf(r, par), par, L)
    ensures L <= par / 2 && |RootList(A, |r|, |r|)| == L
    ensures forall p :: p in RootList(A, |r|, |r|) ==> p < |r| && Derivative(F64(), A[..L + 1], Zs(|r|)[p]) != 0
    ensures forall W :: IsEvaluator(W, A, SyndromesOf(r, par)) ==>
              Corrected(r, RootList(A, |r|, |r|), W, A[..L + 1]) == c
  {
    hide *;
    var n, s := |r|, SyndromesOf(r, par);
    NearFacts(r, c, par);
    FewErrorsFound(r, c, par, A, L, EvaluatorOf(A, s));
    ListIsSet(A, n, Difference(r, c));
    forall W | IsEvaluator(W, A, s) ensures Corrected(r, RootList(A, n, n), W, A[..L + 1]) == c {
      FewErrorsFound(r, c, par, A, L, W);
      CorrectedIs(r, c, RootList(A, n, n), W, A[..L + 1]);
    }
  }

  lemma CorrectedFew(r: seq<Sym>, E: seq<nat>, W: seq<Sym>, A: seq<Sym>)
    requires |r| <= 36
    ensures |Difference(r, Corrected(r, E, W, A))| <= |E|
  {
    hide Correction;
    var D := Difference(r, Corrected(r, E, W, A));
    var S := set p: int | p in E;
    assert D <= S;
    SubsetSize(D, S);
    ListSize(E);
  }

  lemma {:induction false} ListSize(E: seq<nat>)
    ensures |set p: int | p in E| <= |E|
  {
    if E == [] {
      assert (set p: int | p in E) == {};
    } else {
      ListSize(E[1..]);
      assert (set p: int | p in E) == (set p: int | p in E[1..]) + {E[0]};
    }
  }

  lemma NearUnique(r: seq<Sym>, w: seq<Sym>, par: nat)
    requires |r| <= 36 && Near(r, w, par)
    ensures forall c :: Near(r, c, par) ==> c == w
  {
    forall c | Near(r, c, par) ensures c == w { UniqueCorrection(r, c, w, par); }
  }

  lemma NearSelf(r: seq<Sym>, par: nat)
    requires |r| <= 36 && IsCodeword(r, par)
    ensures Near(r, r, par)
  {
    assert Difference(r, r) == {};
  }

  lemma NearCorrected(r: seq<Sym>, E: seq<nat>, W: seq<Sym>, A: seq<Sym>, par: nat)
    requires |r| <= 36 && |E| <= par / 2 && IsCodeword(Corrected(r, E, W, A), par)
    ensures Near(r, Corrected(r, E, W, A), par)
  {
    CorrectedFew(r, E, W, A);
  }

  /** The stages after a nonzero syndrome, on the unpacked word. */
  method CorrectWord(cw: array<Sym>, n: nat, par: nat, synd: array<Sym>, expTab: array<Sym>, logTab: array<nat>,
                     ghost r: seq<Sym>) returns (ok: bool)
    requires cw.Length == 36 && n <= 36 && par <= 16 && r == cw[..n] && synd.Length == 17
    requires synd[1..par + 1] == SyndromesOf(r, par) && Tables(expTab[..], logTab[..])
    requires cw != synd && cw != expTab && cw as object != logTab
    modifies cw
    ensures ok ==> Near(r, cw[..n], par)
    ensures forall c :: Near(r, c, par) ==> ok && cw[..n] == c
  {
    hide *;
    TablesLength(expTab[..], logTab[..]);
    assert expTab[..] == expTab[..expTab.Length];
    ghost var s: seq<Sym> := synd[1..par + 1];
    var lambda, L := BerlekampMassey(synd, par, expTab, logTab);
    ghost var A: seq<Sym> := lambda[..];
    GeneratorShape(A, L, s, par);
    if L > par / 2 {
      forall c ensures !Near(r, c, par) { if Near(r, c, par) { NearIsFound(r, c, par, A, L); } }
      return false;
    }
    var found, errPos, numErr := ChienSearch(lambda, L, n, par / 2, expTab, logTab);
    ghost var E := RootList(A, n, n);
    if !found || numErr != L {
      forall c ensures !Near(r, c, par) { if Near(r, c, par) { NearIsFound(r, c, par, A, L); } }
      return false;
    }
    RootListFacts(A, n);
    var omega := ErrorEvaluator(lambda, L, synd, par);
    ghost var W: seq<Sym> := omega[..par];
    var divided := ForneyCorrect(cw, n, par, lambda, L, omega, errPos, numErr, expTab, logTab, r, E, W, A[..L + 1]);
    if !divided {
      forall c ensures !Near(r, c, par) { if Near(r, c, par) { NearIsFound(r, c, par, A, L); } }
      return false;
    }
    forall c | Near(r, c, par) ensures cw[..n] == c && IsCodeword(cw[..n], par) {
      NearIsFound(r, c, par, A, L);
      NearIsCodeword(r, c, par);
    }
    ok := IsCodewordCheck(cw, n, par, expTab);
    if ok { NearCorrected(r, E, W, A[..L + 1], par); }
  }

  lemma GeneratorShape(A: seq<Sym>, L: nat, s: seq<Sym>, k: nat)
    requires Generates(F64(), A, L, s, k)
    ensures ZeroFrom(F64(), A, L + 1)
  {}

  lemma RootListFacts(A: seq<Sym>, n: nat)
    requires n <= 36
    ensures forall e :: 0 <= e < |RootList(A, n, n)| ==> RootList(A, n, n)[e] < n
    ensures forall e, f :: 0 <= e < f < |RootList(A, n, n)| ==> RootList(A, n, n)[e] < RootList(A, n, n)[f]
  {
    hide IsRoot;
    RootListSet(A, n, n);
    forall e | 0 <= e < |RootList(A, n, n)| ensures RootList(A, n, n)[e] < n {
      assert RootList(A, n, n)[e] in RootSet(A, n, n);
    }
  }

  lemma NearIsCodeword(r: seq<Sym>, c: seq<Sym>, par: nat)
    requires Near(r, c, par)
    ensures |c| == |r| && IsCodeword(c, par)
  {}

  lemma TablesLength(expTab: seq<Sym>, logTab: seq<nat>)
    requires Tables(expTab, logTab)
    ensures |logTab| == 64 && |expTab| == 63 && forall i :: 0 <= i < 63 ==> expTab[i] == Alpha(i)
  {
    hide Alpha;
  }

  method Unpack(data: array<bv8>, n: nat) returns (cw: array<Sym>)
    requires n <= 36 && 6 * n <= 8 * data.Length
    ensures cw.Length == 36 && fresh(cw) && cw[..n] == Symbols(data[..], n)
  {
    hide SymbolAt;
    cw := new Sym[36](_ => 0);
    var offset := 0;
    for i := 0 to n
      invariant offset == 6 * i
      invariant forall k :: 0 <= k < i ==> cw[k] == SymbolAt(data[..], 6 * k)
    {
      cw[i] := Bin2Hex(data, offset);
      offset := offset + 6;
    }
  }

  /** The decoder.  It answers true exactly when a code word lies within half the distance of
      the received one; then the buffer holds that code word, which is the only one; otherwise
      no bit has changed. */
  method Rs6Decode(data: array<bv8>, n: nat, par: nat) returns (ok: bool)
    requires n <= 36 && par <= 16 && 6 * n <= 8 * data.Length
    modifies data
    ensures ok ==> Near(Symbols(old(data[..]), n), Symbols(data[..], n), par)
    ensures SameOutside(data[..], old(data[..]), 0, 6 * n)
    ensures !ok || IsCodeword(Symbols(old(data[..]), n), par) ==> data[..] == old(data[..])
    ensures IsWordOf(Symbols(old(data[..]), n), old(data[..])) && IsWordOf(Symbols(data[..], n), data[..])
    ensures forall c :: Near(Symbols(old(data[..]), n), c, par) ==> ok && Symbols(data[..], n) == c
  {
    ghost var d: seq<bv8> := data[..];
    ghost var r: seq<Sym> := Symbols(d, n);
    SameOutsideSelf(d, 6 * n);
    SymbolsAreWord(d, n);
    hide *;
    var expTab := BuildExp();
    var logTab := BuildLog(expTab);
    var cw := Unpack(data, n);
    var synd, allZero := ComputeSyndromes(cw, n, par, expTab);
    if allZero {
      NearSelf(r, par);
      NearUnique(r, r, par);
      return true;
    }
    ok := CorrectWord(cw, n, par, synd, expTab, logTab, r);
    assert data[..] == d;
    if ok { Pack(cw[..n], data); }
    SymbolsAreWord(data[..], n);
  }

  lemma SameOutsideSelf(d: seq<bv8>, hi: nat)
    ensures SameOutside(d, d, 0, hi)
  {}

  /** The (36,20,17) decoder. */
  method Decode362017(data: array<bv8>) returns (ok: bool)
    requires 27 <= data.Length
    modifies data
    ensures ok ==> Near(Symbols(old(data[..]), 36), Symbols(data[..], 36), 16)
    ensures SameOutside(data[..], old(data[..]), 0, 216)
    ensures !ok || IsCodeword(Symbols(old(data[..]), 36), 16) ==> data[..] == old(data[..])
    ensures IsWordOf(Symbols(old(data[..]), 36), old(data[..])) && IsWordOf(Symbols(data[..], 36), data[..])
    ensures forall c :: Near(Symbols(old(data[..]), 36), c, 16) ==> ok && Symbols(data[..], 36) == c
  {
    hide *;
    ok := Rs6Decode(data, 36, 16);
  }

  /** The (24,16,9) decoder. */
  method Decode24169(data: array<bv8>) returns (ok: bool)
    requires 18 <= data.Length
    modifies data
    ensures ok ==> Near(Symbols(old(data[..]), 24), Symbols(data[..], 24), 8)
    ensures SameOutside(data[..], old(data[..]), 0, 144)
    ensures !ok || IsCodeword(Symbols(old(data[..]), 24), 8) ==> data[..] == old(data[..])
    ensures IsWordOf(Symbols(old(data[..]), 24), old(data[..])) && IsWordOf(Symbols(data[..], 24), data[..])
    ensures forall c :: Near(Symbols(old(data[..]), 24), c, 8) ==> ok && Symbols(data[..], 24) == c
  {
    hide *;
    ok := Rs6Decode(data, 24, 8);
  }
}
