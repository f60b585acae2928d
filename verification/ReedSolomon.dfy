/** The generic Reed-Solomon code: any primitive field, any first root, any step between the
    roots that is coprime to the number of nonzero symbols. */
module ReedSolomon {
  import opened Fields
  import opened Codes
  import opened Sets
  import opened PrimitiveField
  import opened ShiftRegister

  /** u is the inverse of p modulo n. */
  ghost predicate Bezout(p: nat, n: nat, u: nat, k: nat) { u * p == 1 + k * n }

  ghost predicate Coprime(p: nat, n: nat) { exists u: nat, k: nat :: Bezout(p, n, u, k) }

  /** Folding the high part of x onto its low part, with NN + 1 a power of two, is reduction
      modulo NN and it ends. */
  method ReduceSlow(x0: nat, NN: nat) returns (x: nat)
    requires NN > 0
    ensures x == x0 % NN
  {
    x := x0;
    while x >= NN
      invariant x % NN == x0 % NN
      decreases x
    {
      x := x - NN;
      FoldKeeps(x, NN);
      x := x / (NN + 1) + x % (NN + 1);
    }
    Small(x, NN);
  }

  lemma Small(x: nat, n: nat)
    requires x < n
    ensures x % n == x
  {}

  lemma ModUnique(x: int, q: int, r: nat, n: nat)
    requires r < n && x == q * n + r
    ensures x % n == r
  {
    var d := q - x / n;
    assert d * n == q * n - (x / n) * n;
    assert d >= 1 ==> d * n >= n;
    assert d <= -1 ==> d * n <= -1 * n;
  }

  lemma DropOnce(x: int, n: nat)
    requires n > 0
    ensures (x + n) % n == x % n
  {
    ModUnique(x + n, x / n + 1, x % n, n);
  }

  lemma {:induction false} ModDrop(x: nat, q: nat, n: nat)
    requires n > 0
    ensures (x + q * n) % n == x % n
    decreases q
  {
    if q > 0 {
      ModDrop(x, q - 1, n);
      assert q * n == (q - 1) * n + n;
      DropOnce(x + (q - 1) * n, n);
    }
  }

  lemma FoldKeeps(x: nat, NN: nat)
    requires NN > 0
    ensures (x / (NN + 1) + x % (NN + 1)) % NN == x % NN == (x + NN) % NN
    ensures x / (NN + 1) + x % (NN + 1) <= x
  {
    var q, r := x / (NN + 1), x % (NN + 1);
    assert x == q * (NN + 1) + r == (q + r) + q * NN;
    ModDrop(q + r, q, NN);
    ModDrop(x, 1, NN);
  }

  /** The same with a table for the values just above NN. */
  method Reduce(x0: nat, NN: nat, modOf: seq<nat>) returns (x: nat)
    requires NN > 0 && forall k :: 0 <= k < |modOf| ==> modOf[k] == (NN + k) % NN
    ensures x == x0 % NN
  {
    x := x0;
    while x >= NN + |modOf|
      invariant x % NN == x0 % NN
      decreases x
    {
      x := x - NN;
      FoldKeeps(x, NN);
      x := x / (NN + 1) + x % (NN + 1);
    }
    if |modOf| > 0 && x >= NN {
      x := modOf[x - NN];
    } else {
      Small(x, NN);
    }
  }

  lemma {:induction false} ExpMod<T(!new)>(G: Generator<T>, k: nat)
    requires G.Primitive()
    ensures G.Exp(k % G.N) == G.Exp(k)
    decreases k
  {
    if k >= G.N {
      ExpMod(G, k - G.N);
      G.ExpPeriod(k - G.N);
      ModDrop(k - G.N, 1, G.N);
    } else {
      Small(k, G.N);
    }
  }

  // ---- The tables ----

  datatype Tables<!T> = Tables(alphaTo: seq<T>, indexOf: seq<nat>, modOf: seq<nat>, iprim: nat)

  /** The polynomial functor: doubling, except that zero starts the walk again at one. */
  function Next<T(!new, ==)>(G: Generator<T>, sr: T): T {
    if sr == G.zero then G.one else G.double(sr)
  }

  function Walk<T(!new, ==)>(G: Generator<T>, k: nat): T {
    if k == 0 then Next(G, G.zero) else Next(G, Walk(G, k - 1))
  }

  lemma {:induction false} WalkIsExp<T(!new)>(G: Generator<T>, k: nat)
    requires G.Primitive() && k <= G.N
    ensures Walk(G, k) == G.Exp(k)
  {
    if k > 0 {
      WalkIsExp(G, k - 1);
      G.ExpNonZero(k - 1);
    }
  }

  /** Logarithms and antilogarithms, with N standing for the logarithm of zero. */
  ghost predicate LogTables<T(!new)>(G: Generator<T>, t: Tables<T>)
    requires G.Primitive()
  {
    && |t.alphaTo| == |t.indexOf| == G.N + 1
    && (forall i :: 0 <= i < G.N ==> t.alphaTo[i] == G.Exp(i))
    && t.alphaTo[G.N] == G.zero && t.indexOf[0] == G.N
    && (forall a :: a != G.zero ==> t.indexOf[G.num(a)] == G.Log(a))
    && (forall k :: 0 <= k < |t.modOf| ==> t.modOf[k] == (G.N + k) % G.N)
  }

  lemma LogExp<T(!new)>(G: Generator<T>, i: nat)
    requires G.Primitive() && i < G.N
    ensures G.Exp(i) != G.zero && G.Log(G.Exp(i)) == i
  {
    G.ExpNonZero(i);
    var k := G.Log(G.Exp(i));
    if k < i { G.ExpDistinct(k, i); }
    if i < k { G.ExpDistinct(i, k); }
  }

  /** The log table after the first i powers. */
  ghost predicate Logged<T(!new)>(G: Generator<T>, index: seq<nat>, i: nat)
    requires G.Valid() && |index| == G.N + 1
  {
    G.Primitive() ==> index[0] == G.N && forall a | a != G.zero && G.Log(a) < i :: index[G.num(a)] == G.Log(a)
  }

  lemma LoggedStep<T(!new)>(G: Generator<T>, index: seq<nat>, i: nat)
    requires G.Valid() && |index| == G.N + 1 && Logged(G, index, i) && i < G.N
    ensures Logged(G, index[G.num(Walk(G, i)) := i], i + 1)
  {
    if G.Primitive() {
      WalkIsExp(G, i);
      LogExp(G, i);
      hide Walk;
      var sr, next := Walk(G, i), index[G.num(Walk(G, i)) := i];
      forall a | a != G.zero && G.Log(a) < i + 1 ensures next[G.num(a)] == G.Log(a) {
        if a != sr { assert next[G.num(a)] == index[G.num(a)]; }
      }
    }
  }

  lemma LoggedAll<T(!new)>(G: Generator<T>, index: seq<nat>, alpha: seq<T>)
    requires G.Primitive() && |index| == |alpha| == G.N + 1 && Logged(G, index, G.N) && alpha[G.N] == G.zero
    requires forall j :: 0 <= j < G.N ==> alpha[j] == Walk(G, j)
    ensures LogTables(G, Tables(alpha, index, [], 0))
  {
    hide Walk;
    forall i | 0 <= i < G.N ensures alpha[i] == G.Exp(i) { WalkIsExp(G, i); }
  }

  /** The log and antilog tables, and the symbol the walk ends at. */
  method FillLogs<T(!new, ==)>(G: Generator<T>) returns (alphaTo: seq<T>, indexOf: seq<nat>, sr: T)
    requires G.Valid()
    ensures sr == Walk(G, G.N) && |alphaTo| == |indexOf| == G.N + 1 && alphaTo[0] == G.one
    ensures forall j :: 0 <= j < G.N ==> alphaTo[j] == Walk(G, j)
    ensures G.Primitive() ==> LogTables(G, Tables(alphaTo, indexOf, [], 0))
  {
    hide *;
    var N := G.N;
    var index, alpha := new nat[N + 1](_ => 0), new T[N + 1](_ => G.zero);
    index[0] := N;
    alpha[N] := G.zero;
    sr := Next(G, G.zero);
    FirstLogged(G, index[..]);
    FirstWalk(G);
    for i := 0 to N
      invariant sr == Walk(G, i) && alpha.Length == index.Length == N + 1
      invariant forall j :: 0 <= j < i ==> alpha[j] == Walk(G, j)
      invariant alpha[N] == G.zero && Logged(G, index[..], i)
    {
      LoggedStep(G, index[..], i);
      NumBound(G, sr);
      index[G.num(sr)] := i;
      alpha[i] := sr;
      NextWalk(G, i);
      sr := Next(G, sr);
    }
    alphaTo, indexOf := alpha[..], index[..];
    if G.Primitive() { LoggedAll(G, indexOf, alphaTo); }
    assert alphaTo[0] == G.one by { FirstWalk(G); }
  }

  lemma FirstWalk<T(!new)>(G: Generator<T>)
    requires G.Valid()
    ensures Walk(G, 0) == Next(G, G.zero) == G.one && G.N > 0
  {}

  lemma NumBound<T(!new)>(G: Generator<T>, a: T)
    requires G.Valid()
    ensures G.num(a) <= G.N
  {}

  lemma FirstLogged<T(!new)>(G: Generator<T>, index: seq<nat>)
    requires G.Valid() && |index| == G.N + 1 && index[0] == G.N
    ensures Logged(G, index, 0)
  {}

  lemma NextWalk<T(!new)>(G: Generator<T>, i: nat)
    ensures Walk(G, i + 1) == Next(G, Walk(G, i))
  {}

  lemma WithMods<T(!new)>(G: Generator<T>, alphaTo: seq<T>, indexOf: seq<nat>, modOf: seq<nat>, iprim: nat)
    requires G.Primitive() && LogTables(G, Tables(alphaTo, indexOf, [], 0)) && ModTable(G.N, modOf)
    ensures LogTables(G, Tables(alphaTo, indexOf, modOf, iprim))
  {}

  ghost predicate ModTable(N: nat, modOf: seq<nat>) {
    N > 0 && forall k :: 0 <= k < |modOf| ==> modOf[k] == (N + k) % N
  }

  /** The modulo table. */
  method FillMods(N: nat, MODS: nat) returns (modOf: seq<nat>)
    requires N > 0
    ensures |modOf| == MODS && ModTable(N, modOf)
  {
    var mods := new nat[MODS](_ => 0);
    for x := N to N + MODS
      invariant forall k :: 0 <= k < x - N ==> mods[k] == (N + k) % N
    {
      var m := ReduceSlow(x, N);
      mods[x - N] := m;
    }
    modOf := mods[..];
  }

  /** Construction of the tables.  The test for a primitive polynomial accepts exactly the
      walks that are back at one after N steps; for a primitive one the tables are right. */
  method BuildTables<T(!new, ==)>(G: Generator<T>, PRM: nat, MODS: nat) returns (ok: bool, t: Tables<T>)
    requires G.Valid() && Coprime(PRM, G.N)
    ensures ok <==> Walk(G, G.N) == G.one
    ensures ok ==> |t.alphaTo| == G.N + 1 && forall j :: 0 <= j < G.N ==> t.alphaTo[j] == Walk(G, j)
    ensures G.Primitive() ==> ok && LogTables(G, t)
    ensures ok ==> |t.modOf| == MODS && exists k: nat :: Bezout(PRM, G.N, t.iprim, k)
  {
    hide *;
    FirstWalk(G);
    var N := G.N;
    var alphaTo, indexOf, sr := FillLogs(G);
    if G.Primitive() { AfterAll(G); }
    if sr != alphaTo[0] {
      return false, Tables([], [], [], 0);
    }
    var modOf := FillMods(N, MODS);
    var iprim := FindPrim(PRM, N);
    if G.Primitive() { WithMods(G, alphaTo, indexOf, modOf, iprim); }
    return true, Tables(alphaTo, indexOf, modOf, iprim);
  }

  lemma AfterAll<T(!new)>(G: Generator<T>)
    requires G.Primitive()
    ensures Walk(G, G.N) == G.one
  {
    WalkIsExp(G, G.N);
  }

  /** The prim-th root of one in index form: the search ends because the step is coprime. */
  method FindPrim(PRM: nat, NN: nat) returns (iprim: nat)
    requires Coprime(PRM, NN)
    ensures exists k: nat :: Bezout(PRM, NN, iprim, k)
  {
    ghost var u: nat, k: nat :| Bezout(PRM, NN, u, k);
    assert PRM > 0;
    var iptmp := 1;
    ghost var i: nat := 0;
    while iptmp % PRM != 0
      invariant iptmp == 1 + i * NN && i <= k
      decreases k - i
    {
      if i == k { ModDrop(0, u, PRM); }
      iptmp := iptmp + NN;
      i := i + 1;
    }
    iprim := iptmp / PRM;
    assert Bezout(PRM, NN, iprim, i);
  }

  // ---- The code ----

  /** The template parameters and the shared tables. */
  datatype Code<!T(!new)> = Code(G: Generator<T>, NROOTS: nat, FCR: nat, PRM: nat, t: Tables<T>)

  ghost predicate ValidCode<T(!new)>(c: Code<T>) {
    c.G.Primitive() && 0 < c.NROOTS < c.G.N && Coprime(c.PRM, c.G.N) && LogTables(c.G, c.t)
  }

  lemma FieldFacts<T(!new)>(G: Generator<T>)
    requires G.Primitive()
    ensures var F := FieldOf(G); F.Valid() && F.zero == G.zero && F.one == G.one && F.add == G.add
  {
    FieldLaws(G);
  }

  /** The prime root: the roots are its powers from FCR on. */
  ghost function Base<T(!new)>(c: Code<T>): T { c.G.Exp(c.PRM) }

  ghost function RootAt<T(!new)>(c: Code<T>, i: nat): T { c.G.Exp((c.FCR + i) * c.PRM) }

  /** The word vanishes at every root. */
  ghost predicate IsCodeword<T(!new)>(c: Code<T>, w: seq<T>)
    requires c.G.Primitive()
  {
    forall i :: 0 <= i < c.NROOTS ==> FieldOf(c.G).Horner(w, RootAt(c, i)) == c.G.zero
  }

  lemma BasePower<T(!new)>(c: Code<T>, k: nat)
    requires c.G.Primitive()
    ensures FieldOf(c.G).Pow(Base(c), k) == c.G.Exp(k * c.PRM)
  {
    var F := FieldOf(c.G);
    FieldFacts(c.G);
    hide FieldOf, Field.Valid;
    PowIsExp(c.G, c.PRM);
    PowIsExp(c.G, k * c.PRM);
    PowMul(F, c.G.Exp(1), c.PRM, k);
    assert c.PRM * k == k * c.PRM;
  }

  lemma RootIsPower<T(!new)>(c: Code<T>, i: nat)
    requires c.G.Primitive()
    ensures RootAt(c, i) == FieldOf(c.G).Pow(Base(c), c.FCR + i)
  {
    BasePower(c, c.FCR + i);
    hide FieldOf, Base, Generator.Primitive;
  }

  /** A step coprime to N gives N different locators. */
  lemma BasePowers<T(!new)>(c: Code<T>, i: nat, j: nat)
    requires c.G.Primitive() && Coprime(c.PRM, c.G.N) && i < j < c.G.N
    ensures c.G.Exp(i * c.PRM) != c.G.Exp(j * c.PRM)
  {
    SameMultiple(i, j, c.PRM, c.G.N);
    ExpApart(c.G, i * c.PRM, j * c.PRM);
  }

  lemma ExpApart<T(!new)>(G: Generator<T>, x: nat, y: nat)
    requires G.Primitive() && x % G.N != y % G.N
    ensures G.Exp(x) != G.Exp(y)
  {
    ExpMod(G, x);
    ExpMod(G, y);
    var a, b := x % G.N, y % G.N;
    if a < b { G.ExpDistinct(a, b); } else { G.ExpDistinct(b, a); }
  }

  /** Multiplying by a step coprime to n keeps remainders apart. */
  lemma SameMultiple(i: nat, j: nat, p: nat, n: nat)
    requires Coprime(p, n) && i < j < n
    ensures (i * p) % n != (j * p) % n
  {
    if (i * p) % n == (j * p) % n {
      var u: nat, k: nat :| Bezout(p, n, u, k);
      var m := (j * p) / n - (i * p) / n;
      MultipleOf(j - i, p, n, u, k, m);
      ModUnique(j - i, u * m - (j - i) * k, 0, n);
      Small(j - i, n);
      assert false;
    }
  }

  lemma MultipleOf(d: nat, p: nat, n: nat, u: nat, k: nat, m: int)
    requires Bezout(p, n, u, k) && d * p == m * n
    ensures d == (u * m - d * k) * n
  {
    assert d * (u * p) == d * (1 + k * n) == d + d * (k * n);
    assert d * (u * p) == u * (d * p) == u * (m * n);
    assert d * (k * n) == d * k * n && u * (m * n) == u * m * n;
    assert (u * m - d * k) * n == u * m * n - d * k * n;
  }

  /** p times x plus r, highest coefficient first. */
  ghost function TimesRoot<T(!new)>(F: Field<T>, p: seq<T>, r: T): (q: seq<T>)
    ensures |q| == |p| + 1
  {
    seq(|p| + 1, k requires 0 <= k < |p| + 1 =>
      F.add(if k < |p| then p[k] else F.zero, if k > 0 then F.mul(r, p[k - 1]) else F.zero))
  }

  lemma TimesRootValue<T(!new)>(F: Field<T>, p: seq<T>, r: T, x: T)
    requires F.Valid()
    ensures F.Horner(TimesRoot(F, p, r), x) == F.mul(F.Horner(p, x), F.add(x, r))
  {
    var a, rp := p + [F.zero], seq(|p|, i requires 0 <= i < |p| => F.mul(r, p[i]));
    var b := [F.zero] + rp;
    HornerAdd(F, a, b, TimesRoot(F, p, r), x);
    HornerScale(F, r, p, rp, x);
    HornerConcat(F, [F.zero], rp, x);
    HornerSingle(F, F.zero, x);
    NoZeroDivisors(F, F.zero, F.Pow(x, |p|));
    assert a[..|p|] == p;
    Distribute(F, F.Horner(p, x), x, r);
  }

  /** The product of the first i factors. */
  ghost function GenPoly<T(!new)>(c: Code<T>, i: nat): (p: seq<T>)
    requires c.G.Primitive()
    ensures |p| == i + 1
  {
    if i == 0 then [c.G.one] else TimesRoot(FieldOf(c.G), GenPoly(c, i - 1), RootAt(c, i - 1))
  }

  lemma {:induction false} GenPolyRoots<T(!new)>(c: Code<T>, m: nat, i: nat)
    requires c.G.Primitive() && i < m
    ensures FieldOf(c.G).Horner(GenPoly(c, m), RootAt(c, i)) == c.G.zero
  {
    hide FieldOf, RootAt, TimesRoot, Generator.Valid, Generator.Primitive;
    FieldFacts(c.G);
    var r, x := RootAt(c, m - 1), RootAt(c, i);
    if i < m - 1 { GenPolyRoots(c, m - 1, i); }
    TimesRootVanishes(FieldOf(c.G), GenPoly(c, m - 1), r, x);
  }

  lemma TimesRootVanishes<T(!new)>(F: Field<T>, p: seq<T>, r: T, x: T)
    requires F.Valid() && (F.Horner(p, x) == F.zero || x == r)
    ensures F.Horner(TimesRoot(F, p, r), x) == F.zero
  {
    TimesRootValue(F, p, r, x);
    AddCancel(F, x, r);
    NoZeroDivisors(F, F.Horner(p, x), F.add(x, r));
  }

  lemma {:induction false} GenPolyMonic<T(!new)>(c: Code<T>, m: nat)
    requires c.G.Primitive()
    ensures GenPoly(c, m)[0] == c.G.one
  {
    FieldFacts(c.G);
    hide FieldOf;
    if m > 0 { GenPolyMonic(c, m - 1); }
  }

  lemma ExpNotZero<T(!new)>(G: Generator<T>, x: nat)
    requires G.Primitive()
    ensures G.Exp(x) != G.zero
  {
    ExpMod(G, x);
    G.ExpNonZero(x % G.N);
  }

  lemma LocatorIs<T(!new)>(c: Code<T>, n: nat, i: nat, k: nat)
    requires c.G.Primitive() && i < n && k == n - 1 - i
    ensures var X := Locators(FieldOf(c.G), Base(c), n);
      |X| == n && X[i] == c.G.Exp(k * c.PRM) && X[i] != c.G.zero
  {
    BasePower(c, k);
    ExpNotZero(c.G, k * c.PRM);
    hide FieldOf, Base, Generator.Primitive;
  }

  lemma LocatorsDistinct<T(!new)>(c: Code<T>, n: nat)
    requires c.G.Primitive() && Coprime(c.PRM, c.G.N) && n <= c.G.N
    ensures Distinct(Locators(FieldOf(c.G), Base(c), n)) && c.G.zero !in Locators(FieldOf(c.G), Base(c), n)
  {
    hide FieldOf, Base, Generator.Primitive, Coprime;
    var X := Locators(FieldOf(c.G), Base(c), n);
    forall i | 0 <= i < n ensures X[i] != c.G.zero { LocatorIs(c, n, i, n - 1 - i); }
    forall i, j | 0 <= i < j < n ensures X[i] != X[j] {
      LocatorIs(c, n, i, n - 1 - i);
      LocatorIs(c, n, j, n - 1 - j);
      BasePowers(c, n - 1 - j, n - 1 - i);
    }
  }

  lemma CodewordRoot<T(!new)>(c: Code<T>, w: seq<T>, i: nat)
    requires c.G.Primitive() && IsCodeword(c, w) && i < c.NROOTS
    ensures FieldOf(c.G).Horner(w, RootAt(c, i)) == c.G.zero
  {
    hide FieldOf, RootAt, Generator.Primitive;
  }

  lemma CodewordMoments<T(!new)>(c: Code<T>, w: seq<T>, j: nat)
    requires c.G.Primitive() && IsCodeword(c, w) && c.FCR <= j < c.FCR + c.NROOTS
    ensures Moment(FieldOf(c.G), w, Locators(FieldOf(c.G), Base(c), |w|), j) == c.G.zero
  {
    hide *;
    FieldFacts(c.G);
    CodewordRoot(c, w, j - c.FCR);
    RootIsPower(c, j - c.FCR);
    HornerIsMoment(FieldOf(c.G), w, Base(c), j);
  }

  lemma GenPolyInCode<T(!new)>(c: Code<T>)
    requires c.G.Primitive()
    ensures IsCodeword(c, GenPoly(c, c.NROOTS))
  {
    forall i | 0 <= i < c.NROOTS
      ensures FieldOf(c.G).Horner(GenPoly(c, c.NROOTS), RootAt(c, i)) == c.G.zero
    {
      GenPolyRoots(c, c.NROOTS, i);
    }
  }

  /** A word of d + 1 symbols with d vanishing moments and one zero symbol is zero. */
  lemma ShortWordVanishes<T(!new)>(F: Field<T>, w: seq<T>, X: seq<T>, d: nat, j0: nat, k: nat)
    requires F.Valid() && |w| == |X| == d + 1 && Distinct(X) && F.zero !in X
    requires k <= d && w[k] == F.zero
    requires forall j :: j0 <= j < j0 + d ==> Moment(F, w, X, j) == F.zero
    ensures w[0] == F.zero
  {
    var S := Support(F, w);
    assert S + {k as int} <= Range(0, |w|);
    SubsetSize(S + {k as int}, Range(0, |w|));
    FewSymbolsVanish(F, w, X, d, j0);
  }

  /** No coefficient of the generator vanishes: it is a word of the code with only NROOTS + 1
      symbols, and its first one is one. */
  lemma GenPolyNonZero<T(!new)>(c: Code<T>, k: nat)
    requires ValidCode(c) && k <= c.NROOTS
    ensures GenPoly(c, c.NROOTS)[k] != c.G.zero
  {
    var F, w := FieldOf(c.G), GenPoly(c, c.NROOTS);
    FieldFacts(c.G);
    hide FieldOf, GenPoly, IsCodeword, Locators, Moment, Coprime, LogTables;
    if w[k] == c.G.zero {
      GenPolyInCode(c);
      var X := Locators(F, Base(c), |w|);
      forall j | c.FCR <= j < c.FCR + c.NROOTS ensures Moment(F, w, X, j) == F.zero { CodewordMoments(c, w, j); }
      LocatorsDistinct(c, |w|);
      ShortWordVanishes(F, w, X, c.NROOTS, c.FCR, k);
      GenPolyMonic(c, c.NROOTS);
      assert false;
    }
  }

  // ---- The loops ----

  /** Adding logarithms multiplies; a zero factor adds nothing. */
  lemma AntilogTimes<T(!new)>(G: Generator<T>, t: Tables<T>, a: T, root: nat)
    requires G.Primitive() && LogTables(G, t)
    ensures forall b :: G.add(b, FieldOf(G).mul(G.Exp(root), G.zero)) == b
    ensures a != G.zero ==> t.alphaTo[(t.indexOf[G.num(a)] + root) % G.N] == FieldOf(G).mul(G.Exp(root), a)
  {
    if a != G.zero {
      var i := G.Log(a);
      LogExp(G, i);
      ExpMod(G, i + root);
      G.TimesExp(i, root);
      G.TimesCommutes(a, G.Exp(root));
    }
  }

  ghost function Backwards<T>(s: seq<T>): (r: seq<T>)
    ensures |r| == |s|
    ensures forall k :: 0 <= k < |s| ==> r[k] == s[|s| - 1 - k]
  {
    seq(|s|, k requires 0 <= k < |s| => s[|s| - 1 - k])
  }

  /** The places above j hold the product with x plus the root, the others the old factor. */
  ghost predicate Multiplying<T(!new)>(c: Code<T>, now: seq<T>, was: seq<T>, i: nat, j: nat)
    requires c.G.Primitive()
  {
    var F, r := FieldOf(c.G), RootAt(c, i);
    && |now| == |was| == i + 2 && j <= i
    && (forall l :: 0 <= l <= j ==> now[l] == was[l])
    && (forall l :: j < l <= i ==> now[l] == F.add(was[l - 1], F.mul(r, was[l])))
    && now[i + 1] == was[i]
  }

  lemma MultipliedIs<T(!new)>(c: Code<T>, now: seq<T>, was: seq<T>, i: nat, low: T)
    requires c.G.Primitive() && Multiplying(c, now, was, i, 0)
    requires Backwards(was[..i + 1]) == GenPoly(c, i)
    requires low == FieldOf(c.G).mul(RootAt(c, i), was[0])
    ensures Backwards(now[0 := low]) == GenPoly(c, i + 1)
  {
    hide FieldOf, RootAt, Field.Valid, Generator.Valid, Generator.Primitive, TimesRoot;
    FieldFacts(c.G);
    var p, q, b := GenPoly(c, i), GenPoly(c, i + 1), Backwards(now[0 := low]);
    forall k | 0 <= k < i + 2 ensures b[k] == q[k] {
      TimesRootAt(FieldOf(c.G), p, RootAt(c, i), k);
      if k <= i { assert p[k] == was[i - k]; }
      if k > 0 { assert p[k - 1] == was[i + 1 - k]; }
    }
  }

  lemma TimesRootAt<T(!new)>(F: Field<T>, p: seq<T>, r: T, k: nat)
    requires F.Valid() && p != [] && k <= |p|
    ensures TimesRoot(F, p, r)[k] ==
      if k == 0 then p[0] else if k == |p| then F.mul(r, p[k - 1]) else F.add(p[k], F.mul(r, p[k - 1]))
  {}

  lemma MultiplyStep<T(!new)>(c: Code<T>, now: seq<T>, next: seq<T>, was: seq<T>, i: nat, j: nat)
    requires c.G.Primitive() && Multiplying(c, now, was, i, j) && 0 < j
    requires next == now[j := c.G.add(now[j - 1], FieldOf(c.G).mul(RootAt(c, i), now[j]))]
    ensures Multiplying(c, next, was, i, j - 1)
  {
    FieldFacts(c.G);
    hide FieldOf, RootAt;
  }

  lemma GenStart<T(!new)>(c: Code<T>)
    requires c.G.Primitive()
    ensures Backwards([c.G.one]) == GenPoly(c, 0)
  {}

  lemma ExpNonZeroAny<T(!new)>(G: Generator<T>, k: nat)
    requires G.Primitive()
    ensures G.Exp(k) != G.zero
  {
    ExpMod(G, k);
    G.ExpNonZero(k % G.N);
  }

  lemma LowTerm<T(!new)>(F: Field<T>, p: seq<T>, r: T)
    requires F.Valid() && p != [] && r != F.zero && p[|p| - 1] != F.zero
    ensures TimesRoot(F, p, r)[|p|] != F.zero
  {
    NoZeroDivisors(F, r, p[|p| - 1]);
  }

  lemma {:induction false} LowNonZero<T(!new)>(c: Code<T>, i: nat)
    requires c.G.Primitive()
    ensures GenPoly(c, i)[i] != c.G.zero
  {
    FieldFacts(c.G);
    hide FieldOf, RootAt, TimesRoot, Generator.Valid, Generator.Primitive, Field.Valid;
    if i > 0 {
      LowNonZero(c, i - 1);
      RootNonZero(c, i - 1);
      LowTerm(FieldOf(c.G), GenPoly(c, i - 1), RootAt(c, i - 1));
    }
  }

  lemma RootNonZero<T(!new)>(c: Code<T>, i: nat)
    requires c.G.Primitive()
    ensures RootAt(c, i) != c.G.zero
  {
    ExpNonZeroAny(c.G, (c.FCR + i) * c.PRM);
  }

  lemma CodeFacts<T(!new)>(c: Code<T>)
    requires ValidCode(c)
    ensures c.G.Primitive() && LogTables(c.G, c.t) && |c.t.alphaTo| == c.G.N + 1
    ensures forall m: nat :: |GenPoly(c, m)| == m + 1
  {}

  lemma MultiplyStart<T(!new)>(c: Code<T>, was: seq<T>, i: nat)
    requires c.G.Primitive() && |was| == i + 2 && Backwards(was[..i + 1]) == GenPoly(c, i) && was[i + 1] == c.G.one
    ensures Multiplying(c, was, was, i, i) && was[0] != c.G.zero
  {
    GenPolyMonic(c, i);
    LowNonZero(c, i);
    assert GenPoly(c, i)[0] == was[i] && GenPoly(c, i)[i] == was[0];
  }

  /** The place in the antilog table of a times a power: the sum of the logarithms. */
  method Antilog<T(!new, ==)>(c: Code<T>, a: T, root: nat) returns (k: nat)
    requires ValidCode(c)
    ensures k < |c.t.alphaTo|
    ensures a != c.G.zero ==> c.t.alphaTo[k] == FieldOf(c.G).mul(c.G.Exp(root), a)
  {
    AntilogTimes(c.G, c.t, a, root);
    k := Reduce(c.t.indexOf[c.G.num(a)] + root, c.G.N, c.t.modOf);
  }

  /** b plus a times a power: the step of the generator's product and of the syndromes. */
  method AddScaled<T(!new, ==)>(c: Code<T>, b: T, a: T, root: nat) returns (r: T)
    requires ValidCode(c)
    ensures r == c.G.add(b, FieldOf(c.G).mul(c.G.Exp(root), a))
  {
    AntilogTimes(c.G, c.t, a, root);
    if a == c.G.zero {
      return b;
    }
    var k := Antilog(c, a, root);
    r := c.G.add(b, c.t.alphaTo[k]);
  }

  /** One more factor, in place. */
  method MultiplyIn<T(!new, ==)>(c: Code<T>, tmppoly: array<T>, i: nat, root: nat)
    requires ValidCode(c) && i + 2 <= tmppoly.Length && root == (c.FCR + i) * c.PRM
    requires Backwards(tmppoly[..i + 1]) == GenPoly(c, i)
    modifies tmppoly
    ensures Backwards(tmppoly[..i + 2]) == GenPoly(c, i + 1)
  {
    hide *;
    CodeFacts(c);
    assert root >= 0 && c.G.Exp(root) == RootAt(c, i) by { RootIs(c, i, root); }
    tmppoly[i + 1] := c.G.one;
    ghost var was := tmppoly[..i + 2];
    assert was[..i + 1] == old(tmppoly[..i + 1]);
    MultiplyStart(c, was, i);
    var j := i;
    while j > 0
      invariant 0 <= j <= i && tmppoly[0] == was[0] && Multiplying(c, tmppoly[..i + 2], was, i, j)
    {
      ghost var now := tmppoly[..i + 2];
      var v := AddScaled(c, tmppoly[j - 1], tmppoly[j], root);
      tmppoly[j] := v;
      MultiplyStep(c, now, tmppoly[..i + 2], was, i, j);
      j := j - 1;
    }
    var k := Antilog(c, tmppoly[0], root);
    ghost var now := tmppoly[..i + 2];
    tmppoly[0] := c.t.alphaTo[k];
    assert tmppoly[..i + 2] == now[0 := c.t.alphaTo[k]];
    MultipliedIs(c, now, was, i, c.t.alphaTo[k]);
  }

  /** The generator polynomial in index form, lowest power first. */
  ghost predicate IndexForm<T(!new)>(c: Code<T>, genpoly: seq<nat>)
    requires ValidCode(c)
  {
    |genpoly| == c.NROOTS + 1 && forall k :: 0 <= k <= c.NROOTS ==> IndexedAt(c, genpoly, k)
  }

  ghost predicate IndexedAt<T(!new)>(c: Code<T>, genpoly: seq<nat>, k: nat)
    requires ValidCode(c) && k <= c.NROOTS && k < |genpoly|
  {
    genpoly[k] < c.G.N && c.G.Exp(genpoly[k]) == GenPoly(c, c.NROOTS)[c.NROOTS - k]
  }

  lemma RootIs<T(!new)>(c: Code<T>, i: nat, root: int)
    requires root == (c.FCR + i) * c.PRM
    ensures root >= 0 && c.G.Exp(root) == RootAt(c, i)
  {}

  method BuildGenerator<T(!new, ==)>(c: Code<T>) returns (genpoly: seq<nat>)
    requires ValidCode(c)
    ensures IndexForm(c, genpoly)
  {
    hide *;
    CodeFacts(c);
    var tmppoly := new T[c.NROOTS + 1](_ => c.G.zero);
    tmppoly[0] := c.G.one;
    var root: int := c.FCR * c.PRM;
    assert tmppoly[..1] == [c.G.one];
    GenStart(c);
    for i := 0 to c.NROOTS
      invariant root == (c.FCR + i) * c.PRM
      invariant Backwards(tmppoly[..i + 1]) == GenPoly(c, i)
    {
      MultiplyIn(c, tmppoly, i, root);
      root := root + c.PRM;
    }
    assert tmppoly[..c.NROOTS + 1] == tmppoly[..];
    genpoly := ToIndex(c, tmppoly);
  }

  method ToIndex<T(!new, ==)>(c: Code<T>, tmppoly: array<T>) returns (genpoly: seq<nat>)
    requires ValidCode(c) && tmppoly.Length == c.NROOTS + 1
    requires Backwards(tmppoly[..]) == GenPoly(c, c.NROOTS)
    ensures IndexForm(c, genpoly)
  {
    var index := new nat[c.NROOTS + 1](_ => 0);
    hide GenPoly, LogTables, Coprime, Generator.Primitive;
    var i := c.NROOTS;
    while i >= 0
      invariant -1 <= i <= c.NROOTS
      invariant forall k :: i < k <= c.NROOTS ==> IndexedAt(c, index[..], k)
    {
      GenPolyNonZero(c, c.NROOTS - i);
      assert tmppoly[i] == Backwards(tmppoly[..])[c.NROOTS - i];
      ghost var was := index[..];
      IndexFacts(c, tmppoly[i]);
      index[i] := c.t.indexOf[c.G.num(tmppoly[i])];
      forall k | i - 1 < k <= c.NROOTS ensures IndexedAt(c, index[..], k) {
        if k > i { assert IndexedAt(c, was, k); }
      }
      i := i - 1;
    }
    genpoly := index[..];
  }

  lemma IndexFacts<T(!new)>(c: Code<T>, a: T)
    requires ValidCode(c)
    ensures c.G.num(a) < |c.t.indexOf|
    ensures var k := c.t.indexOf[c.G.num(a)]; if a == c.G.zero then k == c.G.N else k < c.G.N && c.G.Exp(k) == a
  {}

  // ---- Encoding and the syndromes ----

  /** The remainder of the data, highest power first. */
  ghost function ParityOf<T(!new)>(c: Code<T>, msg: seq<T>): (p: seq<T>)
    requires ValidCode(c)
    ensures |p| == c.NROOTS
  {
    Register(FieldOf(c.G), GenPoly(c, c.NROOTS)[1..], msg)
  }

  lemma ParityInCode<T(!new)>(c: Code<T>, msg: seq<T>)
    requires ValidCode(c)
    ensures IsCodeword(c, msg + ParityOf(c, msg))
  {
    var F, g := FieldOf(c.G), GenPoly(c, c.NROOTS)[1..];
    FieldFacts(c.G);
    GenPolyMonic(c, c.NROOTS);
    GenPolyInCode(c);
    hide FieldOf, GenPoly, Register, LogTables, Generator.Primitive, Coprime, Field.Valid, RootAt;
    assert [F.one] + g == GenPoly(c, c.NROOTS);
    forall i | 0 <= i < c.NROOTS ensures F.Horner(msg + ParityOf(c, msg), RootAt(c, i)) == F.zero {
      RegisterCompletes(F, g, msg, RootAt(c, i));
    }
  }

  /** Code words with the same length have the same moments. */
  lemma CodewordsAgree<T(!new)>(c: Code<T>, w: seq<T>, v: seq<T>)
    requires c.G.Primitive() && IsCodeword(c, w) && IsCodeword(c, v) && |w| == |v|
    ensures var F, X := FieldOf(c.G), Locators(FieldOf(c.G), Base(c), |w|);
      forall j :: c.FCR <= j < c.FCR + c.NROOTS ==> Moment(F, w, X, j) == Moment(F, v, X, j)
  {
    var F, X := FieldOf(c.G), Locators(FieldOf(c.G), Base(c), |w|);
    hide FieldOf, IsCodeword, Locators, Moment, Generator.Primitive;
    forall j | c.FCR <= j < c.FCR + c.NROOTS ensures Moment(F, w, X, j) == Moment(F, v, X, j) {
      CodewordMoments(c, w, j);
      CodewordMoments(c, v, j);
    }
  }

  lemma ParityShape<T(!new)>(c: Code<T>, msg: seq<T>)
    requires ValidCode(c)
    ensures c.G.Primitive() && Coprime(c.PRM, c.G.N) && |GenPoly(c, c.NROOTS)| == c.NROOTS + 1
    ensures FieldOf(c.G).Valid() && FieldOf(c.G).zero == c.G.zero
    ensures 0 < |ParityOf(c, msg)| == c.NROOTS
    ensures ParityOf(c, msg) == Register(FieldOf(c.G), GenPoly(c, c.NROOTS)[1..], msg)
    ensures forall n: nat :: |Locators(FieldOf(c.G), Base(c), n)| == n
  {
    FieldFacts(c.G);
  }

  /** Data and parity vanish at every root, and no other parity does that. */
  lemma ParityCompletes<T(!new)>(c: Code<T>, msg: seq<T>, q: seq<T>)
    requires ValidCode(c) && |q| == c.NROOTS && |msg| + c.NROOTS <= c.G.N
    ensures q == ParityOf(c, msg) <==> IsCodeword(c, msg + q)
  {
    hide *;
    ParityInCode(c, msg);
    ParityShape(c, msg);
    if IsCodeword(c, msg + q) {
      var F, g, p, n := FieldOf(c.G), GenPoly(c, c.NROOTS)[1..], ParityOf(c, msg), |msg| + c.NROOTS;
      LocatorsDistinct(c, n);
      CodewordsAgree(c, msg + q, msg + p);
      RegisterUnique(F, g, msg, q, Locators(F, Base(c), n), c.FCR);
    }
  }

  /** The register with the feedback added, before it is rotated. */
  ghost predicate Adding<T(!new)>(c: Code<T>, now: seq<T>, was: seq<T>, fb: T, j: nat)
    requires ValidCode(c)
  {
    var F, g := FieldOf(c.G), GenPoly(c, c.NROOTS);
    && |now| == |was| == c.NROOTS
    && (forall l :: 1 <= l < j && l < c.NROOTS ==> now[l] == F.add(was[l], F.mul(fb, g[l])))
    && (forall l :: j <= l < c.NROOTS || l == 0 ==> now[l] == was[l])
  }

  lemma AddingStep<T(!new)>(c: Code<T>, now: seq<T>, next: seq<T>, was: seq<T>, fb: T, j: nat)
    requires ValidCode(c) && Adding(c, now, was, fb, j) && 1 <= j < c.NROOTS
    requires next == now[j := FieldOf(c.G).add(now[j], FieldOf(c.G).mul(fb, GenPoly(c, c.NROOTS)[j]))]
    ensures Adding(c, next, was, fb, j + 1)
  {
    hide FieldOf, GenPoly;
  }

  lemma AddingNothing<T(!new)>(c: Code<T>, was: seq<T>, fb: T, j: nat)
    requires ValidCode(c) && |was| == c.NROOTS && (fb == c.G.zero || j == 1)
    ensures Adding(c, was, was, fb, j)
  {
    var F := FieldOf(c.G);
    FieldFacts(c.G);
    hide FieldOf, GenPoly, LogTables;
    if fb == c.G.zero {
      forall l | 1 <= l < c.NROOTS ensures F.mul(fb, GenPoly(c, c.NROOTS)[l]) == F.zero {
        NoZeroDivisors(F, fb, GenPoly(c, c.NROOTS)[l]);
      }
    }
  }

  lemma RotateIsClock<T(!new)>(c: Code<T>, msg: seq<T>, now: seq<T>, was: seq<T>, d: T, last: T)
    requires ValidCode(c) && was == ParityOf(c, msg) && Adding(c, now, was, c.G.add(d, was[0]), c.NROOTS)
    requires last == FieldOf(c.G).mul(c.G.add(d, was[0]), GenPoly(c, c.NROOTS)[c.NROOTS])
    ensures now[1..] + [last] == ParityOf(c, msg + [d])
  {
    hide *;
    CodeSize(c);
    ParityShape(c, msg);
    ParityShape(c, msg + [d]);
    FieldFacts(c.G);
    var F, g, fb := FieldOf(c.G), GenPoly(c, c.NROOTS), c.G.add(d, was[0]);
    RegisterSnoc(F, g[1..], msg, d);
    AddingFacts(c, now, was, fb);
    ClockIs(F, g, was, now, d, last);
  }

  lemma RegisterSnoc<T(!new)>(F: Field<T>, g: seq<T>, msg: seq<T>, d: T)
    requires g != []
    ensures Register(F, g, msg + [d]) == Clock(F, g, Register(F, g, msg), d)
  {
    hide Clock;
    var m := msg + [d];
    assert m[..|m| - 1] == msg && m[|m| - 1] == d;
  }

  lemma AddingFacts<T(!new)>(c: Code<T>, now: seq<T>, was: seq<T>, fb: T)
    requires ValidCode(c) && Adding(c, now, was, fb, c.NROOTS)
    ensures |now| == |was| == c.NROOTS && |GenPoly(c, c.NROOTS)| == c.NROOTS + 1
    ensures forall l :: 1 <= l < c.NROOTS ==>
      now[l] == FieldOf(c.G).add(was[l], FieldOf(c.G).mul(fb, GenPoly(c, c.NROOTS)[l]))
  {
    hide FieldOf, GenPoly;
  }

  /** Rotating the register with the feedback added is one step of the division. */
  lemma ClockIs<T(!new)>(F: Field<T>, g: seq<T>, was: seq<T>, now: seq<T>, d: T, last: T)
    requires F.Valid() && |g| == |was| + 1 == |now| + 1 > 1
    requires forall l :: 1 <= l < |was| ==> now[l] == F.add(was[l], F.mul(F.add(d, was[0]), g[l]))
    requires last == F.mul(F.add(d, was[0]), g[|was|])
    ensures now[1..] + [last] == Clock(F, g[1..], was, d)
  {
    AddZero(F, last);
    hide Field.Valid;
  }

  lemma AddZero<T(!new)>(F: Field<T>, a: T)
    requires F.Valid()
    ensures F.add(F.zero, a) == a && F.add(a, F.zero) == a
  {}

  lemma ParityStart<T(!new)>(c: Code<T>, p: seq<T>)
    requires ValidCode(c) && |p| == c.NROOTS && forall i :: 0 <= i < |p| ==> p[i] == c.G.zero
    ensures p == ParityOf(c, [])
  {}

  /** The place in the antilog table of the feedback times a coefficient of the generator. */
  method FeedbackTimes<T(!new, ==)>(c: Code<T>, genpoly: seq<nat>, fb: T, j: nat) returns (r: T)
    requires ValidCode(c) && IndexForm(c, genpoly) && fb != c.G.zero && j <= c.NROOTS
    ensures r == FieldOf(c.G).mul(fb, GenPoly(c, c.NROOTS)[c.NROOTS - j])
  {
    assert IndexedAt(c, genpoly, j);
    FieldFacts(c.G);
    IndexFacts(c, fb);
    var k := Antilog(c, fb, genpoly[j]);
    MulCommutes(FieldOf(c.G), fb, c.G.Exp(genpoly[j]));
    r := c.t.alphaTo[k];
  }

  lemma MulCommutes<T(!new)>(F: Field<T>, a: T, b: T)
    requires F.Valid()
    ensures F.mul(a, b) == F.mul(b, a)
  {}

  /** One symbol into the register. */
  method EncodeSymbol<T(!new, ==)>(c: Code<T>, genpoly: seq<nat>, d: T, parity: array<T>, ghost msg: seq<T>)
    requires ValidCode(c) && IndexForm(c, genpoly) && parity.Length >= c.NROOTS
    requires parity[..c.NROOTS] == ParityOf(c, msg)
    modifies parity
    ensures parity[..c.NROOTS] == ParityOf(c, msg + [d])
    ensures parity[c.NROOTS..] == old(parity[c.NROOTS..])
  {
    hide *;
    CodeSize(c);
    var n := c.NROOTS;
    ghost var was := parity[..n];
    var feedback := c.G.add(d, parity[0]);
    if feedback != c.G.zero {
      AddingNothing(c, was, feedback, 1);
      for j := 1 to n
        invariant Adding(c, parity[..n], was, feedback, j)
        invariant parity[n..] == old(parity[n..])
      {
        ghost var now := parity[..n];
        var r := FeedbackTimes(c, genpoly, feedback, n - j);
        AddIs(c, parity[j], r);
        parity[j] := c.G.add(parity[j], r);
        AddingStep(c, now, parity[..n], was, feedback, j);
      }
    } else {
      AddingNothing(c, was, feedback, n);
    }
    ghost var now := parity[..n];
    var first := parity[0];
    forall l | 0 <= l < n - 1 { parity[l] := parity[l + 1]; }
    parity[n - 1] := first;
    if feedback != c.G.zero {
      var r := FeedbackTimes(c, genpoly, feedback, 0);
      parity[n - 1] := r;
    } else {
      parity[n - 1] := c.G.zero;
      TimesZero(c, feedback);
    }
    assert parity[..n] == now[1..] + [parity[n - 1]];
    RotateIsClock(c, msg, now, was, d, parity[n - 1]);
  }

  lemma CodeSize<T(!new)>(c: Code<T>)
    requires ValidCode(c)
    ensures c.G.Primitive() && 0 < c.NROOTS && |GenPoly(c, c.NROOTS)| == c.NROOTS + 1
  {}

  lemma AddIs<T(!new)>(c: Code<T>, a: T, b: T)
    requires ValidCode(c)
    ensures c.G.add(a, b) == FieldOf(c.G).add(a, b)
  {}

  lemma TimesZero<T(!new)>(c: Code<T>, fb: T)
    requires ValidCode(c) && fb == c.G.zero
    ensures c.G.zero == FieldOf(c.G).mul(fb, GenPoly(c, c.NROOTS)[c.NROOTS])
  {
    FieldFacts(c.G);
    NoZeroDivisors(FieldOf(c.G), fb, GenPoly(c, c.NROOTS)[c.NROOTS]);
  }

  /** Encoding: -1 and nothing written when the block would be too long, otherwise the parity. */
  method Encode<T(!new, ==)>(c: Code<T>, genpoly: seq<nat>, data: array<T>, len: nat, parity: array<T>) returns (n: int)
    requires ValidCode(c) && IndexForm(c, genpoly) && len <= data.Length && c.NROOTS <= parity.Length && data != parity
    modifies parity
    ensures n == if len + c.NROOTS <= c.G.N then c.NROOTS else -1
    ensures n == -1 ==> parity[..] == old(parity[..])
    ensures n != -1 ==> parity[..c.NROOTS] == ParityOf(c, data[..len]) && parity[c.NROOTS..] == old(parity[c.NROOTS..])
  {
    hide *;
    CodeSize(c);
    var pad := c.G.N - c.NROOTS - len;
    if pad < 0 || pad >= c.G.N {
      return -1;
    }
    for i := 0 to c.NROOTS
      invariant forall k :: 0 <= k < i ==> parity[k] == c.G.zero
      invariant parity[c.NROOTS..] == old(parity[c.NROOTS..])
    {
      parity[i] := c.G.zero;
    }
    ParityStart(c, parity[..c.NROOTS]);
    assert data[..0] == [];
    for i := 0 to len
      invariant parity[..c.NROOTS] == ParityOf(c, data[..i])
      invariant parity[c.NROOTS..] == old(parity[c.NROOTS..])
    {
      EncodeSymbol(c, genpoly, data[i], parity, data[..i]);
      assert data[..i] + [data[i]] == data[..i + 1];
    }
    return c.NROOTS;
  }

  /** What decoding returns before it starts to correct. */
  datatype Outcome<!T> = BadLength | TooManyErasures | ErasureOutside | Clean | Errors(syndromes: seq<T>)

  /** The registers hold the values of the word at the roots. */
  ghost predicate Syndromes<T(!new)>(c: Code<T>, syn: seq<T>, w: seq<T>)
    requires c.G.Primitive()
  {
    |syn| == c.NROOTS && forall i :: 0 <= i < c.NROOTS ==> syn[i] == FieldOf(c.G).Horner(w, RootAt(c, i))
  }

  /** Every syndrome register takes in one more symbol. */
  method Feed<T(!new, ==)>(c: Code<T>, syn: array<T>, d: T, ghost w: seq<T>)
    requires ValidCode(c) && Syndromes(c, syn[..], w)
    modifies syn
    ensures Syndromes(c, syn[..], w + [d])
  {
    hide FieldOf, RootAt, ValidCode, GenPoly, LogTables, Generator.Primitive, Field.Horner, Field.Valid;
    CodeSize(c);
    for i := 0 to c.NROOTS
      invariant forall l :: 0 <= l < i ==> syn[l] == FieldOf(c.G).Horner(w + [d], RootAt(c, l))
      invariant forall l :: i <= l < c.NROOTS ==> syn[l] == FieldOf(c.G).Horner(w, RootAt(c, l))
    {
      var root := (c.FCR + i) * c.PRM;
      RootIs(c, i, root);
      FeedStep(c, w, d, i);
      var s := AddScaled(c, d, syn[i], root);
      syn[i] := s;
    }
  }

  lemma FeedStep<T(!new)>(c: Code<T>, w: seq<T>, d: T, i: nat)
    requires ValidCode(c)
    ensures var F := FieldOf(c.G);
      F.Horner(w + [d], RootAt(c, i)) == c.G.add(d, F.mul(RootAt(c, i), F.Horner(w, RootAt(c, i))))
  {
    FieldFacts(c.G);
    var m := w + [d];
    assert m[..|m| - 1] == w;
    hide FieldOf, RootAt, LogTables, Generator.Primitive;
  }

  lemma FirstSymbol<T(!new)>(c: Code<T>, syn: seq<T>, d: T)
    requires ValidCode(c) && |syn| == c.NROOTS && forall i :: 0 <= i < |syn| ==> syn[i] == d
    ensures Syndromes(c, syn, [d])
  {
    FieldFacts(c.G);
    forall i | 0 <= i < c.NROOTS ensures syn[i] == FieldOf(c.G).Horner([d], RootAt(c, i)) {
      HornerSingle(FieldOf(c.G), d, RootAt(c, i));
    }
  }

  lemma AllZero<T(!new)>(c: Code<T>, syn: seq<T>, w: seq<T>)
    requires ValidCode(c) && Syndromes(c, syn, w)
    ensures IsCodeword(c, w) <==> forall k :: 0 <= k < c.NROOTS ==> syn[k] == c.G.zero
  {}

  /** The word the syndromes are taken of: the first symbol is read even when the data is empty. */
  function Received<T>(data: seq<T>, len: nat, parity: seq<T>): seq<T>
    requires 1 <= |data| && len <= |data|
  {
    (if len == 0 then data[..1] else data[..len]) + parity
  }

  /** The erasure positions are inside the block. */
  predicate Inside(erasures: seq<int>, size: int) { forall i :: 0 <= i < |erasures| ==> 0 <= erasures[i] < size }

  method SyndromesOf<T(!new, ==)>(c: Code<T>, data: array<T>, len: nat, parity: array<T>) returns (s: seq<T>)
    requires ValidCode(c) && 1 <= data.Length && len <= data.Length && c.NROOTS <= parity.Length
    ensures Syndromes(c, s, Received(data[..], len, parity[..c.NROOTS]))
  {
    CodeSize(c);
    ghost var head := if len == 0 then data[..1] else data[..len];
    assert Received(data[..], len, parity[..c.NROOTS]) == head + parity[..c.NROOTS];
    hide *;
    var first := data[0];
    var syn := new T[c.NROOTS](_ => first);
    assert data[..1] == [data[0]];
    FirstSymbol(c, syn[..], data[0]);
    var j := 1;
    while j < len
      invariant 1 <= j && (j <= len || j == 1)
      invariant Syndromes(c, syn[..], data[..j])
    {
      Feed(c, syn, data[j], data[..j]);
      assert data[..j] + [data[j]] == data[..j + 1];
      j := j + 1;
    }
    assert head == data[..j];
    FeedParity(c, syn, parity, head);
    s := syn[..];
  }

  method FeedParity<T(!new, ==)>(c: Code<T>, syn: array<T>, parity: array<T>, ghost head: seq<T>)
    requires ValidCode(c) && syn.Length == c.NROOTS <= parity.Length && syn != parity
    requires Syndromes(c, syn[..], head)
    modifies syn
    ensures Syndromes(c, syn[..], head + parity[..c.NROOTS])
  {
    CodeSize(c);
    hide *;
    assert head + parity[..0] == head;
    for j := 0 to c.NROOTS
      invariant Syndromes(c, syn[..], head + parity[..j])
    {
      Feed(c, syn, parity[j], head + parity[..j]);
      assert (head + parity[..j]) + [parity[j]] == head + parity[..j + 1];
    }
  }

  /** Decoding up to the syndromes: it reports no errors, and writes nothing, exactly for the
      words of the code. */
  method Decode<T(!new, ==)>(c: Code<T>, data: array<T>, len: nat, parity: array<T>, erasures: seq<int>)
    returns (r: Outcome<T>)
    requires ValidCode(c) && 1 <= data.Length && len <= data.Length && c.NROOTS <= parity.Length
    ensures r.BadLength? <==> len + c.NROOTS > c.G.N
    ensures r.TooManyErasures? <==> len + c.NROOTS <= c.G.N && |erasures| > c.NROOTS
    ensures r.ErasureOutside? <==>
      len + c.NROOTS <= c.G.N && |erasures| <= c.NROOTS && !Inside(erasures, len + c.NROOTS)
    ensures r.Clean? ==> IsCodeword(c, Received(data[..], len, parity[..c.NROOTS]))
    ensures r.Errors? ==> !IsCodeword(c, Received(data[..], len, parity[..c.NROOTS]))
    ensures r.Errors? ==> Syndromes(c, r.syndromes, Received(data[..], len, parity[..c.NROOTS]))
  {
    CodeSize(c);
    hide *;
    var pad := c.G.N - c.NROOTS - len;
    if pad < 0 || pad >= c.G.N { return BadLength; }
    if |erasures| > 0 {
      if |erasures| > c.NROOTS { return TooManyErasures; }
      var inside := CheckErasures(erasures, len + c.NROOTS);
      if !inside { return ErasureOutside; }
    }
    NoErasures(len + c.NROOTS);
    var syn := SyndromesOf(c, data, len, parity);
    var clean := NoErrors(c, syn, Received(data[..], len, parity[..c.NROOTS]));
    if clean { return Clean; }
    return Errors(syn);
  }

  method CheckErasures(erasures: seq<int>, size: int) returns (inside: bool)
    ensures inside <==> Inside(erasures, size)
  {
    for i := 0 to |erasures|
      invariant forall k :: 0 <= k < i ==> 0 <= erasures[k] < size
    {
      if erasures[i] < 0 || erasures[i] >= size { return false; }
    }
    return true;
  }

  lemma NoErasures(size: int)
    ensures Inside([], size)
  {}

  /** The nonzero test over all the syndromes. */
  method NoErrors<T(!new, ==)>(c: Code<T>, syn: seq<T>, ghost w: seq<T>) returns (clean: bool)
    requires ValidCode(c) && Syndromes(c, syn, w)
    ensures clean <==> IsCodeword(c, w)
  {
    AllZero(c, syn, w);
    hide ValidCode, IsCodeword;
    clean := true;
    for i := 0 to c.NROOTS
      invariant clean <==> forall k :: 0 <= k < i ==> syn[k] == c.G.zero
    {
      clean := clean && syn[i] == c.G.zero;
    }
  }

  /** Decoding what was just encoded finds nothing to correct and changes nothing. */
  method EncodeDecode<T(!new, ==)>(c: Code<T>, genpoly: seq<nat>, data: array<T>, len: nat, parity: array<T>)
    returns (r: Outcome<T>)
    requires ValidCode(c) && IndexForm(c, genpoly) && 1 <= len <= data.Length && data != parity
    requires c.NROOTS <= parity.Length && len + c.NROOTS <= c.G.N
    modifies parity
    ensures r.Clean? && data[..] == old(data[..]) && parity[..c.NROOTS] == ParityOf(c, data[..len])
  {
    hide *;
    var n := Encode(c, genpoly, data, len, parity);
    NoErasures(len + c.NROOTS);
    r := Decode(c, data, len, parity, []);
    CodeSize(c);
    ParityCompletes(c, data[..len], parity[..c.NROOTS]);
    ReceivedIs(data[..], len, parity[..c.NROOTS]);
  }

  lemma ReceivedIs<T>(data: seq<T>, len: nat, parity: seq<T>)
    requires 1 <= len <= |data|
    ensures Received(data, len, parity) == data[..len] + parity
  {}
}
