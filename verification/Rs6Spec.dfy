/** The shortened Reed-Solomon codes over six bit symbols: what a code word is, how far apart
    code words are, and what the decoder's stages find in a word with few errors. */
module Rs6Spec {
  import opened Fields
  import opened Codes
  import opened Sets
  import opened KeyEquation
  import opened ErrorValues
  import opened Gf64
  import opened PrimitiveField

  /** The word vanishes at the roots alpha^1 .. alpha^par. */
  ghost predicate IsCodeword(w: seq<Sym>, par: nat) {
    forall j :: 1 <= j <= par ==> F64().Horner(w, Alpha(j)) == 0
  }

  /** Syndromes of a received word: its values at alpha^1, alpha^2, ... */
  ghost function SyndromesOf(w: seq<Sym>, par: nat): (s: seq<Sym>)
    ensures |s| == par
  {
    seq(par, (l: nat) => F64().Horner(w, Alpha(l + 1)))
  }

  lemma SyndromeOf(w: seq<Sym>, par: nat, j: nat)
    requires 1 <= j <= par
    ensures |SyndromesOf(w, par)| == par && SyndromesOf(w, par)[j - 1] == F64().Horner(w, Alpha(j))
  {
    hide F64, Alpha, Field.Valid;
  }

  lemma SyndromesAre(w: seq<Sym>, par: nat)
    ensures |SyndromesOf(w, par)| == par
    ensures forall l :: 0 <= l < par ==> SyndromesOf(w, par)[l] == F64().Horner(w, Alpha(l + 1))
  {
    hide F64, Alpha, Field.Valid;
  }

  ghost function Xs(n: nat): seq<Sym> { Locators(F64(), 2, n) }

  /** The exponent of the inverse locator of position i. */
  function InverseLog(n: nat, i: nat): nat
    requires i < n <= 36
  {
    (63 - (n - 1 - i)) % 63
  }

  /** The inverse locators, as the searches compute them. */
  ghost function Zs(n: nat): (Z: seq<Sym>)
    requires n <= 36
    ensures |Z| == n
    ensures forall i :: 0 <= i < n ==> Z[i] == Alpha(InverseLog(n, i))
  {
    seq(n, i requires 0 <= i < n => Alpha(InverseLog(n, i)))
  }

  lemma XsAt(n: nat, i: nat)
    requires i < n
    ensures |Xs(n)| == n && Xs(n)[i] == Alpha(n - 1 - i)
  {}

  /** The exponents of a locator and its inverse add up to nothing or a whole period. */
  lemma LogSum(n: nat, i: nat)
    requires i < n <= 36
    ensures (n - 1 - i + InverseLog(n, i)) % 63 == 0
  {}

  lemma LocatorInverse(n: nat, i: nat)
    requires i < n <= 36
    ensures |Xs(n)| == n && Xs(n)[i] != 0 && F64().mul(Xs(n)[i], Zs(n)[i]) == 1
  {
    hide *;
    var x, z: nat := n - 1 - i, InverseLog(n, i);
    XsAt(n, i);
    AlphaNonZero(x);
    AlphaSum(x, z);
    LogSum(n, i);
    AlphaMod(x + z);
    AlphaZero();
  }

  lemma AlphaZero()
    ensures Alpha(0) == 1
  {
    F64Laws();
    hide FieldOf;
  }

  lemma LocatorsDiffer(n: nat, i: nat, j: nat)
    requires i < j < n <= 36
    ensures |Xs(n)| == n && Xs(n)[i] != Xs(n)[j] && Zs(n)[i] != Zs(n)[j]
  {
    InverseLogs(n, i, j);
    hide *;
    XsAt(n, i);
    XsAt(n, j);
    AlphaDistinct(n - 1 - j, n - 1 - i);
    if j == n - 1 { AlphaDistinct(InverseLog(n, j), InverseLog(n, i)); }
    else { AlphaDistinct(InverseLog(n, i), InverseLog(n, j)); }
  }

  lemma InverseLogs(n: nat, i: nat, j: nat)
    requires i < j < n <= 36
    ensures InverseLog(n, i) < 63 && InverseLog(n, j) < 63
    ensures if j == n - 1 then InverseLog(n, j) < InverseLog(n, i) else InverseLog(n, i) < InverseLog(n, j)
  {}

  lemma LocatorFacts(n: nat)
    requires n <= 36
    ensures |Xs(n)| == n && Distinct(Xs(n)) && Distinct(Zs(n)) && 0 !in Xs(n) && Inverses(F64(), Xs(n), Zs(n))
  {
    F64Laws();
    hide F64, Xs, Alpha, Zs;
    XsSize(n);
    forall i, j | 0 <= i < j < n ensures Xs(n)[i] != Xs(n)[j] && Zs(n)[i] != Zs(n)[j] { LocatorsDiffer(n, i, j); }
    forall i | 0 <= i < n ensures Xs(n)[i] != 0 && F64().mul(Xs(n)[i], Zs(n)[i]) == F64().one {
      LocatorInverse(n, i);
    }
  }

  lemma XsSize(n: nat)
    ensures |Xs(n)| == n
  {}

  /** Syndrome l is the (l + 1)-th power sum. */
  lemma SyndromeIsMoment(w: seq<Sym>, j: nat)
    ensures F64().Horner(w, Alpha(j)) == Moment(F64(), w, Xs(|w|), j)
  {
    HornerIsMoment(F64(), w, 2, j);
  }

  lemma CodewordMoments(w: seq<Sym>, par: nat, j: nat)
    requires IsCodeword(w, par) && 1 <= j < 1 + par
    ensures Moment(F64(), w, Xs(|w|), j) == 0
  {
    SyndromeIsMoment(w, j);
  }

  /** Different words with the same par syndromes differ in more than par symbols. */
  lemma MinimumDistance(a: seq<Sym>, b: seq<Sym>, par: nat)
    requires |a| == |b| <= 36 && SyndromesOf(a, par) == SyndromesOf(b, par) && a != b
    ensures |Difference(a, b)| > par
  {
    if |Difference(a, b)| <= par {
      F64Laws();
      hide *;
      LocatorFacts(|a|);
      forall j | 1 <= j < 1 + par ensures Moment(F64(), a, Xs(|a|), j) == Moment(F64(), b, Xs(|a|), j) {
        SyndromeIsMoment(a, j);
        SyndromeIsMoment(b, j);
        SyndromeOf(a, par, j);
        SyndromeOf(b, par, j);
      }
      CloseWordsEqual(F64(), a, b, Xs(|a|), par, 1);
    }
  }

  /** The syndromes of a code word are zero. */
  lemma CodewordSyndromes(w: seq<Sym>, par: nat)
    requires IsCodeword(w, par)
    ensures SyndromesOf(w, par) == seq(par, _ => 0)
  {
    SyndromesAre(w, par);
    hide F64, Alpha, SyndromesOf;
  }

  /** A received word has at most one code word within half the distance. */
  lemma UniqueCorrection(r: seq<Sym>, a: seq<Sym>, b: seq<Sym>, par: nat)
    requires |r| == |a| == |b| <= 36 && IsCodeword(a, par) && IsCodeword(b, par)
    requires |Difference(r, a)| <= par / 2 && |Difference(r, b)| <= par / 2
    ensures a == b
  {
    if a != b {
      CodewordSyndromes(a, par);
      CodewordSyndromes(b, par);
      MinimumDistance(a, b, par);
      SubsetSize(Difference(a, b), Difference(r, a) + Difference(r, b));
    }
  }

  // ----- what the stages find in a word with few errors -----

  ghost function Errors(r: seq<Sym>, c: seq<Sym>): (e: seq<Sym>)
    requires |r| == |c|
  {
    AddWords(F64(), r, c)
  }

  lemma ErrorsFacts(r: seq<Sym>, c: seq<Sym>, par: nat)
    requires |r| == |c| <= 36 && IsCodeword(c, par)
    ensures Support(F64(), Errors(r, c)) == Difference(r, c)
    ensures Syndromes(F64(), Errors(r, c), Xs(|r|), SyndromesOf(r, par))
  {
    F64Laws();
    hide F64, Xs, Alpha, Moment, IsCodeword, SyndromesOf;
    XsSize(|r|);
    var e := Errors(r, c);
    forall i | 0 <= i < |r| ensures e[i] == 0 <==> r[i] == c[i] { AddCancel(F64(), r[i], c[i]); }
    forall l | 0 <= l < par ensures SyndromesOf(r, par)[l] == Moment(F64(), e, Xs(|r|), l + 1) {
      SyndromeOf(r, par, l + 1);
      SyndromeIsMoment(r, l + 1);
      CodewordMoments(c, par, l + 1);
      MomentAdd(F64(), r, c, Xs(|r|), l + 1);
    }
  }

  /** The locator polynomial vanishes at the inverse locator of position p. */
  ghost predicate IsRoot(A: seq<Sym>, n: nat, p: int)
    requires 0 <= p < n <= 36
  {
    F64().Eval(A, Zs(n)[p]) == 0
  }

  ghost function RootSet(A: seq<Sym>, n: nat, i: nat): set<int>
    requires i <= n <= 36
  {
    set p | 0 <= p < i && IsRoot(A, n, p)
  }

  /** The same positions below i, in order. */
  ghost function RootList(A: seq<Sym>, n: nat, i: nat): seq<nat>
    requires i <= n <= 36
  {
    if i == 0 then []
    else RootList(A, n, i - 1) + if IsRoot(A, n, i - 1) then [i - 1] else []
  }

  lemma {:induction false} RootListGrows(A: seq<Sym>, n: nat, i: nat, j: nat)
    requires i <= j <= n <= 36
    ensures |RootList(A, n, i)| <= |RootList(A, n, j)|
    decreases j
  {
    hide IsRoot;
    if i < j { RootListGrows(A, n, i, j - 1); }
  }

  lemma RootSetNext(A: seq<Sym>, n: nat, i: nat)
    requires 0 < i <= n <= 36
    ensures RootSet(A, n, i) == if IsRoot(A, n, i - 1) then RootSet(A, n, i - 1) + {i - 1} else RootSet(A, n, i - 1)
  {
    hide IsRoot;
  }

  lemma {:induction false} RootListSet(A: seq<Sym>, n: nat, i: nat)
    requires i <= n <= 36
    ensures forall p: nat :: p in RootList(A, n, i) <==> p in RootSet(A, n, i)
    ensures forall e, f :: 0 <= e < f < |RootList(A, n, i)| ==> RootList(A, n, i)[e] < RootList(A, n, i)[f]
    ensures |RootList(A, n, i)| == |RootSet(A, n, i)|
  {
    hide IsRoot;
    if i > 0 {
      RootListSet(A, n, i - 1);
      var S, R := RootSet(A, n, i - 1), RootList(A, n, i - 1);
      RootSetNext(A, n, i);
      assert RootList(A, n, i) == if IsRoot(A, n, i - 1) then R + [i - 1] else R;
      assert forall p: nat :: p in S ==> p < i - 1;
      hide RootSet, RootList;
      forall e | 0 <= e < |R| ensures R[e] < i - 1 {
        assert R[e] in S;
      }
    }
  }

  ghost predicate IsEvaluator(W: seq<Sym>, A: seq<Sym>, s: seq<Sym>) {
    |W| == |s| && forall i :: 0 <= i < |W| ==> W[i] == Conv(F64(), A, s, i)
  }

  /** The correction Forney's formula gives at a position. */
  ghost function Correction(W: seq<Sym>, A: seq<Sym>, z: Sym): Sym {
    F64().mul(F64().Eval(W, z), F64().inv(Derivative(F64(), A, z)))
  }

  /** When a code word c is within half the distance of r, the decoder's locator finds exactly
      the wrong positions and Forney's formula the differences. */
  lemma FewErrorsFound(r: seq<Sym>, c: seq<Sym>, par: nat, A: seq<Sym>, L: nat, W: seq<Sym>)
    requires |r| == |c| <= 36 && IsCodeword(c, par) && |Difference(r, c)| <= par / 2
    requires Generates(F64(), A, L, SyndromesOf(r, par), par) && L < |A|
    requires Shortest(F64(), SyndromesOf(r, par), par, L)
    requires IsEvaluator(W, A, SyndromesOf(r, par))
    ensures L == |Difference(r, c)| && RootSet(A, |r|, |r|) == Difference(r, c)
    ensures forall p :: p in Difference(r, c) ==>
              && Derivative(F64(), A[..L + 1], Zs(|r|)[p]) != 0
              && F64().add(r[p], Correction(W, A[..L + 1], Zs(|r|)[p])) == c[p]
  {
    F64Laws();
    hide FieldOf, Conv, Derivative;
    var F, n, s := F64(), |r|, SyndromesOf(r, par);
    var e, X, Z := Errors(r, c), Xs(n), Zs(n);
    LocatorFacts(n);
    ErrorsFacts(r, c, par);
    LocatorGenerates(F, e, X, Z, s);
    assert Correctable(F, e, X, Z, s, A, L);
    RootsAreErrors(F, e, X, Z, s, A, L);
    forall p | p in Difference(r, c)
      ensures Derivative(F, A[..L + 1], Z[p]) != 0 && F.add(r[p], Correction(W, A[..L + 1], Z[p])) == c[p]
    {
      Forney(F, e, X, Z, s, A, L, W, p);
      var d := Derivative(F, A[..L + 1], Z[p]);
      MulAssoc(F, e[p], d, F.inv(d));
      AddAssoc(F, r[p], r[p], c[p]);
    }
  }
}
