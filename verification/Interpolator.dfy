/** The polyphase interpolator is zero stuffing followed by the full filter. */
module Interpolator {
  import opened Fir
  import opened Memory

  /** Every sample followed by L - 1 zeros. */
  function Stuff(s: seq<Q15>, L: nat): (z: seq<Q15>)
    requires L > 0
    ensures |z| == |s| * L
  {
    if s == [] then [] else Stuff(s[..|s| - 1], L) + [s[|s| - 1]] + Zeros(L - 1)
  }

  lemma StuffLast(s: seq<Q15>, L: nat)
    requires L > 0 && s != []
    ensures Stuff(s, L) == Stuff(s[..|s| - 1], L) + ([s[|s| - 1]] + Zeros(L - 1))
  {
    var a, b, c := Stuff(s[..|s| - 1], L), [s[|s| - 1]], Zeros(L - 1);
    assert (a + b) + c == a + (b + c);
  }

  lemma {:induction false} StuffConcat(s: seq<Q15>, t: seq<Q15>, L: nat)
    requires L > 0
    ensures Stuff(s + t, L) == Stuff(s, L) + Stuff(t, L)
  {
    if t == [] {
      assert s + t == s && Stuff(s, L) + [] == Stuff(s, L);
    } else {
      var u, last := s + t, [t[|t| - 1]] + Zeros(L - 1);
      assert u[..|u| - 1] == s + t[..|t| - 1] && u[|u| - 1] == t[|t| - 1];
      StuffConcat(s, t[..|t| - 1], L);
      StuffLast(u, L);
      StuffLast(t, L);
      hide Stuff;
      var a, b := Stuff(s, L), Stuff(t[..|t| - 1], L);
      assert (a + b) + last == a + (b + last);
    }
  }

  lemma {:induction false} StuffAt(s: seq<Q15>, L: nat, q: nat, r: nat)
    requires r < L && q < |s|
    ensures q * L + r < |s| * L && Stuff(s, L)[q * L + r] == if r == 0 then s[q] else 0
  {
    var n := |s| - 1;
    InRange(L, |s|, q, r);
    Commutes(L, |s|);
    StuffLast(s, L);
    hide Stuff;
    if q < n {
      StuffAt(s[..n], L, q, r);
      Within(L, n, q, r);
    }
  }

  lemma Within(L: nat, n: nat, q: nat, r: nat)
    requires r < L && q < n
    ensures q * L + r < n * L
  {
    InRange(L, n, q, r);
    Commutes(L, n);
  }

  /** The state of the full filter that goes with the interpolator's state. */
  function FullState(h: seq<Q15>, L: nat): (z: seq<Q15>)
    requires L > 0
  {
    Zeros(L - 1) + Stuff(h, L)
  }

  /** With L - 1 zeros in front, the samples sit at the ends of the groups. */
  lemma FullAt(s: seq<Q15>, L: nat, q: nat, r: nat)
    requires L > 0 && q < |s| && r < 2 * L - 1
    ensures q * L + r < |FullState(s, L)|
    ensures FullState(s, L)[q * L + r] == if r == L - 1 then s[q] else 0
  {
    hide Stuff;
    InRange(L, |s|, q, L);
    assert |s| * L == L * |s|;
    if r >= L - 1 {
      StuffAt(s, L, q, r - (L - 1));
    } else if q > 0 {
      assert q * L == (q - 1) * L + L;
      StuffAt(s, L, q - 1, r + 1);
    }
  }

  function Coef(c: seq<Q15>, i: nat): Q15 { if i < |c| then c[i] else 0 }

  /** The first t products of one polyphase filter: every L-th coefficient from off on. */
  function Poly(s: seq<Q15>, n: nat, c: seq<Q15>, L: nat, off: nat, t: nat): int
    requires n + t <= |s|
  {
    if t == 0 then 0 else Poly(s, n, c, L, off, t - 1) + Times(s[n + t - 1], Coef(c, off + (t - 1) * L))
  }

  /** Its accumulator holds every sum exactly, too. */
  lemma {:induction false} PolyFits(s: seq<Q15>, n: nat, c: seq<Q15>, L: nat, off: nat, t: nat)
    requires n + t <= |s| && t < 0x2_0000_0000
    ensures -0x4000_0000 * t <= Poly(s, n, c, L, off, t) <= 0x4000_0000 * t
    ensures -0x8000_0000_0000_0000 <= Poly(s, n, c, L, off, t) < 0x8000_0000_0000_0000
  {
    hide Times, Coef;
    if t > 0 {
      PolyFits(s, n, c, L, off, t - 1);
      ProductFits(s[n + t - 1], Coef(c, off + (t - 1) * L));
    }
  }

  lemma InRange(L: nat, P: nat, t: nat, m: nat)
    requires t < P && m <= L
    ensures t * L + m <= L * P && (m < L ==> t * L + m < L * P)
  {
    assert (t + 1) * L <= P * L;
    assert (t + 1) * L == t * L + L;
  }

  /** One more sample of the group: only the one at its end counts. */
  lemma GroupStep(Z: seq<Q15>, c: seq<Q15>, k: nat, i: nat, m: nat, L: nat, j: nat, base: int, v: Q15, w: Q15)
    requires 1 <= j <= L && m < L && i < |c| && k + i < |Z|
    requires Dot(Z, k, c, i) == base + if m > L - j then Times(v, w) else 0
    requires Z[k + i] == if j - 1 + m == L - 1 then v else 0
    requires m == L - j ==> c[i] == w
    ensures Dot(Z, k, c, i + 1) == base + if m + 1 > L - j then Times(v, w) else 0
  {
    hide Times;
    DotNext(Z, k, c, i);
    ZeroProduct(c[i]);
  }

  function Mul(a: nat, b: nat): nat { a * b }

  lemma MulNext(t: nat, L: nat)
    requires t > 0
    ensures Mul(t, L) == Mul(t - 1, L) + L
  {}

  lemma MulSum(n: nat, t: nat, L: nat)
    ensures Mul(n + t, L) == Mul(n, L) + Mul(t, L)
  {}

  lemma MulRange(L: nat, P: nat, t: nat)
    requires t < P
    ensures Mul(t, L) + L <= Mul(P, L)
  {
    InRange(L, P, t, L);
    assert L * P == P * L;
  }

  lemma FullValue(s: seq<Q15>, L: nat, q: nat, r: nat)
    requires L > 0 && q < |s| && r < 2 * L - 1
    ensures Mul(q, L) + r < |FullState(s, L)|
    ensures FullState(s, L)[Mul(q, L) + r] == if r == L - 1 then s[q] else 0
  {
    hide FullState;
    FullAt(s, L, q, r);
  }

  /** The full filter's products over t whole groups and m samples of the next. */
  lemma {:induction false} DotStuffed(s: seq<Q15>, n: nat, c: seq<Q15>, L: nat, P: nat, j: nat, t: nat, m: nat)
    requires 1 <= j <= L && |c| == Mul(P, L) && t < P && m <= L && n + P <= |s|
    ensures Mul(t, L) + m <= |c| && Mul(n, L) + (j - 1) + (Mul(t, L) + m) <= |FullState(s, L)|
    ensures Dot(FullState(s, L), Mul(n, L) + (j - 1), c, Mul(t, L) + m) ==
      Poly(s, n, c, L, L - j, t) + if m > L - j then Times(s[n + t], Coef(c, L - j + Mul(t, L))) else 0
    decreases t, m
  {
    hide FullState, Times, Poly, Dot, Stuff, Mul;
    MulRange(L, P, t);
    MulSum(n, t, L);
    var Z, k := FullState(s, L), Mul(n, L) + (j - 1);
    if m > 0 {
      DotStuffed(s, n, c, L, P, j, t, m - 1);
      FullValue(s, L, n + t, j - 1 + (m - 1));
      GroupStep(Z, c, k, Mul(t, L) + (m - 1), m - 1, L, j, Poly(s, n, c, L, L - j, t), s[n + t],
                Coef(c, L - j + Mul(t, L)));
    } else if t > 0 {
      MulNext(t, L);
      DotStuffed(s, n, c, L, P, j, t - 1, L);
      PolyNext(s, n, c, L, L - j, t - 1);
    } else {
      MulNone(L);
      FullValue(s, L, n, j - 1);
      DotNone(Z, k, c);
      PolyNone(s, n, c, L, L - j);
    }
  }

  lemma MulNone(L: nat)
    ensures Mul(0, L) == 0
  {}

  lemma PolyNext(s: seq<Q15>, n: nat, c: seq<Q15>, L: nat, off: nat, t: nat)
    requires n + t < |s|
    ensures Poly(s, n, c, L, off, t + 1) == Poly(s, n, c, L, off, t) + Times(s[n + t], Coef(c, off + Mul(t, L)))
  {}

  /** Output j - 1 of input n, as the source computes it, is the full filter over the stuffed
      samples. */
  lemma PolyIsFull(s: seq<Q15>, n: nat, c: seq<Q15>, L: nat, P: nat, j: nat)
    requires 1 <= j <= L && P > 0 && |c| == L * P && n + P <= |s|
    ensures n * L + (j - 1) + |c| <= |FullState(s, L)|
    ensures Dot(FullState(s, L), n * L + (j - 1), c, |c|) == Poly(s, n, c, L, L - j, P)
  {
    assert (P - 1) * L + L == L * P;
    DotStuffed(s, n, c, L, P, j, P - 1, L);
    PolyNext(s, n, c, L, L - j, P - 1);
  }

  /** The full filter's state after a call goes with the interpolator's state after it. */
  lemma FullLast(h: seq<Q15>, x: seq<Q15>, L: nat)
    requires L > 0
    ensures Last(FullState(h, L), Stuff(x, L)) == FullState(Last(h, x), L)
  {
    hide *;
    var s := h + x;
    var a, b, Z := s[..|x|], s[|x|..], Zeros(L - 1);
    var A, B := Stuff(a, L), Stuff(b, L);
    assert s == a + b;
    StuffConcat(h, x, L);
    StuffConcat(a, b, L);
    FullIs(h, L);
    FullIs(b, L);
    LastIs(h, x);
    LastIs(FullState(h, L), Stuff(x, L));
    assert (Z + Stuff(h, L)) + Stuff(x, L) == Z + (Stuff(h, L) + Stuff(x, L));
    assert Z + (A + B) == (Z + A) + B;
    TailZeros(a, L);
    StuffSize(a, x, L);
    assert ((Z + A) + B)[|A|..] == (Z + A)[|A|..] + B;
  }

  lemma FullIs(h: seq<Q15>, L: nat)
    requires L > 0
    ensures FullState(h, L) == Zeros(L - 1) + Stuff(h, L)
  {}

  lemma StuffSize(a: seq<Q15>, x: seq<Q15>, L: nat)
    requires L > 0 && |a| == |x|
    ensures |Stuff(a, L)| == |Stuff(x, L)|
  {}

  lemma TailZeros(a: seq<Q15>, L: nat)
    requires L > 0
    ensures (Zeros(L - 1) + Stuff(a, L))[|Stuff(a, L)|..] == Zeros(L - 1)
  {}

  /** The inner loop: one output of polyphase filter L - j. */
  method InterpolateSample(state: array<Q15>, c: seq<Q15>, n: nat, L: nat, P: nat, j: nat, ghost all: seq<Q15>)
    returns (y: Q15)
    requires 1 <= j <= L && |c| == L * P && n + P <= |all| && n + P <= state.Length && state[..n + P] == all[..n + P]
    ensures y == Scaled(Poly(all, n, c, L, L - j, P), false)
  {
    hide Poly, Times, Sat15;
    var sum, p2 := 0, L - j;
    PolyNone(all, n, c, L, L - j);
    for t := 0 to P
      invariant p2 == L - j + t * L
      invariant sum == Poly(all, n, c, L, L - j, t)
    {
      InRange(L, P, t, L - j);
      PolyNext(all, n, c, L, L - j, t);
      assert state[n + t] == state[..n + P][n + t] == all[..n + P][n + t] == all[n + t];
      sum := sum + Times(state[n + t], c[p2]);
      assert (t + 1) * L == t * L + L;
      p2 := p2 + L;
    }
    y := Sat15(sum / TWO15);
  }

  lemma PolyNone(s: seq<Q15>, n: nat, c: seq<Q15>, L: nat, off: nat)
    requires n <= |s|
    ensures Poly(s, n, c, L, off, 0) == 0
  {}

  /** What the full filter makes of the stuffed samples. */
  function Interpolated(h: seq<Q15>, c: seq<Q15>, x: seq<Q15>, L: nat): (y: seq<Q15>)
    requires L > 0 && |c| == L * (|h| + 1)
    ensures |y| == |x| * L
  {
    assert |c| == |h| * L + L;
    FirOut(FullState(h, L), c, Stuff(x, L), false)
  }

  /** Any split of the input into calls: the outputs join up. */
  lemma InterpolatorSplits(h: seq<Q15>, c: seq<Q15>, L: nat, x: seq<Q15>, y: seq<Q15>)
    requires L > 0 && |c| == L * (|h| + 1)
    ensures Interpolated(h, c, x + y, L) == Interpolated(h, c, x, L) + Interpolated(Last(h, x), c, y, L)
  {
    hide Stuff, FirOut;
    assert |c| == |h| * L + L;
    StuffConcat(x, y, L);
    FullLast(h, x, L);
    FirSplits(FullState(h, L), c, Stuff(x, L), Stuff(y, L), false);
  }

  lemma {:induction false} StuffZeros(n: nat, L: nat)
    requires L > 0
    ensures Stuff(Zeros(n), L) == Zeros(n * L)
  {
    if n > 0 {
      StuffZeros(n - 1, L);
      assert Zeros(n)[..n - 1] == Zeros(n - 1) && n * L == (n - 1) * L + L;
    }
  }

  /** From rest, output m is the convolution of the impulse response with the samples stuffed with
      zeros, scaled down: the nearest 16 bit value. */
  lemma InterpolatedIsConvolution(b: seq<Q15>, x: seq<Q15>, L: nat, P: nat, m: nat)
    requires L > 0 && P > 0 && |b| == L * P && m < |x| * L
    ensures Nearest(Interpolated(Zeros(P - 1), Reversed(b), x, L)[m], Convolution(b, Stuff(x, L), m, |b|) / 0x8000)
  {
    hide Nearest, Convolution, Stuff, FirOut;
    StuffZeros(P - 1, L);
    assert L * P == (P - 1) * L + L;
    assert FullState(Zeros(P - 1), L) == Zeros(|b| - 1);
    FirIsConvolution(b, Stuff(x, L), m);
  }

  lemma InterpolatedAt(h: seq<Q15>, c: seq<Q15>, x: seq<Q15>, L: nat, n: nat, j: nat)
    requires |c| == L * (|h| + 1) && n < |x| && 1 <= j <= L
    ensures n * L + (j - 1) < |x| * L
    ensures Interpolated(h, c, x, L)[n * L + (j - 1)] == Scaled(Poly(h + x, n, c, L, L - j, |h| + 1), false)
  {
    hide Poly, Stuff, FirOut, Scaled;
    InRange(L, |x|, n, j - 1);
    StuffConcat(h, x, L);
    assert |c| == |h| * L + L && L * |x| == |x| * L;
    assert FullState(h, L) + Stuff(x, L) == FullState(h + x, L);
    PolyIsFull(h + x, n, c, L, |h| + 1, j);
    FirAt(FullState(h, L), c, Stuff(x, L), n * L + (j - 1), false);
  }

  /** One call of the interpolator. */
  method ArmFirInterpolateQ15(state: array<Q15>, c: seq<Q15>, L: nat, phaseLen: nat, src: array<Q15>, dst: array<Q15>,
                              blockSize: nat)
    requires L > 0 && phaseLen > 0 && |c| == L * phaseLen && phaseLen - 1 + blockSize <= state.Length
    requires blockSize <= src.Length && blockSize * L <= dst.Length && state != src && state != dst && src != dst
    modifies state, dst
    ensures dst[..blockSize * L] == Interpolated(old(state[..phaseLen - 1]), c, src[..blockSize], L)
    ensures state[..phaseLen - 1] == Last(old(state[..phaseLen - 1]), src[..blockSize])
    ensures dst[blockSize * L..] == old(dst[blockSize * L..])
  {
    hide *;
    var m := phaseLen - 1;
    ghost var h, x, was := state[..m], src[..blockSize], dst[..];
    AllInputs(state, c, L, phaseLen, src, dst, blockSize, h, x);
    MulIs(blockSize, L);
    InterpolatedSize(h, c, x, L);
    assert dst[..Mul(blockSize, L)] == dst[..][..Mul(blockSize, L)] == Interpolated(h, c, x, L);
    assert dst[Mul(blockSize, L)..] == dst[..][Mul(blockSize, L)..] == was[Mul(blockSize, L)..];
    assert state[..m + blockSize][blockSize..] == Last(h, x) by { LastIs(h, x); }
    MoveDown(state, blockSize, m);
  }

  method TakeIn(state: array<Q15>, at: nat, v: Q15, ghost all: seq<Q15>)
    requires at < state.Length && at < |all| && state[..at] == all[..at] && v == all[at]
    modifies state
    ensures state[..at + 1] == all[..at + 1]
  {
    hide *;
    state[at] := v;
    Grow(state[..], all, at, v);
  }

  /** The loop over the inputs. */
  method AllInputs(state: array<Q15>, c: seq<Q15>, L: nat, phaseLen: nat, src: array<Q15>, dst: array<Q15>,
                   blockSize: nat, ghost h: seq<Q15>, ghost x: seq<Q15>)
    requires L > 0 && |c| == L * phaseLen && phaseLen == |h| + 1 && |h| + blockSize <= state.Length
    requires |x| == blockSize <= src.Length && blockSize * L <= dst.Length
    requires state != src && state != dst && src != dst && state[..|h|] == h && src[..blockSize] == x
    modifies state, dst
    ensures state[..|h| + blockSize] == h + x
    ensures |Interpolated(h, c, x, L)| == Mul(blockSize, L) <= dst.Length
    ensures dst[..] == Interpolated(h, c, x, L) + old(dst[..])[Mul(blockSize, L)..]
  {
    hide *;
    ghost var all, was, want := h + x, dst[..], Interpolated(h, c, x, L);
    InterpolatedSize(h, c, x, L);
    MulIs(blockSize, L);
    MulNone(L);
    var out := 0;
    for n := 0 to blockSize
      invariant 0 <= out == Mul(n, L) <= Mul(blockSize, L)
      invariant src[..blockSize] == x && state[..|h| + n] == all[..|h| + n]
      invariant dst[..] == want[..out] + was[out..]
    {
      MulRange(L, blockSize, n);
      MulNext(n + 1, L);
      TakeIn(state, phaseLen - 1 + n, src[n], all);
      AllPhases(state, c, L, phaseLen, dst, n, out, h, x, was);
      out := out + L;
    }
    assert all[..|h| + blockSize] == all && want[..out] == want;
  }

  lemma Commutes(a: nat, b: nat)
    ensures a * b == b * a
  {}

  lemma MulIs(n: nat, L: nat)
    ensures Mul(n, L) == n * L
  {}

  lemma InterpolatedSize(h: seq<Q15>, c: seq<Q15>, x: seq<Q15>, L: nat)
    requires L > 0 && |c| == L * (|h| + 1)
    ensures |Interpolated(h, c, x, L)| == Mul(|x|, L)
  {}

  lemma InterpolatedTerm(h: seq<Q15>, c: seq<Q15>, x: seq<Q15>, L: nat, n: nat, j: nat)
    requires |c| == L * (|h| + 1) && n < |x| && 1 <= j <= L
    ensures Mul(n, L) + (j - 1) < |Interpolated(h, c, x, L)|
    ensures Interpolated(h, c, x, L)[Mul(n, L) + (j - 1)] == Scaled(Poly(h + x, n, c, L, L - j, |h| + 1), false)
  {
    hide Interpolated, Poly, Scaled;
    InterpolatedAt(h, c, x, L, n, j);
  }

  /** The L outputs of one input sample. */
  method AllPhases(state: array<Q15>, c: seq<Q15>, L: nat, phaseLen: nat, dst: array<Q15>, n: nat, start: nat,
                   ghost h: seq<Q15>, ghost x: seq<Q15>, ghost was: seq<Q15>)
    requires L > 0 && |c| == L * phaseLen && phaseLen == |h| + 1 && n < |x| && start == Mul(n, L)
    requires start + L <= Mul(|x|, L) <= dst.Length
    requires state != dst && n + phaseLen <= state.Length && state[..n + phaseLen] == (h + x)[..n + phaseLen]
    requires |was| == dst.Length && |Interpolated(h, c, x, L)| == Mul(|x|, L)
    requires dst[..] == Interpolated(h, c, x, L)[..start] + was[start..]
    modifies dst
    ensures dst[..] == Interpolated(h, c, x, L)[..start + L] + was[start + L..]
  {
    hide *;
    ghost var want := Interpolated(h, c, x, L);
    var out := start;
    for j := 1 to L + 1
      invariant out == start + (j - 1)
      invariant dst[..] == want[..out] + was[out..]
    {
      var y := InterpolateSample(state, c, n, L, phaseLen, j, h + x);
      InterpolatedTerm(h, c, x, L, n, j);
      dst[out] := y;
      Fill(dst[..], want, was, out);
      out := out + 1;
    }
  }
}
