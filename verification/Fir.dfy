/** The integer FIR kernels: streaming filter and polyphase interpolator. */
module Fir {
  import opened Memory
  import opened Words

  type Q15 = v: int | -32768 <= v < 32768

  const TWO15: int := 0x8000
  function Sat15(v: int): Q15 { if v > 32767 then 32767 else if v < -32768 then -32768 else v }

  function Times(a: int, b: int): int { a * b }

  /** The first n products of the coefficients with the samples from k on. */
  function Dot(s: seq<Q15>, k: nat, c: seq<Q15>, n: nat): int
    requires k + n <= |s| && n <= |c|
  {
    if n == 0 then 0 else Dot(s, k, c, n - 1) + Times(s[k + n - 1], c[n - 1])
  }

  /** The scaled output for a sum of products; the fast form's accumulator wraps at 32 bits. */
  function Scaled(sum: int, fast: bool): Q15 { Sat15((if fast then Wrap32(sum) else sum) / TWO15) }

  /** The filter's outputs for the new samples x after the last |c| - 1 samples h. */
  function FirOut(h: seq<Q15>, c: seq<Q15>, x: seq<Q15>, fast: bool): (y: seq<Q15>)
    requires |h| + 1 == |c|
    ensures |y| == |x|
  {
    seq(|x|, n requires 0 <= n < |x| => Scaled(Dot(h + x, n, c, |c|), fast))
  }

  /** The samples kept for the next call. */
  function Last(h: seq<Q15>, x: seq<Q15>): (r: seq<Q15>)
    ensures |r| == |h|
  {
    (h + x)[|x|..]
  }

  lemma {:induction false} DotSame(s: seq<Q15>, k: nat, t: seq<Q15>, l: nat, c: seq<Q15>, n: nat)
    requires k + n <= |s| && l + n <= |t| && n <= |c|
    requires s[k..k + n] == t[l..l + n]
    ensures Dot(s, k, c, n) == Dot(t, l, c, n)
  {
    if n > 0 {
      assert s[k..k + n][..n - 1] == s[k..k + (n - 1)] && t[l..l + n][..n - 1] == t[l..l + (n - 1)];
      assert s[k + n - 1] == s[k..k + n][n - 1] == t[l..l + n][n - 1];
      DotSame(s, k, t, l, c, n - 1);
    }
  }

  lemma DropSlice(s: seq<Q15>, m: nat, a: nat, b: nat)
    requires m <= |s| && a <= b <= |s| - m
    ensures s[m..][a..b] == s[m + a..m + b]
  {}

  lemma TakeSlice(s: seq<Q15>, t: seq<Q15>, a: nat, b: nat)
    requires a <= b <= |s|
    ensures (s + t)[a..b] == s[a..b]
  {}

  /** Any split of the input into calls gives the same outputs and leaves the same state. */
  lemma FirSplits(h: seq<Q15>, c: seq<Q15>, x: seq<Q15>, y: seq<Q15>, fast: bool)
    requires |h| + 1 == |c|
    ensures FirOut(h, c, x + y, fast) == FirOut(h, c, x, fast) + FirOut(Last(h, x), c, y, fast)
    ensures Last(h, x + y) == Last(Last(h, x), y)
  {
    var all, one, two := h + (x + y), h + x, Last(h, x) + y;
    assert all == one + y && two == all[|x|..];
    forall n | 0 <= n < |x| + |y|
      ensures FirOut(h, c, x + y, fast)[n] == (FirOut(h, c, x, fast) + FirOut(Last(h, x), c, y, fast))[n]
    {
      if n < |x| {
        TakeSlice(one, y, n, n + |c|);
        DotSame(all, n, one, n, c, |c|);
      } else {
        DropSlice(all, |x|, n - |x|, n - |x| + |c|);
        DotSame(all, n, two, n - |x|, c, |c|);
      }
    }
  }

  /** The accumulator of 64 bits holds every sum of fewer than 2^33 products exactly. */
  lemma {:induction false} DotFits(s: seq<Q15>, k: nat, c: seq<Q15>, n: nat)
    requires k + n <= |s| && n <= |c| && n < 0x2_0000_0000
    ensures -0x4000_0000 * n <= Dot(s, k, c, n) <= 0x4000_0000 * n
    ensures -0x8000_0000_0000_0000 <= Dot(s, k, c, n) < 0x8000_0000_0000_0000
  {
    hide Times;
    if n > 0 {
      DotFits(s, k, c, n - 1);
      ProductFits(s[k + n - 1], c[n - 1]);
    }
  }

  lemma NonNegative(x: nat, y: nat)
    ensures x * y >= 0
  {}

  lemma ProductFits(a: Q15, b: Q15)
    ensures -0x4000_0000 <= Times(a, b) <= 0x4000_0000
  {
    var m: int, u: int, v: int := TWO15, a, b;
    NonNegative(m - u, m + v);
    NonNegative(m + u, m - v);
    NonNegative(m - u, m - v);
    NonNegative(m + u, m + v);
    assert (m - u) * (m + v) + (m + u) * (m - v) == 2 * (m * m) - 2 * (u * v);
    assert (m - u) * (m - v) + (m + u) * (m + v) == 2 * (m * m) + 2 * (u * v);
  }

  /** The convolution sum at time n for the impulse response b, with silence before the start. */
  function Convolution(b: seq<Q15>, x: seq<Q15>, n: nat, k: nat): int
    requires n < |x| && k <= |b|
  {
    if k == 0 then 0
    else Convolution(b, x, n, k - 1) + (if k - 1 <= n then b[k - 1] as int * x[n - (k - 1)] as int else 0)
  }

  function Reversed(b: seq<Q15>): (c: seq<Q15>)
    ensures |c| == |b|
  {
    seq(|b|, i requires 0 <= i < |b| => b[|b| - 1 - i])
  }

  function Zeros(n: nat): (z: seq<Q15>)
    ensures |z| == n && forall i :: 0 <= i < n ==> z[i] == 0
  {
    seq(n, _ => 0)
  }

  lemma ZeroProduct(b: int)
    ensures Times(0, b) == 0
  {}

  lemma ProductSwaps(a: int, b: int)
    ensures Times(a, b) == Times(b, a)
  {}

  lemma ConvolutionNext(b: seq<Q15>, x: seq<Q15>, n: nat, k: nat)
    requires n < |x| && 0 < k <= |b|
    ensures Convolution(b, x, n, k) ==
      Convolution(b, x, n, k - 1) + if k - 1 <= n then Times(b[k - 1], x[n - (k - 1)]) else 0
  {}

  /** The last k products, from the newest sample back. */
  lemma {:induction false} DotBackwards(b: seq<Q15>, x: seq<Q15>, n: nat, k: nat)
    requires n < |x| && k <= |b| && b != []
    ensures var s, c, m := Zeros(|b| - 1) + x, Reversed(b), |b|;
      Dot(s, n, c, m) == Dot(s, n, c, m - k) + Convolution(b, x, n, k)
  {
    hide Times;
    if k > 0 {
      DotBackwards(b, x, n, k - 1);
      ConvolutionNext(b, x, n, k);
      hide Convolution;
      var s, c, m := Zeros(|b| - 1) + x, Reversed(b), |b|;
      assert Dot(s, n, c, m - (k - 1)) == Dot(s, n, c, m - k) + Times(s[n + m - k], c[m - k]);
      assert c[m - k] == b[k - 1];
      ZeroProduct(c[m - k]);
      ProductSwaps(s[n + m - k], c[m - k]);
      assert s[n + m - k] == if k - 1 <= n then x[n - (k - 1)] else 0;
    }
  }

  function Distance(a: int, b: int): nat { if a < b then b - a else a - b }

  /** No 16 bit value is nearer to v. */
  ghost predicate Nearest(y: Q15, v: int) { forall q: Q15 :: Distance(y, v) <= Distance(q, v) }

  lemma SatIsNearest(v: int)
    ensures Nearest(Sat15(v), v)
  {
    forall q: Q15 ensures Distance(Sat15(v), v) <= Distance(q, v) {
      var i: int := q;
      assert -32768 <= i < 32768;
    }
  }

  /** From rest, the filter with time reversed coefficients is the convolution with the impulse
      response, scaled down by 2^15 with rounding down: the nearest 16 bit value. */
  lemma FirIsConvolution(b: seq<Q15>, x: seq<Q15>, n: nat)
    requires b != [] && n < |x|
    ensures Nearest(FirOut(Zeros(|b| - 1), Reversed(b), x, false)[n], Convolution(b, x, n, |b|) / 0x8000)
  {
    hide Convolution, Nearest;
    DotBackwards(b, x, n, |b|);
    SatIsNearest(Convolution(b, x, n, |b|) / 0x8000);
  }

  /** The fast form agrees with the exact one wherever the sum fits 32 bits. */
  lemma FastAgrees(h: seq<Q15>, c: seq<Q15>, x: seq<Q15>, n: nat)
    requires |h| + 1 == |c| && n < |x| && -TWO31 <= Dot(h + x, n, c, |c|) < TWO31
    ensures FirOut(h, c, x, true)[n] == FirOut(h, c, x, false)[n]
  {}

  lemma WrapAdd(a: int, p: int)
    ensures (a % TWO32 + p % TWO32) % TWO32 == (a + p) % TWO32
  {
    var q := a / TWO32 + p / TWO32;
    assert a % TWO32 + p % TWO32 == a + p - q * TWO32;
  }

  /** One call of the filter: the outputs, and the newest samples moved to the front of the
      state. */
  method DspFirQ15(state: array<Q15>, c: seq<Q15>, src: array<Q15>, dst: array<Q15>, blockSize: nat, acc32: bool)
    requires 0 < |c| && |c| - 1 + blockSize <= state.Length && blockSize <= src.Length && blockSize <= dst.Length
    requires state != src && state != dst && src != dst
    modifies state, dst
    ensures var h, x := old(state[..|c| - 1]), src[..blockSize];
      && dst[..blockSize] == FirOut(h, c, x, acc32)
      && state[..|c| - 1] == Last(h, x)
    ensures dst[blockSize..] == old(dst[blockSize..])
  {
    hide *;
    ghost var h, x := state[..|c| - 1], src[..blockSize];
    ghost var all, was, want := h + x, dst[..], FirOut(h, c, x, acc32);
    var m := |c| - 1;
    FirSize(h, c, x, acc32);
    for n := 0 to blockSize
      invariant src[..blockSize] == x && state[..m + n] == all[..m + n]
      invariant dst[..] == want[..n] + was[n..]
    {
      state[m + n] := src[n];
      Grow(state[..], all, m + n, src[n]);
      FirStep(state, c, dst, n, acc32, h, x, was);
    }
    assert state[..m + blockSize][blockSize..] == Last(h, x) by { LastIs(h, x); }
    MoveDown(state, blockSize, m);
  }

  /** The output for one sample. */
  method FirStep(state: array<Q15>, c: seq<Q15>, dst: array<Q15>, n: nat, acc32: bool,
                 ghost h: seq<Q15>, ghost x: seq<Q15>, ghost was: seq<Q15>)
    requires |h| + 1 == |c| && n < |x| <= dst.Length == |was| && n + |c| <= state.Length && state != dst
    requires state[..n + |c|] == (h + x)[..n + |c|]
    requires |FirOut(h, c, x, acc32)| == |x| && dst[..] == FirOut(h, c, x, acc32)[..n] + was[n..]
    modifies dst
    ensures dst[..] == FirOut(h, c, x, acc32)[..n + 1] + was[n + 1..]
  {
    hide *;
    var y := FirSample(state, c, n, acc32, h + x);
    FirAt(h, c, x, n, acc32);
    dst[n] := y;
    Fill(dst[..], FirOut(h, c, x, acc32), was, n);
  }

  lemma FirSize(h: seq<Q15>, c: seq<Q15>, x: seq<Q15>, fast: bool)
    requires |h| + 1 == |c|
    ensures |FirOut(h, c, x, fast)| == |x|
  {}

  lemma LastIs(h: seq<Q15>, x: seq<Q15>)
    ensures Last(h, x) == (h + x)[|x|..]
  {}

  lemma Grow(s: seq<Q15>, all: seq<Q15>, n: nat, v: Q15)
    requires n < |s| && n < |all| && s[..n] == all[..n] && s[n] == v == all[n]
    ensures s[..n + 1] == all[..n + 1]
  {}

  lemma Fill(now: seq<Q15>, want: seq<Q15>, was: seq<Q15>, n: nat)
    requires n < |want| <= |was| && now == (want[..n] + was[n..])[n := want[n]]
    ensures now == want[..n + 1] + was[n + 1..]
  {}

  /** The inner loop: one output from the state at n. */
  method FirSample(state: array<Q15>, c: seq<Q15>, n: nat, acc32: bool, ghost all: seq<Q15>) returns (y: Q15)
    requires n + |c| <= |all| && n + |c| <= state.Length && state[..n + |c|] == all[..n + |c|]
    ensures y == Scaled(Dot(all, n, c, |c|), acc32)
  {
    hide Dot, Times, Sat15, Wrap32;
    var acc, acc32u := 0, 0;
    DotNone(all, n, c);
    for i := 0 to |c|
      invariant !acc32 ==> acc == Dot(all, n, c, i)
      invariant acc32 ==> acc32u == Dot(all, n, c, i) % TWO32
    {
      DotNext(all, n, c, i);
      assert state[n + i] == state[..n + |c|][n + i] == all[..n + |c|][n + i] == all[n + i];
      if acc32 {
        WrapAdd(Dot(all, n, c, i), Times(state[n + i], c[i]));
        acc32u := (acc32u + Times(state[n + i], c[i]) % TWO32) % TWO32;
      } else {
        acc := acc + Times(state[n + i], c[i]);
      }
    }
    if acc32 {
      WrapMod(Dot(all, n, c, |c|));
      y := Sat15(Wrap32(acc32u) / TWO15);
    } else {
      y := Sat15(acc / TWO15);
    }
  }

  lemma DotNext(s: seq<Q15>, k: nat, c: seq<Q15>, i: nat)
    requires k + i < |s| && i < |c|
    ensures Dot(s, k, c, i + 1) == Dot(s, k, c, i) + Times(s[k + i], c[i])
  {}

  lemma DotNone(s: seq<Q15>, k: nat, c: seq<Q15>)
    requires k <= |s|
    ensures Dot(s, k, c, 0) == 0
  {}

  lemma FirAt(h: seq<Q15>, c: seq<Q15>, x: seq<Q15>, n: nat, fast: bool)
    requires |h| + 1 == |c| && n < |x|
    ensures FirOut(h, c, x, fast)[n] == Scaled(Dot(h + x, n, c, |c|), fast)
  {}

  lemma WrapMod(v: int)
    ensures Wrap32(v % TWO32) == Wrap32(v)
  {}
}
