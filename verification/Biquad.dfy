/** The biquad cascade: the kernel runs a whole block through one stage after another, in place;
    that equals running every sample through all the stages in turn. */
module Biquad {
  import opened Words

  type Q31 = v: int | -0x8000_0000 <= v < 0x8000_0000

  datatype Coeffs = Coeffs(b0: Q31, b1: Q31, b2: Q31, a1: Q31, a2: Q31)

  /** The two newest inputs and outputs of a stage. */
  datatype Delay = Delay(x1: Q31, x2: Q31, y1: Q31, y2: Q31)

  /** The 64 bit sum of products, shifted down and cut to 32 bits: both can wrap. */
  function Output(c: Coeffs, d: Delay, x: Q31, lShift: nat): Q31 {
    var acc := Times(c.b0, x) + Times(c.b1, d.x1) + Times(c.b2, d.x2) + Times(c.a1, d.y1) + Times(c.a2, d.y2);
    Wrap32(Wrap64(acc) / Pow2(lShift))
  }

  function Times(a: int, b: int): int { a * b }

  function Moved(d: Delay, x: Q31, y: Q31): Delay { Delay(x, d.x1, y, d.y1) }

  /** A block through one stage. */
  function StageOut(c: Coeffs, d: Delay, xs: seq<Q31>, sh: nat): (ys: seq<Q31>)
    ensures |ys| == |xs|
    decreases |xs|
  {
    if xs == [] then []
    else var y := Output(c, d, xs[0], sh); [y] + StageOut(c, Moved(d, xs[0], y), xs[1..], sh)
  }

  function StageState(c: Coeffs, d: Delay, xs: seq<Q31>, sh: nat): Delay
    decreases |xs|
  {
    if xs == [] then d else StageState(c, Moved(d, xs[0], Output(c, d, xs[0], sh)), xs[1..], sh)
  }

  /** A block through all the stages, stage by stage: what the kernel does. */
  function CascadeOut(cs: seq<Coeffs>, ds: seq<Delay>, xs: seq<Q31>, sh: nat): (ys: seq<Q31>)
    requires |cs| == |ds|
    ensures |ys| == |xs|
  {
    if cs == [] then xs else CascadeOut(cs[1..], ds[1..], StageOut(cs[0], ds[0], xs, sh), sh)
  }

  function CascadeState(cs: seq<Coeffs>, ds: seq<Delay>, xs: seq<Q31>, sh: nat): (r: seq<Delay>)
    requires |cs| == |ds|
    ensures |r| == |ds|
  {
    if cs == [] then []
    else [StageState(cs[0], ds[0], xs, sh)] + CascadeState(cs[1..], ds[1..], StageOut(cs[0], ds[0], xs, sh), sh)
  }

  /** One sample through all the stages. */
  function SampleOut(cs: seq<Coeffs>, ds: seq<Delay>, x: Q31, sh: nat): Q31
    requires |cs| == |ds|
  {
    if cs == [] then x else SampleOut(cs[1..], ds[1..], Output(cs[0], ds[0], x, sh), sh)
  }

  function SampleState(cs: seq<Coeffs>, ds: seq<Delay>, x: Q31, sh: nat): (r: seq<Delay>)
    requires |cs| == |ds|
    ensures |r| == |ds|
  {
    if cs == [] then []
    else var y := Output(cs[0], ds[0], x, sh); [Moved(ds[0], x, y)] + SampleState(cs[1..], ds[1..], y, sh)
  }

  /** Every sample through all the stages before the next one: the mathematical cascade. */
  function BySamplesOut(cs: seq<Coeffs>, ds: seq<Delay>, xs: seq<Q31>, sh: nat): (ys: seq<Q31>)
    requires |cs| == |ds|
    ensures |ys| == |xs|
    decreases |xs|
  {
    if xs == [] then []
    else [SampleOut(cs, ds, xs[0], sh)] + BySamplesOut(cs, SampleState(cs, ds, xs[0], sh), xs[1..], sh)
  }

  function BySamplesState(cs: seq<Coeffs>, ds: seq<Delay>, xs: seq<Q31>, sh: nat): (r: seq<Delay>)
    requires |cs| == |ds|
    ensures |r| == |ds|
    decreases |xs|
  {
    if xs == [] then ds else BySamplesState(cs, SampleState(cs, ds, xs[0], sh), xs[1..], sh)
  }

  lemma {:induction false} CascadeNothing(cs: seq<Coeffs>, ds: seq<Delay>, sh: nat)
    requires |cs| == |ds|
    ensures CascadeOut(cs, ds, [], sh) == [] && CascadeState(cs, ds, [], sh) == ds
  {
    if cs != [] { CascadeNothing(cs[1..], ds[1..], sh); }
  }

  /** The first sample can be taken out of the block and sent through the stages alone. */
  lemma {:induction false} FirstSample(cs: seq<Coeffs>, ds: seq<Delay>, xs: seq<Q31>, sh: nat)
    requires |cs| == |ds| && xs != []
    ensures CascadeOut(cs, ds, xs, sh) ==
      [SampleOut(cs, ds, xs[0], sh)] + CascadeOut(cs, SampleState(cs, ds, xs[0], sh), xs[1..], sh)
    ensures CascadeState(cs, ds, xs, sh) == CascadeState(cs, SampleState(cs, ds, xs[0], sh), xs[1..], sh)
  {
    if cs == [] {
      assert xs == [xs[0]] + xs[1..];
    } else {
      hide Output;
      var c, d, y := cs[0], ds[0], Output(cs[0], ds[0], xs[0], sh);
      var ys := StageOut(c, d, xs, sh);
      var rest, ss := StageOut(c, Moved(d, xs[0], y), xs[1..], sh), SampleState(cs, ds, xs[0], sh);
      assert ys == [y] + rest && ys[0] == y && ys[1..] == rest;
      assert ss[0] == Moved(d, xs[0], y) && ss[1..] == SampleState(cs[1..], ds[1..], y, sh);
      FirstSample(cs[1..], ds[1..], ys, sh);
    }
  }

  /** Stage by stage over the block equals sample by sample through the stages: the same outputs
      and the same final state. */
  lemma {:induction false} StagesAreSamples(cs: seq<Coeffs>, ds: seq<Delay>, xs: seq<Q31>, sh: nat)
    requires |cs| == |ds|
    ensures CascadeOut(cs, ds, xs, sh) == BySamplesOut(cs, ds, xs, sh)
    ensures CascadeState(cs, ds, xs, sh) == BySamplesState(cs, ds, xs, sh)
    decreases |xs|
  {
    if xs == [] {
      CascadeNothing(cs, ds, sh);
    } else {
      FirstSample(cs, ds, xs, sh);
      StagesAreSamples(cs, SampleState(cs, ds, xs[0], sh), xs[1..], sh);
    }
  }

  lemma {:induction false} SamplesSplit(cs: seq<Coeffs>, ds: seq<Delay>, xs: seq<Q31>, ys: seq<Q31>, sh: nat)
    requires |cs| == |ds|
    ensures BySamplesOut(cs, ds, xs + ys, sh) ==
      BySamplesOut(cs, ds, xs, sh) + BySamplesOut(cs, BySamplesState(cs, ds, xs, sh), ys, sh)
    ensures BySamplesState(cs, ds, xs + ys, sh) == BySamplesState(cs, BySamplesState(cs, ds, xs, sh), ys, sh)
    decreases |xs|
  {
    if xs == [] {
      assert xs + ys == ys;
    } else {
      assert (xs + ys)[1..] == xs[1..] + ys;
      SamplesSplit(cs, SampleState(cs, ds, xs[0], sh), xs[1..], ys, sh);
    }
  }

  /** Any split of the input into blocks gives the same outputs and the same final state. */
  lemma CascadeSplits(cs: seq<Coeffs>, ds: seq<Delay>, xs: seq<Q31>, ys: seq<Q31>, sh: nat)
    requires |cs| == |ds|
    ensures CascadeOut(cs, ds, xs + ys, sh) ==
      CascadeOut(cs, ds, xs, sh) + CascadeOut(cs, CascadeState(cs, ds, xs, sh), ys, sh)
    ensures CascadeState(cs, ds, xs + ys, sh) == CascadeState(cs, CascadeState(cs, ds, xs, sh), ys, sh)
  {
    StagesAreSamples(cs, ds, xs + ys, sh);
    StagesAreSamples(cs, ds, xs, sh);
    StagesAreSamples(cs, CascadeState(cs, ds, xs, sh), ys, sh);
    SamplesSplit(cs, ds, xs, ys, sh);
  }

  // ---- The difference equation ----

  /** Sample n of a signal, with two samples from before its start. */
  function Past(s: seq<Q31>, n: int, one: Q31, two: Q31): Q31
    requires -2 <= n < |s|
  {
    if n >= 0 then s[n] else if n == -1 then one else two
  }

  /** y is x filtered by the direct form: every output is the sum of the newest three inputs and
      the last two outputs with their coefficients, shifted down, both cut to their width. */
  ghost predicate Filters(b0: Q31, b1: Q31, b2: Q31, a1: Q31, a2: Q31, x: seq<Q31>, x1: Q31, x2: Q31,
                          y: seq<Q31>, y1: Q31, y2: Q31, shift: nat) {
    && |y| == |x|
    && forall n :: 0 <= n < |x| ==>
      y[n] == Wrap32(Wrap64(b0 * x[n] + b1 * Past(x, n - 1, x1, x2) + b2 * Past(x, n - 2, x1, x2)
                            + a1 * Past(y, n - 1, y1, y2) + a2 * Past(y, n - 2, y1, y2)) / Pow2(shift))
  }

  /** One term of it. */
  ghost predicate FilterAt(c: Coeffs, d: Delay, x: seq<Q31>, y: seq<Q31>, shift: nat, n: nat)
    requires n < |x| == |y|
  {
    y[n] == Output(c, Delay(Past(x, n - 1, d.x1, d.x2), Past(x, n - 2, d.x1, d.x2),
                            Past(y, n - 1, d.y1, d.y2), Past(y, n - 2, d.y1, d.y2)), x[n], shift)
  }

  lemma FilterTerms(c: Coeffs, d: Delay, x: seq<Q31>, y: seq<Q31>, shift: nat)
    requires |x| == |y| && forall n :: 0 <= n < |x| ==> FilterAt(c, d, x, y, shift, n)
    ensures Filters(c.b0, c.b1, c.b2, c.a1, c.a2, x, d.x1, d.x2, y, d.y1, d.y2, shift)
  {
    hide Past;
    forall n | 0 <= n < |x|
      ensures y[n] == Wrap32(Wrap64(
        c.b0 * x[n] + c.b1 * Past(x, n - 1, d.x1, d.x2) + c.b2 * Past(x, n - 2, d.x1, d.x2)
        + c.a1 * Past(y, n - 1, d.y1, d.y2) + c.a2 * Past(y, n - 2, d.y1, d.y2)) / Pow2(shift))
    {
      assert FilterAt(c, d, x, y, shift, n);
    }
  }

  lemma PastTail(s: seq<Q31>, n: int, one: Q31, two: Q31)
    requires s != [] && -1 <= n < |s|
    ensures Past(s, n, one, two) == Past(s[1..], n - 1, s[0], one)
  {}

  /** The block form of a stage obeys the difference equation. */
  lemma {:induction false} StageFilters(c: Coeffs, d: Delay, x: seq<Q31>, shift: nat, n: nat)
    requires n < |x|
    ensures FilterAt(c, d, x, StageOut(c, d, x, shift), shift, n)
    decreases |x|
  {
    hide Output;
    var y := StageOut(c, d, x, shift);
    if n > 0 {
      var e := Moved(d, x[0], y[0]);
      StageFilters(c, e, x[1..], shift, n - 1);
      assert y[1..] == StageOut(c, e, x[1..], shift);
      hide Past, StageOut;
      PastTail(x, n - 1, d.x1, d.x2);
      PastTail(x, n - 2, d.x1, d.x2);
      PastTail(y, n - 1, d.y1, d.y2);
      PastTail(y, n - 2, d.y1, d.y2);
    }
  }

  /** And its state ends with the two newest inputs and outputs. */
  lemma {:induction false} StageEnds(c: Coeffs, d: Delay, x: seq<Q31>, shift: nat)
    ensures var y, k := StageOut(c, d, x, shift), |x|;
      StageState(c, d, x, shift) == Delay(Past(x, k - 1, d.x1, d.x2), Past(x, k - 2, d.x1, d.x2),
                                          Past(y, k - 1, d.y1, d.y2), Past(y, k - 2, d.y1, d.y2))
    decreases |x|
  {
    hide Output;
    if x != [] {
      var y := StageOut(c, d, x, shift);
      StageEnds(c, Moved(d, x[0], y[0]), x[1..], shift);
    }
  }

  /** The input and what every stage makes of it. */
  function Signals(cs: seq<Coeffs>, ds: seq<Delay>, x: seq<Q31>, shift: nat): (s: seq<seq<Q31>>)
    requires |cs| == |ds|
    ensures |s| == |cs| + 1 && s[0] == x
  {
    if cs == [] then [x] else [x] + Signals(cs[1..], ds[1..], StageOut(cs[0], ds[0], x, shift), shift)
  }

  lemma {:induction false} SignalsAre(cs: seq<Coeffs>, ds: seq<Delay>, x: seq<Q31>, shift: nat, k: nat)
    requires |cs| == |ds| && k < |cs|
    ensures var s := Signals(cs, ds, x, shift);
      && s[k + 1] == StageOut(cs[k], ds[k], s[k], shift) && |s[k]| == |x| && s[|cs|] == CascadeOut(cs, ds, x, shift)
      && CascadeState(cs, ds, x, shift)[k] == StageState(cs[k], ds[k], s[k], shift)
  {
    hide StageOut, StageState;
    if k > 0 {
      SignalsAre(cs[1..], ds[1..], StageOut(cs[0], ds[0], x, shift), shift, k - 1);
    } else {
      LastSignal(cs, ds, x, shift);
    }
  }

  lemma {:induction false} LastSignal(cs: seq<Coeffs>, ds: seq<Delay>, x: seq<Q31>, shift: nat)
    requires |cs| == |ds|
    ensures Signals(cs, ds, x, shift)[|cs|] == CascadeOut(cs, ds, x, shift)
  {
    hide StageOut;
    if cs != [] { LastSignal(cs[1..], ds[1..], StageOut(cs[0], ds[0], x, shift), shift); }
  }

  /** Stage k of the flat arrays filters one signal into the next and leaves the newest samples of
      both in its four state words. */
  ghost predicate StageIs(c: seq<Q31>, was: seq<Q31>, now: seq<Q31>, k: nat, x: seq<Q31>, y: seq<Q31>, shift: nat)
    requires 5 * k + 5 <= |c| && 4 * k + 4 <= |was| && 4 * k + 4 <= |now|
  {
    && Filters(c[5 * k], c[5 * k + 1], c[5 * k + 2], c[5 * k + 3], c[5 * k + 4],
               x, was[4 * k], was[4 * k + 1], y, was[4 * k + 2], was[4 * k + 3], shift)
    && now[4 * k] == Past(x, |x| - 1, was[4 * k], was[4 * k + 1])
    && now[4 * k + 1] == Past(x, |x| - 2, was[4 * k], was[4 * k + 1])
    && now[4 * k + 2] == Past(y, |y| - 1, was[4 * k + 2], was[4 * k + 3])
    && now[4 * k + 3] == Past(y, |y| - 2, was[4 * k + 2], was[4 * k + 3])
  }

  /** A cascade: there are signals, from the input to the output, each the next stage's input. */
  ghost predicate CascadeIs(c: seq<Q31>, was: seq<Q31>, now: seq<Q31>, stages: nat, x: seq<Q31>, y: seq<Q31>,
                            shift: nat)
    requires 5 * stages <= |c| && 4 * stages <= |was| && 4 * stages <= |now|
  {
    exists s: seq<seq<Q31>> :: |s| == stages + 1 && s[0] == x && s[stages] == y &&
      forall k :: 0 <= k < stages ==> StageIs(c, was, now, k, s[k], s[k + 1], shift)
  }

  lemma CascadeEquation(c: seq<Q31>, was: seq<Q31>, now: seq<Q31>, stages: nat, x: seq<Q31>, y: seq<Q31>, shift: nat)
    requires 5 * stages <= |c| && 4 * stages <= |was| && 4 * stages <= |now|
    requires y == CascadeOut(CoeffsOf(c, stages), DelaysOf(was, stages), x, shift)
    requires DelaysOf(now, stages) == CascadeState(CoeffsOf(c, stages), DelaysOf(was, stages), x, shift)
    ensures CascadeIs(c, was, now, stages, x, y, shift)
  {
    var cs, ds := CoeffsOf(c, stages), DelaysOf(was, stages);
    var s := Signals(cs, ds, x, shift);
    LastSignal(cs, ds, x, shift);
    hide CascadeOut, CascadeState, Signals, StageIs;
    forall k | 0 <= k < stages ensures StageIs(c, was, now, k, s[k], s[k + 1], shift) {
      SignalsAre(cs, ds, x, shift, k);
      StageEquation(c, was, now, k, s[k], shift);
    }
  }

  lemma StageEquation(c: seq<Q31>, was: seq<Q31>, now: seq<Q31>, k: nat, x: seq<Q31>, shift: nat)
    requires 5 * k + 5 <= |c| && 4 * k + 4 <= |was| && 4 * k + 4 <= |now|
    requires DelayAt(now, k) == StageState(CoeffsAt(c, k), DelayAt(was, k), x, shift)
    ensures StageIs(c, was, now, k, x, StageOut(CoeffsAt(c, k), DelayAt(was, k), x, shift), shift)
  {
    var b, d := CoeffsAt(c, k), DelayAt(was, k);
    var y := StageOut(b, d, x, shift);
    StageEnds(b, d, x, shift);
    hide StageOut, StageState, Past, FilterAt, Filters;
    forall n | 0 <= n < |x| ensures FilterAt(b, d, x, y, shift, n) { StageFilters(b, d, x, shift, n); }
    FilterTerms(b, d, x, y, shift);
  }

  /** The flat coefficient and state arrays. */
  function CoeffsAt(c: seq<Q31>, k: nat): Coeffs
    requires 5 * k + 5 <= |c|
  {
    Coeffs(c[5 * k], c[5 * k + 1], c[5 * k + 2], c[5 * k + 3], c[5 * k + 4])
  }

  function CoeffsOf(c: seq<Q31>, n: nat): (cs: seq<Coeffs>)
    requires 5 * n <= |c|
    ensures |cs| == n && forall k :: 0 <= k < n ==> cs[k] == CoeffsAt(c, k)
  {
    seq(n, k requires 0 <= k < n => CoeffsAt(c, k))
  }

  function DelayAt(s: seq<Q31>, k: nat): Delay
    requires 4 * k + 4 <= |s|
  {
    Delay(s[4 * k], s[4 * k + 1], s[4 * k + 2], s[4 * k + 3])
  }

  function DelaysOf(s: seq<Q31>, n: nat): (ds: seq<Delay>)
    requires 4 * n <= |s|
    ensures |ds| == n && forall k :: 0 <= k < n ==> ds[k] == DelayAt(s, k)
  {
    seq(n, k requires 0 <= k < n => DelayAt(s, k))
  }

  /** One more sample of a stage. */
  lemma StageNext(c: Coeffs, d: Delay, xs: seq<Q31>, n: nat, sh: nat)
    requires n < |xs|
    ensures var y := Output(c, d, xs[n], sh);
      && StageOut(c, d, xs[n..], sh) == [y] + StageOut(c, Moved(d, xs[n], y), xs[n + 1..], sh)
      && StageState(c, d, xs[n..], sh) == StageState(c, Moved(d, xs[n], y), xs[n + 1..], sh)
  {
    hide Output;
    assert xs[n..][0] == xs[n] && xs[n..][1..] == xs[n + 1..];
  }

  /** The inner loop: the block through one stage, which may work in place. */
  method RunStage(c: Coeffs, d0: Delay, pIn: array<Q31>, dst: array<Q31>, blockSize: nat, lShift: nat)
    returns (d: Delay)
    requires blockSize <= pIn.Length && blockSize <= dst.Length
    modifies dst
    ensures dst[..blockSize] == StageOut(c, d0, old(pIn[..blockSize]), lShift)
    ensures d == StageState(c, d0, old(pIn[..blockSize]), lShift)
    ensures dst[blockSize..] == old(dst[blockSize..])
  {
    hide Output, Moved;
    ghost var xs, was := pIn[..blockSize], dst[..];
    d := d0;
    assert xs[0..] == xs;
    for n := 0 to blockSize
      invariant StageOut(c, d0, xs, lShift) == dst[..n] + StageOut(c, d, xs[n..], lShift)
      invariant StageState(c, d0, xs, lShift) == StageState(c, d, xs[n..], lShift)
      invariant pIn[n..blockSize] == xs[n..] && dst[n..] == was[n..]
    {
      var x := pIn[n];
      assert x == pIn[n..blockSize][0] == xs[n];
      StageNext(c, d, xs, n, lShift);
      ghost var done := dst[..n];
      var y := Output(c, d, x, lShift);
      dst[n] := y;
      assert dst[..n + 1] == done + [y];
      assert pIn[n + 1..blockSize] == xs[n..][1..] && dst[n + 1..] == was[n..][1..];
      d := Moved(d, x, y);
    }
    assert xs[blockSize..] == [];
  }

  lemma CascadeNext(cs: seq<Coeffs>, ds: seq<Delay>, xs: seq<Q31>, k: nat, sh: nat)
    requires |cs| == |ds| && k < |cs|
    ensures var ys := StageOut(cs[k], ds[k], xs, sh);
      && CascadeOut(cs[k..], ds[k..], xs, sh) == CascadeOut(cs[k + 1..], ds[k + 1..], ys, sh)
      && CascadeState(cs[k..], ds[k..], xs, sh) ==
         [StageState(cs[k], ds[k], xs, sh)] + CascadeState(cs[k + 1..], ds[k + 1..], ys, sh)
  {
    assert cs[k..][0] == cs[k] && cs[k..][1..] == cs[k + 1..] && ds[k..][0] == ds[k] && ds[k..][1..] == ds[k + 1..];
  }

  /** The state of stage k written back, the others as they were. */
  method StoreDelay(pState: array<Q31>, k: nat, d: Delay, ghost n: nat)
    requires k < n && 4 * n <= pState.Length
    modifies pState
    ensures DelaysOf(pState[..], n) == DelaysOf(old(pState[..]), n)[k := d]
  {
    pState[4 * k], pState[4 * k + 1], pState[4 * k + 2], pState[4 * k + 3] := d.x1, d.x2, d.y1, d.y2;
    assert forall i :: 0 <= i < n && i != k ==> DelayAt(pState[..], i) == DelayAt(old(pState[..]), i);
  }

  /** The body of the loop over the stages. */
  method OneStage(pState: array<Q31>, pCoeffs: seq<Q31>, numStages: nat, stage: nat,
                  pIn: array<Q31>, dst: array<Q31>, blockSize: nat, lShift: nat) returns (ghost d: Delay)
    requires stage < numStages && 5 * numStages <= |pCoeffs| && 4 * numStages <= pState.Length
    requires blockSize <= pIn.Length && blockSize <= dst.Length && pState != dst && pState != pIn
    modifies pState, dst
    ensures dst[..blockSize] ==
      StageOut(CoeffsAt(pCoeffs, stage), DelaysOf(old(pState[..]), numStages)[stage], old(pIn[..blockSize]), lShift)
    ensures d ==
      StageState(CoeffsAt(pCoeffs, stage), DelaysOf(old(pState[..]), numStages)[stage], old(pIn[..blockSize]), lShift)
    ensures DelaysOf(pState[..], numStages) == DelaysOf(old(pState[..]), numStages)[stage := d]
  {
    StageFacts(pCoeffs, pState[..], numStages, stage);
    hide StageOut, StageState, CoeffsAt, DelayAt;
    var c, d0 := CoeffsAt(pCoeffs, stage), DelayAt(pState[..], stage);
    ghost var now := pState[..];
    var d1 := RunStage(c, d0, pIn, dst, blockSize, lShift);
    assert pState[..] == now;
    StoreDelay(pState, stage, d1, numStages);
    d := d1;
  }

  /** The cascade over a block. */
  method ArmBiquadCascadeDf1Q31(pState: array<Q31>, pCoeffs: seq<Q31>, numStages: nat, postShift: nat,
                                src: array<Q31>, dst: array<Q31>, blockSize: nat)
    requires numStages > 0 && 5 * numStages <= |pCoeffs| && 4 * numStages <= pState.Length && postShift <= 31
    requires blockSize <= src.Length && blockSize <= dst.Length && pState != dst && pState != src
    modifies pState, dst
    ensures dst[..blockSize] ==
      BySamplesOut(CoeffsOf(pCoeffs, numStages), DelaysOf(old(pState[..]), numStages), old(src[..blockSize]),
                   31 - postShift)
    ensures DelaysOf(pState[..], numStages) ==
      BySamplesState(CoeffsOf(pCoeffs, numStages), DelaysOf(old(pState[..]), numStages), old(src[..blockSize]),
                     31 - postShift)
    ensures CascadeIs(pCoeffs, old(pState[..]), pState[..], numStages, old(src[..blockSize]), dst[..blockSize],
                      31 - postShift)
  {
    hide *;
    ghost var words := pState[..];
    var uShift := postShift + 1;
    var lShift := 32 - uShift;
    ghost var cs, ds, xs := CoeffsOf(pCoeffs, numStages), DelaysOf(pState[..], numStages), src[..blockSize];
    ghost var block, done: seq<Delay> := xs, [];
    StageFacts(pCoeffs, pState[..], numStages, 0);
    MidwayStart(cs, ds, xs, lShift);
    var pIn, stage := src, 0;
    while stage < numStages
      invariant stage <= numStages && (pIn == src || pIn == dst)
      invariant pIn[..blockSize] == block && (stage == numStages ==> pIn == dst)
      invariant Midway(cs, ds, xs, lShift, stage, block, done)
      invariant |DelaysOf(pState[..], numStages)| == numStages && DelaysOf(pState[..], numStages) == done + ds[stage..]
    {
      ghost var ds0 := DelaysOf(pState[..], numStages);
      StageFacts(pCoeffs, pState[..], numStages, stage);
      Replaced(ds0, done, ds, stage);
      var d := OneStage(pState, pCoeffs, numStages, stage, pIn, dst, blockSize, lShift);
      StageFacts(pCoeffs, pState[..], numStages, stage);
      MidwayStep(cs, ds, xs, lShift, stage, block, done);
      block, done := dst[..blockSize], done + [d];
      pIn := dst;
      stage := stage + 1;
    }
    AfterStages(pCoeffs, words, pState[..], numStages, xs, block, done, lShift);
  }

  /** After some stages: what the stages behind them make of the block now is what all make of
      the input. */
  ghost predicate Midway(cs: seq<Coeffs>, ds: seq<Delay>, xs: seq<Q31>, sh: nat, stage: nat, block: seq<Q31>,
                         done: seq<Delay>) {
    && |done| == stage <= |cs| == |ds|
    && CascadeOut(cs, ds, xs, sh) == CascadeOut(cs[stage..], ds[stage..], block, sh)
    && CascadeState(cs, ds, xs, sh) == done + CascadeState(cs[stage..], ds[stage..], block, sh)
  }

  lemma MidwayStart(cs: seq<Coeffs>, ds: seq<Delay>, xs: seq<Q31>, sh: nat)
    requires |cs| == |ds|
    ensures Midway(cs, ds, xs, sh, 0, xs, []) && ds[0..] == ds
  {
    assert cs[0..] == cs && ds[0..] == ds;
  }

  lemma MidwayStep(cs: seq<Coeffs>, ds: seq<Delay>, xs: seq<Q31>, sh: nat, stage: nat, block: seq<Q31>,
                   done: seq<Delay>)
    requires Midway(cs, ds, xs, sh, stage, block, done) && stage < |cs|
    ensures |ds| == |cs| && |done| == stage
    ensures Midway(cs, ds, xs, sh, stage + 1, StageOut(cs[stage], ds[stage], block, sh),
                   done + [StageState(cs[stage], ds[stage], block, sh)])
  {
    hide StageOut, StageState, CascadeOut, CascadeState;
    CascadeNext(cs, ds, block, stage, sh);
  }

  lemma MidwayDone(cs: seq<Coeffs>, ds: seq<Delay>, xs: seq<Q31>, sh: nat, block: seq<Q31>, done: seq<Delay>)
    requires Midway(cs, ds, xs, sh, |cs|, block, done)
    ensures |ds| == |cs| && CascadeOut(cs, ds, xs, sh) == block && CascadeState(cs, ds, xs, sh) == done + ds[|cs|..]
  {
    assert cs[|cs|..] == [] && ds[|cs|..] == [];
  }

  lemma AfterStages(c: seq<Q31>, was: seq<Q31>, now: seq<Q31>, stages: nat, x: seq<Q31>, block: seq<Q31>,
                    done: seq<Delay>, sh: nat)
    requires 0 < stages && 5 * stages <= |c| && 4 * stages <= |was| && 4 * stages <= |now|
    requires |CoeffsOf(c, stages)| == |DelaysOf(was, stages)| == stages
    requires Midway(CoeffsOf(c, stages), DelaysOf(was, stages), x, sh, stages, block, done)
    requires DelaysOf(now, stages) == done + DelaysOf(was, stages)[stages..]
    ensures block == BySamplesOut(CoeffsOf(c, stages), DelaysOf(was, stages), x, sh)
    ensures DelaysOf(now, stages) == BySamplesState(CoeffsOf(c, stages), DelaysOf(was, stages), x, sh)
    ensures CascadeIs(c, was, now, stages, x, block, sh)
  {
    hide *;
    var cs, ds := CoeffsOf(c, stages), DelaysOf(was, stages);
    MidwayDone(cs, ds, x, sh, block, done);
    StagesAreSamples(cs, ds, x, sh);
    CascadeEquation(c, was, now, stages, x, block, sh);
  }

  lemma Replaced(now: seq<Delay>, done: seq<Delay>, ds: seq<Delay>, stage: nat)
    requires |now| == |ds| && |done| == stage < |ds| && now == done + ds[stage..]
    ensures now[stage] == ds[stage] && forall d :: now[stage := d] == (done + [d]) + ds[stage + 1..]
  {}

  lemma StageFacts(pCoeffs: seq<Q31>, state: seq<Q31>, n: nat, k: nat)
    requires 5 * n <= |pCoeffs| && 4 * n <= |state| && k < n
    ensures |CoeffsOf(pCoeffs, n)| == n == |DelaysOf(state, n)|
    ensures CoeffsOf(pCoeffs, n)[k] == CoeffsAt(pCoeffs, k) && DelaysOf(state, n)[k] == DelayAt(state, k)
  {}
}
