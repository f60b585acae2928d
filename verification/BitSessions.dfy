/** Whole sessions of the bit receiver, from the received bits to the callbacks. */
module BitSessions {
  import opened Bits
  import opened BitWindow
  import opened BitReceiver

  /** Where frame j of a signal begins whose first frame begins at p. */
  function FrameAt(c: Config, p: nat, j: nat): nat { p + j * c.frameBits }

  lemma FrameAfter(c: Config, p: nat, j: nat)
    ensures FrameAt(c, p, 0) == p && FrameAt(c, p, j + 1) == FrameAt(c, p, j) + c.frameBits && FrameAt(c, p, j) >= p
  {
    assert (j + 1) * c.frameBits == j * c.frameBits + c.frameBits;
  }

  /** The sync word of frame j is heard. */
  ghost predicate SyncAt(c: Config, bits: seq<bool>, p: nat, j: nat) {
    FrameAt(c, p, j) + c.syncBits <= |bits| && Heard(c, bits[..FrameAt(c, p, j) + c.syncBits], 0, c.runErrs)
  }

  /** A signal whose first frame begins at p: no sync word before that one, and then none within
      two bits of its place that is not at its place. */
  ghost predicate Signal(c: Config, bits: seq<bool>, p: nat) {
    && (forall i: nat | i <= |bits| && i < p + c.syncBits :: Heard(c, bits[..i], 0, c.startErrs) ==> i == 0)
    && (p + c.syncBits <= |bits| ==> Heard(c, bits[..p + c.syncBits], 0, c.startErrs))
    && forall j: nat, i: nat | p + c.syncBits < i <= |bits| && FrameAt(c, p, j) <= i && Near(c, i - FrameAt(c, p, j)) ::
      Heard(c, bits[..i], 0, c.runErrs) ==> i == FrameAt(c, p, j) + c.syncBits
  }

  /** How many sync words in a row are missing at frame j. */
  ghost function Missing(c: Config, bits: seq<bool>, p: nat, j: nat): nat {
    if j == 0 || SyncAt(c, bits, p, j) then 0 else Missing(c, bits, p, j - 1) + 1
  }

  /** The signal is lost with frame j. */
  ghost predicate LostAt(c: Config, bits: seq<bool>, p: nat, j: nat) { Missing(c, bits, p, j) + 1 >= c.maxFrames }

  ghost predicate Lasts(c: Config, bits: seq<bool>, p: nat, n: nat) {
    forall j: nat | j < n :: !LostAt(c, bits, p, j)
  }

  /** The bits a frame is delivered with in the place of its sync word: the sync word itself for
      the first frame, what was received for every other. */
  function HeadOf(c: Config, bits: seq<bool>, p: nat, j: nat): seq<bool>
    requires ValidConfig(c) && FrameAt(c, p, j) + c.syncBits <= |bits|
  {
    if j == 0 then SyncBits(c) else bits[FrameAt(c, p, j)..FrameAt(c, p, j) + c.syncBits]
  }

  /** Frame j with its bits as received. */
  ghost predicate SentAs(c: Config, bits: seq<bool>, p: nat, j: nat, e: Event)
    requires ValidConfig(c)
  {
    && FrameAt(c, p, j) + c.frameBits <= |bits| && e.Frame?
    && Delivered(c, e.bytes, HeadOf(c, bits, p, j), bits[..FrameAt(c, p, j) + c.frameBits])
  }

  /** The first n frames. */
  ghost predicate FramesAre(c: Config, bits: seq<bool>, p: nat, out: seq<Event>, n: nat)
    requires ValidConfig(c)
  {
    |out| == n && forall j :: 0 <= j < n ==> SentAs(c, bits, p, j, out[j])
  }

  // ---- Bits in front of a stream do not matter ----

  lemma {:induction false} ApartShift(c: Config, past: seq<bool>, b: seq<bool>, n: nat)
    ensures Apart(c, past + b, |past|, n) == Apart(c, b, 0, n)
  {
    hide WordBit;
    if n > 0 { ApartShift(c, past, b, n - 1); }
  }

  lemma HeardShift(c: Config, past: seq<bool>, b: seq<bool>, errs: nat)
    ensures Heard(c, past + b, |past|, errs) == Heard(c, b, 0, errs)
  {
    ApartShift(c, past, b, 64);
  }

  lemma DeliveredShift(c: Config, bytes: seq<bv8>, head: seq<bool>, past: seq<bool>, b: seq<bool>)
    requires ValidConfig(c) && c.frameBits <= |b|
    ensures Delivered(c, bytes, head, past + b) == Delivered(c, bytes, head, b)
  {
    hide BitAt;
    var s := past + b;
    if PayloadIs(c, bytes, s) {
      forall k | c.syncBits <= k < c.frameBits ensures BitAt(bytes, k) == b[|b| - c.frameBits + k] {
        assert BitAt(bytes, k) == s[|s| - c.frameBits + k];
      }
    }
    if PayloadIs(c, bytes, b) {
      forall k | c.syncBits <= k < c.frameBits ensures BitAt(bytes, k) == s[|s| - c.frameBits + k] {
        assert BitAt(bytes, k) == b[|b| - c.frameBits + k];
      }
    }
  }

  // ---- A run ----

  /** After i bits, in frame j. */
  ghost predicate InFrame(c: Config, past: seq<bool>, base: seq<Event>, bits: seq<bool>, p: nat, i: nat, j: nat,
                          v: View)
    requires ValidConfig(c)
  {
    var at := FrameAt(c, p, j);
    && p + c.syncBits <= i <= |bits| && at <= i < at + c.frameBits && Lasts(c, bits, p, j)
    && v.stream == past + bits[..i] && v.since == |past| && v.inFrame && v.ptr == i - at
    && v.ends == (if v.ptr >= c.syncBits then Missing(c, bits, p, j) else if j == 0 then 0
                  else Missing(c, bits, p, j - 1) + 1)
    && (v.ptr >= c.syncBits ==> v.head == HeadOf(c, bits, p, j))
    && (v.ptr < c.syncBits ==> j > 0 && v.head == bits[at..i])
    && |base| <= |v.out| && v.out[..|base|] == base && FramesAre(c, bits, p, v.out[|base|..], j)
  }

  /** After i bits, with the first frame still to come. */
  ghost predicate Before(c: Config, past: seq<bool>, base: seq<Event>, bits: seq<bool>, p: nat, i: nat, v: View) {
    && i <= |bits| && i < p + c.syncBits && v.stream == past + bits[..i] && v.since == |past|
    && !v.inFrame && v.out == base
  }

  /** Lost with frame j: what has been told, and the receiver searches from here on. */
  ghost predicate Ended(c: Config, base: seq<Event>, bits: seq<bool>, p: nat, j: nat, v: View)
    requires ValidConfig(c)
  {
    && Lasts(c, bits, p, j) && LostAt(c, bits, p, j) && !v.inFrame && v.since == |v.stream|
    && |v.out| == |base| + j + 1 && v.out[..|base|] == base && v.out[|base| + j] == Lost
    && FramesAre(c, bits, p, v.out[|base|..|base| + j], j)
  }

  lemma SearchStep(c: Config, past: seq<bool>, base: seq<Event>, bits: seq<bool>, p: nat, i: nat, v: View, w: View)
    requires ValidConfig(c) && Signal(c, bits, p) && i < |bits| && Before(c, past, base, bits, p, i, v)
    requires Moves(c, v, w, bits[i])
    ensures if i + 1 < p + c.syncBits then Before(c, past, base, bits, p, i + 1, w)
            else InFrame(c, past, base, bits, p, i + 1, 0, w)
  {
    hide Heard, SyncBits, FrameAt;
    FrameAfter(c, p, 0);
    assert w.stream == past + bits[..i + 1];
    HeardShift(c, past, bits[..i + 1], c.startErrs);
  }

  lemma CollectStep(c: Config, past: seq<bool>, base: seq<Event>, bits: seq<bool>, p: nat, i: nat, j: nat,
                    v: View, w: View)
    requires ValidConfig(c) && Signal(c, bits, p) && i < |bits| && InFrame(c, past, base, bits, p, i, j, v)
    requires Moves(c, v, w, bits[i]) && v.ptr + 1 < c.frameBits
    ensures InFrame(c, past, base, bits, p, i + 1, j, w)
  {
    hide Heard, SyncBits, FrameAt, Lasts, FramesAre, Finishes, Searches;
    FrameAfter(c, p, j);
    var at := FrameAt(c, p, j);
    assert w.stream == past + bits[..i + 1];
    HeardShift(c, past, bits[..i + 1], c.runErrs);
    assert i + 1 - at == v.ptr + 1;
    if v.ptr < c.syncBits { assert bits[at..i + 1] == bits[at..i] + [bits[i]]; }
    assert w.head == Longer(c, v.head, v.ptr, bits[i]) || v.ptr + 1 == c.syncBits;
  }

  lemma MissingBound(c: Config, bits: seq<bool>, p: nat, j: nat)
    requires ValidConfig(c) && Lasts(c, bits, p, j)
    ensures Missing(c, bits, p, j) + 1 <= c.maxFrames
  {
    hide SyncAt;
    if j > 0 { assert !LostAt(c, bits, p, j - 1); }
  }

  lemma OneMoreFrame(c: Config, bits: seq<bool>, p: nat, was: seq<Event>, now: seq<Event>, base: nat, j: nat)
    requires ValidConfig(c) && base <= |was| && FramesAre(c, bits, p, was[base..], j)
    requires |now| == |was| + 1 && now[..|was|] == was
    ensures now[..base] == was[..base] && |was| == base + j && now[base..base + j] == was[base..]
    ensures SentAs(c, bits, p, j, now[base + j]) ==> FramesAre(c, bits, p, now[base..], j + 1)
  {
    hide SentAs;
    assert now[base..] == was[base..] + [now[|was|]];
  }

  lemma FinishStep(c: Config, past: seq<bool>, base: seq<Event>, bits: seq<bool>, p: nat, i: nat, j: nat,
                   v: View, w: View)
    requires ValidConfig(c) && i < |bits| && InFrame(c, past, base, bits, p, i, j, v)
    requires Moves(c, v, w, bits[i]) && v.ptr + 1 == c.frameBits
    ensures i + 1 == FrameAt(c, p, j + 1)
    ensures if LostAt(c, bits, p, j) then Ended(c, base, bits, p, j, w)
            else InFrame(c, past, base, bits, p, i + 1, j + 1, w)
  {
    hide Heard, SyncBits, FrameAt, Collects, Searches, SyncAt, Delivered, FramesAre, Missing;
    FrameAfter(c, p, j);
    FrameAfter(c, p, j + 1);
    MissingBound(c, bits, p, j);
    assert w.stream == past + bits[..i + 1];
    if LostAt(c, bits, p, j) {
      OneMoreFrame(c, bits, p, v.out, w.out, |base|, j);
    } else {
      var bytes := w.out[|v.out|].bytes;
      DeliveredShift(c, bytes, v.head, past, bits[..i + 1]);
      assert SentAs(c, bits, p, j, w.out[|v.out|]);
      OneMoreFrame(c, bits, p, v.out, w.out, |base|, j);
    }
  }

  /** After i bits: the first frame is awaited, frame j is being collected, or the signal was lost
      with frame j. */
  ghost predicate Run(c: Config, past: seq<bool>, base: seq<Event>, bits: seq<bool>, p: nat, i: nat, j: nat, v: View)
    requires ValidConfig(c)
  {
    if i < p + c.syncBits then Before(c, past, base, bits, p, i, v)
    else
      || InFrame(c, past, base, bits, p, i, j, v)
      || (&& Lasts(c, bits, p, j) && LostAt(c, bits, p, j) && FrameAt(c, p, j + 1) <= i
          && (i == FrameAt(c, p, j + 1) ==> Ended(c, base, bits, p, j, v)))
  }

  lemma RunStep(c: Config, past: seq<bool>, base: seq<Event>, bits: seq<bool>, p: nat, i: nat, j: nat, v: View, w: View)
    returns (next: nat)
    requires ValidConfig(c) && Signal(c, bits, p) && i < |bits| && Run(c, past, base, bits, p, i, j, v)
    requires Moves(c, v, w, bits[i])
    ensures Run(c, past, base, bits, p, i + 1, next, w)
  {
    hide Before, Ended, Signal, Moves, Lasts, LostAt;
    next := j;
    if i < p + c.syncBits {
      SearchStep(c, past, base, bits, p, i, v, w);
      next := 0;
    } else if InFrame(c, past, base, bits, p, i, j, v) {
      if v.ptr + 1 < c.frameBits {
        CollectStep(c, past, base, bits, p, i, j, v, w);
      } else {
        FinishStep(c, past, base, bits, p, i, j, v, w);
        if !LostAt(c, bits, p, j) { next := j + 1; }
      }
    }
  }

  lemma {:induction false} FramesFollow(c: Config, p: nat, a: nat, b: nat)
    ensures a < b ==> FrameAt(c, p, a) + c.frameBits <= FrameAt(c, p, b)
    decreases b
  {
    if a < b {
      FrameAfter(c, p, b - 1);
      FramesFollow(c, p, a, b - 1);
    }
  }

  /** After all the bits, n frames are complete and the signal was not lost with any of them. */
  ghost predicate Complete(c: Config, bits: seq<bool>, p: nat, n: nat) {
    Lasts(c, bits, p, n) && (n > 0 ==> FrameAt(c, p, n) <= |bits|) && |bits| < FrameAt(c, p, n + 1)
  }

  /** What has been told since base when n frames are complete. */
  ghost predicate ToldFrames(c: Config, base: seq<Event>, bits: seq<bool>, p: nat, n: nat, out: seq<Event>)
    requires ValidConfig(c)
  {
    |base| <= |out| && out[..|base|] == base && FramesAre(c, bits, p, out[|base|..], n)
  }

  lemma RunComplete(c: Config, past: seq<bool>, base: seq<Event>, bits: seq<bool>, p: nat, j: nat, v: View, n: nat)
    requires ValidConfig(c) && Run(c, past, base, bits, p, |bits|, j, v) && Complete(c, bits, p, n)
    ensures ToldFrames(c, base, bits, p, n, v.out)
  {
    hide FrameAt, LostAt, SentAs;
    FrameAfter(c, p, 0);
    FrameAfter(c, p, j);
    FrameAfter(c, p, n);
    FramesFollow(c, p, 0, n);
    FramesFollow(c, p, n, j);
    FramesFollow(c, p, j, n);
    assert base[|base|..] == [];
  }

  lemma RunLost(c: Config, past: seq<bool>, base: seq<Event>, bits: seq<bool>, p: nat, j: nat, v: View, n: nat)
    requires ValidConfig(c) && Run(c, past, base, bits, p, |bits|, j, v)
    requires FrameAt(c, p, n + 1) == |bits| && Lasts(c, bits, p, n) && LostAt(c, bits, p, n)
    ensures Ended(c, base, bits, p, n, v)
  {
    hide FrameAt, LostAt, FramesAre;
    FrameAfter(c, p, 0);
    FrameAfter(c, p, j);
    FramesFollow(c, p, 0, n + 1);
    FramesFollow(c, p, n + 1, j);
    FramesFollow(c, p, j, n + 1);
  }

  lemma RunBegins(rx: BitRx, bits: seq<bool>, p: nat)
    requires rx.Valid() && !rx.inFrame && rx.since == |rx.stream|
    ensures ValidConfig(rx.cfg) && Run(rx.cfg, rx.stream, rx.out, bits, p, 0, 0, rx.Now())
  {
    assert rx.stream == rx.stream + bits[..0];
  }

  lemma ValidFacts(rx: BitRx)
    requires rx.Valid()
    ensures ValidConfig(rx.cfg) && rx.Now().stream == rx.stream && rx.Now().out == rx.out
  {}

  lemma MovesStream(c: Config, v: View, w: View, bit: bool)
    requires ValidConfig(c) && Moves(c, v, w, bit)
    ensures w.stream == v.stream + [bit]
  {}

  /** The bit stream of a signal, for a receiver that has just begun to search.  What is told is
      exactly the frames whose last bit has come in, with the bits they were received with; with
      the last bit of the frame at which too many sync words in a row are missing it is the loss,
      and the receiver begins to search. */
  method ReceiveBits(rx: BitRx, bits: seq<bool>, ghost p: nat)
    requires rx.Valid() && !rx.inFrame && rx.since == |rx.stream| && Signal(rx.cfg, bits, p)
    modifies rx, rx.frame
    ensures rx.Valid() && rx.stream == old(rx.stream) + bits
    ensures forall n: nat :: Complete(rx.cfg, bits, p, n) ==> ToldFrames(rx.cfg, old(rx.out), bits, p, n, rx.out)
    ensures forall n: nat | FrameAt(rx.cfg, p, n + 1) == |bits| && Lasts(rx.cfg, bits, p, n) ::
      LostAt(rx.cfg, bits, p, n) ==> Ended(rx.cfg, old(rx.out), bits, p, n, rx.Now())
  {
    hide *;
    RunBegins(rx, bits, p);
    ghost var c, past, base, j := rx.cfg, rx.stream, rx.out, 0;
    assert bits[..0] == [] && past + [] == past;
    for i := 0 to |bits|
      invariant rx.Valid() && rx.stream == past + bits[..i] && Run(c, past, base, bits, p, i, j, rx.Now())
    {
      ghost var v := rx.Now();
      ValidFacts(rx);
      rx.BitRxBit(bits[i]);
      ValidFacts(rx);
      MovesStream(c, v, rx.Now(), bits[i]);
      j := RunStep(c, past, base, bits, p, i, j, v, rx.Now());
      assert bits[..i + 1] == bits[..i] + [bits[i]];
    }
    ValidFacts(rx);
    assert bits[..|bits|] == bits;
    forall n: nat | Complete(c, bits, p, n) ensures ToldFrames(c, base, bits, p, n, rx.out) {
      RunComplete(c, past, base, bits, p, j, rx.Now(), n);
    }
    forall n: nat | FrameAt(c, p, n + 1) == |bits| && Lasts(c, bits, p, n) && LostAt(c, bits, p, n)
      ensures Ended(c, base, bits, p, n, rx.Now())
    {
      RunLost(c, past, base, bits, p, j, rx.Now(), n);
    }
  }
}
