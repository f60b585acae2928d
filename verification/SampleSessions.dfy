/** Whole sessions of the sample receiver, from the signal to the callbacks. */
module SampleSessions {
  import opened SampleReceiver

  /** Where sync word k of a signal of exact frame length is. */
  function Place(c: Config, p0: nat, k: nat): nat { p0 + k * c.samplesPerFrame }

  lemma NextPlace(c: Config, p0: nat, k: nat)
    ensures Place(c, p0, 0) == p0 && Place(c, p0, k + 1) == Place(c, p0, k) + c.samplesPerFrame
  {
    assert (k + 1) * c.samplesPerFrame == k * c.samplesPerFrame + c.samplesPerFrame;
  }

  /** A usable sync word at p, better than those within two samples. */
  ghost predicate Sync(c: Config, a: Air, p: nat) { IsBest(a, p, p) && Heard(c, a, p) }

  /** The sync words 1 to n - 1 are where they should be. */
  ghost predicate Steady(c: Config, a: Air, p0: nat, n: nat) {
    forall k: nat | 0 < k < n :: Sync(c, a, Place(c, p0, k))
  }

  /** The levels frame k is sliced with: those of its sync word blended into the earlier ones. */
  ghost function Levels(c: Config, a: Air, p0: nat, k: nat): Level
    requires a.levels(p0).Some?
  {
    if k == 0 then a.levels(p0).value
    else
      var l := a.levels(Place(c, p0, k));
      if l.Some? then a.blend(Levels(c, a, p0, k - 1), l.value) else Levels(c, a, p0, k - 1)
  }

  ghost function SentFrame(c: Config, a: Air, p0: nat, k: nat): Event
    requires a.levels(p0).Some?
  {
    Frame(a.slice(Place(c, p0, k), Levels(c, a, p0, k)))
  }

  /** The first n frames. */
  ghost function SentFrames(c: Config, a: Air, p0: nat, n: nat): seq<Event>
    requires a.levels(p0).Some?
  {
    if n == 0 then [] else SentFrames(c, a, p0, n - 1) + [SentFrame(c, a, p0, n - 1)]
  }

  lemma SteadyNext(c: Config, a: Air, p0: nat, n: nat, k: nat)
    requires a.levels(p0).Some? && Steady(c, a, p0, n) && 0 < k < n
    requires Link(c, a, p0, k - 1) == Spot(Place(c, p0, k - 1), Levels(c, a, p0, k - 1), 0)
    ensures Link(c, a, p0, k) == Spot(Place(c, p0, k), Levels(c, a, p0, k), 0)
    ensures Expected(c, a, p0, k) == Place(c, p0, k)
  {
    hide Place, Link, IsBest;
    NextPlace(c, p0, k - 1);
    LinkIs(c, a, p0, k, Place(c, p0, k));
    assert Sync(c, a, Place(c, p0, k));
  }

  lemma FirstTwo(c: Config, a: Air, p0: nat)
    requires a.levels(p0).Some?
    ensures SentFrames(c, a, p0, 2) == [SentFrame(c, a, p0, 0), SentFrame(c, a, p0, 1)]
  {
    hide SentFrame;
    assert SentFrames(c, a, p0, 1) == SentFrames(c, a, p0, 0) + [SentFrame(c, a, p0, 0)];
  }

  lemma {:induction false} SteadyLink(c: Config, a: Air, p0: nat, n: nat, k: nat)
    requires a.levels(p0).Some? && Steady(c, a, p0, n) && (k == 0 || k < n)
    ensures Link(c, a, p0, k) == Spot(Place(c, p0, k), Levels(c, a, p0, k), 0)
    ensures Slice(c, a, p0, k) == a.slice(Place(c, p0, k), Levels(c, a, p0, k)) && !HeldBack(c, a, p0, k)
    ensures Expected(c, a, p0, k) == Place(c, p0, k)
  {
    if k > 0 {
      SteadyLink(c, a, p0, n, k - 1);
      SteadyNext(c, a, p0, n, k);
    } else {
      NextPlace(c, p0, 0);
    }
  }

  /** The half steps of a frame that was heard. */
  lemma SteadyHalves(c: Config, a: Air, p0: nat, n: nat, k: nat)
    requires a.levels(p0).Some? && ValidConfig(c) && Steady(c, a, p0, n) && 0 < k < n
    requires Decodes(c, a.slice(Place(c, p0, 1), Levels(c, a, p0, 1)))
    ensures Ends(c, a, p0, 2 * k) == Place(c, p0, k) + 2
    ensures Ends(c, a, p0, 2 * k + 1) == Place(c, p0, k) + c.frameLast
    ensures !Over(c, a, p0, 2 * k + 1) && !Over(c, a, p0, 2 * k + 2)
    ensures Report(c, a, p0, 2 * k + 1) == Report(c, a, p0, 2 * k)
    ensures k > 1 ==> Report(c, a, p0, 2 * k + 2) == Report(c, a, p0, 2 * k + 1) + [SentFrame(c, a, p0, k)]
    ensures k == 1 ==> Report(c, a, p0, 4) == Report(c, a, p0, 3) + SentFrames(c, a, p0, 2)
  {
    hide Steady, Ends, Over, Tells, Report, Link, Slice, HeldBack, Expected, Levels, Place, SentFrames;
    FirstTwo(c, a, p0);
    SteadyLink(c, a, p0, n, 0);
    SteadyLink(c, a, p0, n, k - 1);
    SteadyLink(c, a, p0, n, k);
    FrameFacts(c, a, p0, k, 0);
    WindowFacts(c, a, p0, k);
    FrameTells(c, a, p0, k);
    WindowTells(c, a, p0, k);
    ReportNext(c, a, p0, 2 * k);
    ReportNext(c, a, p0, 2 * k + 1);
  }

  /** After k frames of a clean signal they are all announced, from the second on. */
  lemma {:induction false} SteadyReport(c: Config, a: Air, p0: nat, n: nat, k: nat)
    requires a.levels(p0).Some? && ValidConfig(c) && Steady(c, a, p0, n) && 0 < k <= n
    requires Decodes(c, a.slice(Place(c, p0, 1), Levels(c, a, p0, 1)))
    ensures Report(c, a, p0, 2 * k) == (if k < 2 then [] else SentFrames(c, a, p0, k)) && Lasts(c, a, p0, 2 * k + 1)
    ensures Ends(c, a, p0, 2 * k - 1) == Place(c, p0, k - 1) + c.frameLast
    ensures k < n ==> Report(c, a, p0, 2 * k + 1) == Report(c, a, p0, 2 * k) && Lasts(c, a, p0, 2 * k + 2)
  {
    hide Steady, Ends, Tells, Report, Link, Slice, HeldBack, Expected, Levels, Place, Over;
    if k == 1 {
      FirstSlot(c, a, p0);
      NextPlace(c, p0, 0);
    } else {
      SteadyReport(c, a, p0, n, k - 1);
      SteadyHalves(c, a, p0, n, k - 1);
    }
    if k < n { SteadyHalves(c, a, p0, n, k); }
  }

  /** k frames of the signal have come in by sample n. */
  ghost predicate Complete(c: Config, p0: nat, k: nat, n: nat) {
    (k > 0 ==> Place(c, p0, k - 1) + c.frameLast < n) && n <= Place(c, p0, k) + c.frameLast
  }

  /** The half step of a clean signal that sample n belongs to. */
  lemma SteadySession(c: Config, a: Air, p0: nat, k: nat, n: nat) returns (h: nat)
    requires a.levels(p0).Some? && ValidConfig(c) && Steady(c, a, p0, k + 1) && Complete(c, p0, k, n)
    requires Decodes(c, a.slice(Place(c, p0, 1), Levels(c, a, p0, 1)))
    ensures InSession(c, a, p0, h, n) && Report(c, a, p0, h) == if k < 2 then [] else SentFrames(c, a, p0, k)
  {
    hide Steady, Ends, Tells, Report, Link, Slice, HeldBack, Expected, Levels, Place, Over, Lasts;
    NextPlace(c, p0, 0);
    FirstSlot(c, a, p0);
    if k == 0 {
      h := if n <= p0 + 2 then 0 else 1;
      NextSlot(c, a, p0, 2, n);
      NextSlot(c, a, p0, 1, n);
      NextSlot(c, a, p0, 0, n);
    } else {
      SteadyReport(c, a, p0, k + 1, k);
      SteadyHalves(c, a, p0, k + 1, k);
      h := if n <= Place(c, p0, k) + 2 then 2 * k else 2 * k + 1;
      NextSlot(c, a, p0, 2 * k, n);
      NextSlot(c, a, p0, 2 * k + 1, n);
    }
  }

  /** A clean signal: a receiver that looks for one, any number of samples, usable sync words a
      frame apart from p0 on, no other peak until the first frame is complete, and two first
      frames that decode.  Told are exactly the frames whose last sample has come in, the first
      together with the second. */
  method CleanSignal(rx: Rx, length: nat, ghost p0: nat)
    requires rx.Valid() && rx.Looking() && rx.n <= p0 + 2 && Alone(rx.cfg, rx.air, p0, rx.n)
    requires forall n: nat :: Steady(rx.cfg, rx.air, p0, n)
    requires Decodes(rx.cfg, rx.air.slice(Place(rx.cfg, p0, 1), Levels(rx.cfg, rx.air, p0, 1)))
    modifies rx
    ensures rx.Valid() && rx.n == old(rx.n) + length
    ensures forall k: nat :: Complete(rx.cfg, p0, k, rx.n) ==>
      rx.out == old(rx.out) + if k < 2 then [] else SentFrames(rx.cfg, rx.air, p0, k)
  {
    RxSamples(rx, length, p0);
    forall k: nat | Complete(rx.cfg, p0, k, rx.n)
      ensures rx.out == old(rx.out) + if k < 2 then [] else SentFrames(rx.cfg, rx.air, p0, k)
    {
      var h := SteadySession(rx.cfg, rx.air, p0, k, rx.n);
    }
  }

  // ---- A signal that ends ----

  /** No sync word from number n on. */
  ghost predicate Silent(c: Config, a: Air, p0: nat, n: nat) {
    forall k: nat | n <= k :: !Found(c, a, Place(c, p0, k))
  }

  /** j frames without sync word, sliced with the last levels. */
  ghost function Guessed(c: Config, a: Air, p0: nat, n: nat, j: nat): seq<Event>
    requires a.levels(p0).Some? && n > 0
  {
    if j == 0 then [] else Guessed(c, a, p0, n, j - 1) + GuessedAt(c, a, p0, n, j - 1)
  }

  ghost function GuessedAt(c: Config, a: Air, p0: nat, n: nat, j: nat): seq<Event>
    requires a.levels(p0).Some? && n > 0
  {
    if c.holdOnMiss then [] else [Frame(a.slice(Place(c, p0, n + j), Levels(c, a, p0, n - 1)))]
  }

  lemma {:induction false} SilentLink(c: Config, a: Air, p0: nat, n: nat, j: nat)
    requires a.levels(p0).Some? && n > 0 && Steady(c, a, p0, n) && Silent(c, a, p0, n)
    ensures Link(c, a, p0, n - 1 + j) == Spot(Place(c, p0, n - 1 + j), Levels(c, a, p0, n - 1), j)
    ensures Expected(c, a, p0, n - 1 + j) == Place(c, p0, n - 1 + j)
  {
    hide Link, Steady, Found, Levels, Place;
    if j == 0 {
      SteadyLink(c, a, p0, n, n - 1);
    } else {
      SilentLink(c, a, p0, n, j - 1);
      NextPlace(c, p0, n - 1 + (j - 1));
      ExpectedNext(c, a, p0, n - 1 + (j - 1));
      LinkIs(c, a, p0, n - 1 + j, 0);
      assert !Found(c, a, Place(c, p0, n - 1 + j));
    }
  }

  lemma ExpectedNext(c: Config, a: Air, p0: nat, k: nat)
    requires a.levels(p0).Some?
    ensures Expected(c, a, p0, k + 1) == Link(c, a, p0, k).p + c.samplesPerFrame
  {}

  /** The half steps of frame n + j, whose sync word is missing. */
  lemma SilentHalves(c: Config, a: Air, p0: nat, n: nat, j: nat)
    requires a.levels(p0).Some? && ValidConfig(c) && n >= 2 && Steady(c, a, p0, n) && Silent(c, a, p0, n)
    ensures Ends(c, a, p0, 2 * (n + j)) == Place(c, p0, n + j) + 2
    ensures j < c.maxMiss <==> !Over(c, a, p0, 2 * (n + j) + 1)
    ensures !Over(c, a, p0, 2 * (n + j) + 2)
    ensures Report(c, a, p0, 2 * (n + j) + 1) == Report(c, a, p0, 2 * (n + j)) + if j < c.maxMiss then [] else [Lost]
    ensures j < c.maxMiss ==>
      Report(c, a, p0, 2 * (n + j) + 2) == Report(c, a, p0, 2 * (n + j)) + GuessedAt(c, a, p0, n, j)
  {
    hide Steady, Silent, Ends, Over, Tells, Report, Link, Slice, HeldBack, Expected, Levels, Place;
    var k := n + j;
    SilentLink(c, a, p0, n, j + 1);
    assert n - 1 + (j + 1) == k;
    FrameFacts(c, a, p0, k, 0);
    WindowFacts(c, a, p0, k);
    FrameTells(c, a, p0, k);
    WindowTells(c, a, p0, k);
    ReportNext(c, a, p0, 2 * k);
    ReportNext(c, a, p0, 2 * k + 1);
  }

  lemma {:induction false} SilentReport(c: Config, a: Air, p0: nat, n: nat, j: nat)
    requires a.levels(p0).Some? && ValidConfig(c) && n >= 2 && Steady(c, a, p0, n) && Silent(c, a, p0, n)
    requires Decodes(c, a.slice(Place(c, p0, 1), Levels(c, a, p0, 1))) && j <= c.maxMiss
    ensures Report(c, a, p0, 2 * (n + j)) == SentFrames(c, a, p0, n) + Guessed(c, a, p0, n, j)
    ensures Lasts(c, a, p0, 2 * (n + j) + 1)
  {
    hide Steady, Silent, Ends, Over, Tells, Report, Link, Slice, HeldBack, Expected, Levels, Place, Lasts;
    if j == 0 {
      SteadyReport(c, a, p0, n, n);
    } else {
      SilentReport(c, a, p0, n, j - 1);
      SilentHalves(c, a, p0, n, j - 1);
      NextSlot(c, a, p0, 2 * (n + j) - 2, 0);
      NextSlot(c, a, p0, 2 * (n + j) - 1, 0);
    }
  }

  /** A signal that ends: n frames with their sync words, two of them at least, and then none.
      At the end of the window of the sync word missing once too often, told are the n frames,
      maxMiss more at the places where frames should be unless such are held back, and the loss;
      and the receiver looks for the next signal. */
  method EndedSignal(rx: Rx, length: nat, ghost p0: nat, ghost n: nat)
    requires rx.Valid() && rx.Looking() && rx.n <= p0 + 2 && Alone(rx.cfg, rx.air, p0, rx.n)
    requires n >= 2 && Steady(rx.cfg, rx.air, p0, n) && Silent(rx.cfg, rx.air, p0, n)
    requires Decodes(rx.cfg, rx.air.slice(Place(rx.cfg, p0, 1), Levels(rx.cfg, rx.air, p0, 1)))
    modifies rx
    ensures rx.Valid() && rx.n == old(rx.n) + length
    ensures rx.n == Place(rx.cfg, p0, n + rx.cfg.maxMiss) + 3 ==>
      && rx.Looking()
      && rx.out == old(rx.out) + SentFrames(rx.cfg, rx.air, p0, n) +
        Guessed(rx.cfg, rx.air, p0, n, rx.cfg.maxMiss) + [Lost]
  {
    hide *;
    AloneLevels(rx, p0);
    ghost var c, a := rx.cfg, rx.air;
    ghost var out := rx.out;
    RxSamples(rx, length, p0);
    ghost var frames, more := SentFrames(c, a, p0, n), Guessed(c, a, p0, n, c.maxMiss);
    if rx.n == Place(c, p0, n + c.maxMiss) + 3 {
      var h := SilentSession(c, a, p0, n);
      assert out + (frames + more + [Lost]) == out + frames + more + [Lost];
    }
  }

  lemma AloneLevels(rx: Rx, p0: nat)
    requires rx.Valid() && Alone(rx.cfg, rx.air, p0, rx.n)
    ensures rx.air.levels(p0).Some? && ValidConfig(rx.cfg)
  {}

  lemma SilentSession(c: Config, a: Air, p0: nat, n: nat) returns (h: nat)
    requires a.levels(p0).Some? && ValidConfig(c) && n >= 2 && Steady(c, a, p0, n) && Silent(c, a, p0, n)
    requires Decodes(c, a.slice(Place(c, p0, 1), Levels(c, a, p0, 1)))
    ensures InSession(c, a, p0, h, Place(c, p0, n + c.maxMiss) + 3) && Over(c, a, p0, h)
    ensures Report(c, a, p0, h) == SentFrames(c, a, p0, n) + Guessed(c, a, p0, n, c.maxMiss) + [Lost]
  {
    hide Steady, Silent, Ends, Over, Tells, Report, Link, Slice, HeldBack, Expected, Levels, Place, Lasts;
    SilentReport(c, a, p0, n, c.maxMiss);
    SilentHalves(c, a, p0, n, c.maxMiss);
    h := 2 * (n + c.maxMiss) + 1;
    NextSlot(c, a, p0, h - 1, Place(c, p0, n + c.maxMiss) + 2);
  }
}
