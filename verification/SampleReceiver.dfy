/** The sample receiver's lock machine.  Correlations, levels and sliced frames are arbitrary
    functions of the position in the sample stream, and the channel code check is an arbitrary
    predicate; what is modelled is when they are taken and what is done with them. */
module SampleReceiver {
  const RING: nat := 8192
  const MAX_CAND: nat := 32

  type Bytes = seq<bv8>

  /** The outer symbol levels, centre and amplitude. */
  type Level = (real, real)

  datatype Option<T> = None | Some(value: T)

  /** The signal: correlation and levels of the sync word ending at a position, and the frame
      sliced with some levels. */
  datatype Air = Air(r: nat -> real, levels: nat -> Option<Level>, slice: (nat, Level) -> Bytes,
                     blend: (Level, Level) -> Level)

  datatype Config = Config(sps: nat, syncSpan: nat, frameLast: nat, samplesPerFrame: nat, maxMiss: nat,
                           holdOnMiss: bool, valid: Bytes -> bool, hunt: real, track: real)

  predicate ValidConfig(c: Config) {
    && 0 < c.sps && 4 <= c.frameLast && c.samplesPerFrame == c.syncSpan + c.frameLast + c.sps
    && c.samplesPerFrame + 8 <= RING && -1.0 < c.track
  }

  datatype Cand = Cand(nb: nat, due: nat, r: real)

  datatype Event = Frame(bytes: Bytes) | Lost

  /** A position that is still in the ring after sample n. */
  predicate InRing(p: nat, n: nat) { p <= n < p + RING }

  /** The channel code check. */
  predicate Decodes(c: Config, f: Bytes) { c.valid(f) }

  /** Where the callbacks are in (frame frame frame* lost)*: nothing, one frame, two or more, or
      out of order.  The first two frames have to pass the channel code check. */
  datatype Phase = Idle | One | Locked | Wrong

  function After(c: Config, p: Phase, e: Event): Phase {
    match e
    case Frame(f) =>
      if p == Idle && Decodes(c, f) then One
      else if p == One && Decodes(c, f) then Locked
      else if p == Locked then Locked else Wrong
    case Lost => if p == Locked then Idle else Wrong
  }

  function PhaseOf(c: Config, out: seq<Event>): Phase {
    if out == [] then Idle else After(c, PhaseOf(c, out[..|out| - 1]), out[|out| - 1])
  }

  /** Event i begins a session: it is the first, or the one before it is a loss. */
  predicate Begins(out: seq<Event>, i: nat)
    requires i < |out|
  {
    i == 0 || out[i - 1].Lost?
  }

  /** What the phase says about the newest events. */
  lemma {:induction false} LastEvents(c: Config, out: seq<Event>)
    ensures var p, n := PhaseOf(c, out), |out|;
      && (p == Idle ==> n == 0 || out[n - 1].Lost?)
      && (p == One ==> n >= 1 && out[n - 1].Frame? && Begins(out, n - 1) && Decodes(c, out[n - 1].bytes))
      && (p == Locked ==> n >= 2 && out[n - 1].Frame? && out[n - 2].Frame?)
  {
    if out != [] {
      var rest := out[..|out| - 1];
      LastEvents(c, rest);
      if PhaseOf(c, out) == Locked && PhaseOf(c, rest) == One { assert rest[|rest| - 1] == out[|out| - 2]; }
    }
  }

  /** A sequence in order, spelled out: a loss comes only after two frames, and a session begins
      with two frames that both passed the channel code check. */
  lemma {:induction false} InOrder(c: Config, out: seq<Event>, i: nat)
    requires PhaseOf(c, out) != Wrong && i < |out|
    ensures out[i].Lost? ==> i >= 2 && out[i - 1].Frame? && out[i - 2].Frame?
    ensures Begins(out, i) ==> out[i].Frame? && Decodes(c, out[i].bytes)
    ensures Begins(out, i) && i + 1 < |out| ==> out[i + 1].Frame? && Decodes(c, out[i + 1].bytes)
    decreases |out|
  {
    var n := |out| - 1;
    var rest := out[..n];
    LastEvents(c, rest);
    LastEvents(c, out);
    if i < n {
      InOrder(c, rest, i);
      if i + 1 == n && Begins(out, i) { BeganAt(c, rest, i); }
    }
  }

  /** Right after the first frame of a session the phase is One. */
  lemma BeganAt(c: Config, out: seq<Event>, i: nat)
    requires PhaseOf(c, out) != Wrong && i + 1 == |out| && Begins(out, i) && out[i].Frame?
    ensures PhaseOf(c, out) == One
  {
    LastEvents(c, out[..i]);
  }

  function Count(out: seq<Event>, lost: bool): nat {
    if out == [] then 0 else Count(out[..|out| - 1], lost) + if out[|out| - 1].Lost? == lost then 1 else 0
  }

  /** The candidates: in the order of their positions, each with its frame still to come. */
  ghost predicate Candidates(c: Config, cand: seq<Cand>, newest: int, earliest: nat) {
    && |cand| <= MAX_CAND
    && (forall i :: 0 <= i < |cand| ==>
      c.syncSpan <= cand[i].nb && cand[i].nb + 2 <= newest && earliest <= cand[i].due == cand[i].nb + c.frameLast)
    && (forall i, j :: 0 <= i < j < |cand| ==> cand[i].nb < cand[j].nb)
  }

  /** The place of the lowest correlation, the first of them. */
  predicate IsWorst(cand: seq<Cand>, w: nat) {
    && w < |cand| && (forall i :: 0 <= i < |cand| ==> cand[w].r <= cand[i].r)
    && forall i :: 0 <= i < w ==> cand[w].r < cand[i].r
  }

  /** The new candidate in place of the worst, at the end of the list, if it is better. */
  predicate Replaced(was: seq<Cand>, now: seq<Cand>, w: nat, c: Cand)
    requires w < |was|
  {
    now == if was[w].r >= c.r then was else was[..w] + was[w + 1..] + [c]
  }

  /** A new candidate behind the others keeps the list in order. */
  lemma AddedAt(c: Config, cand: seq<Cand>, next: Cand)
    requires ValidConfig(c) && Candidates(c, cand, next.nb + 1, next.nb + 2) && c.syncSpan <= next.nb
    requires next.due == next.nb + c.frameLast
    ensures |cand| <= MAX_CAND && Candidates(c, cand, next.nb + 2, next.nb + 2)
    ensures |cand| < MAX_CAND ==> Candidates(c, cand + [next], next.nb + 2, next.nb + 2)
  {}

  lemma AddedInstead(c: Config, cand: seq<Cand>, next: Cand, w: nat)
    requires ValidConfig(c) && Candidates(c, cand, next.nb + 1, next.nb + 2) && c.syncSpan <= next.nb
    requires next.due == next.nb + c.frameLast
    requires w < |cand|
    ensures Candidates(c, cand[..w] + cand[w + 1..] + [next], next.nb + 2, next.nb + 2)
  {
    var less := cand[..w] + cand[w + 1..];
    forall i | 0 <= i < |less| ensures less[i] == cand[if i < w then i else i + 1] {}
    AddedAt(c, less, next);
  }

  lemma NoCandidates(c: Config, at: nat)
    ensures Candidates(c, [], at, at) && Candidates(c, [], at, at + 1)
  {}

  lemma NothingTold(c: Config)
    ensures PhaseOf(c, []) == Idle
  {}

  /** A candidate is due when its frame is complete and not before; when the first is not due
      none is. */
  lemma FirstDue(c: Config, cand: seq<Cand>, at: nat)
    ensures Candidates(c, cand, at, at) && cand != [] && cand[0].due <= at ==> cand[0].due == at
    ensures Candidates(c, cand, at, at) && (cand == [] || cand[0].due > at) ==> Candidates(c, cand, at, at + 1)
    ensures Candidates(c, cand, at, at + 1) ==> cand == [] || cand[0].due > at
  {}

  lemma PopFirst(c: Config, cand: seq<Cand>, at: nat)
    requires Candidates(c, cand, at, at) && cand != [] && cand[0].due <= at
    ensures Candidates(c, cand[1..], at, at + 1) && c.syncSpan <= cand[0].nb
    ensures at == cand[0].due == cand[0].nb + c.frameLast
  {}

  lemma Sooner(c: Config, cand: seq<Cand>, at: nat)
    requires Candidates(c, cand, at, at + 1)
    ensures Candidates(c, cand, at, at)
  {}

  /** The first of the best correlations within two samples of e. */
  predicate IsBest(a: Air, e: nat, p: nat) {
    && e <= p + 2 && p <= e + 2
    && forall q: nat :: e <= q + 2 && q <= e + 2 ==> a.r(q) <= a.r(p) && (q < p ==> a.r(q) < a.r(p))
  }

  /** A sync word at p: no correlation around it is better, and its levels are usable. */
  predicate IsPeak(c: Config, a: Air, p: nat) {
    && c.syncSpan + 6 <= p && c.hunt <= a.r(p) && a.levels(p).Some?
    && a.r(p - 1) <= a.r(p) && a.r(p - 2) <= a.r(p) && a.r(p + 1) < a.r(p) && a.r(p + 2) < a.r(p)
  }

  /** The frame at p, sliced with its own levels, passes the channel code check. */
  predicate Opens(c: Config, a: Air, p: nat) {
    a.levels(p).Some? && Decodes(c, a.slice(p, a.levels(p).value))
  }

  /** The list with one more candidate, as addCandidate keeps it. */
  ghost predicate Added(was: seq<Cand>, now: seq<Cand>, next: Cand) {
    if |was| < MAX_CAND then now == was + [next] else exists w: nat :: IsWorst(was, w) && Replaced(was, now, w, next)
  }

  /** The candidates after sample at: one more exactly when there was a peak two samples ago. */
  ghost predicate Hunted(c: Config, a: Air, at: nat, was: seq<Cand>, now: seq<Cand>) {
    if at >= 2 && IsPeak(c, a, at - 2) then Added(was, now, Cand(at - 2, at - 2 + c.frameLast, a.r(at - 2)))
    else now == was
  }

  // ---- A session in terms of the signal alone ----

  /** Where a frame is, the levels it is sliced with, and how many sync words in a row are missing. */
  datatype Spot = Spot(p: nat, level: Level, miss: nat)

  /** A sync word good enough to stay locked on. */
  predicate Heard(c: Config, a: Air, p: nat) { a.r(p) >= c.track && a.levels(p).Some? }

  ghost predicate Found(c: Config, a: Air, e: nat) { exists p: nat :: IsBest(a, e, p) && Heard(c, a, p) }

  /** Frame k of the signal that starts with the sync word at p0: where its sync word is found,
      or where it should be, one frame behind the one before. */
  ghost function Link(c: Config, a: Air, p0: nat, k: nat): Spot
    requires a.levels(p0).Some?
  {
    if k == 0 then Spot(p0, a.levels(p0).value, 0)
    else
      var s := Link(c, a, p0, k - 1);
      var e := s.p + c.samplesPerFrame;
      if Found(c, a, e) then
        var p: nat :| IsBest(a, e, p) && Heard(c, a, p);
        Spot(p, a.blend(s.level, a.levels(p).value), 0)
      else Spot(e, s.level, s.miss + 1)
  }

  ghost function Expected(c: Config, a: Air, p0: nat, k: nat): nat
    requires a.levels(p0).Some?
  {
    if k == 0 then p0 else Link(c, a, p0, k - 1).p + c.samplesPerFrame
  }

  /** The bytes of frame k. */
  ghost function Slice(c: Config, a: Air, p0: nat, k: nat): Bytes
    requires a.levels(p0).Some?
  {
    a.slice(Link(c, a, p0, k).p, Link(c, a, p0, k).level)
  }

  /** The sample that ends half step h: for even h the second behind the expected place of sync
      word h / 2, for odd h the last of frame h / 2. */
  ghost function Ends(c: Config, a: Air, p0: nat, h: nat): nat
    requires a.levels(p0).Some?
  {
    var e := Expected(c, a, p0, h / 2);
    if h % 2 == 0 then e + 2
    else
      var last := Link(c, a, p0, h / 2).p + c.frameLast;
      if last > e + 3 then last else e + 3
  }

  /** The end of the session with half step h: a second frame without sync word or that does not
      decode, or one sync word too many missing. */
  ghost predicate Over(c: Config, a: Air, p0: nat, h: nat)
    requires a.levels(p0).Some?
  {
    || (h == 3 && Link(c, a, p0, 1).miss > 0)
    || (h == 4 && !Decodes(c, Slice(c, a, p0, 1)))
    || (h >= 5 && h % 2 == 1 && Link(c, a, p0, h / 2).miss > c.maxMiss)
  }

  /** No half step before h ended the session. */
  ghost predicate Lasts(c: Config, a: Air, p0: nat, h: nat)
    requires a.levels(p0).Some?
  {
    forall j: nat :: j < h ==> !Over(c, a, p0, j)
  }

  /** A frame that is not announced before the next sync word is found. */
  ghost predicate HeldBack(c: Config, a: Air, p0: nat, k: nat)
    requires a.levels(p0).Some?
  {
    c.holdOnMiss && Link(c, a, p0, k).miss > 0
  }

  /** What is announced when half step h begins: the first two frames together, then every frame
      when it is complete; one held back when the next sync word is found, and never if it is
      not; and the loss. */
  ghost function Tells(c: Config, a: Air, p0: nat, h: nat): seq<Event>
    requires a.levels(p0).Some? && h > 0
  {
    var k := (h - 1) / 2;
    if h < 4 || (h == 4 && Over(c, a, p0, 4)) then []
    else if h == 4 then [Frame(Slice(c, a, p0, 0)), Frame(Slice(c, a, p0, 1))]
    else if h % 2 == 0 then if HeldBack(c, a, p0, k) then [] else [Frame(Slice(c, a, p0, k))]
    else if Over(c, a, p0, h) then [Lost]
    else if HeldBack(c, a, p0, k - 1) && Link(c, a, p0, k).miss == 0 then [Frame(Slice(c, a, p0, k - 1))] else []
  }

  /** All that has been announced in half step h. */
  ghost function Report(c: Config, a: Air, p0: nat, h: nat): seq<Event>
    requires a.levels(p0).Some?
  {
    if h == 0 then [] else Report(c, a, p0, h - 1) + Tells(c, a, p0, h)
  }

  /** Half step h is the one that sample n belongs to. */
  ghost predicate InSlot(c: Config, a: Air, p0: nat, h: nat, n: nat)
    requires a.levels(p0).Some?
  {
    (h > 0 ==> Ends(c, a, p0, h - 1) < n) && n <= Ends(c, a, p0, h)
  }

  lemma OneBest(a: Air, e: nat, p: nat, q: nat)
    ensures IsBest(a, e, p) && IsBest(a, e, q) ==> p == q
  {
    var rp, rq := a.r(p), a.r(q);
  }

  /** The next frame, from what the window found. */
  lemma LinkIs(c: Config, a: Air, p0: nat, k: nat, p: nat)
    requires a.levels(p0).Some? && k > 0
    ensures var s, e := Link(c, a, p0, k - 1), Expected(c, a, p0, k);
      && (IsBest(a, e, p) && Heard(c, a, p) ==> Link(c, a, p0, k) == Spot(p, a.blend(s.level, a.levels(p).value), 0))
      && (!Found(c, a, e) ==> Link(c, a, p0, k) == Spot(e, s.level, s.miss + 1))
  {
    var s := Link(c, a, p0, k - 1);
    var e := s.p + c.samplesPerFrame;
    if Found(c, a, e) {
      OneBest(a, e, p, Link(c, a, p0, k).p);
    }
  }

  lemma LinkNear(c: Config, a: Air, p0: nat, k: nat)
    requires a.levels(p0).Some?
    ensures var p, e := Link(c, a, p0, k).p, Expected(c, a, p0, k); p <= e + 2 && e <= p + 2
  {}

  /** The half steps follow one another. */
  lemma EndsNext(c: Config, a: Air, p0: nat, h: nat)
    requires a.levels(p0).Some? && ValidConfig(c)
    ensures Ends(c, a, p0, h) < Ends(c, a, p0, h + 1)
  {
    LinkNear(c, a, p0, h / 2);
    assert h % 2 == 0 ==> (h + 1) / 2 == h / 2;
    assert h % 2 == 1 ==> (h + 1) / 2 == h / 2 + 1;
  }

  lemma {:induction false} EndsIncrease(c: Config, a: Air, p0: nat, g: nat, h: nat)
    requires a.levels(p0).Some? && ValidConfig(c) && g < h
    ensures Ends(c, a, p0, g) < Ends(c, a, p0, h)
  {
    hide Ends;
    EndsNext(c, a, p0, h - 1);
    if g < h - 1 { EndsIncrease(c, a, p0, g, h - 1); }
  }

  /** Every sample belongs to one half step. */
  lemma OneSlot(c: Config, a: Air, p0: nat, g: nat, h: nat, n: nat)
    requires a.levels(p0).Some? && ValidConfig(c)
    ensures InSlot(c, a, p0, g, n) && InSlot(c, a, p0, h, n) ==> g == h
  {
    hide Ends;
    if g < h - 1 { EndsIncrease(c, a, p0, g, h - 1); }
    if h < g - 1 { EndsIncrease(c, a, p0, h, g - 1); }
  }

  /** The callbacks are in order since the last reset, and counted exactly. */
  ghost predicate ToldOf(c: Config, out: seq<Event>, epoch: nat, locked: bool, frames: nat, lost: nat) {
    && epoch <= |out| && PhaseOf(c, out[epoch..]) == (if locked then Locked else Idle)
    && frames == Count(out, false) && lost == Count(out, true)
  }

  /** Sample p + frameLast ends half step 1 of a session. */
  lemma FirstSlot(c: Config, a: Air, p0: nat)
    requires a.levels(p0).Some? && ValidConfig(c)
    ensures Ends(c, a, p0, 0) == p0 + 2 && Ends(c, a, p0, 1) == p0 + c.frameLast
    ensures InSlot(c, a, p0, 2, p0 + c.frameLast + 1)
    ensures Lasts(c, a, p0, 3) && Report(c, a, p0, 0) == Report(c, a, p0, 1) == Report(c, a, p0, 2) == []
    ensures Link(c, a, p0, 0) == Spot(p0, a.levels(p0).value, 0) && !HeldBack(c, a, p0, 0)
    ensures Expected(c, a, p0, 1) == p0 + c.samplesPerFrame
    ensures Slice(c, a, p0, 0) == a.slice(p0, a.levels(p0).value)
  {
    EndsNext(c, a, p0, 1);
  }

  /** What frame k brings: the end of half step 2 k + 1 and what is told then. */
  lemma FrameFacts(c: Config, a: Air, p0: nat, k: nat, at: nat)
    requires a.levels(p0).Some? && ValidConfig(c) && k > 0
    ensures var h, s, e := 2 * k + 1, Link(c, a, p0, k), Expected(c, a, p0, k);
      && Ends(c, a, p0, h) == (if s.p + c.frameLast > e + 3 then s.p + c.frameLast else e + 3)
      && (Over(c, a, p0, h + 1) <==> k == 1 && !Decodes(c, Slice(c, a, p0, 1)))
      && Slice(c, a, p0, k) == a.slice(s.p, s.level)
      && (HeldBack(c, a, p0, k) <==> c.holdOnMiss && s.miss > 0)
  {
    hide Link, Slice, Expected, HeldBack, Decodes;
    HeldIs(c, a, p0, k);
  }

  lemma HeldIs(c: Config, a: Air, p0: nat, k: nat)
    requires a.levels(p0).Some?
    ensures HeldBack(c, a, p0, k) <==> c.holdOnMiss && Link(c, a, p0, k).miss > 0
    ensures Slice(c, a, p0, k) == a.slice(Link(c, a, p0, k).p, Link(c, a, p0, k).level)
    ensures Expected(c, a, p0, k + 1) == Link(c, a, p0, k).p + c.samplesPerFrame
    ensures k == 0 ==> !HeldBack(c, a, p0, k)
  {}

  lemma FrameTells(c: Config, a: Air, p0: nat, k: nat)
    requires a.levels(p0).Some? && k > 0
    ensures Tells(c, a, p0, 2 * k + 2) == if k == 1
      then if Over(c, a, p0, 4) then [] else [Frame(Slice(c, a, p0, 0)), Frame(Slice(c, a, p0, 1))]
      else if HeldBack(c, a, p0, k) then [] else [Frame(Slice(c, a, p0, k))]
  {
    hide Link, Slice, HeldBack, Over;
    var h := 2 * k + 2;
    assert (h - 1) / 2 == k && h % 2 == 0;
  }

  /** What window k brings: the end of half step 2 k and what is told then. */
  lemma WindowFacts(c: Config, a: Air, p0: nat, k: nat)
    requires a.levels(p0).Some? && ValidConfig(c) && k > 0
    ensures var h, s := 2 * k, Link(c, a, p0, k);
      && Ends(c, a, p0, h) == Expected(c, a, p0, k) + 2
      && (Over(c, a, p0, h + 1) <==> s.miss > if k == 1 then 0 else c.maxMiss)
      && (HeldBack(c, a, p0, k) <==> c.holdOnMiss && s.miss > 0)
      && Expected(c, a, p0, k + 1) == s.p + c.samplesPerFrame
  {
    hide Link, Slice, Expected, HeldBack, Decodes;
    HeldIs(c, a, p0, k);
  }

  lemma WindowTells(c: Config, a: Air, p0: nat, k: nat)
    requires a.levels(p0).Some? && k > 0
    ensures Tells(c, a, p0, 2 * k + 1) == if k == 1 then [] else if Over(c, a, p0, 2 * k + 1) then [Lost]
      else if HeldBack(c, a, p0, k - 1) && Link(c, a, p0, k).miss == 0 then [Frame(Slice(c, a, p0, k - 1))] else []
    ensures !HeldBack(c, a, p0, 0)
  {
    hide Link, Slice, HeldBack, Over;
    HeldIs(c, a, p0, 0);
    var h := 2 * k + 1;
    assert (h - 1) / 2 == k && h % 2 == 1;
  }

  lemma ReportNext(c: Config, a: Air, p0: nat, h: nat)
    requires a.levels(p0).Some?
    ensures Report(c, a, p0, h + 1) == Report(c, a, p0, h) + Tells(c, a, p0, h + 1)
  {}

  /** The end of a half step takes a session on. */
  lemma NextSlot(c: Config, a: Air, p0: nat, h: nat, at: nat)
    requires a.levels(p0).Some? && ValidConfig(c)
    ensures at == Ends(c, a, p0, h) ==> InSlot(c, a, p0, h + 1, at + 1)
    ensures Lasts(c, a, p0, h + 1) && !Over(c, a, p0, h + 1) ==> Lasts(c, a, p0, h + 2)
    ensures Lasts(c, a, p0, h + 1) ==> !Over(c, a, p0, h) && Lasts(c, a, p0, h)
    ensures InSlot(c, a, p0, h, at) && at != Ends(c, a, p0, h) ==> InSlot(c, a, p0, h, at + 1)
  {
    EndsNext(c, a, p0, h);
  }

  lemma Appended(was: seq<Event>, now: seq<Event>, more: seq<Event>, m: nat)
    ensures m <= |was| && now == was + more ==> now[m..] == was[m..] + more && now[..m] == was[..m]
  {}

  /** What a receiver shows: the sample count, the candidates, the session and the callbacks. */
  datatype View = View(n: nat, cand: seq<Cand>, tracking: bool, out: seq<Event>, from: nat, half: nat, mark: nat)

  /** One sample.  A tracking receiver goes on by half a step when the sample that ends it has
      come, tells what the signal says, and tracks until the session is over.  A receiver that
      hunts locks exactly on the candidate that is due and decodes. */
  ghost predicate Moves(c: Config, a: Air, v: View, w: View, mid: seq<Cand>) {
    && w.n == v.n + 1
    && if v.tracking then
        && a.levels(v.from).Some? && w.from == v.from && w.mark == v.mark <= |v.out| && w.cand == []
        && w.half == v.half + (if v.n == Ends(c, a, v.from, v.half) then 1 else 0)
        && (w.tracking <==> !Over(c, a, v.from, w.half)) && w.out == v.out[..v.mark] + Report(c, a, v.from, w.half)
      else
        && w.out == v.out && Hunted(c, a, v.n, v.cand, mid)
        && (mid == [] || mid[0].due != v.n ==> !w.tracking && w.cand == mid)
        && (mid != [] && mid[0].due == v.n && !Opens(c, a, mid[0].nb) ==> !w.tracking && w.cand == mid[1..])
        && (mid != [] && mid[0].due == v.n && Opens(c, a, mid[0].nb) ==>
          w.tracking && w.cand == [] && w.from == mid[0].nb && w.half == 2 && w.mark == |w.out|)
  }

  /** The session that starts with the sync word at p0, from before it is heard: nothing found
      yet, its frame awaited, in half step g, or over. */
  ghost predicate Following(c: Config, a: Air, v: View, p0: nat, base: seq<Event>, g: nat)
    requires a.levels(p0).Some?
  {
    if v.n <= p0 + 2 then !v.tracking && v.out == base && v.cand == []
    else if v.n <= p0 + c.frameLast then
      !v.tracking && v.out == base && |v.cand| == 1 && v.cand[0].nb == p0 && v.cand[0].due == p0 + c.frameLast
    else
      && g >= 2 && Lasts(c, a, p0, g) && v.n > Ends(c, a, p0, g - 1)
      && (Over(c, a, p0, g) && v.n == Ends(c, a, p0, g - 1) + 1 ==>
        v.out == base + Report(c, a, p0, g) && !v.tracking && v.cand == [])
      && (!Over(c, a, p0, g) ==>
        && v.tracking && v.from == p0 && v.half == g && v.mark == |base| && v.n <= Ends(c, a, p0, g)
        && v.out == base + Report(c, a, p0, g))
  }

  /** The only sync word from sample n on until its frame is complete, with a frame that decodes. */
  ghost predicate Alone(c: Config, a: Air, p0: nat, n: nat) {
    IsPeak(c, a, p0) && Opens(c, a, p0) && forall q: nat | n <= q + 2 <= p0 + c.frameLast :: IsPeak(c, a, q) ==> q == p0
  }

  /** Sample n belongs to half step h of a session that lasts; of its last half step it is the
      first. */
  ghost predicate InSession(c: Config, a: Air, p0: nat, h: nat, n: nat)
    requires a.levels(p0).Some?
  {
    Lasts(c, a, p0, h) && InSlot(c, a, p0, h, n) && (h > 0 && Over(c, a, p0, h) ==> n == Ends(c, a, p0, h - 1) + 1)
  }

  lemma FollowHunt(c: Config, a: Air, v: View, w: View, mid: seq<Cand>, p0: nat, base: seq<Event>, start: nat)
    requires ValidConfig(c) && Alone(c, a, p0, start) && start <= v.n <= p0 + c.frameLast && Moves(c, a, v, w, mid)
    requires Following(c, a, v, p0, base, 0)
    ensures Following(c, a, w, p0, base, 2)
  {
    hide Ends, Over, Lasts, Tells, Report, Link, Decodes;
    FirstSlot(c, a, p0);
    NextSlot(c, a, p0, 2, v.n);
    NextSlot(c, a, p0, 1, v.n);
    if v.n == p0 + 2 {
      assert mid == [Cand(p0, p0 + c.frameLast, a.r(p0))];
      assert w.cand == mid;
    } else {
      assert v.n >= 2 ==> !IsPeak(c, a, v.n - 2);
      assert base + [] == base;
    }
  }

  lemma FollowStep(c: Config, a: Air, v: View, w: View, mid: seq<Cand>, p0: nat, base: seq<Event>, start: nat, g: nat)
    returns (next: nat)
    requires ValidConfig(c) && Alone(c, a, p0, start) && start <= v.n && Moves(c, a, v, w, mid)
    requires a.levels(p0).Some? && Following(c, a, v, p0, base, g)
    ensures Following(c, a, w, p0, base, next)
  {
    if v.n <= p0 + c.frameLast {
      FollowHunt(c, a, v, w, mid, p0, base, start);
      next := 2;
    } else {
      next := FollowSession(c, a, v, w, mid, p0, base, g);
    }
  }

  lemma FollowSession(c: Config, a: Air, v: View, w: View, mid: seq<Cand>, p0: nat, base: seq<Event>, g: nat)
    returns (next: nat)
    requires ValidConfig(c) && a.levels(p0).Some? && v.n > p0 + c.frameLast && Moves(c, a, v, w, mid)
    requires Following(c, a, v, p0, base, g)
    ensures Following(c, a, w, p0, base, next)
  {
    hide Ends, Over, Lasts, Tells, Report, Link, Decodes;
    NextSlot(c, a, p0, g - 1, v.n);
    NextSlot(c, a, p0, g, v.n);
    assert (base + Report(c, a, p0, g))[..|base|] == base;
    next := if Over(c, a, p0, g) then g else w.half;
  }

  /** What has been told in a session. */
  lemma SessionTold(c: Config, a: Air, v: View, p0: nat, base: seq<Event>, g: nat, h: nat)
    requires ValidConfig(c) && a.levels(p0).Some? && Following(c, a, v, p0, base, g) && InSession(c, a, p0, h, v.n)
    ensures v.out == base + Report(c, a, p0, h) && (Over(c, a, p0, h) ==> !v.tracking && v.cand == [])
  {
    hide Ends, Tells, Report, Link, Decodes, Opens, IsPeak;
    FirstSlot(c, a, p0);
    if v.n <= p0 + c.frameLast {
      OneSlot(c, a, p0, if v.n <= p0 + 2 then 0 else 1, h, v.n);
      assert base + [] == base;
    } else if h < g {
      if h < g - 1 { EndsIncrease(c, a, p0, h, g - 1); }
    } else {
      if g < h - 1 { EndsIncrease(c, a, p0, g, h - 1); }
    }
  }

  class Rx {
    const cfg: Config
    const air: Air
    var n: nat
    var cand: seq<Cand>
    var tracking: bool
    var prov: bool
    var provFrame: Bytes
    var exp: nat
    var nb: nat
    var due: nat
    var dueValid: bool
    var held: bool
    var heldFrame: Bytes
    var miss: nat
    var level: Level
    var statCandidates: nat
    var statLocks: nat
    var statFrames: nat
    var statLost: nat
    var statDropped: nat
    /** What the callback has been told, and how much of it before the last reset. */
    var out: seq<Event>
    ghost var epoch: nat
    /** The session: the sync word it started with, the half step it is in, and how much had been
        told before it. */
    ghost var from: nat
    ghost var half: nat
    ghost var mark: nat

    /** A tracking receiver has its next window ahead, and a frame that is due was placed by the
        last window and will be taken before the next. */
    ghost predicate Ahead(at: nat)
      reads `tracking, `exp, `due, `dueValid, `nb
    {
      && (tracking ==> at <= exp + 2 && cfg.syncSpan + cfg.samplesPerFrame <= exp)
      && (dueValid ==> tracking && due == nb + cfg.frameLast && exp == nb + cfg.samplesPerFrame && at <= due + 1)
    }

    ghost predicate Flags()
      reads `tracking, `prov, `provFrame, `held, `miss, `cand
    {
      && (prov ==> tracking && miss == 0 && !held && Decodes(cfg, provFrame))
      && (held ==> tracking && cfg.holdOnMiss)
      && (tracking ==> cand == [])
    }

    /** The callbacks since the last reset are in order, and the counters count them. */
    ghost predicate Told()
      reads `tracking, `prov, `statFrames, `statLost, `out, `epoch
    {
      ToldOf(cfg, out, epoch, tracking && !prov, statFrames, statLost)
    }

    /** Before window k, with frame k - 1 done. */
    ghost predicate Awaiting(k: nat)
      requires air.levels(from).Some? && k > 0
      reads `prov, `provFrame, `exp, `dueValid, `held, `heldFrame, `miss, `level, `from
    {
      var s := Link(cfg, air, from, k - 1);
      && !dueValid && exp == Expected(cfg, air, from, k) && miss == s.miss && level == s.level
      && prov == (k == 1) && (prov ==> provFrame == Slice(cfg, air, from, 0))
      && held == HeldBack(cfg, air, from, k - 1) && (held ==> heldFrame == Slice(cfg, air, from, k - 1))
    }

    /** After window k, with frame k still to come. */
    ghost predicate Reading(k: nat)
      requires air.levels(from).Some? && k > 0
      reads `prov, `provFrame, `exp, `nb, `dueValid, `held, `heldFrame, `miss, `level, `from
    {
      var s := Link(cfg, air, from, k);
      && dueValid && nb == s.p && exp == Expected(cfg, air, from, k + 1) && miss == s.miss && level == s.level
      && prov == (k == 1) && (prov ==> provFrame == Slice(cfg, air, from, 0))
      && held == (HeldBack(cfg, air, from, k - 1) && HeldBack(cfg, air, from, k))
      && (held ==> heldFrame == Slice(cfg, air, from, k - 1))
    }

    /** A tracking receiver is where the signal has led it since the sync word it locked on, and
        has told what was to be told. */
    ghost predicate Linked(at: nat)
      reads `tracking, `prov, `provFrame, `exp, `nb, `dueValid, `held, `heldFrame, `miss, `level, `out, `from, `half,
        `mark
    {
      tracking ==>
        && air.levels(from).Some? && half >= 2 && InSlot(cfg, air, from, half, at) && Lasts(cfg, air, from, half + 1)
        && mark <= |out| && out[mark..] == Report(cfg, air, from, half)
        && (if half % 2 == 0 then Awaiting(half / 2) else Reading(half / 2))
    }

    ghost predicate Valid()
      reads this
    {
      ValidConfig(cfg) && Candidates(cfg, cand, n - 1, n) && Ahead(n) && Flags() && Told() && Linked(n)
    }

    constructor (c: Config, a: Air)
      requires ValidConfig(c)
      ensures Valid() && cfg == c && air == a && n == 0 && out == []
    {
      cfg, air, n, cand, tracking, prov, provFrame := c, a, 0, [], false, false, [];
      exp, nb, due, dueValid, held, heldFrame, miss, level := 0, 0, 0, false, false, [], 0, (0.0, 0.0);
      statCandidates, statLocks, statFrames, statLost, statDropped := 0, 0, 0, 0, 0;
      out, epoch, from, half, mark := [], 0, 0, 0, 0;
    }

    method Reset()
      requires Valid()
      modifies this
      ensures Valid() && !tracking && cand == [] && out == old(out) && epoch == |out| && n == old(n)
    {
      hide *;
      RunFacts(this);
      cand, tracking, prov, dueValid, held, miss := [], false, false, false, false, 0;
      epoch := |out|;
      NowIdle();
    }

    lemma NowIdle()
      requires ValidConfig(cfg) && !tracking && !prov && !dueValid && !held && cand == [] && epoch == |out|
      requires statFrames == Count(out, false) && statLost == Count(out, true)
      ensures Valid()
    {
      hide PhaseOf, Count;
      assert out[epoch..] == [];
      NothingTold(cfg);
    }

    method RingR(p: nat, at: nat) returns (r: real)
      requires InRing(p, at)
      ensures r == air.r(p)
    {
      r := air.r(p);
    }

    method SyncLevels(p: nat, at: nat) returns (l: Option<Level>)
      requires cfg.syncSpan <= p <= at && InRing(p - cfg.syncSpan, at)
      ensures l == air.levels(p)
    {
      l := air.levels(p);
    }

    method SliceFrame(p: nat, l: Level, at: nat) returns (f: Bytes)
      requires cfg.syncSpan <= p && p + cfg.frameLast <= at && InRing(p - cfg.syncSpan, at)
      ensures f == air.slice(p, l)
    {
      f := air.slice(p, l);
    }

    /** The callback with a frame or with the loss. */
    method Announce(e: Event)
      requires epoch <= |out| && statFrames == Count(out, false) && statLost == Count(out, true)
      modifies `out, `statFrames, `statLost
      ensures epoch <= |out| && statFrames == Count(out, false) && statLost == Count(out, true)
      ensures out == old(out) + [e] && PhaseOf(cfg, out[epoch..]) == After(cfg, PhaseOf(cfg, old(out)[epoch..]), e)
    {
      ghost var was := out;
      out := out + [e];
      assert out[..|out| - 1] == was && out[epoch..] == was[epoch..] + [e];
      assert out[epoch..][..|out[epoch..]| - 1] == was[epoch..];
      if e.Lost? { statLost := statLost + 1; } else { statFrames := statFrames + 1; }
    }

    /** addCandidate: when the list is full the new one replaces the first of the lowest
        correlations, if it is better. */
    method AddCandidate(p: nat, r: real)
      requires ValidConfig(cfg) && Candidates(cfg, cand, p + 1, p + 2) && cfg.syncSpan <= p
      modifies `cand, `statCandidates
      ensures Candidates(cfg, cand, p + 2, p + 2)
      ensures Added(old(cand), cand, Cand(p, p + cfg.frameLast, r))
      ensures statCandidates == old(statCandidates) + 1
    {
      hide Candidates;
      statCandidates := statCandidates + 1;
      ghost var was, next := cand, Cand(p, p + cfg.frameLast, r);
      AddedAt(cfg, cand, next);
      if |cand| >= MAX_CAND {
        var worst := 0;
        for i := 1 to |cand|
          invariant IsWorst(cand[..i], worst)
        {
          if cand[i].r < cand[worst].r { worst := i; }
          assert cand[..i + 1] == cand[..i] + [cand[i]];
        }
        assert cand[..|cand|] == cand;
        AddedInstead(cfg, cand, next, worst);
        assert IsWorst(was, worst);
        if cand[worst].r >= r {
          assert Replaced(was, cand, worst, next);
          return;
        }
        cand := cand[..worst] + cand[worst + 1..];
        assert Replaced(was, cand + [next], worst, next);
      }
      cand := cand + [Cand(p, p + cfg.frameLast, r)];
    }

    /** hunt: a local peak of the correlation with usable levels is a candidate. */
    method Hunt(at: nat)
      requires ValidConfig(cfg) && Candidates(cfg, cand, at - 1, at)
      modifies `cand, `statCandidates
      ensures Candidates(cfg, cand, at, at)
      ensures Hunted(cfg, air, at, old(cand), cand)
      ensures statCandidates == old(statCandidates) + if at >= 2 && IsPeak(cfg, air, at - 2) then 1 else 0
    {
      if at < cfg.syncSpan + 8 { return; }
      var p := at - 2;
      var r := RingR(p, at);
      if r < cfg.hunt { return; }
      var r1 := RingR(p - 1, at);
      var r2 := RingR(p - 2, at);
      var r3 := RingR(p + 1, at);
      var r4 := RingR(p + 2, at);
      if r < r1 || r < r2 || r <= r3 || r <= r4 { return; }
      var l := SyncLevels(p, at);
      if l.None? { return; }
      AddCandidate(p, r);
    }

    /** A provisional lock on the frame at p. */
    method Lock(p: nat, l: Level, frame: Bytes, at: nat)
      requires ValidConfig(cfg) && !tracking && Flags() && Told() && Decodes(cfg, frame) && cfg.syncSpan <= p
      requires at == p + cfg.frameLast && air.levels(p) == Some(l) && frame == air.slice(p, l)
      modifies `tracking, `prov, `provFrame, `miss, `level, `exp, `dueValid, `cand, `from, `half, `mark
      ensures LockedOn(p, l, frame) && Flags() && Ahead(at + 1) && Told() && Linked(at + 1)
    {
      hide *;
      CandFlags();
      ToldIs();
      tracking, prov, provFrame, miss, level := true, true, frame, 0, l;
      exp := p + cfg.samplesPerFrame;
      dueValid := false;
      cand := [];
      from, half, mark := p, 2, |out|;
      ToldIs();
      NowLocked(p, l, frame, at);
    }

    lemma ToldIs()
      ensures Told() <==> ToldOf(cfg, out, epoch, tracking && !prov, statFrames, statLost)
    {}

    lemma NowLocked(p: nat, l: Level, frame: Bytes, at: nat)
      requires tracking && prov && provFrame == frame && miss == 0 && level == l && !held && !dueValid && cand == []
      requires exp == p + cfg.samplesPerFrame && from == p && half == 2 && mark == |out|
      requires ValidConfig(cfg) && Decodes(cfg, frame) && cfg.syncSpan <= p
      requires at == p + cfg.frameLast && air.levels(p) == Some(l) && frame == air.slice(p, l)
      ensures LockedOn(p, l, frame) && Flags() && Ahead(at + 1) && Linked(at + 1)
    {
      hide Decodes, InSlot, Ends, Lasts, Over, Tells, Report, Link, Slice, HeldBack, Expected;
      FirstSlot(cfg, air, p);
      assert Awaiting(1);
    }

    ghost predicate LockedOn(p: nat, l: Level, frame: Bytes)
      reads `tracking, `prov, `provFrame, `miss, `level, `exp, `dueValid, `cand, `from, `half, `mark, `out
    {
      && tracking && prov && provFrame == frame && miss == 0 && level == l
      && exp == p + cfg.samplesPerFrame && !dueValid && cand == []
      && from == p && half == 2 && mark == |out|
    }

    /** The list without its first. */
    method Pop(at: nat) returns (c: Cand)
      requires Candidates(cfg, cand, at, at) && cand != [] && cand[0].due <= at
      modifies `cand
      ensures c == old(cand)[0] && cand == old(cand)[1..] && Candidates(cfg, cand, at, at + 1)
      ensures cfg.syncSpan <= c.nb && at == c.due == c.nb + cfg.frameLast
    {
      PopFirst(cfg, cand, at);
      hide Candidates;
      c := cand[0];
      cand := cand[1..];
    }

    /** processCandidates: the candidate whose frame has just arrived, if there is one, gives a
        provisional lock when its frame decodes, and is dropped otherwise. */
    method ProcessCandidates(at: nat)
      requires ValidConfig(cfg) && Candidates(cfg, cand, at, at) && !tracking && !dueValid && Flags() && Told()
      modifies `tracking, `prov, `provFrame, `miss, `level, `exp, `dueValid, `cand, `from, `half, `mark
      ensures Candidates(cfg, cand, at, at + 1) && Flags() && Ahead(at + 1) && Told() && Linked(at + 1)
      ensures old(cand) != [] && old(cand)[0].due == at && Opens(cfg, air, old(cand)[0].nb) ==>
        var p := old(cand)[0].nb;
        LockedOn(p, air.levels(p).value, air.slice(p, air.levels(p).value))
      ensures old(cand) != [] && old(cand)[0].due == at && !Opens(cfg, air, old(cand)[0].nb) ==>
        !tracking && cand == old(cand)[1..]
      ensures old(cand) == [] || old(cand)[0].due != at ==> !tracking && cand == old(cand)
    {
      hide Candidates, PhaseOf, Count, Decodes, Told, LockedOn, Linked;
      NotLinked(at);
      ghost var was := cand;
      FirstDue(cfg, cand, at);
      while |cand| > 0 && cand[0].due <= at
        invariant Candidates(cfg, cand, at, at) && Flags() && Ahead(at + 1) && Told() && Linked(at + 1)
        invariant (cand == was && !tracking) || (was != [] && was[0].due == at && Candidates(cfg, cand, at, at + 1))
        invariant cand != was ==> if Opens(cfg, air, was[0].nb)
          then var l := air.levels(was[0].nb).value; LockedOn(was[0].nb, l, air.slice(was[0].nb, l)) && cand == []
          else !tracking && cand == was[1..]
        decreases |cand|
      {
        FirstDue(cfg, cand, at);
        var c := Pop(at);
        Sooner(cfg, cand, at);
        var l := SyncLevels(c.nb, at);
        if l.None? { continue; }
        var frame := SliceFrame(c.nb, l.value, at);
        if !Decodes(cfg, frame) { continue; }
        Lock(c.nb, l.value, frame, at);
        IsLocked(c.nb, l.value, frame);
        NoCandidates(cfg, at);
      }
      FirstDue(cfg, cand, at);
    }

    lemma NotLinked(at: nat)
      ensures !tracking ==> Linked(at + 1)
    {}

    lemma IsLocked(p: nat, l: Level, frame: Bytes)
      requires LockedOn(p, l, frame)
      ensures tracking && cand == []
    {}

    /** What is announced when frame f is due. */
    ghost function Emits(f: Bytes): seq<Event>
      reads `prov, `provFrame, `miss
    {
      if prov then if Decodes(cfg, f) then [Frame(provFrame), Frame(f)] else []
      else if cfg.holdOnMiss && miss > 0 then [] else [Frame(f)]
    }

    /** emitFrame: a provisional first frame is released only when the next one decodes too. */
    method EmitFrame(p: nat, at: nat)
      requires tracking && !dueValid && Flags() && Told() && cfg.syncSpan <= p && p + cfg.frameLast <= at
      requires InRing(p - cfg.syncSpan, at)
      modifies `tracking, `prov, `held, `heldFrame, `out, `statFrames, `statLost, `statLocks, `statDropped
      ensures Flags() && Told()
      ensures !prov && (tracking <==> !old(prov) || Decodes(cfg, air.slice(p, level)))
      ensures out == old(out) + old(Emits(air.slice(p, level)))
      ensures if !old(prov) && cfg.holdOnMiss && miss > 0 then held && heldFrame == air.slice(p, level)
        else held == old(held) && heldFrame == old(heldFrame)
    {
      hide PhaseOf, Count, Decodes;
      var frame := SliceFrame(p, level, at);
      if prov {
        if !Decodes(cfg, frame) {
          prov, tracking := false, false;
          statDropped := statDropped + 1;
          return;
        }
        statLocks := statLocks + 1;
        prov := false;
        Announce(Frame(provFrame));
      }
      if cfg.holdOnMiss && miss > 0 {
        heldFrame, held := frame, true;
        return;
      }
      Announce(Frame(frame));
    }

    /** The best correlation within two samples of where the sync word should be. */
    method BestNear(at: nat) returns (best: nat, bestR: real)
      requires at == exp + 2 && exp >= 2
      ensures exp - 2 <= best <= exp + 2 && bestR >= -1.0
      ensures bestR > -1.0 ==> bestR == air.r(best) && IsBest(air, exp, best)
      ensures bestR == -1.0 ==> best == exp && forall p: nat :: exp - 2 <= p <= exp + 2 ==> air.r(p) <= -1.0
    {
      best, bestR := exp, -1.0;
      for p := exp - 2 to exp + 3
        invariant exp - 2 <= best <= exp + 2 && bestR >= -1.0
        invariant forall q :: exp - 2 <= q < p ==> air.r(q) <= bestR
        invariant bestR > -1.0 ==> best < p && bestR == air.r(best) && forall q :: exp - 2 <= q < best ==>
          air.r(q) < bestR
        invariant bestR == -1.0 ==> best == exp
      {
        var r := RingR(p, at);
        if r > bestR { bestR, best := r, p; }
      }
    }

    /** The best correlation near the expected place, if it is usable. */
    method FindSync(at: nat) returns (best: nat, l: Option<Level>)
      requires ValidConfig(cfg) && at == exp + 2 && cfg.syncSpan + cfg.samplesPerFrame <= exp
      ensures l.Some? ==> IsBest(air, exp, best) && Heard(cfg, air, best) && l == air.levels(best)
      ensures l.None? ==> !Found(cfg, air, exp)
    {
      var bestR;
      best, bestR := BestNear(at);
      l := None;
      if bestR >= cfg.track { l := SyncLevels(best, at); }
    }

    /** The sync word where it should be: found with usable levels, or missed. */
    method Measure(at: nat) returns (hit: bool)
      requires ValidConfig(cfg) && tracking && at == exp + 2 && cfg.syncSpan + cfg.samplesPerFrame <= exp && Flags()
      requires Told()
      modifies `miss, `held, `level, `nb, `out, `statFrames, `statLost
      ensures hit == Found(cfg, air, exp)
      ensures hit ==> miss == 0 && !held && IsBest(air, exp, nb) && Heard(cfg, air, nb)
      ensures level == if hit then air.blend(old(level), air.levels(nb).value) else old(level)
      ensures hit ==> out == if old(held) then old(out) + [Frame(heldFrame)] else old(out)
      ensures !hit ==> miss == old(miss) + 1 && nb == exp && held == old(held) && out == old(out)
      ensures Told() && (hit && old(held) ==> !prov)
    {
      hide PhaseOf, Count, Decodes, IsBest;
      var best, l := FindSync(at);
      hit := l.Some?;
      if hit {
        miss := 0;
        if held {
          held := false;
          Announce(Frame(heldFrame));
        }
        level := air.blend(level, l.value);
        nb := best;
      } else {
        miss := miss + 1;
        nb := exp;
      }
    }

    /** The next sync word: found, missed, or missed once too often. */
    method Window(at: nat)
      requires ValidConfig(cfg) && tracking && at == exp + 2 && !dueValid && cfg.syncSpan + cfg.samplesPerFrame <= exp
      requires Flags() && Told()
      modifies `tracking, `prov, `dueValid, `statDropped, `miss, `held, `level, `nb, `due, `exp, `out, `statFrames,
        `statLost
      ensures Flags() && Told() && Ahead(at + 1)
      ensures tracking <==> Found(cfg, air, old(exp)) || (!old(prov) && old(miss) + 1 <= cfg.maxMiss)
      ensures tracking ==> prov == old(prov) && dueValid && exp == nb + cfg.samplesPerFrame
      ensures tracking ==> out == if miss == 0 && old(held) then old(out) + [Frame(heldFrame)] else old(out)
      ensures Found(cfg, air, old(exp)) ==>
        && IsBest(air, old(exp), nb) && Heard(cfg, air, nb) && miss == 0 && !held
        && level == air.blend(old(level), air.levels(nb).value)
      ensures tracking && !Found(cfg, air, old(exp)) ==>
        nb == old(exp) && miss == old(miss) + 1 && level == old(level) && held == old(held)
      ensures !tracking ==> !prov && !dueValid && !held && out == if old(prov) then old(out) else old(out) + [Lost]
    {
      hide PhaseOf, Count, Decodes, Told, Found, IsBest, Heard;
      var hit := Measure(at);
      if hit { IsHeard(nb); }
      if prov && miss > 0 { Drop(); return; }
      if miss > cfg.maxMiss { Lose(); return; }
      due := nb + cfg.frameLast;
      dueValid := true;
      exp := nb + cfg.samplesPerFrame;
    }

    lemma IsHeard(p: nat)
      ensures Heard(cfg, air, p) ==> air.levels(p).Some?
      ensures IsBest(air, exp, p) ==> exp <= p + 2 && p <= exp + 2
    {}

    /** A provisional lock without a second sync word was noise. */
    method Drop()
      requires prov && tracking && Told() && cand == []
      modifies `prov, `tracking, `dueValid, `statDropped
      ensures !prov && !tracking && !dueValid && Told()
    {
      hide PhaseOf, Count;
      prov, tracking, dueValid := false, false, false;
      statDropped := statDropped + 1;
    }

    /** The loss of a signal. */
    method Lose()
      requires !prov && tracking && Told()
      modifies `tracking, `dueValid, `held, `out, `statFrames, `statLost
      ensures !tracking && !dueValid && !held && Told() && out == old(out) + [Lost]
    {
      hide PhaseOf, Count;
      tracking, dueValid, held := false, false, false;
      Announce(Lost);
    }

    /** Half a session step when the sample that ends it has come, none otherwise; what has been
        told is what the signal says. */
    ghost predicate Stepped(at: nat, was: nat)
      reads `tracking, `out, `from, `half, `mark
    {
      && air.levels(from).Some? && mark <= |out|
      && half == was + (if at == Ends(cfg, air, from, was) then 1 else 0)
      && (tracking <==> !Over(cfg, air, from, half)) && out[mark..] == Report(cfg, air, from, half)
    }

    /** What is known when frame k is due. */
    lemma FrameDue(at: nat, k: nat)
      requires Valid() && tracking && n == at && dueValid && at >= due && k == half / 2
      ensures Flags() && Told() && air.levels(from).Some?
      ensures half == 2 * k + 1 && k > 0 && at == Ends(cfg, air, from, half) && mark <= |out|
      ensures cfg.syncSpan <= nb && nb + cfg.frameLast <= at && InRing(nb - cfg.syncSpan, at)
      ensures prov == (k == 1) && level == Link(cfg, air, from, k).level && miss == Link(cfg, air, from, k).miss
      ensures exp == Expected(cfg, air, from, k + 1) && at < exp + 2 && cfg.syncSpan + cfg.samplesPerFrame <= exp
      ensures air.slice(nb, level) == Slice(cfg, air, from, k)
      ensures HeldBack(cfg, air, from, k) <==> cfg.holdOnMiss && miss > 0
      ensures !HeldBack(cfg, air, from, k) ==> !held
      ensures prov ==> miss == 0
      ensures Over(cfg, air, from, half + 1) <==> prov && !Decodes(cfg, air.slice(nb, level))
      ensures InSlot(cfg, air, from, half + 1, at + 1)
      ensures !Over(cfg, air, from, half + 1) ==> Lasts(cfg, air, from, half + 2)
      ensures Report(cfg, air, from, half + 1) == out[mark..] + Emits(air.slice(nb, level))
    {
      hide PhaseOf, Count, Decodes, Told, Candidates, Ends, Over, Lasts, Tells, Report, Link, Slice, HeldBack, Expected;
      NoneDue(at);
      FrameFacts(cfg, air, from, k, at);
      FrameTells(cfg, air, from, k);
      ReportNext(cfg, air, from, half);
      HeldIs(cfg, air, from, k);
      NextSlot(cfg, air, from, half, at);
    }

    /** After frame k the receiver waits for the next sync word. */
    lemma NowAwaiting(at: nat, k: nat)
      requires air.levels(from).Some? && k > 0 && half == 2 * (k + 1) && !dueValid && !prov && mark <= |out|
      requires out[mark..] == Report(cfg, air, from, half) && (tracking <==> !Over(cfg, air, from, half))
      requires level == Link(cfg, air, from, k).level && miss == Link(cfg, air, from, k).miss
      requires exp == Expected(cfg, air, from, k + 1) && at < exp + 2 && cfg.syncSpan + cfg.samplesPerFrame <= exp
      requires tracking ==> held == HeldBack(cfg, air, from, k) && (held ==> heldFrame == Slice(cfg, air, from, k))
      requires InSlot(cfg, air, from, half, at + 1) && (tracking ==> Lasts(cfg, air, from, half + 1))
      ensures Linked(at + 1) && Ahead(at + 1)
    {
      hide Ends, Over, Lasts, Tells, Report, Link, Slice, HeldBack, Expected, InSlot;
      assert Awaiting(k + 1) || !tracking;
    }

    /** The frame the last window placed. */
    method TakeFrame(at: nat)
      requires Valid() && tracking && n == at && dueValid && at >= due
      modifies `tracking, `prov, `dueValid, `held, `heldFrame, `out, `statFrames, `statLost, `statLocks, `statDropped,
        `half
      ensures Flags() && Told() && Ahead(at + 1) && Linked(at + 1) && at != exp + 2
      ensures Stepped(at, old(half)) && at == Ends(cfg, air, from, old(half)) && out[..mark] == old(out)[..mark]
    {
      hide *;
      ghost var k, told, more := half / 2, out, Emits(air.slice(nb, level));
      FrameDue(at, k);
      dueValid := false;
      EmitFrame(nb, at);
      half := half + 1;
      Appended(told, out, more, mark);
      NowAwaiting(at, k);
      IsStepped(at, half - 1);
    }

    lemma IsStepped(at: nat, was: nat)
      requires air.levels(from).Some? && mark <= |out| && half == was + 1 && at == Ends(cfg, air, from, was)
      requires (tracking <==> !Over(cfg, air, from, half)) && out[mark..] == Report(cfg, air, from, half)
      ensures Stepped(at, was)
    {}

    /** What is known when window k is due. */
    lemma WindowDue(at: nat, k: nat)
      requires Valid() && tracking && n == at && at == exp + 2 && k == half / 2
      ensures Flags() && Told() && air.levels(from).Some? && ValidConfig(cfg) && cand == []
      ensures half == 2 * k && k > 0 && at == Ends(cfg, air, from, half) && mark <= |out| && !dueValid
      ensures exp == Expected(cfg, air, from, k) && cfg.syncSpan + cfg.samplesPerFrame <= exp
      ensures var s := Link(cfg, air, from, k - 1); level == s.level && miss == s.miss
      ensures prov == (k == 1) && (prov ==> provFrame == Slice(cfg, air, from, 0) && miss == 0)
      ensures held == HeldBack(cfg, air, from, k - 1) && (held ==> heldFrame == Slice(cfg, air, from, k - 1))
      ensures held ==> !prov && cfg.holdOnMiss
      ensures InSlot(cfg, air, from, half + 1, at + 1)
      ensures !Over(cfg, air, from, half + 1) ==> Lasts(cfg, air, from, half + 2)
      ensures var s := Link(cfg, air, from, k);
        && (Over(cfg, air, from, half + 1) <==> s.miss > if prov then 0 else cfg.maxMiss)
        && (HeldBack(cfg, air, from, k) <==> cfg.holdOnMiss && s.miss > 0)
        && Expected(cfg, air, from, k + 1) == s.p + cfg.samplesPerFrame
        && Report(cfg, air, from, half + 1) == out[mark..] + if prov then [] else
          if Over(cfg, air, from, half + 1) then [Lost] else if held && s.miss == 0 then [Frame(heldFrame)] else []
    {
      hide PhaseOf, Count, Decodes, Told, Candidates, Ends, Over, Lasts, Tells, Report, Link, Slice, HeldBack, Expected;
      NoneDue(at);
      WindowFacts(cfg, air, from, k);
      WindowTells(cfg, air, from, k);
      ReportNext(cfg, air, from, half);
      HeldIs(cfg, air, from, k - 1);
      NextSlot(cfg, air, from, half, at);
    }

    /** After window k the receiver waits for the end of frame k. */
    lemma NowReading(at: nat, k: nat)
      requires air.levels(from).Some? && k > 0 && half == 2 * k + 1 && mark <= |out| && Ahead(at + 1)
      requires out[mark..] == Report(cfg, air, from, half) && (tracking <==> !Over(cfg, air, from, half))
      requires tracking ==> var s := Link(cfg, air, from, k);
        dueValid && nb == s.p && level == s.level && miss == s.miss && exp == Expected(cfg, air, from, k + 1)
      requires tracking ==> prov == (k == 1) && (prov ==> provFrame == Slice(cfg, air, from, 0))
      requires tracking ==> held == (HeldBack(cfg, air, from, k - 1) && HeldBack(cfg, air, from, k))
      requires tracking && held ==> heldFrame == Slice(cfg, air, from, k - 1)
      requires InSlot(cfg, air, from, half, at + 1) && (tracking ==> Lasts(cfg, air, from, half + 1))
      ensures Linked(at + 1)
    {
      hide Ends, Over, Lasts, Tells, Report, Link, Slice, HeldBack, Expected, InSlot;
      assert Reading(k) || !tracking;
    }

    /** The window around the place where the next sync word should be. */
    method TakeWindow(at: nat)
      requires Valid() && tracking && n == at && at == exp + 2
      modifies `tracking, `prov, `dueValid, `statDropped, `miss, `held, `level, `nb, `due, `exp, `out, `statFrames,
        `statLost, `half
      ensures Flags() && Told() && Ahead(at + 1) && Linked(at + 1)
      ensures Stepped(at, old(half)) && at == Ends(cfg, air, from, old(half)) && out[..mark] == old(out)[..mark]
    {
      hide *;
      ghost var k, told := half / 2, out;
      WindowDue(at, k);
      Window(at);
      LinkIs(cfg, air, from, k, nb);
      half := half + 1;
      Appended(told, out, out[|told|..], mark);
      NowReading(at, k);
      IsStepped(at, half - 1);
    }

    lemma CandFlags()
      requires Flags()
      ensures tracking ==> cand == []
      ensures !tracking ==> !held && (!dueValid || !Ahead(n))
    {}

    /** Nothing found and nothing followed. */
    predicate Looking()
      reads `tracking, `cand
    {
      !tracking && cand == []
    }

    ghost function Now(): View
      reads `n, `cand, `tracking, `out, `from, `half, `mark
    {
      View(n, cand, tracking, out, from, half, mark)
    }

    lemma NoneDue(at: nat)
      requires Valid() && tracking && n == at
      ensures at == Ends(cfg, air, from, half) <==> (dueValid && at >= due) || at == exp + 2
    {
      hide PhaseOf, Count, Decodes, Told, Candidates, Ends, Over, Lasts, Tells, Report, Link, Slice, HeldBack, Expected;
      if half % 2 == 0 {
        WindowFacts(cfg, air, from, half / 2);
      } else {
        WindowFacts(cfg, air, from, half / 2);
        FrameFacts(cfg, air, from, half / 2, at);
        LinkNear(cfg, air, from, half / 2);
      }
    }

    /** track: the frame the last window placed, then the next window.  The session goes on by
        half a step exactly when the sample that ends it has come. */
    method Track(at: nat)
      requires Valid() && tracking && n == at
      modifies this
      ensures Flags() && Told() && Ahead(at + 1) && Linked(at + 1) && cand == [] && n == at
      ensures from == old(from) && mark == old(mark) <= |old(out)| && Stepped(at, old(half))
      ensures out == old(out)[..mark] + Report(cfg, air, from, half)
    {
      hide PhaseOf, Count, Decodes, Told, Candidates, Ends, Over, Lasts, Tells, Report, Link, Slice, HeldBack, Expected;
      NextSlot(cfg, air, from, half, at);
      NoneDue(at);
      if dueValid && at >= due { TakeFrame(at); }
      if at == exp + 2 { TakeWindow(at); }
      assert out == out[..mark] + out[mark..];
    }

    /** RxSample: every sample moves a tracking receiver along its session, or is looked at for a
        peak and for a frame that is due. */
    method RxSample() returns (ghost mid: seq<Cand>)
      requires Valid()
      modifies this
      ensures Valid() && n == old(n) + 1
      ensures Moves(cfg, air, old(Now()), Now(), mid)
    {
      hide PhaseOf, Count, Decodes, Told, Candidates, Linked, Ahead, Opens, Hunted, Ends, Over, Report;
      var at := n;
      CandFlags();
      mid := cand;
      if tracking {
        Track(at);
        NoneFrom(cfg, cand, at);
      } else {
        Hunt(at);
        mid := cand;
        ProcessCandidates(at);
      }
      n := at + 1;
    }
  }

  lemma NoneFrom(c: Config, cand: seq<Cand>, at: nat)
    ensures cand == [] ==> Candidates(c, cand, at, at + 1)
  {}

  lemma StartFollowing(rx: Rx, p0: nat)
    requires rx.n <= p0 + 2 && rx.Looking() && Alone(rx.cfg, rx.air, p0, rx.n)
    ensures rx.air.levels(p0).Some? && Following(rx.cfg, rx.air, rx.Now(), p0, rx.out, 2)
  {}

  lemma RunFacts(rx: Rx)
    requires rx.Valid()
    ensures ValidConfig(rx.cfg) && rx.Now().n == rx.n && rx.Now().out == rx.out
    ensures rx.Looking() <==> !rx.Now().tracking && rx.Now().cand == []
    ensures rx.epoch <= |rx.out| && PhaseOf(rx.cfg, rx.out[rx.epoch..]) != Wrong
    ensures rx.statFrames == Count(rx.out, false) && rx.statLost == Count(rx.out, true)
    ensures rx.tracking ==> rx.n <= rx.exp + 2
  {
    hide PhaseOf, Count, Candidates, IsPeak;
  }

  /** Any stream of samples from the start: since the last reset the callbacks are a prefix of
      (frame frame frame* lost)*, every session's first two frames passed the channel code
      check, and the counters are exact.  A receiver that looks for a signal follows the one that
      starts at p0, when nothing else looks like a sync word before its frame is complete: at
      every sample until the session is over it has told exactly what the signal says. */
  method RxSamples(rx: Rx, length: nat, ghost p0: nat)
    requires rx.Valid()
    modifies rx
    ensures rx.Valid() && rx.n == old(rx.n) + length
    ensures rx.epoch <= |rx.out| && PhaseOf(rx.cfg, rx.out[rx.epoch..]) != Wrong
    ensures rx.statFrames == Count(rx.out, false) && rx.statLost == Count(rx.out, true)
    ensures rx.tracking ==> rx.n <= rx.exp + 2
    ensures old(rx.Looking() && rx.n <= p0 + 2) && Alone(rx.cfg, rx.air, p0, old(rx.n)) ==>
      forall h :: InSession(rx.cfg, rx.air, p0, h, rx.n) ==>
        rx.out == old(rx.out) + Report(rx.cfg, rx.air, p0, h) && (Over(rx.cfg, rx.air, p0, h) ==> rx.Looking())
  {
    hide *;
    ghost var ready := rx.Looking() && rx.n <= p0 + 2 && Alone(rx.cfg, rx.air, p0, rx.n);
    ghost var g, base, start := 2, rx.out, rx.n;
    if ready { StartFollowing(rx, p0); }
    RunFacts(rx);
    for i := 0 to length
      invariant rx.Valid() && rx.n == start + i
      invariant ready ==> rx.air.levels(p0).Some? && Following(rx.cfg, rx.air, rx.Now(), p0, base, g)
    {
      RunFacts(rx);
      ghost var v := rx.Now();
      ghost var mid := rx.RxSample();
      RunFacts(rx);
      if ready { g := FollowStep(rx.cfg, rx.air, v, rx.Now(), mid, p0, base, start, g); }
    }
    RunFacts(rx);
    if ready {
      forall h | InSession(rx.cfg, rx.air, p0, h, rx.n)
        ensures rx.out == base + Report(rx.cfg, rx.air, p0, h) && (Over(rx.cfg, rx.air, p0, h) ==> rx.Looking())
      {
        SessionTold(rx.cfg, rx.air, rx.Now(), p0, base, g, h);
      }
    }
  }
}
