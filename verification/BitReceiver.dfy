/** The bit stream receiver: search, flywheel and loss. */
module BitReceiver {
  import opened Bits
  import opened BitWindow

  const MAX_FRAME_BYTES: nat := 120

  datatype Config = Config(syncValue: bv64, syncMask: bv64, syncBits: nat, frameBits: nat, startErrs: nat, runErrs: nat,
                           maxFrames: nat, syncBytes: seq<bv8>, frameBytes: nat)

  predicate ValidConfig(c: Config) {
    && 3 <= c.syncBits && c.syncBits + 2 < c.frameBits <= 8 * c.frameBytes <= 8 * MAX_FRAME_BYTES
    && (c.syncBits + 7) / 8 <= |c.syncBytes| && 0 < c.maxFrames
  }

  datatype Event = Frame(bytes: seq<bv8>) | Lost

  /** bitCount64. */
  method BitCount64(v0: bv64) returns (n: nat)
    ensures n == Ones(v0)
  {
    var v := v0;
    n := 0;
    while v != 0
      invariant n + Ones(v) == Ones(v0)
      decreases v
    {
      Halves(v);
      n := n + (v & 1) as nat;
      v := v >> 1;
    }
  }

  /** The bits of the window that differ from the sync word. */
  function Differing(c: Config, window: bv64): bv64 { Xor(And(window, c.syncMask), c.syncValue) }

  /** The k-th newest bit since the last reset; there were zeros before. */
  predicate Recent(stream: seq<bool>, since: nat, k: nat) {
    k < |stream| && |stream| - k > since && stream[|stream| - 1 - k]
  }

  /** The window holds the newest bits. */
  ghost predicate WindowIs(window: bv64, stream: seq<bool>, since: nat) {
    since <= |stream| && forall k: nat | k < 64 :: WordBit(window, k) == Recent(stream, since, k)
  }

  /** In how many of the newest n bits those that the mask selects differ from the value. */
  function Apart(c: Config, stream: seq<bool>, since: nat, n: nat): nat {
    if n == 0 then 0
    else
      var seen := Recent(stream, since, n - 1) && WordBit(c.syncMask, n - 1);
      Apart(c, stream, since, n - 1) + (if seen != WordBit(c.syncValue, n - 1) then 1 else 0)
  }

  /** The newest bits look like the sync word. */
  predicate Heard(c: Config, stream: seq<bool>, since: nat, errs: nat) { Apart(c, stream, since, 64) <= errs }

  /** The sync word as bits. */
  predicate SyncBit(c: Config, i: nat)
    requires ValidConfig(c) && i < c.syncBits
  {
    BitAt(c.syncBytes, i)
  }

  /** The mask selects the newest syncBits bits and the value is the sync word that starts every
      frame. */
  ghost predicate OneSyncWord(c: Config) {
    && ValidConfig(c) && c.syncBits <= 64
    && (forall k: nat | k < 64 :: WordBit(c.syncMask, k) <==> k < c.syncBits)
    && forall k: nat | k < 64 :: WordBit(c.syncValue, k) <==> k < c.syncBits && SyncBit(c, c.syncBits - 1 - k)
  }

  /** How many of the last n bits of the sync word were received wrong. */
  function Errors(c: Config, stream: seq<bool>, since: nat, n: nat): nat
    requires ValidConfig(c) && n <= c.syncBits
  {
    if n == 0 then 0
    else
      var wrong := Recent(stream, since, n - 1) != SyncBit(c, c.syncBits - n);
      Errors(c, stream, since, n - 1) + (if wrong then 1 else 0)
  }

  lemma {:induction false} ApartIsErrors(c: Config, stream: seq<bool>, since: nat, n: nat)
    requires OneSyncWord(c) && n <= 64
    ensures Apart(c, stream, since, n) == Errors(c, stream, since, if n <= c.syncBits then n else c.syncBits)
  {
    hide WordBit, SyncBit, Recent;
    if n > 0 {
      ApartIsErrors(c, stream, since, n - 1);
      var k := n - 1;
      assert WordBit(c.syncMask, k) <==> k < c.syncBits;
      assert WordBit(c.syncValue, k) <==> k < c.syncBits && SyncBit(c, c.syncBits - 1 - k);
    }
  }

  /** A sync word is heard exactly when at most that many of its bits were received wrong. */
  lemma HeardIsErrors(c: Config, stream: seq<bool>, since: nat, errs: nat)
    requires OneSyncWord(c)
    ensures Heard(c, stream, since, errs) <==> Errors(c, stream, since, c.syncBits) <= errs
  {
    ApartIsErrors(c, stream, since, 64);
  }

  /** The window counts what differs in the newest bits. */
  lemma WindowApart(c: Config, window: bv64, stream: seq<bool>, since: nat)
    requires WindowIs(window, stream, since)
    ensures Ones(Differing(c, window)) == Apart(c, stream, since, 64)
  {
    OnesIsCount(Differing(c, window));
    ApartBelow(c, window, stream, since, 64);
  }

  lemma {:induction false} ApartBelow(c: Config, window: bv64, stream: seq<bool>, since: nat, n: nat)
    requires WindowIs(window, stream, since) && n <= 64
    ensures OnesBelow(Differing(c, window), n) == Apart(c, stream, since, n)
  {
    if n > 0 {
      ApartBelow(c, window, stream, since, n - 1);
      XorBit(And(window, c.syncMask), c.syncValue, n - 1);
      AndBit(window, c.syncMask, n - 1);
      hide WordBit, Xor, And, Recent;
      assert WordBit(window, n - 1) == Recent(stream, since, n - 1);
    }
  }

  /** One more bit. */
  lemma WindowNext(window: bv64, stream: seq<bool>, since: nat, bit: bool)
    requires WindowIs(window, stream, since)
    ensures WindowIs(Pushed(window, bit), stream + [bit], since)
  {
    hide WordBit, Pushed;
    forall k: nat | k < 64 ensures WordBit(Pushed(window, bit), k) == Recent(stream + [bit], since, k) {
      PushedBit(window, bit, k);
      if k > 0 { assert WordBit(window, k - 1) == Recent(stream, since, k - 1); }
    }
  }

  lemma WindowEmpty(stream: seq<bool>)
    ensures WindowIs(0, stream, |stream|)
  {
    hide WordBit;
    forall k: nat | k < 64 ensures !WordBit(0, k) { ZeroBit(k); }
  }

  /** The bits of a delivered frame behind its sync word are the newest bits of the stream. */
  ghost predicate PayloadIs(c: Config, bytes: seq<bv8>, stream: seq<bool>)
    requires ValidConfig(c)
  {
    && |bytes| == c.frameBytes && c.frameBits - c.syncBits <= |stream|
    && forall k :: c.syncBits <= k < c.frameBits ==> BitAt(bytes, k) == stream[|stream| - c.frameBits + k]
  }

  /** The bits behind the sync word that have been collected are the newest of the stream. */
  ghost predicate Collected(c: Config, frame: seq<bv8>, ptr: nat, stream: seq<bool>) {
    && ValidConfig(c) && |frame| == MAX_FRAME_BYTES && ptr <= c.frameBits
    && (ptr > c.syncBits ==> ptr - c.syncBits <= |stream|)
    && forall k :: c.syncBits <= k < ptr ==> BitAt(frame, k) == stream[|stream| - ptr + k]
  }

  lemma CollectedNext(c: Config, was: seq<bv8>, now: seq<bv8>, ptr: nat, stream: seq<bool>, bit: bool)
    requires Collected(c, was, ptr, stream) && ptr < c.frameBits && |now| == |was|
    requires BitAt(now, ptr) == bit && SameOutside(now, was, ptr, ptr + 1)
    ensures Collected(c, now, ptr + 1, stream + [bit])
  {
    hide BitAt;
    var next := stream + [bit];
    forall k | c.syncBits <= k < ptr + 1 ensures BitAt(now, k) == next[|next| - (ptr + 1) + k] {
      if k < ptr { assert BitAt(was, k) == stream[|stream| - ptr + k]; }
    }
  }

  lemma CollectedNone(c: Config, frame: seq<bv8>, ptr: nat, stream: seq<bool>)
    requires ValidConfig(c) && |frame| == MAX_FRAME_BYTES && ptr <= c.syncBits
    ensures Collected(c, frame, ptr, stream)
  {}

  lemma CollectedJump(c: Config, frame: seq<bv8>, ptr: nat, stream: seq<bool>)
    requires Collected(c, frame, ptr, stream)
    ensures Collected(c, frame, c.syncBits, stream)
  {}

  lemma CollectedAll(c: Config, frame: seq<bv8>, stream: seq<bool>)
    requires Collected(c, frame, c.frameBits, stream)
    ensures PayloadIs(c, frame[..c.frameBytes], stream)
  {
    forall k | c.syncBits <= k < c.frameBits ensures BitAt(frame[..c.frameBytes], k) == BitAt(frame, k) {}
  }

  // ---- The bits in front of the payload ----

  /** The sync word. */
  function SyncBits(c: Config): (s: seq<bool>)
    requires ValidConfig(c)
    ensures |s| == c.syncBits
  {
    seq(c.syncBits, i requires 0 <= i < c.syncBits => SyncBit(c, i))
  }

  /** The first bits of the frame being collected, as far as they belong to the sync word; the
      rest of its place is still empty. */
  ghost predicate HeadIs(c: Config, frame: seq<bv8>, head: seq<bool>, ptr: nat) {
    && ValidConfig(c) && |frame| == MAX_FRAME_BYTES && |head| == (if ptr < c.syncBits then ptr else c.syncBits)
    && (forall k :: 0 <= k < |head| ==> BitAt(frame, k) == head[k])
    && forall k :: |head| <= k < c.syncBits ==> !BitAt(frame, k)
  }

  /** The head after one more bit. */
  function Longer(c: Config, head: seq<bool>, ptr: nat, bit: bool): seq<bool> {
    if ptr < c.syncBits then head + [bit] else head
  }

  /** The head after a jump to its end; what was not received is zero. */
  function Filled(c: Config, head: seq<bool>): seq<bool> {
    head + seq(if |head| < c.syncBits then c.syncBits - |head| else 0, _ => false)
  }

  lemma HeadNext(c: Config, was: seq<bv8>, now: seq<bv8>, head: seq<bool>, ptr: nat, bit: bool)
    requires HeadIs(c, was, head, ptr) && ptr < c.frameBits && |now| == |was|
    requires BitAt(now, ptr) == bit && SameOutside(now, was, ptr, ptr + 1)
    ensures HeadIs(c, now, Longer(c, head, ptr, bit), ptr + 1)
  {
    hide BitAt;
  }

  lemma HeadJump(c: Config, frame: seq<bv8>, head: seq<bool>, ptr: nat)
    requires HeadIs(c, frame, head, ptr)
    ensures HeadIs(c, frame, Filled(c, head), c.syncBits)
  {
    hide BitAt;
  }

  lemma HeadStart(c: Config, frame: seq<bv8>)
    requires ValidConfig(c) && |frame| == MAX_FRAME_BYTES
    requires frame[..(c.syncBits + 7) / 8] == c.syncBytes[..(c.syncBits + 7) / 8]
    ensures HeadIs(c, frame, SyncBits(c), c.syncBits)
  {
    forall k | 0 <= k < c.syncBits ensures BitAt(frame, k) == SyncBits(c)[k] {
      var n := (c.syncBits + 7) / 8;
      assert k / 8 < n && frame[k / 8] == frame[..n][k / 8] == c.syncBytes[..n][k / 8];
    }
  }

  lemma HeadNone(c: Config, frame: seq<bv8>)
    requires ValidConfig(c) && |frame| == MAX_FRAME_BYTES && forall i :: 0 <= i < |frame| ==> frame[i] == 0
    ensures HeadIs(c, frame, [], 0)
  {
    hide Mask;
  }

  /** A delivered frame: its head, and behind it the newest bits of the stream. */
  ghost predicate Delivered(c: Config, bytes: seq<bv8>, head: seq<bool>, stream: seq<bool>)
    requires ValidConfig(c)
  {
    PayloadIs(c, bytes, stream) && |head| == c.syncBits && forall k :: 0 <= k < |head| ==> BitAt(bytes, k) == head[k]
  }

  lemma HeadAll(c: Config, frame: seq<bv8>, head: seq<bool>, stream: seq<bool>)
    requires HeadIs(c, frame, head, c.frameBits) && PayloadIs(c, frame[..c.frameBytes], stream)
    ensures Delivered(c, frame[..c.frameBytes], head, stream)
  {
    forall k | 0 <= k < c.syncBits ensures BitAt(frame[..c.frameBytes], k) == BitAt(frame, k) {}
  }

  // ---- One bit ----

  /** What a receiver shows. */
  datatype View = View(inFrame: bool, ptr: nat, ends: nat, head: seq<bool>, stream: seq<bool>, since: nat,
                       out: seq<Event>)

  /** Where in a frame the next sync word is looked for. */
  predicate Near(c: Config, ptr: nat) { c.syncBits <= ptr + 2 && ptr <= c.syncBits + 2 }

  /** A bit while no frame is being collected: a frame starts exactly with a sync word. */
  ghost predicate Searches(c: Config, v: View, w: View)
    requires ValidConfig(c)
  {
    && w.out == v.out && w.since == v.since && (w.inFrame <==> Heard(c, w.stream, v.since, c.startErrs))
    && (w.inFrame ==> w.ptr == c.syncBits && w.ends == 0 && w.head == SyncBits(c))
  }

  /** A bit inside a frame: a sync word near its place puts the frame in step. */
  ghost predicate Collects(c: Config, v: View, w: View, bit: bool)
    requires ValidConfig(c)
  {
    var head := Longer(c, v.head, v.ptr, bit);
    && w.out == v.out && w.since == v.since && w.inFrame
    && if Near(c, v.ptr + 1) && Heard(c, w.stream, v.since, c.runErrs)
      then w.ptr == c.syncBits && w.ends == 0 && w.head == Filled(c, head)
      else w.ptr == v.ptr + 1 && w.ends == v.ends && w.head == head
  }

  /** The last bit of a frame: the frame is delivered, or the signal is lost. */
  ghost predicate Finishes(c: Config, v: View, w: View)
    requires ValidConfig(c)
  {
    if v.ends + 1 == c.maxFrames then !w.inFrame && w.out == v.out + [Lost] && w.since == |w.stream|
    else
      && w.inFrame && w.ptr == 0 && w.ends == v.ends + 1 && w.head == [] && w.since == v.since
      && |w.out| == |v.out| + 1 && w.out[..|v.out|] == v.out && w.out[|v.out|].Frame?
      && Delivered(c, w.out[|v.out|].bytes, v.head, w.stream)
  }

  ghost predicate Moves(c: Config, v: View, w: View, bit: bool)
    requires ValidConfig(c)
  {
    && w.stream == v.stream + [bit]
    && if !v.inFrame then Searches(c, v, w)
      else if v.ptr + 1 < c.frameBits then Collects(c, v, w, bit)
      else Finishes(c, v, w)
  }

  /** Every frame delivered so far had the newest bits of the stream at its time. */
  ghost predicate History(c: Config, out: seq<Event>, ended: seq<nat>, stream: seq<bool>) {
    && ValidConfig(c) && |ended| == |out|
    && forall i :: 0 <= i < |out| ==>
      ended[i] <= |stream| && (out[i].Frame? ==> PayloadIs(c, out[i].bytes, stream[..ended[i]]))
  }

  lemma HistoryGrows(c: Config, out: seq<Event>, ended: seq<nat>, stream: seq<bool>, bit: bool)
    requires History(c, out, ended, stream)
    ensures History(c, out, ended, stream + [bit])
  {
    hide PayloadIs;
    forall i | 0 <= i < |out| ensures (stream + [bit])[..ended[i]] == stream[..ended[i]] {}
  }

  lemma HistoryEvent(c: Config, out: seq<Event>, ended: seq<nat>, stream: seq<bool>, e: Event)
    requires History(c, out, ended, stream) && (e.Frame? ==> PayloadIs(c, e.bytes, stream))
    ensures History(c, out + [e], ended + [|stream|], stream)
    ensures forall lost: bool :: Count(out + [e], lost) == Count(out, lost) + if e.Lost? == lost then 1 else 0
  {
    var next := out + [e];
    assert next[..|next| - 1] == out && stream[..|stream|] == stream;
  }

  class BitRx {
    const cfg: Config
    var inFrame: bool
    var window: bv64
    const frame: array<bv8>
    var ptr: nat
    var lostCount: nat
    var statFrames: nat
    var statLost: nat
    /** What the callback has been told. */
    var out: seq<Event>
    /** All the bits so far, and where in them each event happened. */
    ghost var stream: seq<bool>
    /** Where the last reset was, and the first bits of the frame being collected. */
    ghost var since: nat
    ghost var head: seq<bool>
    ghost var ended: seq<nat>
    /** Frame ends since the last sync match, and how many events there were then. */
    ghost var ends: nat
    ghost var matched: nat

    ghost predicate Valid()
      reads this, frame
    {
      && frame.Length == MAX_FRAME_BYTES && ValidConfig(cfg) && WindowIs(window, stream, since)
      && (inFrame ==> ptr < cfg.frameBits && Collected(cfg, frame[..], ptr, stream))
      && (inFrame ==> HeadIs(cfg, frame[..], head, ptr) && Counting()) && Told()
    }

    /** The counter is what is left of the frames without a sync word: since the last match
        there were as many events as frame ends, all of them frames, fewer than the limit. */
    ghost predicate Counting()
      reads `ends, `lostCount, `matched, `out
    {
      && ends < cfg.maxFrames && lostCount == cfg.maxFrames - ends
      && |out| == matched + ends && forall i :: matched <= i < |out| ==> out[i].Frame?
    }

    ghost predicate Told()
      reads `out, `ended, `stream, `statFrames, `statLost
    {
      History(cfg, out, ended, stream) && statFrames == Count(out, false) && statLost == Count(out, true)
    }

    constructor (c: Config)
      requires ValidConfig(c)
      ensures Valid() && fresh(frame) && cfg == c && !inFrame && out == [] && stream == [] && since == 0
    {
      cfg, inFrame, window, ptr, lostCount, statFrames, statLost := c, false, 0, 0, 0, 0, 0;
      frame := new bv8[MAX_FRAME_BYTES](_ => 0);
      out, stream, ended, ends, matched := [], [], [], 0, 0;
      since, head := 0, [];
      WindowEmpty([]);
    }

    ghost function Now(): View
      reads `inFrame, `ptr, `ends, `head, `stream, `since, `out
    {
      View(inFrame, ptr, ends, head, stream, since, out)
    }

    method Reset()
      modifies `inFrame, `window, `ptr, `lostCount, `since, frame
      ensures !inFrame && window == 0 && ptr == 0 && lostCount == 0
      ensures WindowIs(window, stream, since) && since == |stream|
    {
      hide WindowIs;
      inFrame, window, ptr, lostCount := false, 0, 0, 0;
      since := |stream|;
      WindowEmpty(stream);
      ClearFrame();
    }

    method ClearFrame()
      modifies frame
      ensures forall i :: 0 <= i < frame.Length ==> frame[i] == 0
    {
      for i := 0 to frame.Length
        invariant forall k :: 0 <= k < i ==> frame[k] == 0
      {
        frame[i] := 0;
      }
    }

    /** A sync word while searching starts a frame. */
    method Start()
      requires ValidConfig(cfg) && frame.Length == MAX_FRAME_BYTES
      modifies `inFrame, `ptr, `lostCount, `ends, `matched, `head, frame
      ensures inFrame && ptr == cfg.syncBits && Counting() && ends == 0
      ensures HeadIs(cfg, frame[..], head, ptr) && head == SyncBits(cfg)
    {
      ClearFrame();
      for i := 0 to (cfg.syncBits + 7) / 8
        invariant frame[..i] == cfg.syncBytes[..i]
      {
        frame[i] := cfg.syncBytes[i];
      }
      HeadStart(cfg, frame[..]);
      ptr, lostCount, inFrame, ends, matched := cfg.syncBits, cfg.maxFrames, true, 0, |out|;
      head := SyncBits(cfg);
    }

    /** The callback, with its count. */
    method Announce(e: Event)
      requires Told() && (e.Frame? ==> PayloadIs(cfg, e.bytes, stream))
      modifies `out, `ended, `statFrames, `statLost
      ensures Told() && out == old(out) + [e]
    {
      hide PayloadIs;
      HistoryEvent(cfg, out, ended, stream, e);
      if e.Lost? { statLost := statLost + 1; } else { statFrames := statFrames + 1; }
      out, ended := out + [e], ended + [|stream|];
    }

    /** A whole frame: the loss is reported at the last frame end allowed without a sync word,
        before that the frame is delivered. */
    method EndOfFrame()
      requires ValidConfig(cfg) && frame.Length == MAX_FRAME_BYTES && inFrame && ptr == cfg.frameBits
      requires Told() && Counting() && Collected(cfg, frame[..], cfg.frameBits, stream)
      requires HeadIs(cfg, frame[..], head, ptr) && WindowIs(window, stream, since)
      modifies this, frame
      ensures Valid() && stream == old(stream) && Finishes(cfg, old(Now()), Now())
    {
      hide Told, Collected, PayloadIs, WindowIs, HeadIs, Delivered;
      CollectedAll(cfg, frame[..], stream);
      HeadAll(cfg, frame[..], head, stream);
      lostCount := lostCount - 1;
      ends := ends + 1;
      if lostCount == 0 {
        Reset();
        Announce(Lost);
      } else {
        var bytes := frame[..][..cfg.frameBytes];
        ClearFrame();
        ptr := 0;
        head := [];
        HeadNone(cfg, frame[..]);
        CollectedNone(cfg, frame[..], 0, stream);
        Announce(Frame(bytes));
      }
    }

    /** Does the window look like the sync word? */
    method Compare(errs: nat) returns (heard: bool)
      requires WindowIs(window, stream, since)
      ensures heard == Heard(cfg, stream, since, errs)
    {
      hide Differing, WindowIs, Ones, Apart;
      WindowApart(cfg, window, stream, since);
      var n := BitCount64(Differing(cfg, window));
      heard := n <= errs;
    }

    /** The next sync word, looked for near its place only: it puts the frame in step. */
    method Resync()
      requires ValidConfig(cfg) && WindowIs(window, stream, since) && HeadIs(cfg, frame[..], head, ptr) && Counting()
      requires Collected(cfg, frame[..], ptr, stream)
      modifies `ptr, `lostCount, `head, `ends, `matched
      ensures Near(cfg, old(ptr)) && Heard(cfg, stream, since, cfg.runErrs) ==>
        ptr == cfg.syncBits && ends == 0 && head == Filled(cfg, old(head))
      ensures !(Near(cfg, old(ptr)) && Heard(cfg, stream, since, cfg.runErrs)) ==>
        ptr == old(ptr) && ends == old(ends) && head == old(head)
      ensures HeadIs(cfg, frame[..], head, ptr) && Collected(cfg, frame[..], ptr, stream) && Counting()
    {
      hide Heard, Collected, WindowIs, HeadIs, Filled;
      if ptr >= cfg.syncBits - 2 && ptr <= cfg.syncBits + 2 {
        var heard := Compare(cfg.runErrs);
        if heard {
          HeadJump(cfg, frame[..], head, ptr);
          CollectedJump(cfg, frame[..], ptr, stream);
          lostCount, ptr := cfg.maxFrames, cfg.syncBits;
          head, ends, matched := Filled(cfg, head), 0, |out|;
        }
      }
    }

    /** A bit inside a frame. */
    method InFrameBit(bit: bool, ghost v: View)
      requires ValidConfig(cfg) && frame.Length == MAX_FRAME_BYTES && inFrame && ptr < cfg.frameBits && Counting()
      requires Told() && WindowIs(window, stream, since) && HeadIs(cfg, frame[..], head, ptr)
      requires Collected(cfg, frame[..], ptr, v.stream) && stream == v.stream + [bit]
      requires v == Now().(stream := v.stream)
      modifies this, frame
      ensures Valid() && Moves(cfg, v, Now(), bit)
    {
      hide BitAt, SameOutside, Heard, Told, Collected, WindowIs, HeadIs, Delivered, SyncBits, Filled;
      ghost var was := frame[..];
      WriteBit(frame, ptr, bit);
      CollectedNext(cfg, was, frame[..], ptr, v.stream, bit);
      HeadNext(cfg, was, frame[..], head, ptr, bit);
      head := Longer(cfg, head, ptr, bit);
      ptr := ptr + 1;
      if ptr > cfg.frameBits {
        assert false; // the source resets here: the frame cannot overrun
      }
      Resync();
      if ptr == cfg.frameBits { EndOfFrame(); }
    }

    /** bitRxBit: one received bit. */
    method BitRxBit(bit: bool)
      requires Valid()
      modifies this, frame
      ensures Valid() && Moves(cfg, old(Now()), Now(), bit)
      ensures OneSyncWord(cfg) && !old(inFrame) ==>
        (inFrame <==> Errors(cfg, stream, old(since), cfg.syncBits) <= cfg.startErrs)
      ensures OneSyncWord(cfg) && old(inFrame) && Near(cfg, old(ptr) + 1) ==>
        (ptr == cfg.syncBits && ends == 0 <== Errors(cfg, stream, old(since), cfg.syncBits) <= cfg.runErrs)
    {
      hide BitAt, Heard, Collected, Count, History, Pushed, WindowIs, HeadIs, SyncBits, OneSyncWord, Errors;
      ghost var v := Now();
      if OneSyncWord(cfg) {
        HeardIsErrors(cfg, stream + [bit], since, cfg.startErrs);
        HeardIsErrors(cfg, stream + [bit], since, cfg.runErrs);
      }
      WindowNext(window, stream, since, bit);
      window := Pushed(window, bit);
      HistoryGrows(cfg, out, ended, stream, bit);
      stream := stream + [bit];
      if !inFrame {
        var heard := Compare(cfg.startErrs);
        if heard {
          Start();
          CollectedNone(cfg, frame[..], ptr, stream);
        }
        return;
      }
      InFrameBit(bit, v);
    }
  }

  /** fsk4BitRxBytes: most significant bit first. */
  method BitRxBytes(rx: BitRx, bytes: seq<bv8>)
    requires rx.Valid()
    modifies rx, rx.frame
    ensures rx.Valid() && |rx.stream| == old(|rx.stream|) + 8 * |bytes|
    ensures forall k :: 0 <= k < 8 * |bytes| ==> rx.stream[old(|rx.stream|) + k] == BitAt(bytes, k)
    ensures rx.stream[..old(|rx.stream|)] == old(rx.stream)
  {
    hide BitAt, BitRx.Valid;
    ghost var start := rx.stream;
    for i := 0 to |bytes|
      invariant rx.Valid() && |rx.stream| == |start| + 8 * i && rx.stream[..|start|] == start
      invariant forall k :: 0 <= k < 8 * i ==> rx.stream[|start| + k] == BitAt(bytes, k)
    {
      for b := 0 to 8
        invariant rx.Valid() && |rx.stream| == |start| + 8 * i + b && rx.stream[..|start|] == start
        invariant forall k :: 0 <= k < 8 * i + b ==> rx.stream[|start| + k] == BitAt(bytes, k)
      {
        rx.BitRxBit(BitAt(bytes, 8 * i + b));
      }
    }
  }

  function Count(out: seq<Event>, lost: bool): nat {
    if out == [] then 0 else Count(out[..|out| - 1], lost) + if out[|out| - 1].Lost? == lost then 1 else 0
  }
}
