/** The serial frame reader of the host: a receive buffer with compaction, resynchronisation and
    the look ahead rule, over every way the bytes can arrive. */
module FrameReader {
  import opened Memory

  const START: Byte := 0x61
  const RX_BUF: nat := 8192
  const WRAP: nat := 0x1_0000_0000

  type Byte = b: nat | b < 256

  /** What one read or poll of the serial port does. */
  datatype Arrival = Got(n: nat) | Nothing | Failed

  /** What modemGetFrame returns: 1, 2, 3 and 0. */
  datatype Result = Frame | NoData | Skipped | Error

  /** A whole frame: start byte, length of the whole frame, type. */
  predicate WellFormed(f: seq<Byte>) { 3 <= |f| <= 255 && f[0] == START && f[1] == |f| }

  function Flatten(frames: seq<seq<Byte>>): seq<Byte> {
    if frames == [] then [] else frames[0] + Flatten(frames[1..])
  }

  /** How many bytes a read returns: what has arrived, what fits and what is left. */
  function ReadSize(arrivals: seq<Arrival>, room: nat, avail: nat): int {
    if arrivals == [] then 0
    else match arrivals[0]
      case Nothing => 0
      case Failed => -1
      case Got(n) => if n <= room && n <= avail then n else if room <= avail then room else avail
  }

  function Later(arrivals: seq<Arrival>): seq<Arrival> { if arrivals == [] then [] else arrivals[1..] }

  function Added(r: int): nat { if r > 0 then r else 0 }

  /** Bytes copied behind the waiting ones move from the source into the buffer. */
  lemma Joined(b: seq<Byte>, head: nat, w: seq<Byte>, src: seq<Byte>, k: nat)
    requires k <= |src| && head + |w| + k <= |b|
    requires b[..head + |w|][head..] == w && b[head + |w|..head + |w| + k] == src[..k]
    ensures b[head..head + (|w| + k)] + src[k..] == w + src
  {
    assert b[head..head + (|w| + k)] == b[..head + |w|][head..] + b[head + |w|..head + |w| + k];
    assert src == src[..k] + src[k..];
  }

  class ModemRx {
    const buf: array<Byte>
    var head: nat
    var count: nat
    var hunting: bool
    var skipped: nat
    var resyncs: nat
    var skippedTotal: nat
    /** The bytes still to arrive, and how the reads and polls to come will turn out. */
    var source: seq<Byte>
    var arrivals: seq<Arrival>
    var polls: seq<Arrival>

    ghost predicate Valid()
      reads `head, `count
    {
      buf.Length == RX_BUF && head + count <= RX_BUF
    }

    /** The bytes received and not yet consumed. */
    ghost function Waiting(): (w: seq<Byte>)
      requires Valid()
      reads `head, `count, buf
      ensures |w| == count
    {
      buf[head..head + count]
    }

    /** Everything from the next unconsumed byte on. */
    ghost function Stream(): seq<Byte>
      requires Valid()
      reads `head, `count, `source, buf
    {
      Waiting() + source
    }

    ghost predicate Kept(wasHunting: bool, total: nat)
      reads this
    {
      hunting == wasHunting && skippedTotal == total
    }

    constructor (source: seq<Byte>, arrivals: seq<Arrival>, polls: seq<Arrival>)
      ensures Valid() && fresh(buf) && Waiting() == [] && Stream() == source && !hunting && skippedTotal == 0
      ensures this.source == source && this.arrivals == arrivals && this.polls == polls
    {
      buf := new Byte[RX_BUF](_ => 0);
      head, count, hunting, skipped, resyncs, skippedTotal := 0, 0, false, 0, 0, 0;
      this.source, this.arrivals, this.polls := source, arrivals, polls;
    }

    /** k bytes of the source arrive behind the waiting ones. */
    method Store(k: nat)
      requires Valid() && head + count + k <= RX_BUF && k <= |source|
      modifies `count, `source, buf
      ensures Valid() && Stream() == old(Stream()) && count == old(count) + k && |source| == |old(source)| - k
    {
      ghost var w, src := buf[head..head + count], source;
      CopyIn(buf, head + count, source[..k]);
      assert buf[..head + count][head..] == w;
      Joined(buf[..], head, w, src, k);
      count := count + k;
      source := source[k..];
    }

    /** One read of the port into the free end of the buffer. */
    method ReadPort(room: nat) returns (r: int)
      requires Valid() && room == RX_BUF - head - count
      modifies this, buf
      ensures Valid() && Stream() == old(Stream()) && Kept(old(hunting), old(skippedTotal))
      ensures r == ReadSize(old(arrivals), room, |old(source)|) && r <= room
      ensures |source| == |old(source)| - Added(r) && count == old(count) + Added(r)
      ensures arrivals == Later(old(arrivals)) && polls == old(polls)
    {
      var a := if arrivals == [] then Nothing else arrivals[0];
      arrivals := Later(arrivals);
      match a
      case Nothing => r := 0;
      case Failed => r := -1;
      case Got(n) =>
        var k := if n < room then n else room;
        if |source| < k { k := |source|; }
        Store(k);
        r := k;
    }

    /** modemRxFill: one read, after moving the waiting bytes down if they are far up.  The read
        is offered half the buffer, or all of it but the waiting bytes. */
    method Fill() returns (r: int, ghost room: nat)
      requires Valid()
      modifies this, buf
      ensures Valid() && Stream() == old(Stream()) && Kept(old(hunting), old(skippedTotal))
      ensures room >= RX_BUF / 2 || room == RX_BUF - old(count)
      ensures r == ReadSize(old(arrivals), room, |old(source)|)
      ensures |source| == |old(source)| - Added(r) && count == old(count) + Added(r)
      ensures arrivals == Later(old(arrivals)) && polls == old(polls)
    {
      if count == 0 {
        head := 0;
      } else if head + count > RX_BUF / 2 {
        MoveDown(buf, head, count);
        head := 0;
      }
      assert Waiting() == old(Waiting());
      room := RX_BUF - head - count;
      r := ReadPort(RX_BUF - head - count);
    }

    /** modemRxNeed: 1 when n bytes are there, 0 after a timeout, -1 after an error.  Nothing is
        consumed either way. */
    method Need(n: nat) returns (r: int)
      requires Valid() && n <= 256
      modifies this, buf
      ensures Valid() && Stream() == old(Stream()) && Kept(old(hunting), old(skippedTotal)) && polls == old(polls)
      ensures count >= old(count) && |source| <= |old(source)|
      ensures r == 1 <==> count >= n
      ensures r == 1 || r == 0 || r == -1
      ensures Clean(old(arrivals), old(source)) ==> Clean(arrivals, source) && (r == 1 || (r == 0 && source == []))
      ensures Clean(old(polls), old(source)) ==> Clean(polls, source)
      ensures old(count) >= n ==> arrivals == old(arrivals) && source == old(source)
    {
      while count < n
        invariant Valid() && Stream() == old(Stream()) && Kept(old(hunting), old(skippedTotal)) && polls == old(polls)
        invariant count >= old(count) && |source| <= |old(source)|
        invariant Clean(old(arrivals), old(source)) ==> Clean(arrivals, source)
        invariant old(count) >= n ==> arrivals == old(arrivals) && source == old(source)
      {
        ghost var a, avail := arrivals, source;
        var k, room := Fill();
        CleanStep(a, |avail|, room);
        if k < 0 { return -1; }
        if k == 0 { return 0; }
      }
      return 1;
    }

    /** modemRxNeedShort: the same with polls, each of which may give up. */
    method NeedShort(n: nat) returns (r: int)
      requires Valid() && n <= 256
      modifies this, buf
      ensures Valid() && Stream() == old(Stream()) && Kept(old(hunting), old(skippedTotal))
      ensures count >= old(count) && (r == 1 || r == 0 || r == -1) && (r == 1 <==> count >= n)
      ensures Clean(old(arrivals), old(source)) ==>
        Clean(arrivals, source) && (Calm(old(polls)) ==> Calm(polls) && r >= 0)
      ensures Clean(old(arrivals), old(source)) && Clean(old(polls), old(source)) ==>
        Clean(polls, source) && (r == 1 || source == [])
    {
      while count < n
        invariant Valid() && Stream() == old(Stream()) && Kept(old(hunting), old(skippedTotal))
        invariant count >= old(count) && (Calm(old(polls)) ==> Calm(polls))
        invariant Clean(old(arrivals), old(source)) ==> Clean(arrivals, source)
        invariant Clean(old(arrivals), old(source)) && Clean(old(polls), old(source)) ==> Clean(polls, source)
        decreases |polls|
      {
        if polls == [] || polls[0].Nothing? { polls := Later(polls); return 0; }
        if polls[0].Failed? { polls := Later(polls); return -1; }
        polls := Later(polls);
        ghost var a, avail := arrivals, source;
        var k, room := Fill();
        CleanStep(a, |avail|, room);
        if k < 0 { return -1; }
      }
      return 1;
    }

    method Discard(n: nat)
      requires Valid() && n <= count
      modifies this
      ensures Valid() && hunting && source == old(source) && arrivals == old(arrivals) && polls == old(polls)
      ensures Stream() == old(Stream())[n..]
      ensures skippedTotal == (old(skippedTotal) + n) % WRAP
      ensures skipped == ((if old(hunting) then old(skipped) else 0) + n) % WRAP
      ensures resyncs == if old(hunting) then old(resyncs) else (old(resyncs) + 1) % WRAP
    {
      if !hunting {
        hunting := true;
        skipped := 0;
        resyncs := (resyncs + 1) % WRAP;
      }
      skipped := (skipped + n) % WRAP;
      skippedTotal := (skippedTotal + n) % WRAP;
      head := head + n;
      count := count - n;
      assert Waiting() == old(Waiting())[n..];
      assert (old(Waiting()) + source)[n..] == old(Waiting())[n..] + source;
    }

    /** modemGetFrame.  Every call either consumes a whole plausible frame, or throws away bytes
        of which only the first can be a start byte, or reports no data or an error and consumes
        nothing; what is consumed and what waits is always what was received.  A start byte is
        thrown away only after a timeout or when what follows it is implausible.  With reads that
        keep bringing bytes a call therefore always does something, and it brings the frame when
        one is in front, in step or not. */
    method GetFrame() returns (r: Result, frame: seq<Byte>, ghost timedOut: bool, ghost n: nat)
      requires Valid()
      modifies this, buf
      ensures Valid()
      ensures r.Frame? ==> old(Stream()) == frame + Stream() && WellFormed(frame) && !hunting
      ensures r.Frame? ==> count == 0 || Waiting()[0] == START
      ensures r.Skipped? ==>
        1 <= n <= |old(Stream())| && Stream() == old(Stream())[n..] && START !in old(Stream())[1..n]
      ensures r.Skipped? ==> hunting && skippedTotal == (old(skippedTotal) + n) % WRAP
      ensures r.Skipped? && old(Stream())[0] != START ==> START !in old(Stream())[..n] && !timedOut
      ensures r.Skipped? && old(Stream())[0] == START ==> n == 1 && (timedOut || Implausible(old(Stream())))
      ensures r.NoData? || r.Error? ==> Stream() == old(Stream()) && hunting == old(hunting)
      ensures !r.Skipped? ==> skippedTotal == old(skippedTotal)
      ensures r.NoData? ==> count == 0
      ensures timedOut ==> r.Skipped?
      ensures Clean(old(arrivals), old(source)) ==>
        Clean(arrivals, source) && (r.NoData? <==> old(Stream()) == []) && (timedOut ==> CutShort(old(Stream())))
      ensures Clean(old(arrivals), old(source)) && Calm(old(polls)) ==> Calm(polls)
      ensures Clean(old(arrivals), old(source)) && (Calm(old(polls)) || !old(hunting)) ==>
        !r.Error? && (old(Stream()) != [] && InStep(old(Stream())) ==> r.Frame?)
      ensures Clean(old(arrivals), old(source)) && Clean(old(polls), old(source)) ==>
        Clean(polls, source) && (old(hunting) && r.Frame? ==> InStep(old(Stream())))
    {
      hide *;
      timedOut, n, frame := false, 0, [];
      ghost var st := Stream();
      InStepFacts(st);
      CleanCalm(polls, source);
      var k := Need(1);
      if k < 0 { return Error, [], false, 0; }
      StreamFacts();
      if k == 0 { return NoData, [], false, 0; }
      if buf[head] != START {
        n := SkipToStart();
        return Skipped, [], false, n;
      }
      r, frame, timedOut := Body();
      n := if r.Skipped? then 1 else 0;
    }

    /** Throws away everything before the next start byte that is already there. */
    method SkipToStart() returns (n: nat)
      requires Valid() && count > 0 && buf[head] != START
      modifies this
      ensures Valid() && source == old(source) && arrivals == old(arrivals) && polls == old(polls)
      ensures 1 <= n <= |old(Stream())| && Stream() == old(Stream())[n..] && START !in old(Stream())[..n]
      ensures hunting && skippedTotal == (old(skippedTotal) + n) % WRAP
    {
      StreamFacts();
      hide Stream, Waiting;
      n := MemChr(buf, head, count, START);
      assert Stream()[..n] == buf[head..head + n];
      Discard(n);
    }

    /** A start byte is in front: the header, the rest of the frame and the byte behind it. */
    method Body() returns (r: Result, frame: seq<Byte>, ghost timedOut: bool)
      requires Valid() && count > 0 && Stream()[0] == START
      modifies this, buf
      ensures Valid() && !r.NoData?
      ensures r.Frame? ==> old(Stream()) == frame + Stream() && WellFormed(frame) && !hunting
      ensures r.Frame? ==> count == 0 || Waiting()[0] == START
      ensures r.Skipped? ==> Stream() == old(Stream())[1..] && hunting && skippedTotal == (old(skippedTotal) + 1) % WRAP
      ensures r.Error? ==> Stream() == old(Stream()) && hunting == old(hunting)
      ensures r.Skipped? ==> timedOut || Implausible(old(Stream()))
      ensures !r.Skipped? ==> skippedTotal == old(skippedTotal)
      ensures timedOut ==> r.Skipped?
      ensures Clean(old(arrivals), old(source)) ==> Clean(arrivals, source) && (timedOut ==> CutShort(old(Stream())))
      ensures Clean(old(arrivals), old(source)) && Calm(old(polls)) ==> Calm(polls)
      ensures Clean(old(arrivals), old(source)) && (Calm(old(polls)) || !old(hunting)) ==> !r.Error?
      ensures Clean(old(arrivals), old(source)) && Clean(old(polls), old(source)) ==>
        Clean(polls, source) && (old(hunting) && r.Frame? ==> InStep(old(Stream())))
    {
      hide *;
      timedOut, frame := false, [];
      ghost var st := Stream();
      StreamFacts();
      FrontFacts(st);
      var k := Need(3);
      if k < 0 { return Error, [], false; }
      StreamFacts();
      if k == 0 {
        Discard(1);
        return Skipped, [], true;
      }
      var len := buf[head + 1];
      if len < 3 {
        Discard(1);
        return Skipped, [], false;
      }
      k := Need(len);
      if k < 0 { return Error, [], false; }
      StreamFacts();
      if k == 0 {
        Discard(1);
        return Skipped, [], true;
      }
      r, frame := Accept(len);
    }

    /** The look ahead: the byte behind the frame, when it is there, must start the next one. */
    method Accept(len: nat) returns (r: Result, frame: seq<Byte>)
      requires Valid() && 3 <= len <= 255 && len <= count && Stream()[0] == START && Stream()[1] == len
      modifies this, buf
      ensures Valid() && !r.NoData?
      ensures r.Frame? ==> old(Stream()) == frame + Stream() && WellFormed(frame) && !hunting
      ensures r.Frame? ==> count == 0 || Waiting()[0] == START
      ensures r.Skipped? ==> Stream() == old(Stream())[1..] && hunting && skippedTotal == (old(skippedTotal) + 1) % WRAP
      ensures r.Skipped? ==> len < |old(Stream())| && old(Stream())[len] != START
      ensures r.Error? ==> Stream() == old(Stream()) && hunting == old(hunting) && old(hunting)
      ensures !r.Skipped? ==> skippedTotal == old(skippedTotal)
      ensures Clean(old(arrivals), old(source)) ==>
        Clean(arrivals, source) && (Calm(old(polls)) ==> Calm(polls) && !r.Error?)
      ensures Clean(old(arrivals), old(source)) && Clean(old(polls), old(source)) ==>
        Clean(polls, source) &&
        (old(hunting) && r.Frame? ==> len == |old(Stream())| || old(Stream())[len] == START)
    {
      hide *;
      frame := [];
      if hunting {
        var k := NeedShort(len + 1);
        if k < 0 { return Error, []; }
      }
      StreamFacts();
      if count > len && buf[head + len] != START {
        Discard(1);
        return Skipped, [];
      }
      frame := Deliver(len);
      return Frame, frame;
    }

    /** A whole frame is copied out and consumed; the reader is in step. */
    method Deliver(len: nat) returns (frame: seq<Byte>)
      requires Valid() && 3 <= len <= 255 && len <= count && Stream()[0] == START && Stream()[1] == len
      requires count > len ==> Waiting()[len] == START
      modifies this
      ensures Valid() && old(Stream()) == frame + Stream() && WellFormed(frame) && !hunting
      ensures count == 0 || Waiting()[0] == START
      ensures skippedTotal == old(skippedTotal) && source == old(source)
      ensures arrivals == old(arrivals) && polls == old(polls)
    {
      hide *;
      ghost var st := Stream();
      StreamFacts();
      frame := buf[head..head + len];
      assert frame == st[..len];
      FrameIs(st, len);
      hunting := false;
      Take(len);
      if count > 0 { StreamFacts(); }
    }

    /** The first len waiting bytes are consumed. */
    method Take(len: nat)
      requires Valid() && len <= count
      modifies this`head, this`count
      ensures Valid() && count == old(count) - len && Stream() == old(Stream())[len..]
    {
      head := head + len;
      count := count - len;
      assert Waiting() == old(Waiting())[len..];
      assert (old(Waiting()) + source)[len..] == old(Waiting())[len..] + source;
    }

    lemma StreamFacts()
      requires Valid()
      ensures Waiting() == Stream()[..count] && |Stream()| == count + |source| && head + count <= buf.Length
      ensures forall i :: head <= i < head + count ==> buf[i] == Stream()[i - head]
      ensures forall i :: 0 <= i < count ==> buf[head + i] == Stream()[i] == Waiting()[i]
    {
    }
  }

  lemma FrameIs(st: seq<Byte>, len: nat)
    requires 3 <= len <= 255 && len <= |st| && st[0] == START && st[1] == len
    ensures WellFormed(st[..len]) && st == st[..len] + st[len..]
  {}

  lemma FrontFacts(st: seq<Byte>)
    requires st != [] && st[0] == START
    ensures |st| < 3 || |st| < st[1] ==> CutShort(st)
    ensures |st| >= 3 && (st[1] < 3 || (|st| > st[1] && st[st[1]] != START)) ==> Implausible(st)
    ensures |st| >= 3 && 3 <= st[1] <= |st| && (|st| > st[1] ==> st[st[1]] == START) ==> InStep(st)
  {}

  lemma InStepFacts(st: seq<Byte>)
    ensures InStep(st) && st != [] ==> st[0] == START && !CutShort(st) && !Implausible(st)
  {}

  /** A whole frame at the front, with the end of the stream or the next frame behind it. */
  ghost predicate InStep(st: seq<Byte>) {
    st == [] || (|st| >= 3 && st[0] == START && 3 <= st[1] <= |st| && (|st| > st[1] ==> st[st[1]] == START))
  }

  /** A start byte whose frame never arrives in full. */
  ghost predicate CutShort(st: seq<Byte>) { st != [] && st[0] == START && (|st| < 3 || |st| < st[1]) }

  /** A start byte that starts no frame: its length is too small, or no start byte follows. */
  ghost predicate Implausible(st: seq<Byte>) {
    |st| >= 3 && st[0] == START && (st[1] < 3 || (|st| > st[1] && st[st[1]] != START))
  }

  /** Polls of which none fails; each may give up. */
  ghost predicate Calm(polls: seq<Arrival>) {
    forall k :: 0 <= k < |polls| ==> !polls[k].Failed?
  }

  lemma CleanCalm(polls: seq<Arrival>, source: seq<Byte>)
    ensures Clean(polls, source) ==> Calm(polls)
  {}

  /** Reads that always bring something while there is something: any chunking, no timeout and
      no error. */
  ghost predicate Clean(arrivals: seq<Arrival>, source: seq<Byte>) {
    |arrivals| >= |source| && Bringing(arrivals)
  }

  ghost predicate Bringing(arrivals: seq<Arrival>) {
    forall k :: 0 <= k < |arrivals| ==> arrivals[k].Got? && arrivals[k].n >= 1
  }

  lemma CleanStep(arrivals: seq<Arrival>, avail: nat, room: nat)
    ensures room >= 1 && |arrivals| >= avail && Bringing(arrivals) ==>
      var r := ReadSize(arrivals, room, avail);
      r >= 0 && (r == 0 ==> avail == 0) && |Later(arrivals)| >= avail - r && Bringing(Later(arrivals))
  {}

  method MemChr(b: array<Byte>, from: nat, n: nat, v: Byte) returns (k: nat)
    requires from + n <= b.Length
    ensures k <= n && v !in b[from..from + k]
    ensures k < n ==> b[from + k] == v
  {
    k := 0;
    while k < n
      invariant k <= n && v !in b[from..from + k]
    {
      if b[from + k] == v { return; }
      assert b[from..from + (k + 1)] == b[from..from + k] + [b[from + k]];
      k := k + 1;
    }
  }

  // ---- Whole streams ----

  lemma FramesInStep(frames: seq<seq<Byte>>)
    requires forall f :: f in frames ==> WellFormed(f)
    ensures InStep(Flatten(frames)) && (frames != [] ==> Flatten(frames) != [])
  {
    if frames != [] {
      assert frames[0] in frames;
      var f, rest := frames[0], Flatten(frames[1..]);
      assert (f + rest)[0] == f[0] && (f + rest)[1] == f[1];
      if |frames| > 1 {
        assert frames[1] in frames && frames[1..][0] == frames[1];
        assert (f + rest)[|f|] == rest[0] == frames[1][0];
      }
    }
  }

  /** A frame at the front of a stream of frames is the first of them. */
  lemma FirstFrame(frames: seq<seq<Byte>>, frame: seq<Byte>, rest: seq<Byte>)
    requires (forall f :: f in frames ==> WellFormed(f)) && WellFormed(frame) && Flatten(frames) == frame + rest
    ensures frames != [] && frames[0] == frame && Flatten(frames[1..]) == rest
  {
    assert |frame + rest| > 0;
    var f, st := frames[0], Flatten(frames);
    assert f in frames;
    assert |f| == f[1] == st[1] == frame[1] == |frame|;
    assert f == st[..|f|] && frame == st[..|frame|];
    assert rest == st[|frame|..] && Flatten(frames[1..]) == st[|f|..];
  }

  /** Call after call over a stream of whole frames, starting in step: as long as no read times
      out inside a frame, what comes out is exactly the frames in order, nothing is skipped and
      the reader stays in step, however the bytes are cut up; and when the reads keep bringing
      bytes, every call brings a frame until all are there. */
  method Receive(rx: ModemRx, frames: seq<seq<Byte>>, calls: nat) returns (got: seq<seq<Byte>>, ghost timedOut: bool)
    requires rx.Valid() && !rx.hunting && rx.Stream() == Flatten(frames) && forall f :: f in frames ==> WellFormed(f)
    modifies rx, rx.buf
    ensures rx.Valid()
    ensures !timedOut ==> |got| <= |frames| && got == frames[..|got|] && rx.Stream() == Flatten(frames[|got|..])
    ensures !timedOut ==> !rx.hunting && rx.skippedTotal == old(rx.skippedTotal)
    ensures Clean(old(rx.arrivals), old(rx.source)) ==>
      !timedOut && |got| == if calls <= |frames| then calls else |frames|
  {
    hide ModemRx.Valid, ModemRx.Stream, ModemRx.Waiting, Clean, InStep, WellFormed, Flatten;
    got, timedOut := [], false;
    ghost var clean := Clean(rx.arrivals, rx.source);
    assert frames[0..] == frames;
    for i := 0 to calls
      invariant rx.Valid()
      invariant !timedOut ==> |got| <= |frames| && got == frames[..|got|] && rx.Stream() == Flatten(frames[|got|..])
      invariant !timedOut ==> !rx.hunting && rx.skippedTotal == old(rx.skippedTotal)
      invariant clean ==> Clean(rx.arrivals, rx.source) && !timedOut && |got| == if i <= |frames| then i else |frames|
    {
      ghost var left := frames[if |got| <= |frames| then |got| else 0..];
      FramesInStep(left);
      InStepFacts(Flatten(left));
      var r, frame, late, n := rx.GetFrame();
      if r.Frame? {
        if !timedOut {
          FirstFrame(left, frame, rx.Stream());
          assert left[1..] == frames[|got| + 1..];
        }
        got := got + [frame];
      }
      timedOut := timedOut || late;
      if clean && left == [] { EmptyStream(left); }
    }
  }

  /** The bytes in front of the frames that are still there after the first j are gone. */
  lemma JunkFront(junk: seq<Byte>, rest: seq<Byte>, j: nat)
    requires START !in junk && j < |junk|
    ensures var st := junk[j..] + rest; st != [] && st[0] != START
    ensures forall n: nat :: n <= |junk| - j ==> (junk[j..] + rest)[n..] == junk[j + n..] + rest
  {
    var st := junk[j..] + rest;
    assert st[0] == junk[j] && junk[j] in junk;
    forall n: nat | n <= |junk| - j ensures st[n..] == junk[j + n..] + rest {
      assert junk[j..][n..] == junk[j + n..];
      assert st[n..] == junk[j..][n..] + rest;
    }
  }

  /** Bytes without a start byte cannot reach beyond the junk when a frame follows it. */
  lemma WithinJunk(junk: seq<Byte>, rest: seq<Byte>, j: nat, n: nat)
    requires j <= |junk| && n <= |junk| - j + |rest| && START !in (junk[j..] + rest)[..n]
    requires rest == [] || rest[0] == START
    ensures n <= |junk| - j
  {
    var st := junk[j..] + rest;
    if rest != [] {
      assert st[|junk| - j] == rest[0];
      assert forall k :: 0 <= k < n ==> st[..n][k] == st[k];
    }
  }

  /** A frame at the front is the first one, behind all the junk. */
  lemma FrameAfterJunk(junk: seq<Byte>, left: seq<seq<Byte>>, j: nat, frame: seq<Byte>, rest: seq<Byte>)
    requires j <= |junk| && START !in junk && forall f :: f in left ==> WellFormed(f)
    requires junk[j..] + Flatten(left) == frame + rest && WellFormed(frame)
    ensures j == |junk| && left != [] && left[0] == frame && rest == junk[j..] + Flatten(left[1..])
  {
    assert (frame + rest)[0] == START;
    if j < |junk| { JunkFront(junk, Flatten(left), j); }
    assert j == |junk| && junk[j..] + Flatten(left) == Flatten(left);
    FirstFrame(left, frame, rest);
  }

  lemma FramesFront(frames: seq<seq<Byte>>)
    requires forall f :: f in frames ==> WellFormed(f)
    ensures Flatten(frames) == [] <==> frames == []
    ensures frames != [] ==> Flatten(frames)[0] == START
  {
    FramesInStep(frames);
    InStepFacts(Flatten(frames));
    EmptyStream(frames);
  }

  /** The counter after n more bytes were thrown away, in two portions. */
  lemma CountSum(total: nat, j: nat, n: nat)
    ensures ((total + j) % WRAP + n) % WRAP == (total + (j + n)) % WRAP
  {}

  /** Back in step: whatever state the reader is in, bytes without a start byte in front of whole
      frames are thrown away exactly and counted, and then every frame is delivered, in order and
      for every chunking of reads that keep bringing bytes and polls that may give up. */
  method Recover(rx: ModemRx, junk: seq<Byte>, frames: seq<seq<Byte>>, calls: nat)
    returns (got: seq<seq<Byte>>, ghost taken: nat)
    requires rx.Valid() && rx.Stream() == junk + Flatten(frames) && START !in junk
    requires forall f :: f in frames ==> WellFormed(f)
    requires Clean(rx.arrivals, rx.source) && Calm(rx.polls)
    modifies rx, rx.buf
    ensures rx.Valid() && taken <= |junk| && |got| <= |frames| && got == frames[..|got|]
    ensures rx.Stream() == junk[taken..] + Flatten(frames[|got|..]) && (got != [] ==> taken == |junk| && !rx.hunting)
    ensures calls > 0 && 0 < taken && got == [] ==> rx.hunting
    ensures old(rx.skippedTotal) < WRAP ==> rx.skippedTotal == (old(rx.skippedTotal) + taken) % WRAP
    ensures calls >= |junk| + |frames| ==> taken == |junk| && got == frames && rx.Stream() == []
  {
    hide *;
    got, taken := [], 0;
    ghost var total := rx.skippedTotal;
    assert junk[0..] == junk && frames[0..] == frames;
    for i := 0 to calls
      invariant rx.Valid() && taken <= |junk| && |got| <= |frames| && got == frames[..|got|]
      invariant rx.Stream() == junk[taken..] + Flatten(frames[|got|..])
      invariant (got != [] ==> taken == |junk| && !rx.hunting) && (0 < taken && got == [] ==> rx.hunting)
      invariant total < WRAP ==> rx.skippedTotal == (total + taken) % WRAP
      invariant Clean(rx.arrivals, rx.source) && Calm(rx.polls)
      invariant i <= taken + |got| || (taken == |junk| && |got| == |frames|)
    {
      ghost var left, st := frames[|got|..], rx.Stream();
      FramesFront(left);
      FramesInStep(left);
      InStepFacts(Flatten(left));
      if taken < |junk| { JunkFront(junk, Flatten(left), taken); }
      var r, frame, late, n := rx.GetFrame();
      if r.Skipped? {
        assert taken == |junk| ==> st == Flatten(left);
        WithinJunk(junk, Flatten(left), taken, n);
        CountSum(total, taken, n);
        taken := taken + n;
      } else if r.Frame? {
        FrameAfterJunk(junk, left, taken, frame, rx.Stream());
        assert left[1..] == frames[|got| + 1..];
        got := got + [frame];
      }
    }
    if calls >= |junk| + |frames| { EmptyStream(frames[|got|..]); }
  }

  lemma EmptyStream(frames: seq<seq<Byte>>)
    ensures frames == [] ==> Flatten(frames) == []
  {}

  lemma {:induction false} FlattenSnoc(a: seq<seq<Byte>>, b: seq<Byte>)
    ensures Flatten(a + [b]) == Flatten(a) + b
  {
    if a == [] {
      assert [b][1..] == [];
    } else {
      assert (a + [b])[1..] == a[1..] + [b];
      FlattenSnoc(a[1..], b);
    }
  }

  lemma PieceAdded(all: seq<Byte>, pieces: seq<seq<Byte>>, st: seq<Byte>, piece: seq<Byte>, rest: seq<Byte>)
    requires all == Flatten(pieces) + st && st == piece + rest
    ensures all == Flatten(pieces + [piece]) + rest
  {
    FlattenSnoc(pieces, piece);
    assert Flatten(pieces) + (piece + rest) == (Flatten(pieces) + piece) + rest;
  }

  /** What one call takes off the stream. */
  predicate Takes(r: Result, piece: seq<Byte>) {
    match r
    case Frame => WellFormed(piece)
    case Skipped => piece != [] && START !in piece[1..]
    case _ => piece == []
  }

  lemma TakesPiece(r: Result, st: seq<Byte>, frame: seq<Byte>, n: nat, rest: seq<Byte>)
    requires r.Frame? ==> st == frame + rest && WellFormed(frame)
    requires r.Skipped? ==> 1 <= n <= |st| && rest == st[n..] && START !in st[1..n]
    requires r.NoData? || r.Error? ==> rest == st
    ensures var piece := if r.Frame? then frame else if r.Skipped? then st[..n] else [];
      st == piece + rest && Takes(r, piece)
  {
    assert r.Skipped? ==> st == st[..n] + st[n..] && st[..n][1..] == st[1..n];
  }

  /** Over any input at all, with any errors and timeouts: the delivered frames and the bytes
      thrown away, in order, followed by what waits and what is still to come, are the bytes
      there were; and every call either takes at least one byte or reports no data or an error. */
  method Conserve(rx: ModemRx, calls: nat) returns (results: seq<Result>, ghost pieces: seq<seq<Byte>>)
    requires rx.Valid()
    modifies rx, rx.buf
    ensures rx.Valid() && |results| == calls == |pieces|
    ensures old(rx.Stream()) == Flatten(pieces) + rx.Stream()
    ensures forall i :: 0 <= i < calls ==> Takes(results[i], pieces[i])
  {
    hide *;
    results, pieces := [], [];
    ghost var all := rx.Stream();
    EmptyStream([]);
    assert all == [] + rx.Stream();
    for i := 0 to calls
      invariant rx.Valid() && |results| == i == |pieces|
      invariant all == Flatten(pieces) + rx.Stream()
      invariant forall k :: 0 <= k < i ==> Takes(results[k], pieces[k])
    {
      ghost var st := rx.Stream();
      var r, frame, late, n := rx.GetFrame();
      ghost var piece := if r.Frame? then frame else if r.Skipped? then st[..n] else [];
      TakesPiece(r, st, frame, n, rx.Stream());
      PieceAdded(all, pieces, st, piece, rx.Stream());
      results, pieces := results + [r], pieces + [piece];
    }
  }
}
