/** Control and relay frames between the host and a bridge: building, parsing, and the command
    queue they share. */
module Bridge {
  import opened Memory
  import opened RingBuffer

  const CTL_START: Byte := 0xFE
  const CTL_LENGTH: nat := 3
  const CTL_MAX: nat := 40
  const RELAY_START: Byte := 0x62
  const RELAY_HEADER: nat := 4
  const BUFFER_LENGTH: nat := 5000

  /** What the parsers report: not such a frame, only part of one, or a whole one with its size,
      its type or connection id, and its payload. */
  datatype Parsed = NotOurs | NeedMore | Whole(size: nat, id: Byte, payload: seq<Byte>)

  function CtlParse(buf: seq<Byte>): (p: Parsed)
    ensures p.Whole? ==> CTL_LENGTH <= p.size <= |buf|
  {
    if |buf| == 0 || buf[0] != CTL_START then NotOurs
    else if |buf| >= 2 && (buf[1] < CTL_LENGTH || buf[1] > CTL_MAX) then NotOurs
    else if |buf| < CTL_LENGTH || |buf| < buf[1] then NeedMore
    else Whole(buf[1], buf[2], buf[CTL_LENGTH..buf[1]])
  }

  function RelayTotal(high: Byte, low: Byte): nat { high * 256 + low }

  function RelayParse(buf: seq<Byte>): (p: Parsed)
    ensures p.Whole? ==> RELAY_HEADER <= p.size <= |buf|
  {
    if |buf| == 0 || buf[0] != RELAY_START then NotOurs
    else if |buf| < 3 then NeedMore
    else var total := RelayTotal(buf[1], buf[2]);
      if total < RELAY_HEADER + 4 then NotOurs
      else if |buf| < total then NeedMore
      else Whole(total, buf[3], buf[RELAY_HEADER..total])
  }

  /** The control frame of a payload. */
  function CtlFrame(kind: Byte, payload: seq<Byte>): (f: seq<Byte>)
    requires CTL_LENGTH + |payload| <= CTL_MAX
    ensures |f| == CTL_LENGTH + |payload|
  {
    [CTL_START, CTL_LENGTH + |payload|, kind] + payload
  }

  /** The relay frame of a service frame. */
  function RelayFrame(conn: Byte, tlv: seq<Byte>): (f: seq<Byte>)
    requires RELAY_HEADER + |tlv| <= 0xFFFF
    ensures |f| == RELAY_HEADER + |tlv|
  {
    var total := RELAY_HEADER + |tlv|;
    [RELAY_START, total / 256, total % 256, conn] + tlv
  }

  /** bridgeCtlBuild. */
  method CtlBuild(kind: Byte, payload: seq<Byte>, buf: array<Byte>) returns (n: nat)
    requires buf.Length >= CTL_MAX
    modifies buf
    ensures n == if CTL_LENGTH + |payload| <= CTL_MAX then CTL_LENGTH + |payload| else 0
    ensures n > 0 ==> buf[..n] == CtlFrame(kind, payload) && buf[n..] == old(buf[n..])
    ensures n == 0 ==> buf[..] == old(buf[..])
  {
    if CTL_LENGTH + |payload| > CTL_MAX { return 0; }
    buf[0] := CTL_START;
    buf[1] := CTL_LENGTH + |payload|;
    buf[2] := kind;
    CopyIn(buf, CTL_LENGTH, payload);
    assert buf[..CTL_LENGTH] == [CTL_START, CTL_LENGTH + |payload|, kind];
    assert buf[..CTL_LENGTH + |payload|] == buf[..CTL_LENGTH] + buf[CTL_LENGTH..CTL_LENGTH + |payload|];
    return CTL_LENGTH + |payload|;
  }

  /** bridgeRelayBuild. */
  method RelayBuild(conn: Byte, tlv: seq<Byte>, out: array<Byte>) returns (n: nat)
    modifies out
    ensures n == if RELAY_HEADER + |tlv| <= 0xFFFF && RELAY_HEADER + |tlv| <= out.Length
      then RELAY_HEADER + |tlv| else 0
    ensures n > 0 ==> out[..n] == RelayFrame(conn, tlv) && out[n..] == old(out[n..])
    ensures n == 0 ==> out[..] == old(out[..])
  {
    var total := RELAY_HEADER + |tlv|;
    if total > 0xFFFF || total > out.Length { return 0; }
    out[0] := RELAY_START;
    out[1] := total / 256;
    out[2] := total % 256;
    out[3] := conn;
    ghost var head := [out[0], out[1], out[2], out[3]];
    assert out[..RELAY_HEADER] == head;
    CopyIn(out, RELAY_HEADER, tlv);
    assert out[..total] == out[..RELAY_HEADER] + out[RELAY_HEADER..total];
    return total;
  }

  /** A frame in front of anything is parsed into what it was built from. */
  lemma CtlRoundTrip(kind: Byte, payload: seq<Byte>, rest: seq<Byte>)
    requires CTL_LENGTH + |payload| <= CTL_MAX
    ensures CtlParse(CtlFrame(kind, payload) + rest) == Whole(CTL_LENGTH + |payload|, kind, payload)
  {
    var f := CtlFrame(kind, payload) + rest;
    assert f[0] == CTL_START && f[1] == CTL_LENGTH + |payload| && f[2] == kind;
    assert f[CTL_LENGTH..CTL_LENGTH + |payload|] == payload;
  }

  /** Service frames of fewer than four bytes are wrapped but not recognised again; all others
      come back whole. */
  lemma RelayRoundTrip(conn: Byte, tlv: seq<Byte>, rest: seq<Byte>)
    requires RELAY_HEADER + |tlv| <= 0xFFFF
    ensures RelayParse(RelayFrame(conn, tlv) + rest) ==
      if |tlv| >= 4 then Whole(RELAY_HEADER + |tlv|, conn, tlv) else NotOurs
  {
    var f, total := RelayFrame(conn, tlv) + rest, RELAY_HEADER + |tlv|;
    assert f[0] == RELAY_START && f[1] == total / 256 && f[2] == total % 256 && f[3] == conn;
    assert RelayTotal(f[1], f[2]) == total;
    assert f[RELAY_HEADER..total] == tlv;
  }

  /** Every proper prefix with something in it asks for more. */
  lemma CtlPrefix(kind: Byte, payload: seq<Byte>, k: nat)
    requires CTL_LENGTH + |payload| <= CTL_MAX && 0 < k < CTL_LENGTH + |payload|
    ensures CtlParse(CtlFrame(kind, payload)[..k]) == NeedMore
  {
    var f := CtlFrame(kind, payload);
    assert f[0] == CTL_START && f[1] == |f|;
  }

  lemma RelayPrefix(conn: Byte, tlv: seq<Byte>, k: nat)
    requires RELAY_HEADER + |tlv| <= 0xFFFF && |tlv| >= 4 && 0 < k < RELAY_HEADER + |tlv|
    ensures RelayParse(RelayFrame(conn, tlv)[..k]) == NeedMore
  {
    var f, total := RelayFrame(conn, tlv), RELAY_HEADER + |tlv|;
    assert f[0] == RELAY_START && f[1] == total / 256 && f[2] == total % 256;
    assert RelayTotal(f[1], f[2]) == total;
  }

  // ---- What the parsers say, for any bytes ----

  /** A part of the control frame, with something in it. */
  ghost predicate PartOfCtl(buf: seq<Byte>, kind: Byte, payload: seq<Byte>) {
    && CTL_LENGTH + |payload| <= CTL_MAX && 0 < |buf| < CTL_LENGTH + |payload|
    && buf == CtlFrame(kind, payload)[..|buf|]
  }

  ghost predicate PartOfRelay(buf: seq<Byte>, conn: Byte, tlv: seq<Byte>) {
    && 4 <= |tlv| && RELAY_HEADER + |tlv| <= 0xFFFF && 0 < |buf| < RELAY_HEADER + |tlv|
    && buf == RelayFrame(conn, tlv)[..|buf|]
  }

  function Zeros(n: nat): (z: seq<Byte>)
    ensures |z| == n
  {
    seq(n, _ => 0)
  }

  /** More is asked for exactly when what is there can still become a control frame. */
  lemma CtlNeedsMore(buf: seq<Byte>)
    ensures CtlParse(buf).NeedMore? <==> exists kind: Byte, payload: seq<Byte> :: PartOfCtl(buf, kind, payload)
  {
    if CtlParse(buf).NeedMore? {
      var n := if |buf| == 1 then CTL_LENGTH else buf[1];
      var kind := if |buf| < 3 then 0 else buf[2];
      var have := if |buf| < 3 then [] else buf[CTL_LENGTH..];
      var payload := have + Zeros(n - CTL_LENGTH - |have|);
      var f := CtlFrame(kind, payload);
      forall i | 0 <= i < |buf| ensures buf[i] == f[i] {}
      assert buf == f[..|buf|];
      assert PartOfCtl(buf, kind, payload);
    }
    if exists kind: Byte, payload: seq<Byte> :: PartOfCtl(buf, kind, payload) {
      var kind: Byte, payload: seq<Byte> :| PartOfCtl(buf, kind, payload);
      CtlPrefix(kind, payload, |buf|);
    }
  }

  /** A frame is recognised exactly when the bytes begin with it. */
  lemma CtlWhole(buf: seq<Byte>, kind: Byte, payload: seq<Byte>)
    requires CTL_LENGTH + |payload| <= CTL_MAX
    ensures CtlParse(buf) == Whole(CTL_LENGTH + |payload|, kind, payload) <==> CtlFrame(kind, payload) <= buf
  {
    var f := CtlFrame(kind, payload);
    if CtlParse(buf) == Whole(|f|, kind, payload) {
      forall i | 0 <= i < |f| ensures f[i] == buf[i] {
        if i >= CTL_LENGTH { assert payload[i - CTL_LENGTH] == buf[CTL_LENGTH..|f|][i - CTL_LENGTH]; }
      }
    }
    if f <= buf {
      assert buf == f + buf[|f|..];
      CtlRoundTrip(kind, payload, buf[|f|..]);
    }
  }

  lemma RelayNeedsMore(buf: seq<Byte>)
    ensures RelayParse(buf).NeedMore? <==> exists conn: Byte, tlv: seq<Byte> :: PartOfRelay(buf, conn, tlv)
  {
    if RelayParse(buf).NeedMore? {
      var n := if |buf| == 1 then 8 else if |buf| == 2 then RelayTotal(buf[1], 255) else RelayTotal(buf[1], buf[2]);
      var conn := if |buf| < 4 then 0 else buf[3];
      var have := if |buf| < 4 then [] else buf[RELAY_HEADER..];
      var tlv := have + Zeros(n - RELAY_HEADER - |have|);
      var f := RelayFrame(conn, tlv);
      forall i | 0 <= i < |buf| ensures buf[i] == f[i] {}
      assert buf == f[..|buf|];
      assert PartOfRelay(buf, conn, tlv);
    }
    if exists conn: Byte, tlv: seq<Byte> :: PartOfRelay(buf, conn, tlv) {
      var conn: Byte, tlv: seq<Byte> :| PartOfRelay(buf, conn, tlv);
      RelayPrefix(conn, tlv, |buf|);
    }
  }

  lemma RelayWhole(buf: seq<Byte>, conn: Byte, tlv: seq<Byte>)
    requires 4 <= |tlv| && RELAY_HEADER + |tlv| <= 0xFFFF
    ensures RelayParse(buf) == Whole(RELAY_HEADER + |tlv|, conn, tlv) <==> RelayFrame(conn, tlv) <= buf
  {
    var f := RelayFrame(conn, tlv);
    if RelayParse(buf) == Whole(|f|, conn, tlv) {
      forall i | 0 <= i < |f| ensures f[i] == buf[i] {
        if i >= RELAY_HEADER { assert tlv[i - RELAY_HEADER] == buf[RELAY_HEADER..|f|][i - RELAY_HEADER]; }
      }
    }
    if f <= buf {
      assert buf == f + buf[|f|..];
      RelayRoundTrip(conn, tlv, buf[|f|..]);
    }
  }

  /** Nothing else is recognised. */
  lemma WholeIsFrame(buf: seq<Byte>)
    ensures CtlParse(buf).Whole? ==>
      var p := CtlParse(buf).payload; CTL_LENGTH + |p| == CtlParse(buf).size <= CTL_MAX
    ensures RelayParse(buf).Whole? ==>
      var p := RelayParse(buf).payload; 4 <= |p| && RELAY_HEADER + |p| == RelayParse(buf).size <= 0xFFFF
  {}

  // ---- The shared queue ----

  datatype Item = Control(kind: Byte, payload: seq<Byte>) | Relay(conn: Byte, tlv: seq<Byte>)

  predicate ValidItem(i: Item) {
    match i
    case Control(_, payload) => CTL_LENGTH + |payload| <= CTL_MAX
    case Relay(_, tlv) => 4 <= |tlv| <= BUFFER_LENGTH
  }

  function FrameOf(i: Item): (f: seq<Byte>)
    requires ValidItem(i)
    ensures 3 <= |f| <= BUFFER_LENGTH + RELAY_HEADER
  {
    match i
    case Control(kind, payload) => CtlFrame(kind, payload)
    case Relay(conn, tlv) => RelayFrame(conn, tlv)
  }

  predicate ValidItems(items: seq<Item>) { forall i :: 0 <= i < |items| ==> ValidItem(items[i]) }

  /** The byte stream of some frames. */
  function StreamOf(items: seq<Item>): seq<Byte>
    requires ValidItems(items)
  {
    if items == [] then [] else FrameOf(items[0]) + StreamOf(items[1..])
  }

  /** The bridge's side: one frame after another off the stream, as long as whole frames come. */
  function ParseAll(s: seq<Byte>): seq<Item>
    decreases |s|
  {
    var c, r := CtlParse(s), RelayParse(s);
    if c.Whole? then [Control(c.id, c.payload)] + ParseAll(s[c.size..])
    else if r.Whole? then [Relay(r.id, r.payload)] + ParseAll(s[r.size..])
    else []
  }

  /** Types, connection ids and payloads come back in order. */
  lemma {:induction false} ParseAllStream(items: seq<Item>)
    requires ValidItems(items)
    ensures ParseAll(StreamOf(items)) == items
    decreases |items|
  {
    if items != [] {
      var i, rest := items[0], StreamOf(items[1..]);
      var s := FrameOf(i) + rest;
      assert s[|FrameOf(i)|..] == rest;
      match i {
        case Control(kind, payload) => CtlRoundTrip(kind, payload, rest);
        case Relay(conn, tlv) =>
          RelayRoundTrip(conn, tlv, rest);
          assert s[0] == RELAY_START;
      }
      ParseAllStream(items[1..]);
      assert items == [i] + items[1..];
    }
  }

  lemma {:induction false} StreamSnoc(items: seq<Item>, i: Item)
    requires ValidItems(items) && ValidItem(i)
    ensures ValidItems(items + [i]) && StreamOf(items + [i]) == StreamOf(items) + FrameOf(i)
    decreases |items|
  {
    hide FrameOf;
    var all := items + [i];
    if items == [] {
      assert all == [i] && [i][1..] == [];
    } else {
      StreamSnoc(items[1..], i);
      assert all[0] == items[0] && all[1..] == items[1..] + [i];
      var f, a, b := FrameOf(items[0]), StreamOf(items[1..]), FrameOf(i);
      assert f + (a + b) == (f + a) + b;
    }
  }

  /** relayToBridge: with strictly more room than the frame needs it joins the queue; with less
      room it is dropped; when the room is exactly its size the whole queue is lost. */
  method RelayToBridge(q: Ring, conn: Byte, tlv: seq<Byte>)
    requires q.Valid()
    modifies q, q.m_buffer
    ensures q.Valid() && q.m_buffer == old(q.m_buffer) && q.m_length == old(q.m_length)
    ensures |tlv| > BUFFER_LENGTH ==> q.Contents() == old(q.Contents())
    ensures |tlv| <= BUFFER_LENGTH ==> var n, free := RELAY_HEADER + |tlv|, q.m_length - |old(q.Contents())|;
      q.Contents() ==
      if n < free then old(q.Contents()) + RelayFrame(conn, tlv) else if n == free then [] else old(q.Contents())
  {
    hide Between, RelayFrame;
    var frame := new Byte[BUFFER_LENGTH + RELAY_HEADER](_ => 0);
    var n := RelayBuild(conn, tlv, frame);
    if n == 0 { return; }
    if q.FreeSpace() >= n {
      var ok := q.AddData(frame[..n]);
    }
  }

  /** Any frames queued with strict room: the queue holds their stream. */
  method QueueAll(q: Ring, items: seq<Item>)
    requires q.Valid() && q.Contents() == [] && ValidItems(items) && |StreamOf(items)| < q.m_length
    modifies q, q.m_buffer
    ensures q.Valid() && q.Contents() == StreamOf(items)
  {
    hide Between, FrameOf, Ring.Valid, Ring.Contents;
    assert items[..0] == [];
    var length := q.m_length;
    for k := 0 to |items|
      invariant q.Valid() && q.m_buffer == old(q.m_buffer) && q.m_length == length
      invariant q.Contents() == StreamOf(items[..k])
    {
      StreamSnoc(items[..k], items[k]);
      assert items[..k] + [items[k]] == items[..k + 1];
      StreamPrefix(items, k + 1);
      var ok := q.AddData(FrameOf(items[k]));
    }
    assert items[..|items|] == items;
  }

  lemma {:induction false} StreamPrefix(items: seq<Item>, k: nat)
    requires ValidItems(items) && k <= |items|
    ensures |StreamOf(items[..k])| <= |StreamOf(items)|
    decreases k
  {
    if k > 0 {
      assert items[..k][1..] == items[1..][..k - 1];
      StreamPrefix(items[1..], k - 1);
    }
  }

  /** What a write to the bridge does: it takes some of the bytes offered, asks to be tried
      again, or fails.  After the outcomes given every write takes all it is offered. */
  datatype Outcome = Took(n: nat) | Again | Failed

  function Fails(script: seq<Outcome>): nat {
    if script == [] then 0 else Fails(script[..|script| - 1]) + if script[|script| - 1].Failed? then 1 else 0
  }

  /** The bytes taken in some writes. */
  function Taken(script: seq<Outcome>): nat {
    if script == [] then 0 else Taken(script[..|script| - 1]) + match script[|script| - 1] case Took(n) => n case _ => 0
  }

  lemma ScriptStep(script: seq<Outcome>, k: nat)
    requires k < |script|
    ensures Fails(script[..k + 1]) == Fails(script[..k]) + if script[k].Failed? then 1 else 0
    ensures Taken(script[..k + 1]) == Taken(script[..k]) + match script[k] case Took(n) => n case _ => 0
  {
    assert script[..k + 1][..k] == script[..k];
  }

  /** Writes one frame from outcome `from` on: all of it, or what was taken before the write that
      failed, in which case the rest of the frame is dropped. */
  method WriteFrame(frame: seq<Byte>, script: seq<Outcome>, from: nat) returns (done: nat, next: nat)
    requires from <= |script|
    ensures from <= next <= |script| && done <= |frame|
    ensures done == |frame| ==> Fails(script[..next]) == Fails(script[..from])
    ensures done < |frame| ==>
      from < next && script[next - 1].Failed? && Fails(script[..next]) == Fails(script[..from]) + 1
    ensures done < |frame| ==> done == Taken(script[..next]) - Taken(script[..from])
  {
    hide Fails, Taken;
    done, next := 0, from;
    while done < |frame|
      invariant from <= next <= |script| && done <= |frame|
      invariant Fails(script[..next]) == Fails(script[..from])
      invariant done < |frame| ==> done == Taken(script[..next]) - Taken(script[..from])
      decreases |frame| - done, |script| - next
    {
      if next == |script| { return |frame|, next; }
      ScriptStep(script, next);
      next := next + 1;
      match script[next - 1] {
        case Again => continue;
        case Failed => break;
        case Took(n) => done := if n < |frame| - done then done + n else |frame|;
      }
    }
  }

  /** modeRelayTxThread: frames out of the queue, in order, until less than a frame is left; bytes
      that cannot start a frame are thrown away one by one.  Each frame is written whole or, for
      a write that fails, up to there. */
  method DrainQueue(q: Ring, script: seq<Outcome>) returns (written: seq<seq<Byte>>, junk: nat)
    requires q.Valid()
    modifies q
    ensures q.Valid() && |q.Contents()| <= |old(q.Contents())|
    ensures forall items :: ValidItems(items) && old(q.Contents()) == StreamOf(items) ==>
      junk == 0 && q.Contents() == [] && Reached(Frames(items), written, Fails(script))
  {
    hide *;
    written, junk := [], 0;
    var next := 0;
    ghost var start := q.Contents();
    NothingWritten(start, script);
    while true
      invariant q.Valid() && |q.Contents()| <= |start| && next <= |script|
      invariant forall items :: ValidItems(items) && start == StreamOf(items) ==>
        Drained(items, written, q.Contents(), junk, Fails(script[..next]))
      decreases |q.Contents()|
    {
      ghost var now := q.Contents();
      if q.DataSize() < 3 {
        ShortMeansDone(start, written, now, junk, script, next);
        break;
      }
      var ok, head := q.Peek(3);
      var len: nat := 0;
      if head[0] == RELAY_START {
        len := RelayTotal(head[1], head[2]);
      } else if head[0] == CTL_START {
        len := head[1];
      }
      HeadFits(start, written, now, junk, Fails(script[..next]), len);
      if len < 3 || len > BUFFER_LENGTH + RELAY_HEADER {
        var got, one := q.GetData(1);
        junk := junk + 1;
        continue;
      }
      if q.DataSize() < len { break; }
      var got, frame := q.GetData(len);
      ghost var fails := Fails(script[..next]);
      var done;
      done, next := WriteFrame(frame, script, next);
      OneMore(start, written, now, junk, len, done, fails, Fails(script[..next]));
      written := written + [frame[..done]];
    }
  }

  function Frames(items: seq<Item>): (fs: seq<seq<Byte>>)
    requires ValidItems(items)
    ensures |fs| == |items|
  {
    seq(|items|, i requires 0 <= i < |items| => FrameOf(items[i]))
  }

  /** The number of frames written short. */
  function Short(fs: seq<seq<Byte>>, written: seq<seq<Byte>>): nat
    requires |written| <= |fs|
  {
    if written == [] then 0
    else
      var k := |written| - 1;
      Short(fs, written[..k]) + if written[k] == fs[k] then 0 else 1
  }

  /** A front of each of the first frames has been written, and of no more than n of them less
      than all. */
  ghost predicate Fronts(fs: seq<seq<Byte>>, written: seq<seq<Byte>>, n: nat) {
    |written| <= |fs| && (forall i :: 0 <= i < |written| ==> written[i] <= fs[i]) && Short(fs, written) <= n
  }

  /** All frames have been written, and no more than n of them short. */
  ghost predicate Reached(fs: seq<seq<Byte>>, written: seq<seq<Byte>>, n: nat) {
    |written| == |fs| && Fronts(fs, written, n)
  }

  /** So far the first frames have been written and the others wait. */
  ghost predicate Drained(items: seq<Item>, written: seq<seq<Byte>>, left: seq<Byte>, junk: nat, fails: nat) {
    && ValidItems(items) && junk == 0 && Fronts(Frames(items), written, fails)
    && left == StreamOf(items[|written|..])
  }

  lemma NothingWritten(start: seq<Byte>, script: seq<Outcome>)
    ensures forall items :: ValidItems(items) && start == StreamOf(items) ==>
      Drained(items, [], start, 0, Fails(script[..0]))
  {
    forall items | ValidItems(items) && start == StreamOf(items)
      ensures Drained(items, [], start, 0, Fails(script[..0]))
    {
      assert items[0..] == items;
    }
  }

  lemma {:induction false} FewerFails(script: seq<Outcome>, k: nat)
    requires k <= |script|
    ensures Fails(script[..k]) <= Fails(script)
    decreases |script| - k
  {
    if k == |script| {
      assert script[..k] == script;
    } else {
      ScriptStep(script, k);
      FewerFails(script, k + 1);
    }
  }

  lemma ShortMeansDone(start: seq<Byte>, written: seq<seq<Byte>>, left: seq<Byte>, junk: nat,
                       script: seq<Outcome>, next: nat)
    requires |left| < 3 && next <= |script|
    requires forall items :: ValidItems(items) && start == StreamOf(items) ==>
      Drained(items, written, left, junk, Fails(script[..next]))
    ensures forall items :: ValidItems(items) && start == StreamOf(items) ==>
      junk == 0 && left == [] && Reached(Frames(items), written, Fails(script))
  {
    FewerFails(script, next);
    forall items | ValidItems(items) && start == StreamOf(items)
      ensures junk == 0 && left == [] && Reached(Frames(items), written, Fails(script))
    {
      assert Drained(items, written, left, junk, Fails(script[..next]));
    }
  }

  /** The length the thread reads off the front of a stream of frames is the first frame's. */
  ghost predicate FrontIs(items: seq<Item>, written: seq<seq<Byte>>, left: seq<Byte>, len: nat) {
    && ValidItems(items) && 3 <= len <= BUFFER_LENGTH + RELAY_HEADER && len <= |left| && |written| < |items|
    && left[..len] == Frames(items)[|written|] && left[len..] == StreamOf(items[|written| + 1..])
  }

  lemma HeadFits(start: seq<Byte>, written: seq<seq<Byte>>, left: seq<Byte>, junk: nat, fails: nat, len: nat)
    requires |left| >= 3
    requires len ==
      if left[0] == RELAY_START then RelayTotal(left[1], left[2]) else if left[0] == CTL_START then left[1] else 0
    requires forall items :: ValidItems(items) && start == StreamOf(items) ==>
      Drained(items, written, left, junk, fails)
    ensures forall items :: ValidItems(items) && start == StreamOf(items) ==> FrontIs(items, written, left, len)
    ensures (exists items :: ValidItems(items) && start == StreamOf(items)) ==>
      3 <= len <= BUFFER_LENGTH + RELAY_HEADER && len <= |left|
  {
    forall items | ValidItems(items) && start == StreamOf(items) ensures FrontIs(items, written, left, len) {
      var k := |written|;
      assert Drained(items, written, left, junk, fails) && k < |items|;
      var i, rest := items[k], StreamOf(items[k + 1..]);
      assert items[k..][0] == i && items[k..][1..] == items[k + 1..];
      FrontLength(i, rest);
      assert left == FrameOf(i) + rest;
    }
  }

  /** Writing all or a front of the next frame; a front takes a failure. */
  lemma OneMore(start: seq<Byte>, written: seq<seq<Byte>>, left: seq<Byte>, junk: nat, len: nat, done: nat,
                fails: nat, more: nat)
    requires done <= len <= |left| && more == fails + if done < len then 1 else 0
    requires forall items :: ValidItems(items) && start == StreamOf(items) ==>
      Drained(items, written, left, junk, fails) && FrontIs(items, written, left, len)
    ensures forall items :: ValidItems(items) && start == StreamOf(items) ==>
      Drained(items, written + [left[..len][..done]], left[len..], junk, more)
  {
    hide FrameOf, StreamOf, Frames, Fronts, Short, ValidItems;
    forall items | ValidItems(items) && start == StreamOf(items)
      ensures Drained(items, written + [left[..len][..done]], left[len..], junk, more)
    {
      assert Drained(items, written, left, junk, fails) && FrontIs(items, written, left, len);
      FrontsOneMore(Frames(items), written, fails, done);
    }
  }

  lemma FrontsOneMore(fs: seq<seq<Byte>>, written: seq<seq<Byte>>, n: nat, done: nat)
    requires Fronts(fs, written, n) && |written| < |fs| && done <= |fs[|written|]|
    ensures var f := fs[|written|];
      Fronts(fs, written + [f[..done]], n + if done < |f| then 1 else 0)
  {
    var f := fs[|written|];
    var longer := written + [f[..done]];
    assert longer[..|written|] == written && (done == |f| ==> f[..done] == f);
  }

  lemma FrontLength(i: Item, rest: seq<Byte>)
    requires ValidItem(i)
    ensures var s := FrameOf(i) + rest;
      |FrameOf(i)| == if s[0] == RELAY_START then RelayTotal(s[1], s[2]) else if s[0] == CTL_START then s[1] else 0
  {}

  function Joined(fs: seq<seq<Byte>>): seq<Byte> { if fs == [] then [] else fs[0] + Joined(fs[1..]) }

  lemma {:induction false} JoinedFrames(items: seq<Item>)
    requires ValidItems(items)
    ensures Joined(Frames(items)) == StreamOf(items)
    decreases |items|
  {
    hide FrameOf;
    if items != [] {
      assert Frames(items)[1..] == Frames(items[1..]);
      JoinedFrames(items[1..]);
    }
  }

  /** Without a failure every frame is written whole. */
  lemma {:induction false} NoneShort(fs: seq<seq<Byte>>, written: seq<seq<Byte>>)
    requires |written| <= |fs| && Short(fs, written) == 0
    ensures written == fs[..|written|]
  {
    if written != [] { NoneShort(fs, written[..|written| - 1]); }
  }

  /** The whole way: any frames queued with strict room come out in order, whole but for one front
      of a frame per failed write.  When no write fails they come out as the same bytes, however
      the bridge takes them, and parsing them one after another gives the types, connection ids
      and payloads back. */
  method Pipeline(q: Ring, items: seq<Item>, script: seq<Outcome>) returns (written: seq<seq<Byte>>)
    requires q.Valid() && q.Contents() == [] && ValidItems(items) && |StreamOf(items)| < q.m_length
    modifies q, q.m_buffer
    ensures q.Valid() && q.Contents() == []
    ensures Reached(Frames(items), written, Fails(script))
    ensures Fails(script) == 0 ==> Joined(written) == StreamOf(items) && ParseAll(Joined(written)) == items
  {
    hide *;
    QueueAll(q, items);
    var junk;
    written, junk := DrainQueue(q, script);
    if Fails(script) == 0 {
      AllReached(Frames(items), written);
      JoinedFrames(items);
      ParseAllStream(items);
    }
  }

  lemma AllReached(fs: seq<seq<Byte>>, written: seq<seq<Byte>>)
    requires Reached(fs, written, 0)
    ensures written == fs
  {
    NoneShort(fs, written);
  }
}
