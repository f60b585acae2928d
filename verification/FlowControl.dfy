/** The paced sample path as a protocol: the host, a byte channel that keeps order, a modem with a
    bounded sample buffer, and status replies that may be lost. */
module FlowControl {
  import opened FlowHost

  const FRAME: nat := 96

  datatype Msg = Samp(n: nat) | Req(id: nat)

  datatype Reply = Reply(freeFrames: nat, id: nat)

  /** log[id] is the number of sample frames queued before request id; gone counts the sample
      frames that have left the channel; naks those the modem had no room for. */
  datatype Sys = Sys(host: Host, channel: seq<Msg>, free: nat, cap: nat, replies: seq<Reply>,
                     log: seq<nat>, sent: nat, gone: nat, naks: nat)

  datatype Step =
    | Send(n: nat, due: bool, room: bool)
    | Poll(due: bool, room: bool)
    | Resync
    | ModemRead
    | Corrupt
    | Play(samples: nat)
    | Lose(i: nat)
    | HandleReply

  function Samps(ch: seq<Msg>): nat {
    if ch == [] then 0 else (if ch[0].Samp? then 1 else 0) + Samps(ch[1..])
  }

  function ReqIds(ch: seq<Msg>): (ids: seq<nat>) {
    if ch == [] then [] else (if ch[0].Req? then [ch[0].id] else []) + ReqIds(ch[1..])
  }

  function ReplyIds(rs: seq<Reply>): (ids: seq<nat>)
    ensures |ids| == |rs| && forall i :: 0 <= i < |ids| ==> ids[i] == rs[i].id
  {
    seq(|rs|, i requires 0 <= i < |rs| => rs[i].id)
  }

  /** The requests whose reply may still arrive, oldest first. */
  function Pending(s: Sys): seq<nat> { ReplyIds(s.replies) + ReqIds(s.channel) }

  /** The oldest request the host has a record of. */
  function Base(s: Sys): int { |s.log| - |s.host.snaps| }

  function Init(cap: nat): Sys { Sys(Host(0, true, 0, []), [], cap, cap, [], [], 0, 0, 0) }

  predicate Enabled(s: Sys, step: Step) {
    match step
    case Send(n, _, _) => s.host.space && n <= FRAME
    case Poll(_, _) => !s.host.space
    case Resync => !s.host.space
    case ModemRead => s.channel != []
    case Corrupt => s.channel != []
    case Play(_) => true
    case Lose(i) => i < |s.replies|
    case HandleReply => s.replies != []
  }

  /** Whether a step queues a status request. */
  predicate Asks(s: Sys, step: Step) {
    match step
    case Send(_, due, room) => (due || s.host.credit - 1 <= MIN_FREE) && room
    case Poll(due, room) => due && room
    case _ => false
  }

  /** The record overflows only when the reply to its oldest request is truly lost, and it is
      dropped only when no reply can arrive any more. */
  predicate Faithful(s: Sys, step: Step) {
    && (Asks(s, step) && |s.host.snaps| == REQ_FIFO ==> Base(s) !in Pending(s))
    && (step.Resync? ==> Pending(s) == [])
  }

  function Ask(s: Sys): Sys
    requires ValidHost(s.host)
  {
    s.(host := Requested(s.host), channel := s.channel + [Req(|s.log|)], log := s.log + [s.sent])
  }

  function Queue(s: Sys, n: nat): Sys
    requires ValidHost(s.host)
  {
    s.(host := Spent(s.host), channel := s.channel + [Samp(n)], sent := s.sent + 1)
  }

  function Read(s: Sys): Sys
    requires s.channel != []
  {
    var t := s.(channel := s.channel[1..]);
    match s.channel[0]
    case Req(id) =>
      t.(replies := s.replies + [Reply(if s.free / FRAME > 15 then 15 else s.free / FRAME, id)])
    case Samp(n) =>
      if n <= s.free then t.(free := s.free - n, gone := s.gone + 1) else t.(gone := s.gone + 1, naks := s.naks + 1)
  }

  function Next(s: Sys, step: Step): Sys
    requires ValidHost(s.host) && Enabled(s, step)
  {
    match step
    case Send(n, _, _) => if Asks(s, step) then Ask(Queue(s, n)) else Queue(s, n)
    case Poll(_, _) => if Asks(s, step) then Ask(s) else s
    case Resync => s.(host := Resynced(s.host))
    case ModemRead => Read(s)
    case Corrupt => s.(channel := s.channel[1..], gone := s.gone + if s.channel[0].Samp? then 1 else 0)
    case Play(k) => s.(free := if s.free + k <= s.cap then s.free + k else s.cap)
    case Lose(i) => s.(replies := s.replies[..i] + s.replies[i + 1..])
    case HandleReply => s.(host := Answered(s.host, s.replies[0].freeFrames), replies := s.replies[1..])
  }

  // ---- The invariant ----

  /** The records are the true counts of the newest requests, and no record is far behind. */
  ghost predicate Records(s: Sys) {
    && ValidHost(s.host) && s.host.queued == s.sent % WRAP && Base(s) >= 0
    && (forall k {:trigger s.log[k]} :: Base(s) <= k < |s.log| ==> s.host.snaps[k - Base(s)] == s.log[k] % WRAP)
    && (forall i, j :: 0 <= i <= j < |s.log| ==> s.log[i] <= s.log[j] <= s.sent)
    && s.host.credit <= 15
    && (forall k :: Base(s) <= k < |s.log| ==> s.sent <= s.log[k] + 15 && s.host.credit + s.sent <= s.log[k] + 15)
  }

  /** A request in the channel has exactly the frames counted before it in front of it. */
  ghost predicate Wire(s: Sys) {
    && s.sent == s.gone + Samps(s.channel)
    && forall i :: 0 <= i < |s.channel| ==> WireAt(s, i)
  }

  ghost predicate WireAt(s: Sys, i: nat)
    requires i < |s.channel|
  {
    match s.channel[i]
    case Samp(n) => n <= FRAME
    case Req(id) => id < |s.log| && s.log[id] == s.gone + Samps(s.channel[..i])
  }

  /** A reply's count is still there but for the frames that came after its request. */
  ghost predicate ReplyTrue(s: Sys, r: Reply) {
    && r.freeFrames <= 15 && r.id < |s.log| && s.log[r.id] <= s.gone
    && FRAME * r.freeFrames <= s.free + FRAME * (s.gone - s.log[r.id])
  }

  ghost predicate Replies(s: Sys) { forall i :: 0 <= i < |s.replies| ==> ReplyTrue(s, s.replies[i]) }

  /** Every reply that may still arrive finds a record that is at least as old. */
  ghost predicate Follows(ids: seq<nat>, base: int, end: int) {
    && (forall i :: 0 <= i < |ids| ==> base + i <= ids[i] < end)
    && (forall i, j :: 0 <= i < j < |ids| ==> ids[i] < ids[j])
  }

  ghost predicate Matched(s: Sys) { Follows(Pending(s), Base(s), |s.log|) }

  /** Credit and the frames on their way fit the modem. */
  ghost predicate Paid(s: Sys) {
    && FRAME * (s.host.credit + Samps(s.channel)) <= s.free && FRAME * Samps(s.channel) <= s.free
    && s.naks == 0
    && (s.host.space ==> s.host.credit >= MIN_FREE || Fresh(s))
  }

  /** Before the first, unpaid frame. */
  ghost predicate Fresh(s: Sys) {
    s.sent == 0 && s.log == [] && s.host.credit == 0 && s.free >= FRAME && s.channel == []
  }

  ghost predicate Inv(s: Sys) { Records(s) && Wire(s) && Replies(s) && Matched(s) && Paid(s) }

  lemma {:induction false} SampsConcat(a: seq<Msg>, b: seq<Msg>)
    ensures Samps(a + b) == Samps(a) + Samps(b)
  {
    if a == [] {
      assert a + b == b;
    } else {
      assert (a + b)[1..] == a[1..] + b;
      SampsConcat(a[1..], b);
    }
  }

  lemma {:induction false} ReqIdsConcat(a: seq<Msg>, b: seq<Msg>)
    ensures ReqIds(a + b) == ReqIds(a) + ReqIds(b)
  {
    if a == [] {
      assert a + b == b;
    } else {
      var ab := a + b;
      assert ab[0] == a[0] && ab[1..] == a[1..] + b;
      ReqIdsFirst(ab);
      ReqIdsFirst(a);
      ReqIdsConcat(a[1..], b);
      hide ReqIds;
      var h: seq<nat> := if a[0].Req? then [a[0].id] else [];
      assert h + (ReqIds(a[1..]) + ReqIds(b)) == (h + ReqIds(a[1..])) + ReqIds(b);
    }
  }

  lemma ReqIdsFirst(ch: seq<Msg>)
    requires ch != []
    ensures ReqIds(ch) == (if ch[0].Req? then [ch[0].id] else []) + ReqIds(ch[1..])
  {}

  lemma InitInv(cap: nat)
    requires cap >= FRAME
    ensures Inv(Init(cap))
  {}

  lemma WireAppend(s: Sys, t: Sys, m: Msg)
    requires Wire(s) && t.channel == s.channel + [m] && t.gone == s.gone && s.log <= t.log
    requires t.sent == s.sent + (if m.Samp? then 1 else 0)
    requires match m case Samp(n) => n <= FRAME case Req(id) => id < |t.log| && t.log[id] == s.sent
    ensures Wire(t) && Samps(t.channel) == Samps(s.channel) + if m.Samp? then 1 else 0
  {
    SampsConcat(s.channel, [m]);
    forall i | 0 <= i < |t.channel| ensures WireAt(t, i) {
      assert t.channel[..i] == if i < |s.channel| then s.channel[..i] else s.channel;
      if i < |s.channel| { assert WireAt(s, i); }
    }
  }

  lemma QueueKeeps(s: Sys, n: nat)
    requires Inv(s) && s.host.space && n <= FRAME
    ensures Inv(Queue(s, n)) && Pending(Queue(s, n)) == Pending(s)
  {
    var t := Queue(s, n);
    WireAppend(s, t, Samp(n));
    ReqIdsConcat(s.channel, [Samp(n)]);
    QueueRecords(s, n);
    forall i | 0 <= i < |t.replies| ensures ReplyTrue(t, t.replies[i]) { assert ReplyTrue(s, s.replies[i]); }
  }

  lemma QueueRecords(s: Sys, n: nat)
    requires Records(s) && s.host.space && (s.host.credit >= MIN_FREE || Fresh(s))
    ensures Records(Queue(s, n))
  {
    var t := Queue(s, n);
    assert t.host.queued == t.sent % WRAP by { WrapStep(s.sent); }
  }

  lemma WrapStep(a: nat)
    ensures (a % WRAP + 1) % WRAP == (a + 1) % WRAP
  {}

  /** The record's overflow keeps replies and records matched exactly when the oldest recorded
      request can no longer be answered. */
  lemma AskMatch(s: Sys)
    requires Records(s) && Matched(s)
    ensures Matched(Ask(s)) <==> (|s.host.snaps| == REQ_FIFO ==> Base(s) !in Pending(s))
  {
    var t, ids := Ask(s), Pending(s);
    ReqIdsConcat(s.channel, [Req(|s.log|)]);
    assert ReqIds([Req(|s.log|)]) == [|s.log|] by { assert [Req(|s.log|)][1..] == []; }
    assert Pending(t) == ids + [|s.log|];
    if |s.host.snaps| == REQ_FIFO {
      if Base(s) in ids {
        var i :| 0 <= i < |ids| && ids[i] == Base(s);
        assert Pending(t)[i] == Base(s) < Base(t);
      } else {
        PushedUp(ids, Base(s), |s.log|);
        AppendFollows(ids, Base(t), |s.log|);
      }
    } else {
      AppendFollows(ids, Base(t), |s.log|);
    }
  }

  lemma PushedUp(ids: seq<nat>, base: int, end: int)
    requires Follows(ids, base, end) && base !in ids
    ensures Follows(ids, base + 1, end)
  {
    forall i | 0 <= i < |ids| ensures base + 1 + i <= ids[i] {
      if i > 0 { assert ids[0] < ids[i]; Spaced(ids, i); }
    }
  }

  lemma {:induction false} Spaced(ids: seq<nat>, i: nat)
    requires i < |ids| && forall a, b :: 0 <= a < b < |ids| ==> ids[a] < ids[b]
    ensures ids[0] + i <= ids[i]
  {
    if i > 0 { Spaced(ids, i - 1); }
  }

  lemma AppendFollows(ids: seq<nat>, base: int, end: nat)
    requires Follows(ids, base, end) && base <= end
    ensures Follows(ids + [end], base, end + 1)
  {
    FollowsFit(ids, base, end);
  }

  lemma FollowsFit(ids: seq<nat>, base: int, end: int)
    requires Follows(ids, base, end) && base <= end
    ensures |ids| + base <= end
  {
    if ids != [] { assert base + (|ids| - 1) <= ids[|ids| - 1] < end; }
  }

  /** Forgetting the records is harmless exactly when no reply can arrive any more. */
  lemma ResyncMatch(s: Sys)
    requires Records(s) && Matched(s)
    ensures Matched(s.(host := Resynced(s.host))) <==> Pending(s) == []
  {
    var t := s.(host := Resynced(s.host));
    assert Pending(t) == Pending(s);
    if Pending(s) != [] {
      var ids := Pending(s);
      assert ids[0] < |s.log| == Base(t);
    }
  }

  lemma AskKeeps(s: Sys)
    requires Inv(s) && (s.host.space ==> !Fresh(s)) && (|s.host.snaps| == REQ_FIFO ==> Base(s) !in Pending(s))
    ensures Inv(Ask(s))
  {
    var t := Ask(s);
    AskMatch(s);
    AskRecords(s);
    WireAppend(s, t, Req(|s.log|));
    forall i | 0 <= i < |t.replies| ensures ReplyTrue(t, t.replies[i]) { assert ReplyTrue(s, s.replies[i]); }
  }

  lemma AskSnaps(s: Sys, k: nat)
    requires Records(s) && Base(Ask(s)) <= k < |Ask(s).log|
    ensures 0 <= Base(Ask(s)) && Ask(s).host.snaps[k - Base(Ask(s))] == Ask(s).log[k] % WRAP
  {
    if k < |s.log| { assert s.host.snaps[k - Base(s)] == s.log[k] % WRAP; }
  }

  lemma AskRecords(s: Sys)
    requires Records(s)
    ensures Records(Ask(s))
  {
    var t := Ask(s);
    assert t.log == s.log + [s.sent] && t.sent == s.sent && t.host.credit == s.host.credit;
    forall k {:trigger t.log[k]} | Base(t) <= k < |t.log| ensures t.host.snaps[k - Base(t)] == t.log[k] % WRAP {
      AskSnaps(s, k);
    }
  }

  /** The front of the channel is gone. */
  lemma WireDrop(s: Sys, t: Sys)
    requires Wire(s) && s.channel != [] && t.channel == s.channel[1..] && t.log == s.log && t.sent == s.sent
    requires t.gone == s.gone + if s.channel[0].Samp? then 1 else 0
    ensures Wire(t)
  {
    forall i | 0 <= i < |t.channel| ensures WireAt(t, i) {
      assert WireAt(s, i + 1);
      assert s.channel[..i + 1][1..] == t.channel[..i] && s.channel[..i + 1][0] == s.channel[0];
    }
  }

  /** Leaving out a request keeps the others matched. */
  lemma DropFollows(ids: seq<nat>, k: nat, base: int, end: int)
    requires Follows(ids, base, end) && k < |ids|
    ensures Follows(ids[..k] + ids[k + 1..], base, end)
  {
    var r := ids[..k] + ids[k + 1..];
    forall i | 0 <= i < |r| ensures r[i] == ids[if i < k then i else i + 1] {}
  }

  lemma CorruptKeeps(s: Sys)
    requires Inv(s) && s.channel != []
    ensures Inv(Next(s, Corrupt))
  {
    var t := Next(s, Corrupt);
    WireDrop(s, t);
    CorruptPending(s);
    hide Follows, Pending, Wire;
    forall i | 0 <= i < |t.replies| ensures ReplyTrue(t, t.replies[i]) { assert ReplyTrue(s, s.replies[i]); }
  }

  lemma CorruptPending(s: Sys)
    requires Matched(s) && s.channel != []
    ensures Matched(s.(channel := s.channel[1..], gone := s.gone + if s.channel[0].Samp? then 1 else 0))
  {
    var t := s.(channel := s.channel[1..], gone := s.gone + if s.channel[0].Samp? then 1 else 0);
    hide Follows;
    ReqIdsFirst(s.channel);
    var n, ids := |s.replies|, Pending(s);
    if s.channel[0].Req? {
      assert Pending(t) == ids[..n] + ids[n + 1..];
      DropFollows(ids, n, Base(s), |s.log|);
    } else {
      assert Pending(t) == ids;
    }
  }

  lemma ReadPending(s: Sys)
    requires s.channel != []
    ensures Pending(Read(s)) == Pending(s)
  {
    var t := Read(s);
    ReqIdsFirst(s.channel);
    hide ReqIds;
    if s.channel[0].Req? { assert ReplyIds(t.replies) == ReplyIds(s.replies) + [s.channel[0].id]; }
  }

  lemma ReadReplies(s: Sys)
    requires Wire(s) && Replies(s) && Paid(s) && s.channel != []
    ensures Replies(Read(s)) && Wire(Read(s)) && Paid(Read(s))
  {
    var t := Read(s);
    assert WireAt(s, 0) && s.channel[..0] == [];
    WireDrop(s, t);
    hide Wire;
    forall i | 0 <= i < |t.replies| ensures ReplyTrue(t, t.replies[i]) {
      if i < |s.replies| { assert ReplyTrue(s, s.replies[i]); }
    }
  }

  /** The modem takes every sample frame, and its answer counts exactly the frames before the
      request. */
  lemma ReadKeeps(s: Sys)
    requires Inv(s) && s.channel != []
    ensures Inv(Read(s))
  {
    ReadReplies(s);
    ReadPending(s);
    hide Wire, Replies, Paid, Pending, Follows;
  }

  lemma SameWire(s: Sys, t: Sys)
    requires Wire(s) && t.channel == s.channel && t.log == s.log && t.gone == s.gone && t.sent == s.sent
    ensures Wire(t)
  {
    forall i | 0 <= i < |t.channel| ensures WireAt(t, i) { assert WireAt(s, i); }
  }

  /** Replies stay true when room is gained and when some of them are gone. */
  lemma FewerReplies(s: Sys, t: Sys)
    requires Replies(s) && t.log == s.log && t.gone == s.gone && t.free >= s.free
    requires forall r :: r in t.replies ==> r in s.replies
    ensures Replies(t)
  {
    forall i | 0 <= i < |t.replies| ensures ReplyTrue(t, t.replies[i]) {
      var r := t.replies[i];
      assert r in s.replies;
      assert ReplyTrue(s, r);
    }
  }

  lemma PlayKeeps(s: Sys, k: nat)
    requires Inv(s) && s.free <= s.cap
    ensures Inv(Next(s, Play(k)))
  {
    var t := Next(s, Play(k));
    assert Pending(t) == Pending(s);
    SameWire(s, t);
    FewerReplies(s, t);
    hide Wire, Replies, Pending, Follows;
  }

  lemma LoseKeeps(s: Sys, i: nat)
    requires Inv(s) && i < |s.replies|
    ensures Inv(Next(s, Lose(i)))
  {
    var t := Next(s, Lose(i));
    LosePending(s, i);
    SameWire(s, t);
    FewerReplies(s, t);
    hide Wire, Replies, Pending, Follows;
  }

  lemma LosePending(s: Sys, i: nat)
    requires Matched(s) && i < |s.replies|
    ensures Matched(s.(replies := s.replies[..i] + s.replies[i + 1..]))
  {
    var t, ids := s.(replies := s.replies[..i] + s.replies[i + 1..]), Pending(s);
    assert Pending(t) == ids[..i] + ids[i + 1..];
    DropFollows(ids, i, Base(s), |s.log|);
  }

  /** The record a reply finds is never newer than the request it answers, so the credit is at
      most what the reply is worth, and exactly that when the record is its own. */
  lemma ReplyCredit(s: Sys)
    requires Inv(s) && s.replies != []
    ensures |s.host.snaps| > 0 && 0 <= Base(s) <= s.replies[0].id < |s.log| && s.replies[0].freeFrames <= 15
    ensures CreditOf(s.host, s.replies[0].freeFrames) == s.replies[0].freeFrames - (s.sent - s.log[Base(s)])
    ensures s.log[Base(s)] <= s.log[s.replies[0].id]
    ensures CreditOf(s.host, s.replies[0].freeFrames) <= s.replies[0].freeFrames - (s.sent - s.log[s.replies[0].id])
    ensures FRAME * (CreditOf(s.host, s.replies[0].freeFrames) + Samps(s.channel)) <= s.free
  {
    var r, b := s.replies[0], Base(s);
    assert Pending(s)[0] == r.id;
    assert ReplyTrue(s, r);
    assert s.host.snaps[b - Base(s)] == s.log[b] % WRAP;
    DifferenceExact(s.sent, s.log[b]);
  }

  lemma DifferenceExact(a: nat, b: nat)
    requires b <= a <= b + 15
    ensures Difference32(a % WRAP, b % WRAP) == a - b
  {
    var q := a / WRAP - b / WRAP;
    assert a % WRAP - b % WRAP == (a - b) - q * WRAP;
    assert -1 <= -q <= 1;
  }

  lemma InvRecords(s: Sys)
    requires Inv(s)
    ensures Records(s)
  {
    hide Records;
  }

  lemma AnswerSnaps(s: Sys)
    requires Records(s) && s.replies != [] && |s.host.snaps| > 0
    ensures var t := Next(s, HandleReply);
      ValidHost(t.host) && Base(t) == Base(s) + 1
      && forall k {:trigger t.log[k]} :: Base(t) <= k < |t.log| ==> t.host.snaps[k - Base(t)] == t.log[k] % WRAP
  {
    var t := Next(s, HandleReply);
    hide CreditOf;
    forall k {:trigger t.log[k]} | Base(t) <= k < |t.log| ensures t.host.snaps[k - Base(t)] == t.log[k] % WRAP {
      assert s.host.snaps[k - Base(s)] == s.log[k] % WRAP;
    }
  }

  lemma AnswerRecords(s: Sys)
    requires Inv(s) && s.replies != []
    ensures Records(Next(s, HandleReply)) && Base(Next(s, HandleReply)) == Base(s) + 1
  {
    InvRecords(s);
    ReplyCredit(s);
    AnswerSnaps(s);
    hide Inv, CreditOf;
  }

  lemma AnswerMatched(s: Sys)
    requires Inv(s) && s.replies != []
    ensures Matched(Next(s, HandleReply))
  {
    AnswerRecords(s);
    assert Pending(Next(s, HandleReply)) == Pending(s)[1..];
  }

  lemma AnswerKeeps(s: Sys)
    requires Inv(s) && s.replies != []
    ensures Inv(Next(s, HandleReply))
  {
    var t := Next(s, HandleReply);
    ReplyCredit(s);
    AnswerRecords(s);
    AnswerMatched(s);
    SameWire(s, t);
    FewerReplies(s, t);
    hide Records, Matched, Pending, Wire, Replies;
  }

  lemma ResyncKeeps(s: Sys)
    requires Inv(s) && !s.host.space && Pending(s) == []
    ensures Inv(Next(s, Resync))
  {
    var t := Next(s, Resync);
    InvRecords(s);
    ResyncMatch(s);
    SameWire(s, t);
    FewerReplies(s, t);
    hide Wire, Replies, Pending, Follows;
  }

  lemma SendKeeps(s: Sys, step: Step)
    requires Inv(s) && s.free <= s.cap && step.Send? && Enabled(s, step) && Faithful(s, step)
    ensures Inv(Next(s, step)) && Next(s, step).free <= Next(s, step).cap == s.cap
  {
    var q := Queue(s, step.n);
    QueueKeeps(s, step.n);
    if Asks(s, step) {
      assert Base(q) == Base(s) && q.host.snaps == s.host.snaps;
      AskKeeps(q);
    }
  }

  /** Every faithful step keeps the invariant. */
  lemma StepKeeps(s: Sys, step: Step)
    requires Inv(s) && s.free <= s.cap && Enabled(s, step) && Faithful(s, step)
    ensures Inv(Next(s, step)) && Next(s, step).free <= Next(s, step).cap == s.cap
  {
    match step
    case Send(_, _, _) => SendKeeps(s, step);
    case Poll(_, _) => if Asks(s, step) { AskKeeps(s); }
    case Resync => ResyncKeeps(s);
    case ModemRead => ReadKeeps(s);
    case Corrupt => CorruptKeeps(s);
    case Play(k) => PlayKeeps(s, k);
    case Lose(i) => LoseKeeps(s, i);
    case HandleReply => AnswerKeeps(s);
  }

  // ---- Runs ----

  ghost predicate IsRun(s: Sys, steps: seq<Step>)
    decreases |steps|
  {
    steps == [] || (ValidHost(s.host) && Enabled(s, steps[0]) && IsRun(Next(s, steps[0]), steps[1..]))
  }

  ghost predicate FaithfulRun(s: Sys, steps: seq<Step>)
    requires IsRun(s, steps)
    decreases |steps|
  {
    steps == [] || (Faithful(s, steps[0]) && FaithfulRun(Next(s, steps[0]), steps[1..]))
  }

  ghost function After(s: Sys, steps: seq<Step>): Sys
    requires IsRun(s, steps)
    decreases |steps|
  {
    if steps == [] then s else After(Next(s, steps[0]), steps[1..])
  }

  lemma {:induction false} RunKeeps(s: Sys, steps: seq<Step>)
    requires Inv(s) && s.free <= s.cap && IsRun(s, steps) && FaithfulRun(s, steps)
    ensures Inv(After(s, steps)) && After(s, steps).free <= After(s, steps).cap == s.cap
    decreases |steps|
  {
    hide Inv, Faithful, Enabled;
    if steps != [] {
      StepKeeps(s, steps[0]);
      RunKeeps(Next(s, steps[0]), steps[1..]);
    }
  }

  /** In every faithful run from the start the modem never refuses a frame, and the credit the
      host may still spend together with the frames on their way fits the modem's free space. */
  lemma NeverOverfills(cap: nat, steps: seq<Step>)
    requires cap >= FRAME && IsRun(Init(cap), steps) && FaithfulRun(Init(cap), steps)
    ensures var s := After(Init(cap), steps);
      s.naks == 0 && FRAME * Samps(s.channel) <= s.free && FRAME * (s.host.credit + Samps(s.channel)) <= s.free
  {
    InitInv(cap);
    RunKeeps(Init(cap), steps);
  }

  /** The 32 bit counts are compared exactly in every faithful run, however long. */
  lemma CountsExact(cap: nat, steps: seq<Step>)
    requires cap >= FRAME && IsRun(Init(cap), steps) && FaithfulRun(Init(cap), steps)
    ensures var s := After(Init(cap), steps);
      && ValidHost(s.host) && Base(s) >= 0
      && (s.host.snaps != [] ==> Difference32(s.host.queued, s.host.snaps[0]) == s.sent - s.log[Base(s)] <= 15)
  {
    InitInv(cap);
    RunKeeps(Init(cap), steps);
    var s := After(Init(cap), steps);
    if s.host.snaps != [] {
      var b := Base(s);
      assert s.host.snaps[b - Base(s)] == s.log[b] % WRAP;
      DifferenceExact(s.sent, s.log[b]);
    }
  }

  // ---- Waiting for credit ends ----

  /** The steps that bring fresh credit: the records are forgotten, a request goes out, the modem
      answers it and the reply is handled. */
  function Refresh(): seq<Step> { [Resync, Poll(true, true), ModemRead, HandleReply] }

  /** The frames the modem reports it has room for. */
  function Room(s: Sys): nat { if s.free / FRAME > 15 then 15 else s.free / FRAME }

  /** A request on its own, with no older record. */
  lemma AskedAlone(s: Sys)
    requires ValidHost(s.host) && s.host.snaps == [] && s.channel == [] && s.replies == [] && !s.host.space
    ensures Enabled(s, Poll(true, true)) && Faithful(s, Poll(true, true))
    ensures var t := Next(s, Poll(true, true));
      && t == s.(host := s.host.(snaps := [s.host.queued]), channel := [Req(|s.log|)], log := s.log + [s.sent])
      && Enabled(t, ModemRead) && Faithful(t, ModemRead)
  {}

  lemma AnsweredAlone(s: Sys, id: nat)
    requires ValidHost(s.host) && s.host.snaps == [s.host.queued] && s.channel == [Req(id)] && s.replies == []
    ensures var t := Next(s, ModemRead);
      && Enabled(t, HandleReply) && Faithful(t, HandleReply) && ValidHost(t.host)
      && Next(t, HandleReply) == s.(channel := [], host := Host(Room(s), Room(s) >= MIN_FREE, s.host.queued, []))
  {
    var t := Next(s, ModemRead);
    assert t.replies == [Reply(Room(s), id)];
  }

  /** A host that waits for credit gets it: when nothing is on its way any more, forgetting the
      records and asking once gives exactly the frames the modem has room for, up to fifteen, and
      the host may send again exactly when there are at least two. */
  lemma WaitingEnds(s: Sys)
    requires Inv(s) && s.channel == [] && s.replies == [] && !s.host.space
    ensures IsRun(s, Refresh()) && FaithfulRun(s, Refresh())
    ensures var t := After(s, Refresh());
      && t.host.credit == (if s.free / FRAME > 15 then 15 else s.free / FRAME) && t.free == s.free && t.naks == s.naks
      && t.channel == [] && t.replies == [] && t.host.snaps == [] && t.sent == s.sent
      && (Enabled(t, Send(FRAME, false, true)) <==> s.free >= 2 * FRAME)
  {
    hide Records, Wire, Replies, Matched, Paid, IsRun, FaithfulRun, After;
    InvRecords(s);
    RecordsHost(s);
    var a := Next(s, Resync);
    AskedAlone(a);
    var b := Next(a, Poll(true, true));
    AnsweredAlone(b, |a.log|);
    FourSteps(s, Refresh());
  }

  lemma RecordsHost(s: Sys)
    requires Records(s)
    ensures ValidHost(s.host)
  {}

  lemma FourSteps(s: Sys, steps: seq<Step>)
    requires |steps| == 4 && ValidHost(s.host) && Enabled(s, steps[0]) && Faithful(s, steps[0])
    requires var a := Next(s, steps[0]);
      && ValidHost(a.host) && Enabled(a, steps[1]) && Faithful(a, steps[1])
      && var b := Next(a, steps[1]);
      && ValidHost(b.host) && Enabled(b, steps[2]) && Faithful(b, steps[2])
      && var d := Next(b, steps[2]); ValidHost(d.host) && Enabled(d, steps[3]) && Faithful(d, steps[3])
    ensures IsRun(s, steps) && FaithfulRun(s, steps)
    ensures After(s, steps) == Next(Next(Next(Next(s, steps[0]), steps[1]), steps[2]), steps[3])
  {
    hide Next, Enabled, Faithful, ValidHost;
    var a := Next(s, steps[0]);
    var b := Next(a, steps[1]);
    var d := Next(b, steps[2]);
    var r1 := steps[1..];
    var r2 := r1[1..];
    var r3 := r2[1..];
    assert r1[0] == steps[1] && r2[0] == steps[2] && r3[0] == steps[3] && r3[1..] == [];
    OneStep(d, r3);
    OneStep(b, r2);
    OneStep(a, r1);
    OneStep(s, steps);
  }

  lemma OneStep(s: Sys, steps: seq<Step>)
    requires steps != [] && ValidHost(s.host) && Enabled(s, steps[0]) && Faithful(s, steps[0])
    requires var t := Next(s, steps[0]); steps[1..] == [] || (IsRun(t, steps[1..]) && FaithfulRun(t, steps[1..]))
    ensures IsRun(s, steps) && FaithfulRun(s, steps)
    ensures After(s, steps) == if |steps| == 1 then Next(s, steps[0]) else After(Next(s, steps[0]), steps[1..])
  {}

  // ---- A resync with a reply outstanding ----

  /** Some run leads from one state to another, every step of it faithful but for resyncs. */
  ghost predicate Leads(s: Sys, t: Sys) {
    exists steps: seq<Step> :: IsRun(s, steps) && FaithfulButResync(s, steps) && After(s, steps) == t
  }

  ghost predicate FaithfulButResync(s: Sys, steps: seq<Step>)
    requires IsRun(s, steps)
    decreases |steps|
  {
    steps == [] || ((Faithful(s, steps[0]) || steps[0].Resync?) && FaithfulButResync(Next(s, steps[0]), steps[1..]))
  }

  lemma LeadsNowhere(s: Sys)
    ensures Leads(s, s)
  {
    assert IsRun(s, []) && FaithfulButResync(s, []) && After(s, []) == s;
  }

  lemma {:induction false} Longer(s: Sys, steps: seq<Step>, step: Step)
    requires IsRun(s, steps) && FaithfulButResync(s, steps)
    requires ValidHost(After(s, steps).host) && Enabled(After(s, steps), step)
    requires Faithful(After(s, steps), step) || step.Resync?
    ensures IsRun(s, steps + [step]) && FaithfulButResync(s, steps + [step])
    ensures After(s, steps + [step]) == Next(After(s, steps), step)
    decreases |steps|
  {
    hide Enabled, Faithful, Next;
    var longer := steps + [step];
    if steps == [] {
      assert longer == [step] && longer[1..] == [];
      var t := Next(s, step);
      assert IsRun(t, []) && FaithfulButResync(t, []) && After(t, []) == t;
    } else {
      Longer(Next(s, steps[0]), steps[1..], step);
      assert longer[0] == steps[0] && longer[1..] == steps[1..] + [step];
    }
  }

  lemma Then(s: Sys, t: Sys, step: Step)
    requires Leads(s, t) && ValidHost(t.host) && Enabled(t, step) && (Faithful(t, step) || step.Resync?)
    ensures Leads(s, Next(t, step))
  {
    hide IsRun, FaithfulButResync, After, Enabled, Faithful, Next;
    var steps: seq<Step> :| IsRun(s, steps) && FaithfulButResync(s, steps) && After(s, steps) == t;
    Longer(s, steps, step);
  }

  /** k full sample frames. */
  function Frames(k: nat): seq<Msg> { if k == 0 then [] else Frames(k - 1) + [Samp(FRAME)] }

  /** k frames one after another, with no request asked for. */
  function Burst(t: Sys, k: nat): (u: Sys)
    requires ValidHost(t.host)
    ensures ValidHost(u.host)
  {
    if k == 0 then t else Queue(Burst(t, k - 1), FRAME)
  }

  lemma {:induction false} BurstLeads(z: Sys, t: Sys, k: nat)
    requires Leads(z, t) && ValidHost(t.host) && t.host.space && t.host.credit >= MIN_FREE + k
    requires t.host.queued + k < WRAP
    ensures Leads(z, Burst(t, k))
    ensures Burst(t, k) == t.(host := t.host.(credit := t.host.credit - k, queued := t.host.queued + k,
                                              space := k == 0 || t.host.credit - k > MIN_FREE),
                              channel := t.channel + Frames(k), sent := t.sent + k)
  {
    if k > 0 {
      BurstLeads(z, t, k - 1);
      BurstOne(Burst(t, k - 1));
      hide Leads, Enabled, Faithful, Next;
      Then(z, Burst(t, k - 1), Send(FRAME, false, false));
      assert (t.channel + Frames(k - 1)) + [Samp(FRAME)] == t.channel + Frames(k);
    }
  }

  /** A frame with credit to spare asks for nothing. */
  lemma BurstOne(b: Sys)
    requires ValidHost(b.host) && b.host.space && b.host.credit > MIN_FREE && b.host.queued + 1 < WRAP
    ensures var step := Send(FRAME, false, false);
      Enabled(b, step) && Faithful(b, step) && Next(b, step) == Queue(b, FRAME)
    ensures Queue(b, FRAME).host.queued == b.host.queued + 1
  {}

  /** The first frame, unpaid, is answered in full. */
  lemma FirstFrame(z: Sys)
    requires z == Init(8 * FRAME)
    ensures Leads(z, Sys(Host(7, true, 1, []), [], 7 * FRAME, 8 * FRAME, [], [1], 1, 1, 0))
  {
    LeadsNowhere(z);
    hide Leads;
    var a := Next(z, Send(FRAME, false, true));
    Then(z, z, Send(FRAME, false, true));
    var b := Read(a);
    Then(z, a, ModemRead);
    var c := Read(b);
    assert a.channel == [Samp(FRAME), Req(0)] && b.channel == [Req(0)] && c.channel == [] && c.replies == [Reply(7, 0)];
    Then(z, b, ModemRead);
    assert Next(c, HandleReply) == Sys(Host(7, true, 1, []), [], 7 * FRAME, 8 * FRAME, [], [1], 1, 1, 0);
    Then(z, c, HandleReply);
  }

  /** Four frames are on their way behind the request the modem has answered. */
  predicate Late(t: Sys) {
    t.host == Host(2, false, 6, [2]) && t.replies == [Reply(6, 1)] && t.free == 6 * FRAME && t.channel == Frames(4)
  }

  /** Five more frames with a request after the first of them, whose reply the modem has sent. */
  lemma ReplyUnderWay(z: Sys)
    requires z == Init(8 * FRAME)
    ensures exists t :: Leads(z, t) && Late(t)
  {
    FirstFrame(z);
    hide Leads;
    var s := Sys(Host(7, true, 1, []), [], 7 * FRAME, 8 * FRAME, [], [1], 1, 1, 0);
    var t := Next(s, Send(FRAME, true, true));
    Then(z, s, Send(FRAME, true, true));
    assert t.channel == [Samp(FRAME), Req(1)];
    BurstLeads(z, t, 4);
    hide Frames;
    var u := Burst(t, 4);
    assert u.channel[0] == Samp(FRAME) && u.channel[1..] == [Req(1)] + Frames(4);
    var v := Read(u);
    Then(z, u, ModemRead);
    assert v.channel[0] == Req(1) && v.channel[1..] == Frames(4);
    Then(z, v, ModemRead);
    assert Late(Read(v));
  }

  lemma {:induction false} FramesFirst(k: nat)
    requires k > 0
    ensures Frames(k) != [] && Frames(k)[0] == Samp(FRAME) && Frames(k)[1..] == Frames(k - 1)
  {
    if k > 1 { FramesFirst(k - 1); }
  }

  /** A modem that reads more frames than it has room for refuses one. */
  lemma {:induction false} Overrun(z: Sys, t: Sys, k: nat)
    requires Leads(z, t) && ValidHost(t.host) && t.channel == Frames(k) && t.free < FRAME * k
    ensures exists u :: Leads(z, u) && u.naks > 0
    decreases k
  {
    hide Leads, Frames, ValidHost;
    FramesFirst(k);
    var u := Read(t);
    Then(z, t, ModemRead);
    if t.free >= FRAME { Overrun(z, u, k - 1); }
  }

  /** Forgetting the records while a reply is outstanding overfills the modem: that reply is
      then taken at face value although four frames are still on their way, and one of the frames
      the host goes on to send is refused. */
  lemma ResyncTooSoon()
    ensures exists t :: Leads(Init(8 * FRAME), t) && t.naks > 0
  {
    var z := Init(8 * FRAME);
    ReplyUnderWay(z);
    hide Leads;
    var t :| Leads(z, t) && Late(t);
    var u := Next(t, Resync);
    Then(z, t, Resync);
    var v := Next(u, HandleReply);
    Then(z, u, HandleReply);
    BurstLeads(z, v, 4);
    EightFrames();
    Overrun(z, Burst(v, 4), 8);
  }

  lemma EightFrames()
    ensures Frames(4) + Frames(4) == Frames(8)
  {
    var f := Frames(4);
    assert Frames(8) == (((f + [Samp(FRAME)]) + [Samp(FRAME)]) + [Samp(FRAME)]) + [Samp(FRAME)];
  }
}
