/** The host's side of the paced transmit path: credit, and the record of outstanding status
    requests that turns a reply into credit. */
module FlowHost {
  import opened Words

  const MIN_FREE: int := 2
  const REQ_FIFO: nat := 16
  const WRAP: nat := 0x1_0000_0000

  /** The host's state, with the request records oldest first.  Counts wrap at 32 bits. */
  datatype Host = Host(credit: int, space: bool, queued: nat, snaps: seq<nat>)

  /** The difference of two 32 bit counts, read as a signed number. */
  function Difference32(a: nat, b: nat): int
    requires a < WRAP && b < WRAP
  {
    Wrap32(a - b)
  }

  ghost predicate ValidHost(h: Host) {
    h.queued < WRAP && |h.snaps| <= REQ_FIFO && forall k :: 0 <= k < |h.snaps| ==> h.snaps[k] < WRAP
  }

  /** The credit a reply gives: the oldest record says how many frames it cannot know of. */
  function CreditOf(h: Host, freeFrames: nat): int
    requires ValidHost(h)
  {
    freeFrames - if h.snaps == [] then 0 else Difference32(h.queued, h.snaps[0])
  }

  function Answered(h: Host, freeFrames: nat): (r: Host)
    requires ValidHost(h)
  {
    var credit := CreditOf(h, freeFrames);
    Host(credit, credit >= MIN_FREE && credit % 256 != 0, h.queued, if h.snaps == [] then [] else h.snaps[1..])
  }

  function Requested(h: Host): (r: Host)
    requires ValidHost(h)
    ensures ValidHost(r)
  {
    h.(snaps := (if |h.snaps| == REQ_FIFO then h.snaps[1..] else h.snaps) + [h.queued])
  }

  function Resynced(h: Host): Host { h.(snaps := []) }

  /** After a frame: one credit less, and no more sending once it runs low. */
  function Spent(h: Host): Host
    requires ValidHost(h)
  {
    h.(queued := (h.queued + 1) % WRAP, credit := h.credit - 1, space := h.space && h.credit - 1 > MIN_FREE)
  }

  /** After k frames in a row. */
  function SpentTimes(h: Host, k: nat): (r: Host)
    requires ValidHost(h)
    ensures ValidHost(r)
  {
    if k == 0 then h else Spent(SpentTimes(h, k - 1))
  }

  /** How long the host sends on: every frame costs one credit, and two stay unspent, unless only
      those two were there, which still buy one frame. */
  lemma {:induction false} BurstLength(h: Host, k: nat)
    requires ValidHost(h) && h.space
    ensures SpentTimes(h, k).credit == h.credit - k
    ensures SpentTimes(h, k).space <==> k == 0 || h.credit >= k + 3
  {
    if k > 0 { BurstLength(h, k - 1); }
  }

  /** The place of a record in the ring. */
  function Slot(head: nat, k: nat): (j: nat)
    requires head < REQ_FIFO && k <= REQ_FIFO
    ensures j < REQ_FIFO && j == (head + k) % REQ_FIFO
  {
    if head + k < REQ_FIFO then head + k else head + k - REQ_FIFO
  }

  class Pacing {
    var credit: int
    var space: bool
    var sampQueued: nat
    const reqSnap: array<nat>
    var reqHead: nat
    var reqCount: nat

    ghost predicate Valid()
      reads this, reqSnap
    {
      && reqSnap.Length == REQ_FIFO && reqHead < REQ_FIFO && reqCount <= REQ_FIFO && sampQueued < WRAP
      && forall k :: 0 <= k < REQ_FIFO ==> reqSnap[k] < WRAP
    }

    ghost function State(): (h: Host)
      requires Valid()
      reads this, reqSnap
      ensures ValidHost(h) && |h.snaps| == reqCount
    {
      Host(credit, space, sampQueued, seq(reqCount, k requires 0 <= k < reqCount && Valid() reads this, reqSnap =>
        reqSnap[Slot(reqHead, k)]))
    }

    /** The odd start: space without credit, so one frame goes out unpaid. */
    constructor ()
      ensures Valid() && fresh(reqSnap) && State() == Host(0, true, 0, [])
    {
      credit, space, sampQueued := 0, true, 0;
      reqSnap := new nat[REQ_FIFO](_ => 0);
      reqHead, reqCount := 0, 0;
    }

    method CreditFromStatus(freeFrames: nat) returns (c: int)
      requires Valid()
      modifies this
      ensures Valid()
      ensures c == CreditOf(old(State()), freeFrames)
      ensures State() == old(State()).(snaps := if old(reqCount) == 0 then [] else old(State()).snaps[1..])
    {
      var inFlight := 0;
      if reqCount > 0 {
        inFlight := Difference32(sampQueued, reqSnap[reqHead]);
        reqHead := Slot(reqHead, 1);
        reqCount := reqCount - 1;
      }
      return freeFrames - inFlight;
    }

    method ResyncPacing()
      requires Valid()
      modifies this
      ensures Valid() && State() == Resynced(old(State()))
    {
      reqHead := 0;
      reqCount := 0;
    }

    /** A request goes out when it is forced or due and the transmit buffer has room. */
    method RequestModemStatus(force: bool, due: bool, room: bool) returns (sent: bool)
      requires Valid()
      modifies this, reqSnap
      ensures Valid() && sent == ((force || due) && room)
      ensures State() == if sent then Requested(old(State())) else old(State())
    {
      if !force && !due { return false; }
      if !room { return false; }
      ghost var was := State();
      if reqCount == REQ_FIFO {
        reqHead := Slot(reqHead, 1);
        reqCount := reqCount - 1;
      }
      ghost var kept := State();
      assert kept.snaps == if |was.snaps| == REQ_FIFO then was.snaps[1..] else was.snaps;
      reqSnap[Slot(reqHead, reqCount)] := sampQueued;
      reqCount := reqCount + 1;
      assert State().snaps == kept.snaps + [sampQueued];
      return true;
    }

    /** One paced sample frame into the transmit buffer, and the status request after it. */
    method SendSample(due: bool, room: bool) returns (sent: bool)
      requires Valid() && space
      modifies this, reqSnap
      ensures Valid() && sent == ((due || old(credit) - 1 <= MIN_FREE) && room)
      ensures State() == if sent then Requested(Spent(old(State()))) else Spent(old(State()))
    {
      ghost var was := State();
      sampQueued := (sampQueued + 1) % WRAP;
      credit := credit - 1;
      assert State().snaps == was.snaps;
      if credit <= MIN_FREE {
        space := false;
        sent := RequestModemStatus(true, due, room);
      } else {
        sent := RequestModemStatus(false, due, room);
      }
    }

    /** A status reply. */
    method StatusReply(freeFrames: nat)
      requires Valid()
      modifies this
      ensures Valid() && State() == Answered(old(State()), freeFrames)
    {
      var c := CreditFromStatus(freeFrames);
      credit := c;
      space := (if c >= MIN_FREE then c % 256 else 0) != 0;
    }
  }
}
