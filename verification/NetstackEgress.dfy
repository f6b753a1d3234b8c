/** Packets on their way out of the netstack: the link queue, the slot for a packet that did not fit, and close. */
module NetstackEgress {
  import opened Bytes
  import opened Options

  /** A packet buffer: its slices, in order. */
  type Packet = seq<seq<byte>>

  const QUEUE_DEPTH := 64

  function Payloads(ps: seq<Packet>): seq<seq<byte>> {
    if ps == [] then [] else Payloads(ps[..|ps| - 1]) + [Flatten(ps[|ps| - 1])]
  }

  /** What readPacket returns. */
  datatype Result = EmptyBuffer | Stopped | WouldBlock | TooLarge(length: nat) | Delivered(bytes: seq<byte>)

  /** How far close has got: the flag, the pending slot, the link. */
  datatype Closing = Open | Flagged | SlotCleared | LinkClosed

  /** The queue and the slot, and for the record: every packet the link accepted, the payloads handed to the host, the
      packets whose reference was dropped, and those that closing the link threw away. */
  datatype Egress = Egress(queue: seq<Packet>, pending: Option<Packet>, closing: Closing, accepted: seq<Packet>,
                           delivered: seq<seq<byte>>, released: seq<Packet>, discarded: seq<Packet>)
  {
    function Slot(): seq<Packet> {
      if pending.None? then [] else [pending.value]
    }

    /** The stack writes a packet to the link; a full or closed queue refuses it. */
    function Enqueue(p: Packet): Egress {
      if |queue| >= QUEUE_DEPTH || closing == LinkClosed then this
      else this.(queue := queue + [p], accepted := accepted + [p])
    }

    /** readPacket with a buffer of the given size. */
    function Read(capacity: nat): (Egress, Result) {
      if capacity == 0 then (this, EmptyBuffer)
      else if closing != Open then (this, Stopped)
      else if pending.None? && queue == [] then (this, WouldBlock)
      else
        var p := if pending.Some? then pending.value else queue[0];
        var rest := if pending.Some? then queue else queue[1..];
        if |Flatten(p)| > capacity then
          (this.(pending := Some(p), queue := rest), TooLarge(|Flatten(p)|))
        else
          (this.(pending := None, queue := rest, delivered := delivered + [Flatten(p)], released := released + [p]),
           Delivered(Flatten(p)))
    }

    /** The next step of close. */
    function Close(): Egress {
      match closing
      case Open => this.(closing := Flagged)
      case Flagged => this.(closing := SlotCleared, released := released + Slot(), pending := None)
      case SlotCleared => this.(closing := LinkClosed, discarded := queue, queue := [])
      case LinkClosed => this
    }
  }

  datatype Event = Enqueue(packet: Packet) | Read(capacity: nat) | Close

  function Step(e: Egress, ev: Event): Egress {
    match ev
    case Enqueue(p) => e.Enqueue(p)
    case Read(n) => e.Read(n).0
    case Close => e.Close()
  }

  function Run(evs: seq<Event>): Egress {
    if evs == [] then Egress([], None, Open, [], [], [], []) else Step(Run(evs[..|evs| - 1]), evs[|evs| - 1])
  }

  /** Every accepted packet is in exactly one place, in the order of acceptance, and what was delivered are the payloads
      of the packets released first; while the runtime is open nothing else was released. */
  predicate InOrder(e: Egress) {
    && e.released + e.Slot() + e.queue + e.discarded == e.accepted
    && |e.delivered| <= |e.released|
    && e.delivered == Payloads(e.released[..|e.delivered|])
    && (e.closing in {Open, Flagged} ==> |e.delivered| == |e.released|)
    && (e.closing != LinkClosed ==> e.discarded == [])
    && (e.closing in {SlotCleared, LinkClosed} ==> e.pending.None?)
    && (e.closing == LinkClosed ==> e.queue == [])
  }

  lemma EnqueueKeepsOrder(e: Egress, p: Packet)
    requires InOrder(e)
    ensures InOrder(e.Enqueue(p))
  {
    var e' := e.Enqueue(p);
    if e' != e {
      assert e.released + e.Slot() + (e.queue + [p]) == e.released + e.Slot() + e.queue + [p];
    }
  }

  lemma ReadKeepsOrder(e: Egress, n: nat)
    requires InOrder(e)
    ensures InOrder(e.Read(n).0)
  {
    var (e', r) := e.Read(n);
    if r.TooLarge? || r.Delivered? {
      var p := if e.pending.Some? then e.pending.value else e.queue[0];
      assert e.Slot() + e.queue == [p] + e'.queue;
      if r.Delivered? {
        DeliverKeepsOrder(e, e', p);
      } else {
        assert e'.Slot() == [p];
        Assoc(e.released, e.Slot(), e.queue);
        Assoc(e.released, [p], e'.queue);
      }
    }
  }

  lemma DeliverKeepsOrder(e: Egress, e': Egress, p: Packet)
    requires InOrder(e) && e.closing == Open && e.Slot() + e.queue == [p] + e'.queue
    requires e' == e.(pending := None, queue := e'.queue, delivered := e.delivered + [Flatten(p)],
                      released := e.released + [p])
    ensures InOrder(e')
  {
    Assoc(e.released, e.Slot(), e.queue);
    Assoc(e.released, [p], e'.queue);
    assert e'.released + e'.Slot() == e'.released;
    assert e'.released[..|e'.delivered|] == e'.released && e.released[..|e.delivered|] == e.released;
    assert e'.released[..|e.released|] == e.released;
  }

  lemma CloseKeepsOrder(e: Egress)
    requires InOrder(e)
    ensures InOrder(e.Close())
  {
    var e' := e.Close();
    match e.closing {
      case Flagged =>
        assert e'.released + e'.Slot() == e.released + e.Slot();
        assert e'.released[..|e.delivered|] == e.released[..|e.delivered|];
      case SlotCleared =>
        assert e.released + e.Slot() + e.queue + [] == e'.released + e'.Slot() + [] + e.queue;
      case _ =>
    }
  }

  /** Egress exactly once and in order, in every run of enqueues, reads with any buffer sizes, and close. */
  lemma {:induction false} ExactlyOnceInOrder(evs: seq<Event>)
    ensures InOrder(Run(evs))
    decreases |evs|
  {
    if evs == [] {
      assert Payloads([]) == [];
    } else {
      var e := Run(evs[..|evs| - 1]);
      ExactlyOnceInOrder(evs[..|evs| - 1]);
      match evs[|evs| - 1] {
        case Enqueue(p) => EnqueueKeepsOrder(e, p);
        case Read(n) => ReadKeepsOrder(e, n);
        case Close => CloseKeepsOrder(e);
      }
    }
  }

  lemma {:induction false} RunNext(evs: seq<Event>, ev: Event)
    ensures Run(evs + [ev]) == Step(Run(evs), ev)
  {
    assert (evs + [ev])[..|evs|] == evs;
  }

  /** In every run the link accepts a packet exactly if it is not closed and fewer than 64 are queued. */
  lemma EnqueueExactly(evs: seq<Event>, p: Packet)
    ensures
      var e := Run(evs);
      Run(evs + [Enqueue(p)]).accepted ==
      if |e.queue| < 64 && e.closing != LinkClosed then e.accepted + [p] else e.accepted
  {
    RunNext(evs, Enqueue(p));
  }

  /** In every run a read gets the first accepted packet that has not been delivered, all of it, if there is one, the
      runtime is open and the buffer large enough; otherwise it reports why not. */
  lemma ReadExactly(evs: seq<Event>, n: nat)
    ensures
      var e := Run(evs);
      var r, k := e.Read(n).1, |e.delivered|;
      if n == 0 then r == EmptyBuffer
      else if e.closing != Open then r == Stopped
      else if k >= |e.accepted| then r == WouldBlock
      else if |Flatten(e.accepted[k])| <= n then r == Delivered(Flatten(e.accepted[k]))
      else r == TooLarge(|Flatten(e.accepted[k])|)
  {
    ExactlyOnceInOrder(evs);
    var e := Run(evs);
    if e.closing == Open {
      Assoc(e.released, e.Slot(), e.queue);
      assert e.accepted == e.released + (e.Slot() + e.queue);
    }
  }

  function After(e: Egress, evs: seq<Event>): Egress {
    if evs == [] then e else Step(After(e, evs[..|evs| - 1]), evs[|evs| - 1])
  }

  predicate TooSmall(ev: Event, length: nat) {
    ev.Enqueue? || (ev.Read? && ev.capacity < length)
  }

  /** An oversize packet is kept and reported: whatever is enqueued and however often buffers that are still too small
      are tried, nothing else is delivered, and the first read that is large enough delivers exactly that packet. */
  lemma {:induction false} OversizeIsKept(e: Egress, n: nat, evs: seq<Event>, m: nat)
    requires e.Read(n).1.TooLarge? && m >= e.Read(n).1.length
    requires forall i :: 0 <= i < |evs| ==> TooSmall(evs[i], e.Read(n).1.length)
    ensures
      var e1 := e.Read(n).0;
      var e2 := After(e1, evs);
      && e1.pending.Some? && |Flatten(e1.pending.value)| == e.Read(n).1.length
      && e2.pending == e1.pending && e2.delivered == e.delivered && e2.closing == Open
      && e2.Read(m).1 == Delivered(Flatten(e1.pending.value))
    decreases |evs|
  {
    if evs != [] {
      assert TooSmall(evs[|evs| - 1], e.Read(n).1.length);
      OversizeIsKept(e, n, evs[..|evs| - 1], m);
    }
  }

  /** Nothing is delivered, released or put into the slot once the slot has been cleared. */
  lemma {:induction false} UntouchedAfterClose(evs: seq<Event>, k: nat)
    requires k <= |evs| && Run(evs[..k]).closing in {SlotCleared, LinkClosed}
    ensures
      var early, late := Run(evs[..k]), Run(evs);
      && late.closing in {SlotCleared, LinkClosed}
      && late.released == early.released && late.delivered == early.delivered && late.pending == early.pending
    decreases |evs|
  {
    if k == |evs| {
      assert evs[..k] == evs;
    } else {
      assert evs[..|evs| - 1][..k] == evs[..k];
      UntouchedAfterClose(evs[..|evs| - 1], k);
    }
  }

  // --- readPacket as it works, on a caller's buffer ---

  class Runtime {
    var link: seq<Packet>
    var pending: Option<Packet>
    var closed: bool

    constructor ()
      ensures link == [] && pending == None && !closed
    {
      link, pending, closed := [], None, false;
    }

    /** The queue, the slot and the flag of an abstract egress. */
    ghost predicate Shows(e: Egress)
      reads this
    {
      link == e.queue && pending == e.pending && (closed <==> e.closing != Open)
    }

    /** readPacket: on success the payload is at the start of the buffer; otherwise the buffer is as it was. */
    method ReadPacket(dst: array<byte>, ghost e: Egress) returns (n: nat, r: Result)
      requires Shows(e)
      modifies this, dst
      ensures Shows(e.Read(dst.Length).0) && r == e.Read(dst.Length).1
      ensures r.Delivered? ==> n == |r.bytes| <= dst.Length && dst[..n] == r.bytes && dst[n..] == old(dst[n..])
      ensures r.TooLarge? ==> n == r.length
      ensures !r.Delivered? ==> dst[..] == old(dst[..])
    {
      n := 0;
      if dst.Length == 0 {
        return n, EmptyBuffer;
      }
      if closed {
        return n, Stopped;
      }
      var queue, pkt := link, pending;
      if pkt.None? && |queue| > 0 {
        pkt, queue := Some(queue[0]), queue[1..];
      }
      if pkt.None? {
        return n, WouldBlock;
      }
      var length := TotalLength(pkt.value);
      if length > dst.Length {
        pending, link := pkt, queue;
        return length, TooLarge(length);
      }
      pending, link := None, queue;
      n := CopySlices(pkt.value, dst);
      r := Delivered(dst[..n]);
    }
  }

  /** The first loop of readPacket. */
  method TotalLength(p: Packet) returns (length: nat)
    ensures length == |Flatten(p)|
  {
    length := 0;
    var i := 0;
    while i < |p|
      invariant 0 <= i <= |p| && length + |Flatten(p[i..])| == |Flatten(p)|
    {
      assert p[i..][1..] == p[i + 1..];
      length, i := length + |p[i]|, i + 1;
    }
  }

  /** The second loop of readPacket. */
  method CopySlices(p: Packet, dst: array<byte>) returns (offset: nat)
    requires |Flatten(p)| <= dst.Length
    modifies dst
    ensures offset == |Flatten(p)| && dst[..offset] == Flatten(p) && dst[offset..] == old(dst[offset..])
  {
    offset := 0;
    var i := 0;
    ghost var before := dst[..];
    while i < |p|
      invariant 0 <= i <= |p| && 0 <= offset
      invariant offset + |Flatten(p[i..])| == |Flatten(p)|
      invariant dst[..offset] + Flatten(p[i..]) == Flatten(p)
      invariant forall k :: offset <= k < dst.Length ==> dst[k] == before[k]
    {
      assert p[i..][0] == p[i] && p[i..][1..] == p[i + 1..];
      ghost var sofar := dst[..offset];
      CopyAt(p[i], dst, offset);
      Assoc(sofar, p[i], Flatten(p[i + 1..]));
      offset, i := offset + |p[i]|, i + 1;
    }
    assert Flatten(p[i..]) == [];
    assert dst[..offset] + [] == dst[..offset];
  }

  /** `copy(dst[offset:], part)`. */
  method CopyAt(part: seq<byte>, dst: array<byte>, offset: nat)
    requires offset + |part| <= dst.Length
    modifies dst
    ensures dst[..offset + |part|] == old(dst[..offset]) + part
    ensures forall k :: offset + |part| <= k < dst.Length ==> dst[k] == old(dst[k])
  {
    for j := 0 to |part|
      invariant forall k :: 0 <= k < offset ==> dst[k] == old(dst[k])
      invariant forall k :: 0 <= k < j ==> dst[offset + k] == part[k]
      invariant forall k :: offset + j <= k < dst.Length ==> dst[k] == old(dst[k])
    {
      dst[offset + j] := part[j];
    }
    assert forall k :: 0 <= k < offset + |part| ==>
      dst[..offset + |part|][k] == if k < offset then old(dst[..offset])[k] else part[k - offset];
  }
}
