/** The Vision reader, which decides per call whether to run the unpadder at all: exactly which runs deliver the bytes
    that were written, and agreement on the switch to raw copy. */
module VisionReading {
  import opened Bytes
  import opened VisionFrames
  import opened VisionUnpadding
  import opened VisionFilter
  import opened VisionWriting
  import opened VisionRun

  /** A buffer behind the terminating frame that the unpadder takes for a new stream. */
  predicate Reenters(uuid: seq<byte>, p: Parser, b: seq<byte>) {
    p.Initial() && p.current != 0 && Begins(uuid, b)
  }

  predicate NoReentry(uuid: seq<byte>, p: Parser, cs: seq<seq<byte>>)
    requires p.Ok()
    decreases |cs|
  {
    cs == [] || (!Reenters(uuid, p, cs[0]) && NoReentry(uuid, Unpad(uuid, p, cs[0]).parser, cs[1..]))
  }

  /** A read the reader gets right: it runs the unpadder and nothing is taken for a new stream, or it passes the
      buffers on and the framed part is over. */
  predicate Safe(e: Endpoint, cs: seq<Buffer>)
    requires e.parser.Ok()
  {
    if e.Unpads() then NoReentry(e.uuid, e.parser, cs) else e.parser.Initial()
  }

  predicate Reads(ev: Event) {
    ev.ReadCall? && Flatten(ev.buffers) != []
  }

  predicate Smooth(uuid: seq<byte>, evs: seq<Event>)
    requires |uuid| == UUID_LENGTH && EventsOk(evs)
    decreases |evs|
  {
    evs == [] ||
    (&& Smooth(uuid, evs[..|evs| - 1])
     && (Reads(evs[|evs| - 1]) ==> Safe(Run(uuid, evs[..|evs| - 1]).endpoint, evs[|evs| - 1].buffers)))
  }

  // --- empty buffers do not matter, and the buffers handed on hold the unpadded bytes ---

  lemma {:induction false} SkipEmptyReentry(uuid: seq<byte>, p: Parser, cs: seq<seq<byte>>)
    requires p.Ok()
    ensures NoReentry(uuid, p, NonEmpty(cs)) == NoReentry(uuid, p, cs)
    decreases |cs|
  {
    if cs != [] {
      var r := Unpad(uuid, p, cs[0]);
      SkipEmptyReentry(uuid, r.parser, cs[1..]);
      if cs[0] == [] {
        assert r == Fed(p, []);
        assert NonEmpty(cs) == NonEmpty(cs[1..]);
      } else {
        assert NonEmpty(cs)[1..] == NonEmpty(cs[1..]);
      }
    }
  }

  lemma {:induction false} UnpadEachBytes(uuid: seq<byte>, p: Parser, cs: seq<Buffer>)
    requires p.Ok()
    ensures Flatten(UnpadEach(uuid, p, cs)) == UnpadAll(uuid, p, cs).out
    decreases |cs|
  {
    if cs != [] {
      var r := Unpad(uuid, p, cs[0]);
      UnpadEachBytes(uuid, r.parser, cs[1..]);
      if r.out == [] {
        assert UnpadEach(uuid, p, cs) == UnpadEach(uuid, r.parser, cs[1..]);
      } else {
        assert UnpadEach(uuid, p, cs)[1..] == UnpadEach(uuid, r.parser, cs[1..]);
      }
    }
  }

  // --- what unpadding does compared with the uncut stream ---

  /** A parser waiting for a header has not kept the command of an earlier stream. */
  predicate Regular(p: Parser) {
    p.command == 5 ==> p.current == 0
  }

  lemma {:induction false} CurrentSticks(p: Parser, bs: seq<byte>)
    requires p.Open()
    ensures Regular(p) ==> Regular(Feed(p, bs).parser)
    ensures Feed(p, bs).parser.Initial() ==> Feed(p, bs).parser.current != 0
    ensures p.current != 0 && p.command <= 4 ==>
              && Feed(p, bs).parser.current == p.current
              && Feed(p, bs).parser.command <= 4
    decreases |bs|
  {
    if bs != [] && !p.Step(bs[0]).Initial() {
      CurrentSticks(p.Step(bs[0]), bs[1..]);
    }
  }

  /** From here the parser either is inside the framed part or has left it. */
  predicate Started(p: Parser) {
    p.Open() || (p.Initial() && p.current != 0)
  }

  function Uncut(p: Parser, cs: seq<seq<byte>>): Fed
    requires Started(p)
  {
    Resume(Fed(p, []), Flatten(cs))
  }

  /** Buffer by buffer equals uncut exactly without re-entry; with re-entry bytes are lost, behind the framed part. */
  lemma {:induction false} UncutExactly(uuid: seq<byte>, p: Parser, cs: seq<seq<byte>>)
    requires Started(p)
    ensures NoReentry(uuid, p, cs) ==> UnpadAll(uuid, p, cs) == Uncut(p, cs)
    ensures !NoReentry(uuid, p, cs) ==>
              |UnpadAll(uuid, p, cs).out| < |Uncut(p, cs).out| && Uncut(p, cs).parser.Initial()
    decreases |cs|
  {
    if cs != [] {
      var c, rest := cs[0], cs[1..];
      var r := Unpad(uuid, p, c);
      if Reenters(uuid, p, c) {
        StrippingShortens(uuid, p, c);
        NeverLengthens(uuid, r.parser, rest);
      } else {
        UncutStep(uuid, p, c, Flatten(rest));
        UncutExactly(uuid, r.parser, rest);
      }
    } else {
      assert p.Open() ==> Feed(p, []) == Fed(p, []);
    }
  }

  lemma UncutStep(uuid: seq<byte>, p: Parser, c: seq<byte>, s: seq<byte>)
    requires Started(p) && !Reenters(uuid, p, c)
    ensures Started(Unpad(uuid, p, c).parser)
    ensures Resume(Fed(p, []), c + s) == Resume(Unpad(uuid, p, c), s)
    ensures Resume(Unpad(uuid, p, c), s) == Resume(Fed(Unpad(uuid, p, c).parser, []), s).Before(Unpad(uuid, p, c).out)
  {
    var r := Unpad(uuid, p, c);
    if p.Open() {
      FeedSplit(p, c, s);
      CurrentSticks(p, c);
      assert [] + Feed(p, c + s).out == Feed(p, c + s).out;
      if r.parser.Open() {
        assert [] + Feed(r.parser, s).out == Feed(r.parser, s).out;
      }
    } else {
      assert [] + (c + s) == c + s;
    }
    assert r.parser.Initial() ==> [] + s == s;
  }

  // --- the three kinds of run ---

  /** The bytes received so far. */
  function Arrived(t: Trace): seq<byte> {
    Flatten(t.received)
  }

  /** The first buffer received is recognised as the start of a framed stream. */
  predicate BeginsFramed(uuid: seq<byte>, t: Trace) {
    t.received != [] ==> Begins(uuid, t.received[0])
  }

  /** What the framing says the received bytes carry. */
  function Ideal(t: Trace): Fed
    requires |Arrived(t)| >= UUID_LENGTH
  {
    Feed(START, Arrived(t)[UUID_LENGTH..])
  }

  /** The reader has left the unpadder although a header is incomplete. */
  predicate InTerminatingHeader(p: Parser) {
    1 <= p.command <= 4 && p.current != 0 && p.content <= 0 && p.padding <= 0
  }

  predicate OnTrack(uuid: seq<byte>, t: Trace) {
    var e := t.endpoint;
    if t.received == [] then e.parser == FRESH && e.within && !e.direct && t.delivered == []
    else
      && |Arrived(t)| >= UUID_LENGTH
      && Fed(e.parser, t.delivered) == Ideal(t)
      && (!e.within ==> e.parser.Initial() || InTerminatingHeader(e.parser))
      && (e.direct ==> e.parser.current == DIRECT && e.parser.command <= 4)
      && (e.parser.Initial() && e.parser.current == DIRECT ==> e.direct)
  }

  /** The reader gave up unpadding too early: raw frame bytes were delivered. */
  predicate TooMuch(t: Trace) {
    && |Arrived(t)| >= UUID_LENGTH
    && !t.endpoint.Unpads()
    && |t.delivered| > |Ideal(t).out|
  }

  /** Payload behind the framed part was taken for frames. */
  predicate TooLittle(t: Trace) {
    && |Arrived(t)| >= UUID_LENGTH
    && Ideal(t).parser.Initial()
    && |t.delivered| < |Ideal(t).out|
  }

  lemma IdealGrows(t: Trace, t': Trace, more: seq<byte>)
    requires |Arrived(t)| >= UUID_LENGTH && Arrived(t') == Arrived(t) + more
    ensures Ideal(t') == Resume(Ideal(t), more)
    ensures |Ideal(t').out| <= |Ideal(t).out| + |more|
  {
    assert Arrived(t')[UUID_LENGTH..] == Arrived(t)[UUID_LENGTH..] + more;
    FeedSplit(START, Arrived(t)[UUID_LENGTH..], more);
  }

  /** A read appends its bytes to what was received. */
  lemma ReceivedGrows(t: Trace, ev: Event)
    requires t.Ok() && ev.Ok() && Reads(ev)
    ensures Arrived(t.Then(ev)) == Arrived(t) + Flatten(ev.buffers)
    ensures t.Then(ev).received == t.received + NonEmpty(ev.buffers)
    ensures NonEmpty(ev.buffers) != []
  {
    SkipEmpty([], FRESH, ev.buffers);
    FlattenConcat(t.received, NonEmpty(ev.buffers));
  }

  lemma FirstRead(uuid: seq<byte>, t: Trace, ev: Event)
    requires |uuid| == UUID_LENGTH && t.Ok() && ev.Ok() && Reads(ev) && t.endpoint.uuid == uuid
    requires OnTrack(uuid, t) && t.received == [] && BeginsFramed(uuid, t.Then(ev))
    ensures Safe(t.endpoint, ev.buffers) ==> OnTrack(uuid, t.Then(ev))
    ensures !Safe(t.endpoint, ev.buffers) ==> TooLittle(t.Then(ev))
  {
    var t', cs := t.Then(ev), NonEmpty(ev.buffers);
    ReceivedGrows(t, ev);
    assert t'.received == cs;
    SkipEmpty(uuid, FRESH, ev.buffers);
    SkipEmptyReentry(uuid, FRESH, ev.buffers);
    UnpadEachBytes(uuid, FRESH, ev.buffers);
    var wire := Arrived(t')[UUID_LENGTH..];
    assert Flatten(cs)[..UUID_LENGTH] == cs[0][..UUID_LENGTH] == uuid;
    assert Flatten(cs) == uuid + wire;
    FirstBuffer(uuid, wire, cs);
    var cs' := [cs[0][UUID_LENGTH..]] + cs[1..];
    assert cs'[1..] == cs[1..];
    assert Unpad(uuid, FRESH, cs[0]) == Unpad(uuid, START, cs'[0]);
    assert NoReentry(uuid, FRESH, cs) == NoReentry(uuid, START, cs');
    UncutExactly(uuid, START, cs');
    CurrentSticks(START, wire);
    assert [] + Feed(START, wire).out == Feed(START, wire).out;
    assert Uncut(START, cs') == Ideal(t');
    assert t'.delivered == UnpadAll(uuid, START, cs').out;
    Verdict(t, ev);
  }

  /** The reader's flags after a call that ran the unpadder. */
  lemma Verdict(t: Trace, ev: Event)
    requires t.Ok() && ev.Ok() && Reads(ev) && t.endpoint.Unpads()
    ensures
      var p := t.Then(ev).endpoint.parser;
      && (Started(p) && Regular(p) && !t.Then(ev).endpoint.within ==>
            p.Initial() || InTerminatingHeader(p))
      && (t.Then(ev).endpoint.direct <==> t.endpoint.direct || (!BlockPending(p) && p.current == DIRECT))
  {
  }

  lemma LaterRead(uuid: seq<byte>, t: Trace, ev: Event)
    requires |uuid| == UUID_LENGTH && t.Ok() && ev.Ok() && Reads(ev) && t.endpoint.uuid == uuid
    requires OnTrack(uuid, t) && t.received != []
    ensures Safe(t.endpoint, ev.buffers) ==> OnTrack(uuid, t.Then(ev))
    ensures !Safe(t.endpoint, ev.buffers) ==> TooMuch(t.Then(ev)) || TooLittle(t.Then(ev))
  {
    var t', cs, p := t.Then(ev), ev.buffers, t.endpoint.parser;
    ReceivedGrows(t, ev);
    IdealGrows(t, t', Flatten(cs));
    CurrentSticks(START, Arrived(t)[UUID_LENGTH..]);
    assert Resume(Ideal(t), Flatten(cs)) == Uncut(p, cs).Before(t.delivered) by {
      if p.Open() {
        assert [] + Feed(p, Flatten(cs)).out == Feed(p, Flatten(cs)).out;
      } else {
        assert [] + Flatten(cs) == Flatten(cs);
      }
    }
    if t.endpoint.Unpads() {
      UnpadEachBytes(uuid, p, cs);
      UncutExactly(uuid, p, cs);
      Verdict(t, ev);
      if p.Open() {
        CurrentSticks(p, Flatten(cs));
      }
    } else if p.Open() {
      assert InTerminatingHeader(p);
      HeaderIsDropped(p, Flatten(cs));
    }
  }

  lemma OffTrackStays(uuid: seq<byte>, t: Trace, ev: Event)
    requires t.Ok() && ev.Ok() && Reads(ev)
    requires TooMuch(t) || TooLittle(t)
    ensures TooMuch(t.Then(ev)) || TooLittle(t.Then(ev))
  {
    var t', cs := t.Then(ev), ev.buffers;
    ReceivedGrows(t, ev);
    IdealGrows(t, t', Flatten(cs));
    UnpadEachBytes(t.endpoint.uuid, t.endpoint.parser, cs);
    NeverLengthens(t.endpoint.uuid, t.endpoint.parser, cs);
  }

  /** Every run is on track as long as its reads are safe, and after the first unsafe read it stays wrong for good. */
  lemma {:induction false} RunKinds(uuid: seq<byte>, evs: seq<Event>)
    requires |uuid| == UUID_LENGTH && EventsOk(evs) && BeginsFramed(uuid, Run(uuid, evs))
    ensures Smooth(uuid, evs) ==> OnTrack(uuid, Run(uuid, evs))
    ensures !Smooth(uuid, evs) ==> TooMuch(Run(uuid, evs)) || TooLittle(Run(uuid, evs))
    decreases |evs|
  {
    if evs != [] {
      var before, ev := evs[..|evs| - 1], evs[|evs| - 1];
      var t := Run(uuid, before);
      RunSafe(uuid, before);
      if Reads(ev) {
        ReceivedGrows(t, ev);
        RunKinds(uuid, before);
        if Smooth(uuid, before) {
          if t.received == [] {
            FirstRead(uuid, t, ev);
          } else {
            LaterRead(uuid, t, ev);
          }
        } else {
          OffTrackStays(uuid, t, ev);
        }
      } else {
        RunKinds(uuid, before);
        KeptByOthers(uuid, t, ev);
      }
    }
  }

  /** Writes, and reads of nothing, leave the reader's side alone. */
  lemma KeptByOthers(uuid: seq<byte>, t: Trace, ev: Event)
    requires t.Ok() && ev.Ok() && !Reads(ev)
    ensures OnTrack(uuid, t) ==> OnTrack(uuid, t.Then(ev))
    ensures TooMuch(t) ==> TooMuch(t.Then(ev))
    ensures TooLittle(t) ==> TooLittle(t.Then(ev))
  {
  }

  /** The reader delivers exactly what the framing of the received bytes says, if and only if all its reads are safe. */
  lemma ReaderExact(uuid: seq<byte>, evs: seq<Event>)
    requires |uuid| == UUID_LENGTH && EventsOk(evs)
    requires BeginsFramed(uuid, Run(uuid, evs)) && Run(uuid, evs).received != []
    ensures |Arrived(Run(uuid, evs))| >= UUID_LENGTH
    ensures Run(uuid, evs).delivered == Ideal(Run(uuid, evs)).out <==> Smooth(uuid, evs)
  {
    RunKinds(uuid, evs);
  }

  /** The end-to-end theorem. One endpoint writes, another one with the same user id reads all of the wire bytes, both
      in the middle of whatever else they do: the reader delivers exactly what was written if and only if all its
      reads are safe, and then both sides agree on the switch to raw copy. */
  lemma EndToEnd(uuid: seq<byte>, sender: seq<Event>, receiver: seq<Event>)
    requires |uuid| == UUID_LENGTH && EventsOk(sender) && EventsOk(receiver) && Run(uuid, sender).sent != []
    requires Run(uuid, receiver).received != [] && |Run(uuid, receiver).received[0]| >= MIN_FIRST
    ensures OnWire(uuid, Run(uuid, sender).sent)
    ensures
      Arrived(Run(uuid, receiver)) == Sent(Run(uuid, sender).sent) ==>
      && (Run(uuid, receiver).delivered == Run(uuid, sender).written <==> Smooth(uuid, receiver))
      && (Smooth(uuid, receiver) ==> Run(uuid, receiver).endpoint.direct == Run(uuid, sender).endpoint.writer.direct)
  {
    var tw, tr := Run(uuid, sender), Run(uuid, receiver);
    WireParses(uuid, sender);
    RunSafe(uuid, sender);
    if Arrived(tr) == Sent(tw.sent) {
      FirstIsRecognised(uuid, tr, Body(tw.sent));
      ReaderExact(uuid, receiver);
      assert Arrived(tr)[UUID_LENGTH..] == Body(tw.sent);
      if Smooth(uuid, receiver) {
        RunKinds(uuid, receiver);
        DirectAgrees(uuid, tw, tr);
      }
    }
  }

  lemma FirstIsRecognised(uuid: seq<byte>, t: Trace, wire: seq<byte>)
    requires |uuid| == UUID_LENGTH && t.received != [] && |t.received[0]| >= MIN_FIRST
    requires Arrived(t) <= uuid + wire
    ensures BeginsFramed(uuid, t)
  {
    assert t.received[0] == Arrived(t)[..|t.received[0]|];
    assert t.received[0][..UUID_LENGTH] == (uuid + wire)[..UUID_LENGTH] == uuid;
  }

  lemma FeedPrefix(p: Parser, uuid: seq<byte>, part: seq<byte>, body: seq<byte>)
    requires p.Open() && part <= uuid + body && |uuid| <= |part|
    ensures Feed(p, part[|uuid|..]).out <= Feed(p, body).out
  {
    var some, more := part[|uuid|..], body[|part| - |uuid|..];
    assert body == some + more;
    FeedSplit(p, some, more);
  }

  /** At every moment: while the wire bytes have arrived only in part, a reader whose reads are safe has delivered a
      prefix of what was written. */
  lemma DeliveredIsPrefix(uuid: seq<byte>, sender: seq<Event>, receiver: seq<Event>)
    requires |uuid| == UUID_LENGTH && EventsOk(sender) && EventsOk(receiver) && Run(uuid, sender).sent != []
    requires Run(uuid, receiver).received != [] && |Run(uuid, receiver).received[0]| >= MIN_FIRST
    requires Smooth(uuid, receiver)
    ensures OnWire(uuid, Run(uuid, sender).sent)
    ensures
      Arrived(Run(uuid, receiver)) <= Sent(Run(uuid, sender).sent) ==>
      Run(uuid, receiver).delivered <= Run(uuid, sender).written
  {
    var tw, tr := Run(uuid, sender), Run(uuid, receiver);
    WireParses(uuid, sender);
    if Arrived(tr) <= Sent(tw.sent) {
      FirstIsRecognised(uuid, tr, Body(tw.sent));
      ReaderExact(uuid, receiver);
      FeedPrefix(START, uuid, Arrived(tr), Body(tw.sent));
    }
  }

  lemma DirectAgrees(uuid: seq<byte>, tw: Trace, tr: Trace)
    requires tw.sent != [] && AllFit(Frames(tw.sent)) && WriterInv(uuid, tw.endpoint.writer, tw.sent)
    requires ParsesTo(tw.endpoint.writer, tw.sent, tw.written)
    requires OnTrack(uuid, tr) && tr.received != [] && |Arrived(tr)| >= UUID_LENGTH
    requires Arrived(tr)[UUID_LENGTH..] == Body(tw.sent)
    ensures tr.endpoint.direct == tw.endpoint.writer.direct
  {
    if tw.endpoint.writer.padding {
      GrammarWire(uuid, tw.sent);
      UnterminatedLength(START, Frames(tw.sent));
      assert Body(tw.sent) == EncodeAll(Frames(tw.sent));
    }
  }

  /** After safe reads, the next one is unsafe if and only if it runs the unpadder and a buffer behind the framed part
      is taken for a new stream, or it does not run it although an earlier call ended inside the header of the
      terminating frame, before any non-zero length byte. */
  lemma UnsafeExactly(uuid: seq<byte>, evs: seq<Event>, cs: seq<Buffer>)
    requires |uuid| == UUID_LENGTH && EventsOk(evs) && BeginsFramed(uuid, Run(uuid, evs)) && Smooth(uuid, evs)
    ensures
      var e := Run(uuid, evs).endpoint;
      !Safe(e, cs) <==> if e.Unpads() then !NoReentry(uuid, e.parser, cs) else InTerminatingHeader(e.parser)
  {
    RunKinds(uuid, evs);
    RunSafe(uuid, evs);
  }

  /** No call of the reader ends inside a frame header. */
  predicate NoSplitHeader(uuid: seq<byte>, evs: seq<Event>)
    requires |uuid| == UUID_LENGTH && EventsOk(evs)
  {
    forall k {:trigger evs[..k]} :: 0 <= k <= |evs| ==> !(1 <= Run(uuid, evs[..k]).endpoint.parser.command <= 4)
  }

  /** No buffer behind the terminating frame is taken for a new stream. */
  predicate NeverReenters(uuid: seq<byte>, evs: seq<Event>)
    requires |uuid| == UUID_LENGTH && EventsOk(evs)
  {
    forall k :: 0 <= k < |evs| && Reads(evs[k]) ==>
      NoReentry(uuid, Run(uuid, evs[..k]).endpoint.parser, evs[k].buffers)
  }

  /** Reads that keep headers whole are safe. */
  lemma {:induction false} WholeHeadersAreSafe(uuid: seq<byte>, evs: seq<Event>)
    requires |uuid| == UUID_LENGTH && EventsOk(evs) && BeginsFramed(uuid, Run(uuid, evs))
    requires NoSplitHeader(uuid, evs) && NeverReenters(uuid, evs)
    ensures Smooth(uuid, evs)
    decreases |evs|
  {
    if evs != [] {
      var n := |evs| - 1;
      var before, ev := evs[..n], evs[n];
      var t := Run(uuid, before);
      assert forall k :: 0 <= k <= n ==> before[..k] == evs[..k];
      if Reads(ev) {
        ReceivedGrows(t, ev);
      }
      WholeHeadersAreSafe(uuid, before);
      RunKinds(uuid, before);
      RunSafe(uuid, before);
    }
  }
}
