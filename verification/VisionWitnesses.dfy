/** Runs that show where the Vision code goes wrong: a header split between two reads, payload that begins with the user
    id behind the framed part, and a first buffer that is too short. */
module VisionWitnesses {
  import opened Bytes
  import opened VisionFrames
  import opened VisionUnpadding
  import opened VisionFilter
  import opened VisionWriting
  import opened VisionRun
  import opened VisionReading

  // --- what simple writes send ---

  function Empties(n: nat): MultiBuffer {
    seq(n, _ => Buf([]))
  }

  lemma {:induction false} EmptiesCarryNothing(n: nat)
    ensures Bytes.Stream(Empties(n)) == []
  {
    if n > 0 {
      EmptiesCarryNothing(n - 1);
      assert Empties(n)[1..] == Empties(n - 1);
    }
  }

  lemma StreamOne(b: Buffer)
    ensures Bytes.Stream([Buf(b)]) == b
  {
    assert [Buf(b)][1..] == [];
    assert b + [] == b;
  }

  /** One buffer while padding lasts: a continuing frame. */
  lemma PlainWrite(f: Filter, w: Writer, b: Buffer, ds: seq<Draw>)
    requires w.padding && |w.once| <= 16 && |b| < SIZE - OVERHEAD && |ds| >= 2
    requires !f.tls && f.packets > 1
    ensures
      Write(f, w, [Buf(b)], ds) ==
      Written(Writer(true, w.direct, []), [Pad(w.once, Buf(b), CONTINUE, false, ds[0])])
  {
    var mb: MultiBuffer := [Buf(b)];
    ReshapeCorrect(mb);
    assert Reshape(mb) == mb && mb[1..] == [];
    var w' := Writer(true, w.direct, []);
    assert PadFrom(f, w', false, mb[1..], ds[1..]) == Written(w', []);
    assert Choose(f, true, w.direct, false, b, true) == Choice(CONTINUE, false, false, false, true, w.direct);
  }

  /** A buffer and empty ones behind it, with the window closed and no TLS seen: an End frame, then raw buffers. */
  lemma ClosingWrite(f: Filter, w: Writer, b: Buffer, n: nat, ds: seq<Draw>)
    requires w.padding && |w.once| <= 16 && |b| < SIZE - OVERHEAD && |ds| >= 2 * (n + 1)
    requires !f.tls && !f.tls12 && f.packets <= 1
    ensures
      Write(f, w, [Buf(b)] + Empties(n), ds) ==
      Written(Writer(false, w.direct, []), [Pad(w.once, Buf(b), END, false, ds[0])] + Raws(Empties(n)))
  {
    var mb: MultiBuffer := [Buf(b)] + Empties(n);
    ReshapeCorrect(mb);
    assert mb[0] == Buf(b) && mb[1..] == Empties(n);
    assert Reshape(mb) == mb;
  }

  /** With a draw of 0 a frame has no padding. */
  lemma UnpaddedBytes(once: seq<byte>, b: Buffer, command: byte, d: Draw)
    requires |once| <= 16 && |b| < SIZE - OVERHEAD && d.short == 0
    ensures Pad(once, Buf(b), command, false, d).Bytes() == once + ([command, |b| / 256, |b| % 256, 0, 0] + b)
  {
    var p := Pad(once, Buf(b), command, false, d);
    assert p.frame == Frame(command, b, []);
    assert p.frame.Encode() == p.frame.Header() + b + [] == p.frame.Header() + b;
  }

  lemma {:induction false} SentConcat(a: seq<Piece>, b: seq<Piece>)
    requires (forall i :: 0 <= i < |a| ==> a[i].Ok()) && (forall i :: 0 <= i < |b| ==> b[i].Ok())
    ensures Sent(a + b) == Sent(a) + Sent(b)
    decreases |a|
  {
    if a == [] {
      assert a + b == b;
    } else {
      assert (a + b)[0] == a[0] && (a + b)[1..] == a[1..] + b;
      calc {
        Sent(a + b);
        a[0].Bytes() + Sent(a[1..] + b);
        { SentConcat(a[1..], b); }
        a[0].Bytes() + (Sent(a[1..]) + Sent(b));
        { Assoc(a[0].Bytes(), Sent(a[1..]), Sent(b)); }
        Sent(a) + Sent(b);
      }
    }
  }

  lemma SentOne(p: Piece)
    requires p.Ok()
    ensures Sent([p]) == p.Bytes()
  {
    assert [p][1..] == [];
    assert p.Bytes() + [] == p.Bytes();
  }

  /** A frame and empty raw buffers behind it. */
  lemma SentClosing(p: Piece, n: nat)
    requires p.Ok()
    ensures forall i :: 0 <= i < |[p] + Raws(Empties(n))| ==> ([p] + Raws(Empties(n)))[i].Ok()
    ensures Sent([p] + Raws(Empties(n))) == p.Bytes()
  {
    RawsCorrect(Empties(n));
    RawWire(Raws(Empties(n)));
    EmptiesCarryNothing(n);
    SentConcat([p], Raws(Empties(n)));
    SentOne(p);
    assert p.Bytes() + [] == p.Bytes();
  }

  // --- events ---

  /** The buffer and `n` empty ones are written. */
  function WriteWithEmpties(b: Buffer, n: nat, d: Draw): (ev: Event)
    ensures ev.Ok()
  {
    WriteCall([Buf(b)] + Empties(n), seq(2 * (n + 1), _ => d), seq(n + 1, _ => 0))
  }

  /** A fresh endpoint writes eight short buffers: the packet window closes, and so does the padding. */
  lemma CloseWindowEffect(uuid: seq<byte>, d: Draw)
    requires |uuid| == UUID_LENGTH
    ensures
      var t := Start(uuid).Then(WriteWithEmpties([], 7, d));
      var p := Pad(uuid, Buf([]), END, false, d);
      && t.endpoint == NewEndpoint(uuid).(filter := NEW_FILTER.(packets := 0), writer := Writer(false, false, []))
      && t.sent == [p] + Raws(Empties(7)) && t.written == [] && t.received == [] && t.delivered == []
  {
    var e := WriteWithEmpties([], 7, d);
    ShortBuffersCount(NEW_FILTER, e.slots, e.stale);
    var f := NEW_FILTER.(packets := 0);
    ClosingWrite(f, Writer(true, false, uuid), [], 7, e.draws);
    var ps := [Pad(uuid, Buf([]), END, false, d)] + Raws(Empties(7));
    assert [] + ps == ps;
    StreamOne([]);
    EmptiesCarryNothing(7);
    StreamConcat([Buf([])], Empties(7));
  }

  lemma FlattenOne(c: seq<byte>)
    ensures Flatten([c]) == c
  {
    assert [c][1..] == [];
    assert Flatten([c]) == c + [];
  }

  lemma RunNext(uuid: seq<byte>, evs: seq<Event>, ev: Event, all: seq<Event>)
    requires |uuid| == UUID_LENGTH && EventsOk(evs) && ev.Ok() && all == evs + [ev]
    ensures EventsOk(all) && Run(uuid, all) == Run(uuid, evs).Then(ev)
  {
    assert all[..|evs|] == evs;
  }

  lemma RunOfOne(uuid: seq<byte>, e: Event)
    requires |uuid| == UUID_LENGTH && e.Ok()
    ensures Run(uuid, [e]) == Start(uuid).Then(e) && Start(uuid).Then(e).Ok()
  {
    RunNext(uuid, [], e, [e]);
  }

  lemma RunOfTwo(uuid: seq<byte>, e1: Event, e2: Event)
    requires |uuid| == UUID_LENGTH && e1.Ok() && e2.Ok()
    ensures Start(uuid).Then(e1).Ok()
    ensures Run(uuid, [e1]) == Start(uuid).Then(e1) && Run(uuid, [e1, e2]) == Start(uuid).Then(e1).Then(e2)
  {
    RunOfOne(uuid, e1);
    RunNext(uuid, [e1], e2, [e1, e2]);
  }

  // --- a split header ---

  /** The frames of the split-header run: an empty continuing one and an End frame with one byte. */
  function SplitWire(x: byte): seq<byte> {
    [CONTINUE, 0, 0, 0, 0] + [END, 0, 1, 0, 0, x]
  }

  function FirstWrite(d: Draw): Event {
    WriteCall([Buf([])], [d, d], [0])
  }

  /** An empty write, and then one byte with six empty buffers behind it, all without padding. */
  lemma SplitSender(uuid: seq<byte>, d: Draw, x: byte)
    requires |uuid| == UUID_LENGTH && d.short == 0
    ensures
      var t := Run(uuid, [FirstWrite(d), WriteWithEmpties([x], 6, d)]);
      && t.written == [x]
      && (forall i :: 0 <= i < |t.sent| ==> t.sent[i].Ok())
      && Sent(t.sent) == uuid + SplitWire(x)
  {
    var e1, e2 := FirstWrite(d), WriteWithEmpties([x], 6, d);
    RunOfTwo(uuid, e1, e2);
    FirstWriteEffect(uuid, d);
    SecondWriteEffect(Start(uuid).Then(e1), d, x);
    SplitSent(uuid, d, x);
  }

  lemma SplitSent(uuid: seq<byte>, d: Draw, x: byte)
    requires |uuid| == UUID_LENGTH && d.short == 0
    ensures
      var p, q := Pad(uuid, Buf([]), CONTINUE, false, d), Pad([], Buf([x]), END, false, d);
      var ps := [p] + ([q] + Raws(Empties(6)));
      (forall i :: 0 <= i < |ps| ==> ps[i].Ok()) && Sent(ps) == uuid + SplitWire(x)
  {
    var p, q := Pad(uuid, Buf([]), CONTINUE, false, d), Pad([], Buf([x]), END, false, d);
    SentOne(p);
    SentClosing(q, 6);
    SentConcat([p], [q] + Raws(Empties(6)));
    assert p.Bytes() + q.Bytes() == uuid + SplitWire(x) by {
      UnpaddedBytes(uuid, [], CONTINUE, d);
      UnpaddedBytes([], [x], END, d);
      SplitBytes(uuid, x, p.Bytes(), q.Bytes());
    }
  }

  lemma SplitBytes(uuid: seq<byte>, x: byte, p: seq<byte>, q: seq<byte>)
    requires p == uuid + ([CONTINUE, 0, 0, 0, 0] + []) && q == [] + ([END, 0, 1, 0, 0] + [x])
    ensures p + q == uuid + SplitWire(x)
  {
    assert q == [END, 0, 1, 0, 0, x];
    assert [CONTINUE, 0, 0, 0, 0] + [] == [CONTINUE, 0, 0, 0, 0];
    Assoc(uuid, [CONTINUE, 0, 0, 0, 0], q);
  }

  lemma FirstWriteEffect(uuid: seq<byte>, d: Draw)
    requires |uuid| == UUID_LENGTH
    ensures
      var t := Start(uuid).Then(FirstWrite(d));
      && t.endpoint == NewEndpoint(uuid).(filter := NEW_FILTER.(packets := 7), writer := Writer(true, false, []))
      && t.sent == [Pad(uuid, Buf([]), CONTINUE, false, d)] && t.written == []
  {
    var e := FirstWrite(d);
    ShortBuffersCount(NEW_FILTER, e.slots, e.stale);
    PlainWrite(NEW_FILTER.(packets := 7), Writer(true, false, uuid), [], e.draws);
    StreamOne([]);
  }

  lemma SecondWriteEffect(t: Trace, d: Draw, x: byte)
    requires t.Ok() && t.endpoint.filter == NEW_FILTER.(packets := 7) && t.endpoint.writer == Writer(true, false, [])
    ensures
      var t' := t.Then(WriteWithEmpties([x], 6, d));
      && t'.sent == t.sent + ([Pad([], Buf([x]), END, false, d)] + Raws(Empties(6)))
      && t'.written == t.written + [x]
  {
    var e := WriteWithEmpties([x], 6, d);
    ShortBuffersCount(t.endpoint.filter, e.slots, e.stale);
    ClosingWrite(NEW_FILTER.(packets := 0), t.endpoint.writer, [x], 6, e.draws);
    StreamOne([x]);
    EmptiesCarryNothing(6);
    StreamConcat([Buf([x])], Empties(6));
    assert [x] + [] == [x];
  }

  /** The user id, the empty continuing frame, and the command byte of the End frame. */
  function SplitRead(uuid: seq<byte>): Event
    requires |uuid| == UUID_LENGTH
  {
    ReadCall([uuid + [CONTINUE, 0, 0, 0, 0, END]], [0])
  }

  /** The two lengths and the only content byte of the End frame. */
  function RestRead(x: byte): Event {
    ReadCall([[0, 1, 0, 0, x]], [0])
  }

  /** The unpadder stops inside the header of the End frame. */
  lemma SplitUnpadded(uuid: seq<byte>, c: seq<byte>)
    requires |uuid| == UUID_LENGTH && c == uuid + [CONTINUE, 0, 0, 0, 0, END]
    ensures Unpad(uuid, FRESH, c) == Fed(Parser(4, 0, 0, END), [])
  {
    var h := [CONTINUE, 0, 0, 0, 0];
    assert c[..UUID_LENGTH] == uuid && c[UUID_LENGTH..] == h + [END];
    FeedHeader(START, h);
    FeedSplit(START, h, [END]);
    assert Feed(BOUNDARY, [END]) == Fed(Parser(4, 0, 0, END), []);
  }

  lemma SplitReadEffect(uuid: seq<byte>, t: Trace)
    requires |uuid| == UUID_LENGTH && t.Ok() && t.endpoint.uuid == uuid
    requires t.endpoint.parser == FRESH && t.endpoint.within && t.endpoint.filter.packets <= 0
    ensures
      var e := t.Then(SplitRead(uuid)).endpoint;
      e == t.endpoint.(parser := Parser(4, 0, 0, END), within := false)
    ensures t.Then(SplitRead(uuid)).delivered == t.delivered
  {
    var c: Buffer := uuid + [CONTINUE, 0, 0, 0, 0, END];
    SplitUnpadded(uuid, c);
    FlattenOne(c);
    assert [c][1..] == [];
    assert UnpadAll(uuid, FRESH, [c]) == Fed(Parser(4, 0, 0, END), [] + []);
    UnpadEachBytes(uuid, FRESH, [c]);
  }

  lemma RestReadEffect(t: Trace, x: byte)
    requires t.Ok() && !t.endpoint.Unpads()
    ensures t.Then(RestRead(x)).delivered == t.delivered + [0, 1, 0, 0, x]
    ensures Arrived(t.Then(RestRead(x))) == Arrived(t) + [0, 1, 0, 0, x]
  {
    FlattenOne([0, 1, 0, 0, x]);
    ReceivedGrows(t, RestRead(x));
  }

  lemma SplitReads(uuid: seq<byte>, t: Trace, x: byte)
    requires |uuid| == UUID_LENGTH && t.Ok() && t.endpoint.uuid == uuid
    requires t.endpoint.parser == FRESH && t.endpoint.within && t.endpoint.filter.packets <= 0
    requires t.received == [] && t.delivered == []
    ensures t.Then(SplitRead(uuid)).Ok()
    ensures
      var t' := t.Then(SplitRead(uuid)).Then(RestRead(x));
      Arrived(t') == uuid + SplitWire(x) && t'.delivered == [0, 1, 0, 0, x]
  {
    var c := uuid + [CONTINUE, 0, 0, 0, 0, END];
    SplitReadEffect(uuid, t);
    FlattenOne(c);
    ReceivedGrows(t, SplitRead(uuid));
    RestReadEffect(t.Then(SplitRead(uuid)), x);
    assert Arrived(t.Then(SplitRead(uuid))) == [] + c;
    assert c + [0, 1, 0, 0, x] == uuid + SplitWire(x);
  }

  lemma SplitReceiver(uuid: seq<byte>, d: Draw, x: byte)
    requires |uuid| == UUID_LENGTH
    ensures
      var t := Run(uuid, [WriteWithEmpties([], 7, d), SplitRead(uuid), RestRead(x)]);
      Arrived(t) == uuid + SplitWire(x) && t.delivered == [0, 1, 0, 0, x]
  {
    var e1, e2, e3 := WriteWithEmpties([], 7, d), SplitRead(uuid), RestRead(x);
    RunOfTwo(uuid, e1, e2);
    RunNext(uuid, [e1, e2], e3, [e1, e2, e3]);
    CloseWindowEffect(uuid, d);
    SplitReads(uuid, Start(uuid).Then(e1), x);
  }

  /** A sender writes one byte. The receiver, its packet window closed by writes of its own, gets all of the wire bytes,
      but its first read ends behind the command byte of the terminating frame: it passes on the rest of that header
      as if it were payload. */
  lemma SplitHeaderFails(uuid: seq<byte>, d: Draw, x: byte)
    requires |uuid| == UUID_LENGTH && d.short == 0
    ensures
      var sender := Run(uuid, [FirstWrite(d), WriteWithEmpties([x], 6, d)]);
      var receiver := Run(uuid, [WriteWithEmpties([], 7, d), SplitRead(uuid), RestRead(x)]);
      && (forall i :: 0 <= i < |sender.sent| ==> sender.sent[i].Ok())
      && Arrived(receiver) == Sent(sender.sent)
      && sender.written == [x]
      && receiver.delivered == [0, 1, 0, 0, x]
  {
    SplitSender(uuid, d, x);
    SplitReceiver(uuid, d, x);
  }

  // --- payload that begins with the user id ---

  /** Payload that looks like a framed stream. */
  function Echo(uuid: seq<byte>, x: byte): seq<byte> {
    uuid + [CONTINUE, 0, 1, 0, 0, x]
  }

  function EchoWrite(uuid: seq<byte>, x: byte, d: Draw): Event
    requires |uuid| == UUID_LENGTH
  {
    WriteCall([Buf(Echo(uuid, x))], [d, d], [0])
  }

  /** The wire bytes up to the payload: the user id and an empty End frame. */
  function Opening(uuid: seq<byte>, d: Draw): Buffer
    requires |uuid| == UUID_LENGTH
  {
    Pad(uuid, Buf([]), END, false, d).Bytes()
  }

  lemma EchoSender(uuid: seq<byte>, d: Draw, x: byte)
    requires |uuid| == UUID_LENGTH
    ensures
      var t := Run(uuid, [WriteWithEmpties([], 7, d), EchoWrite(uuid, x, d)]);
      && t.written == Echo(uuid, x) && t.sent != []
      && (forall i :: 0 <= i < |t.sent| ==> t.sent[i].Ok())
      && Sent(t.sent) == Opening(uuid, d) + Echo(uuid, x)
  {
    var e1, e2 := WriteWithEmpties([], 7, d), EchoWrite(uuid, x, d);
    RunOfTwo(uuid, e1, e2);
    CloseWindowEffect(uuid, d);
    EchoWriteEffect(uuid, Start(uuid).Then(e1), d, x);
    SentBehind(Pad(uuid, Buf([]), END, false, d), 7, Echo(uuid, x));
  }

  lemma EchoWriteEffect(uuid: seq<byte>, t: Trace, d: Draw, x: byte)
    requires |uuid| == UUID_LENGTH && t.Ok() && !t.endpoint.writer.padding && t.endpoint.filter.packets <= 0
    ensures
      var t' := t.Then(EchoWrite(uuid, x, d));
      t'.sent == t.sent + [Raw(Buf(Echo(uuid, x)))] && t'.written == t.written + Echo(uuid, x)
  {
    var slots := EchoWrite(uuid, x, d).slots;
    assert slots[1..] == [];
    assert Raws(slots) == [Raw(Buf(Echo(uuid, x)))];
    StreamOne(Echo(uuid, x));
  }

  lemma SentBehind(p: Piece, n: nat, b: Buffer)
    requires p.Ok()
    ensures
      var ps := [p] + Raws(Empties(n)) + [Raw(Buf(b))];
      (forall i :: 0 <= i < |ps| ==> ps[i].Ok()) && Sent(ps) == p.Bytes() + b
  {
    SentClosing(p, n);
    SentOne(Raw(Buf(b)));
    SentConcat([p] + Raws(Empties(n)), [Raw(Buf(b))]);
  }

  /** Unpadding the opening leaves the unpadder in its initial state. */
  lemma OpeningUnpadded(uuid: seq<byte>, d: Draw)
    requires |uuid| == UUID_LENGTH
    ensures |Opening(uuid, d)| >= MIN_FIRST
    ensures Unpad(uuid, FRESH, Opening(uuid, d)) == Fed(Parser(-1, -1, -1, END), [])
  {
    var f := Pad(uuid, Buf([]), END, false, d).frame;
    var b := Opening(uuid, d);
    assert b == uuid + f.Encode();
    assert b[..UUID_LENGTH] == uuid && b[UUID_LENGTH..] == f.Encode();
    FeedFrame(START, f);
  }

  /** The payload is taken for a framed stream. */
  lemma EchoUnpadded(uuid: seq<byte>, x: byte)
    requires |uuid| == UUID_LENGTH
    ensures Begins(uuid, Echo(uuid, x))
    ensures Unpad(uuid, Parser(-1, -1, -1, END), Echo(uuid, x)) == Fed(BOUNDARY, [x])
  {
    var f := Frame(CONTINUE, [x], []);
    var b := Echo(uuid, x);
    assert f.Encode() == [CONTINUE, 0, 1, 0, 0, x];
    assert b[..UUID_LENGTH] == uuid && b[UUID_LENGTH..] == f.Encode();
    FeedFrame(Parser(5, -1, -1, END), f);
  }

  lemma EchoUnpads(uuid: seq<byte>, d: Draw, x: byte)
    requires |uuid| == UUID_LENGTH
    ensures UnpadAll(uuid, FRESH, [Opening(uuid, d), Echo(uuid, x)]).out == [x]
  {
    var b: seq<byte>, c: seq<byte> := Opening(uuid, d), Echo(uuid, x);
    OpeningUnpadded(uuid, d);
    EchoUnpadded(uuid, x);
    assert [b, c][1..] == [c] && [c][1..] == [];
    assert UnpadAll(uuid, BOUNDARY, []) == Fed(BOUNDARY, []);
    assert UnpadAll(uuid, Parser(-1, -1, -1, END), [c]).out == [x] + [];
  }

  /** A sender closes its padding and then writes payload that begins with the user id. Cut in front of that payload,
      the wire bytes are not unpadded to what was written: the payload is stripped like frames. */
  lemma ReentryFails(uuid: seq<byte>, d: Draw, x: byte)
    requires |uuid| == UUID_LENGTH
    ensures
      var t := Run(uuid, [WriteWithEmpties([], 7, d), EchoWrite(uuid, x, d)]);
      var cs := [Opening(uuid, d), Echo(uuid, x)];
      && t.sent != [] && OnWire(uuid, t.sent)
      && NonEmpty(cs) == cs && Cuts(cs, Sent(t.sent))
      && !CleanTail(uuid, t.endpoint.writer, t.sent, cs)
      && UnpadAll(uuid, FRESH, cs).out == [x]
      && t.written == Echo(uuid, x)
  {
    var evs := [WriteWithEmpties([], 7, d), EchoWrite(uuid, x, d)];
    var t, cs := Run(uuid, evs), [Opening(uuid, d), Echo(uuid, x)];
    EchoSender(uuid, d, x);
    EchoCut(uuid, d, x);
    assert |UnpadAll(uuid, FRESH, cs).out| == 1 < |t.written|;
    NotClean(uuid, evs, cs);
  }

  lemma NotClean(uuid: seq<byte>, evs: seq<Event>, cs: seq<seq<byte>>)
    requires |uuid| == UUID_LENGTH && EventsOk(evs) && Run(uuid, evs).sent != []
    requires forall i :: 0 <= i < |Run(uuid, evs).sent| ==> Run(uuid, evs).sent[i].Ok()
    requires NonEmpty(cs) == cs && Cuts(cs, Sent(Run(uuid, evs).sent))
    requires UnpadAll(uuid, FRESH, cs).out != Run(uuid, evs).written
    ensures OnWire(uuid, Run(uuid, evs).sent)
    ensures !CleanTail(uuid, Run(uuid, evs).endpoint.writer, Run(uuid, evs).sent, cs)
  {
    RoundTrip(uuid, evs, cs);
  }

  lemma EchoCut(uuid: seq<byte>, d: Draw, x: byte)
    requires |uuid| == UUID_LENGTH
    ensures |Opening(uuid, d)| >= MIN_FIRST
    ensures
      var cs := [Opening(uuid, d), Echo(uuid, x)];
      && NonEmpty(cs) == cs && Flatten(cs) == Opening(uuid, d) + Echo(uuid, x)
      && UnpadAll(uuid, FRESH, cs).out == [x]
  {
    var b: seq<byte>, c: seq<byte> := Opening(uuid, d), Echo(uuid, x);
    OpeningUnpadded(uuid, d);
    EchoUnpads(uuid, d, x);
    FlattenOne(c);
    assert [b, c][1..] == [c] && [c][1..] == [];
    assert NonEmpty([c]) == [c] + [] && NonEmpty([b, c]) == [b] + [c];
  }

  function Receive(b: Buffer): Event {
    ReadCall([b], [0])
  }

  lemma ReceiveEffect(uuid: seq<byte>, t: Trace, b: Buffer, r: Fed)
    requires |uuid| == UUID_LENGTH && t.Ok() && t.endpoint.uuid == uuid && b != [] && t.endpoint.Unpads()
    requires r == Unpad(uuid, t.endpoint.parser, b)
    ensures
      var t' := t.Then(Receive(b));
      && t'.endpoint.parser == r.parser && t'.endpoint.uuid == uuid
      && t'.delivered == t.delivered + r.out && Arrived(t') == Arrived(t) + b
      && (r.out == [] ==> t'.endpoint.filter == t.endpoint.filter)
  {
    FlattenOne(b);
    assert [b][1..] == [];
    assert UnpadAll(uuid, r.parser, []) == Fed(r.parser, []);
    assert r.out + [] == r.out;
    assert UnpadAll(uuid, t.endpoint.parser, [b]) == r;
    UnpadEachBytes(uuid, t.endpoint.parser, [b]);
    assert r.out == [] ==> UnpadEach(uuid, t.endpoint.parser, [b]) == [];
    ReceivedGrows(t, Receive(b));
  }

  /** The reader makes the same mistake as long as its packet window is open: it gets the two buffers in two calls, and
      delivers one byte of the payload. */
  lemma ReaderReentryFails(uuid: seq<byte>, d: Draw, x: byte)
    requires |uuid| == UUID_LENGTH
    ensures
      var sender := Run(uuid, [WriteWithEmpties([], 7, d), EchoWrite(uuid, x, d)]);
      var before := Run(uuid, [Receive(Opening(uuid, d))]);
      var receiver := Run(uuid, [Receive(Opening(uuid, d)), Receive(Echo(uuid, x))]);
      && before.endpoint.filter.packets > 0 && !NoReentry(uuid, before.endpoint.parser, [Echo(uuid, x)])
      && (forall i :: 0 <= i < |sender.sent| ==> sender.sent[i].Ok())
      && Arrived(receiver) == Sent(sender.sent)
      && sender.written == Echo(uuid, x) && receiver.delivered == [x]
  {
    var b, c := Opening(uuid, d), Echo(uuid, x);
    EchoSender(uuid, d, x);
    OpeningUnpadded(uuid, d);
    EchoUnpadded(uuid, x);
    RunOfTwo(uuid, Receive(b), Receive(c));
    ReceiveEffect(uuid, Start(uuid), b, Fed(Parser(-1, -1, -1, END), []));
    var t := Start(uuid).Then(Receive(b));
    ReceiveEffect(uuid, t, c, Fed(BOUNDARY, [x]));
    assert Arrived(t) == [] + b == b;
  }

  // --- a first buffer that is too short ---

  /** Payload that reads like the user id and the header of the frame that carries it. */
  function Mirror(uuid: seq<byte>): seq<byte> {
    uuid + [CONTINUE, 0, 21, 0, 0]
  }

  function MirrorWrite(uuid: seq<byte>, d: Draw): Event
    requires |uuid| == UUID_LENGTH
  {
    WriteCall([Buf(Mirror(uuid))], [d, d], [0])
  }

  lemma MirrorSender(uuid: seq<byte>, d: Draw)
    requires |uuid| == UUID_LENGTH && uuid[0] != 0x16 && d.short == 0
    ensures
      var t := Run(uuid, [MirrorWrite(uuid, d)]);
      && t.written == Mirror(uuid) && t.sent != []
      && (forall i :: 0 <= i < |t.sent| ==> t.sent[i].Ok())
      && Sent(t.sent) == Mirror(uuid) + Mirror(uuid)
  {
    RunOfOne(uuid, MirrorWrite(uuid, d));
    MirrorWriteEffect(uuid, d);
    MirrorSent(uuid, d);
  }

  lemma MirrorSent(uuid: seq<byte>, d: Draw)
    requires |uuid| == UUID_LENGTH && d.short == 0
    ensures Sent([Pad(uuid, Buf(Mirror(uuid)), CONTINUE, false, d)]) == Mirror(uuid) + Mirror(uuid)
  {
    var m, p := Mirror(uuid), Pad(uuid, Buf(Mirror(uuid)), CONTINUE, false, d);
    SentOne(p);
    assert p.Bytes() == uuid + ([CONTINUE, 0, 21, 0, 0] + m) by {
      UnpaddedBytes(uuid, m, CONTINUE, d);
    }
    Assoc(uuid, [CONTINUE, 0, 21, 0, 0], m);
  }

  lemma MirrorWriteEffect(uuid: seq<byte>, d: Draw)
    requires |uuid| == UUID_LENGTH && uuid[0] != 0x16
    ensures
      var t := Start(uuid).Then(MirrorWrite(uuid, d));
      t.sent == [Pad(uuid, Buf(Mirror(uuid)), CONTINUE, false, d)] && t.written == Mirror(uuid)
  {
    var e, m := MirrorWrite(uuid, d), Mirror(uuid);
    NotHello(m, 0);
    assert e.slots[1..] == [];
    var f := NEW_FILTER.(packets := 7);
    assert NEW_FILTER.All(e.slots, e.stale) == f;
    PlainWrite(f, Writer(true, false, uuid), m, e.draws);
    StreamOne(m);
    assert [] + m == m;
  }

  /** A buffer that does not begin like a handshake only counts. */
  lemma NotHello(b: Buffer, stale: uint16)
    requires b != [] && b[0] != 0x16
    ensures NEW_FILTER.One(b, stale) == (NEW_FILTER.(packets := 7), false)
  {
    if |b| >= 6 {
      assert b[..3][0] != SERVER_HANDSHAKE_START[0];
      assert b[..2][0] != CLIENT_HANDSHAKE_START[0];
    }
  }

  /** A first buffer below 21 bytes can go unnoticed: when the payload reads like the user id and its own header, and
      the wire bytes are cut at 20, 21 and 42, unpadding passes on the real user id and header, strips the payload, and
      so gives back what was written. */
  lemma ShortFirstMayCoincide(uuid: seq<byte>, d: Draw)
    requires |uuid| == UUID_LENGTH && uuid[0] != 0x16 && d.short == 0
    ensures
      var t := Run(uuid, [MirrorWrite(uuid, d)]);
      var m := Mirror(uuid);
      var cs := [m[..20], m[20..], m];
      && t.sent != [] && (forall i :: 0 <= i < |t.sent| ==> t.sent[i].Ok())
      && NonEmpty(cs) == cs && Flatten(cs) == Sent(t.sent) && |cs[0]| < MIN_FIRST && !NoneBegins(uuid, cs[1..])
      && UnpadAll(uuid, FRESH, cs).out == t.written
  {
    MirrorSender(uuid, d);
    MirrorCut(uuid);
  }

  /** The cutting, and what the unpadder makes of it. */
  lemma MirrorCut(uuid: seq<byte>)
    requires |uuid| == UUID_LENGTH
    ensures
      var m := Mirror(uuid);
      var cs := [m[..20], m[20..], m];
      && NonEmpty(cs) == cs && Flatten(cs) == m + m && !NoneBegins(uuid, cs[1..])
      && UnpadAll(uuid, FRESH, cs).out == m
  {
    var m := Mirror(uuid);
    var a, b := m[..20], m[20..];
    assert a + b == m;
    ThreeBuffers(a, b, m);
    MirrorUnpadded(uuid);
    assert [a, b, m][1..][1] == m;
    UnpadLast(uuid, a, b, m);
  }

  lemma ThreeBuffers(a: seq<byte>, b: seq<byte>, c: seq<byte>)
    requires a != [] && b != [] && c != []
    ensures NonEmpty([a, b, c]) == [a, b, c] && Flatten([a, b, c]) == a + b + c
  {
    assert [a, b, c][1..] == [b, c] && [b, c][1..] == [c] && [c][1..] == [];
    assert NonEmpty([c]) == [c] + [] == [c];
    assert NonEmpty([b, c]) == [b] + [c] == [b, c];
    assert NonEmpty([a, b, c]) == [a] + [b, c];
    FlattenOne(c);
    Assoc(a, b, c);
  }

  /** Two buffers that are not recognised, and one that is. */
  lemma UnpadLast(uuid: seq<byte>, a: seq<byte>, b: seq<byte>, c: seq<byte>)
    requires !Begins(uuid, a) && !Begins(uuid, b) && Unpad(uuid, FRESH, c).out == []
    ensures UnpadAll(uuid, FRESH, [a, b, c]).out == a + b
  {
    assert [a, b, c][1..] == [b, c] && [b, c][1..] == [c] && [c][1..] == [];
    assert UnpadAll(uuid, FRESH, [c]).out == [] + [];
    assert UnpadAll(uuid, FRESH, [b, c]).out == b + [] == b;
  }

  lemma MirrorUnpadded(uuid: seq<byte>)
    requires |uuid| == UUID_LENGTH
    ensures Begins(uuid, Mirror(uuid)) && Unpad(uuid, FRESH, Mirror(uuid)).out == []
  {
    var h := [CONTINUE, 0, 21, 0, 0];
    assert Mirror(uuid)[..UUID_LENGTH] == uuid && Mirror(uuid)[UUID_LENGTH..] == h;
    FeedHeader(START, h);
  }
}
