/** Runs of a Vision endpoint: any interleaving of reads and writes on one TrafficState, and what two endpoints
    that share a user id agree on. */
module VisionRun {
  import opened Bytes
  import opened VisionFrames
  import opened VisionUnpadding
  import opened VisionFilter
  import opened VisionWriting

  /** The fields of a TrafficState, together with the UUID its writer still has to write. */
  datatype Endpoint = Endpoint(uuid: seq<byte>, filter: Filter, parser: Parser, within: bool, direct: bool,
                               writer: Writer)
  {

    /** Reads go through the unpadder only while this holds. */
    predicate Unpads() {
      within || filter.packets > 0
    }
  }

  function NewEndpoint(uuid: seq<byte>): Endpoint {
    Endpoint(uuid, NEW_FILTER, FRESH, true, false, Writer(true, false, uuid))
  }

  /** One call made by the host: what it passes, and what the random source and the buffer pool contribute. */
  datatype Event =
    | WriteCall(slots: MultiBuffer, draws: seq<Draw>, stale: seq<uint16>)
    | ReadCall(buffers: seq<Buffer>, stale: seq<uint16>)
  {
    predicate Ok() {
      match this
      case WriteCall(slots, draws, stale) => |draws| >= 2 * |slots| && |stale| >= |slots|
      case ReadCall(buffers, stale) => |stale| >= |buffers|
    }
  }

  /** The non-empty results of unpadding the buffers one by one. */
  function UnpadEach(uuid: seq<byte>, p: Parser, cs: seq<Buffer>): (r: seq<Buffer>)
    requires p.Ok()
    ensures |r| <= |cs|
    decreases |cs|
  {
    if cs == [] then []
    else
      var u := Unpad(uuid, p, cs[0]);
      (if u.out == [] then [] else [u.out]) + UnpadEach(uuid, u.parser, cs[1..])
  }

  function Slots(cs: seq<Buffer>): (mb: MultiBuffer)
    ensures |mb| == |cs|
  {
    if cs == [] then [] else [Buf(cs[0])] + Slots(cs[1..])
  }

  /** The buffers that carry bytes. */
  function NonEmpty(cs: seq<seq<byte>>): seq<seq<byte>> {
    if cs == [] then [] else (if cs[0] == [] then [] else [cs[0]]) + NonEmpty(cs[1..])
  }

  /** The reader's view of the parser after a call: may the next call skip the unpadder? */
  predicate BlockPending(p: Parser) {
    p.content > 0 || p.padding > 0 || p.current == 0
  }

  function WithinAfter(p: Parser, within: bool): bool {
    if BlockPending(p) then true else if p.current in {1, 2} then false else within
  }

  function DirectAfter(p: Parser, direct: bool): bool {
    direct || (!BlockPending(p) && p.current == 2)
  }

  /** One read of buffers that are not all empty: the endpoint afterwards and the buffers handed on. */
  function Read(e: Endpoint, cs: seq<Buffer>, stale: seq<uint16>): (Endpoint, seq<Buffer>)
    requires e.parser.Ok() && |stale| >= |cs|
  {
    if e.Unpads() then
      var out := UnpadEach(e.uuid, e.parser, cs);
      var p := UnpadAll(e.uuid, e.parser, cs).parser;
      (e.(parser := p, within := WithinAfter(p, e.within), direct := DirectAfter(p, e.direct),
          filter := e.filter.Guarded(Slots(out), stale)), out)
    else
      (e, cs)
  }

  /** A run so far: the endpoint, the bytes and pieces it was given and sent, and the buffers and bytes it received. */
  datatype Trace = Trace(endpoint: Endpoint, written: seq<byte>, sent: seq<Piece>,
                         received: seq<seq<byte>>, delivered: seq<byte>)
  {
    predicate Ok() {
      endpoint.parser.Ok() && |endpoint.writer.once| <= UUID_LENGTH
    }

    function Then(ev: Event): Trace
      requires Ok() && ev.Ok()
    {
      match ev
      case WriteCall(slots, draws, stale) =>
        var f := endpoint.filter.Guarded(slots, stale);
        var w := Write(f, endpoint.writer, slots, draws);
        this.(endpoint := endpoint.(filter := f, writer := w.writer),
              written := written + Stream(slots), sent := sent + w.pieces)
      case ReadCall(buffers, stale) =>
        if Flatten(buffers) == [] then this
        else
          var (e, out) := Read(endpoint, buffers, stale);
          this.(endpoint := e, received := received + NonEmpty(buffers), delivered := delivered + Flatten(out))
    }
  }

  predicate EventsOk(evs: seq<Event>) {
    forall i :: 0 <= i < |evs| ==> evs[i].Ok()
  }

  function Start(uuid: seq<byte>): Trace {
    Trace(NewEndpoint(uuid), [], [], [], [])
  }

  lemma ThenOk(t: Trace, ev: Event)
    requires t.Ok() && ev.Ok()
    ensures t.Then(ev).Ok()
  {
    if ev.WriteCall? && t.endpoint.writer.padding && ev.slots != [Nil] {
      ReshapeCorrect(ev.slots);
      PadFromOnce(t.endpoint.filter.Guarded(ev.slots, ev.stale), t.endpoint.writer,
                  t.endpoint.filter.Guarded(ev.slots, ev.stale).tls, Reshape(ev.slots), ev.draws);
    }
  }

  lemma {:induction false} PadFromOnce(f: Filter, w: Writer, long: bool, mb: MultiBuffer, ds: seq<Draw>)
    requires |ds| >= |mb| && Roomy(mb) && |w.once| <= 16
    ensures PadFrom(f, w, long, mb, ds).writer.once == (if mb == [] then w.once else [])
    decreases |mb|
  {
    if mb != [] {
      var c := Choose(f, w.padding, w.direct, long, mb[0].Content(), |mb| == 1);
      PadFromOnce(f, Writer(c.padding, c.direct, []), c.nextLong, mb[1..], ds[1..]);
    }
  }

  /** Every run of an endpoint that starts with a fresh TrafficState. */
  function Run(uuid: seq<byte>, evs: seq<Event>): (t: Trace)
    requires |uuid| == UUID_LENGTH && EventsOk(evs)
    ensures t.Ok()
    decreases |evs|
  {
    if evs == [] then Start(uuid)
    else
      var t := Run(uuid, evs[..|evs| - 1]);
      ThenOk(t, evs[|evs| - 1]);
      t.Then(evs[|evs| - 1])
  }

  // --- safety of every reachable state ---

  /** In every run: the filter's verdict is justified, what was sent obeys the grammar, it carries exactly what was
      written, and it is closed, with Direct or End, exactly as the writer's flags say. */
  lemma {:induction false} RunSafe(uuid: seq<byte>, evs: seq<Event>)
    requires |uuid| == UUID_LENGTH && EventsOk(evs)
    ensures
      var t := Run(uuid, evs);
      && t.endpoint.uuid == uuid
      && t.endpoint.filter.Inv()
      && WriterInv(uuid, t.endpoint.writer, t.sent)
      && Carried(t.sent) == t.written
    decreases |evs|
  {
    if evs != [] {
      var before, ev := evs[..|evs| - 1], evs[|evs| - 1];
      RunSafe(uuid, before);
      var t := Run(uuid, before);
      match ev {
        case WriteCall(slots, draws, stale) =>
          GuardedKeepsInv(t.endpoint.filter, slots, stale);
          WriteKeepsInv(uuid, t.endpoint.filter.Guarded(slots, stale), t.endpoint.writer, t.sent, slots, draws);
        case ReadCall(buffers, stale) =>
          if Flatten(buffers) != [] && t.endpoint.Unpads() {
            GuardedKeepsInv(t.endpoint.filter, Slots(UnpadEach(uuid, t.endpoint.parser, buffers)), stale);
          }
      }
    }
  }

  /** The buffers that the filter is shown by a call, if the packet window is open. */
  function Shown(t: Trace, ev: Event): (mb: MultiBuffer)
    requires t.Ok() && ev.Ok()
    ensures |mb| <= |ev.stale|
  {
    match ev
    case WriteCall(slots, _, _) => slots
    case ReadCall(buffers, _) =>
      if Flatten(buffers) == [] then [] else Slots(UnpadEach(t.endpoint.uuid, t.endpoint.parser, buffers))
  }

  lemma FilterStep(t: Trace, ev: Event)
    requires t.Ok() && ev.Ok()
    ensures t.Then(ev).endpoint.filter == t.endpoint.filter.Guarded(Shown(t, ev), ev.stale)
  {
  }

  /** The event at index `k` finds the packet window open and shows the filter a buffer that completes the picture. */
  predicate EnablesAt(uuid: seq<byte>, evs: seq<Event>, k: nat)
    requires |uuid| == UUID_LENGTH && EventsOk(evs) && k < |evs|
  {
    var t := Run(uuid, evs[..k]);
    t.endpoint.filter.packets > 0 && SomeCompletes(t.endpoint.filter, Shown(t, evs[k]), evs[k].stale)
  }

  predicate SomeEnables(uuid: seq<byte>, evs: seq<Event>)
    requires |uuid| == UUID_LENGTH && EventsOk(evs)
  {
    exists k :: 0 <= k < |evs| && EnablesAt(uuid, evs, k)
  }

  lemma SomeEnablesStep(uuid: seq<byte>, evs: seq<Event>)
    requires |uuid| == UUID_LENGTH && EventsOk(evs) && evs != []
    ensures SomeEnables(uuid, evs) <==> SomeEnables(uuid, evs[..|evs| - 1]) || EnablesAt(uuid, evs, |evs| - 1)
  {
    var n := |evs| - 1;
    var before := evs[..n];
    forall k | 0 <= k < n ensures EnablesAt(uuid, evs, k) <==> EnablesAt(uuid, before, k) {
      assert before[..k] == evs[..k] && before[k] == evs[k];
    }
    if SomeEnables(uuid, before) {
      var k :| 0 <= k < n && EnablesAt(uuid, before, k);
      assert EnablesAt(uuid, evs, k);
    }
  }

  /** In every run raw copy is enabled if and only if some call found the packet window open and showed the filter a
      buffer that completes the picture. */
  lemma {:induction false} RunEnabledExactly(uuid: seq<byte>, evs: seq<Event>)
    requires |uuid| == UUID_LENGTH && EventsOk(evs)
    ensures Run(uuid, evs).endpoint.filter.enableXtls <==> SomeEnables(uuid, evs)
    decreases |evs|
  {
    if evs != [] {
      var before, ev := evs[..|evs| - 1], evs[|evs| - 1];
      var t := Run(uuid, before);
      RunSafe(uuid, before);
      RunEnabledExactly(uuid, before);
      SomeEnablesStep(uuid, evs);
      FilterStep(t, ev);
      if t.endpoint.filter.packets > 0 {
        EnabledExactly(t.endpoint.filter, Shown(t, ev), ev.stale);
      }
    }
  }

  /** What a run can no longer change: a closed packet window with its verdict, and a finished padding. */
  lemma {:induction false} RunFrozen(uuid: seq<byte>, evs: seq<Event>, k: nat)
    requires |uuid| == UUID_LENGTH && EventsOk(evs) && k <= |evs|
    ensures
      var early, late := Run(uuid, evs[..k]).endpoint, Run(uuid, evs).endpoint;
      && (early.filter.packets <= 0 ==> late.filter == early.filter)
      && (!early.writer.padding ==> late.writer == early.writer)
      && (early.direct ==> late.direct)
    decreases |evs|
  {
    if k == |evs| {
      assert evs[..k] == evs;
    } else {
      var before := evs[..|evs| - 1];
      assert before[..k] == evs[..k];
      RunFrozen(uuid, before, k);
    }
  }

  // --- one endpoint's writes, unpadded buffer by buffer ---

  /** The wire bytes behind the UUID. */
  function Body(ps: seq<Piece>): seq<byte>
    requires AllFit(Frames(ps))
  {
    EncodeAll(Frames(ps)) + Tail(ps)
  }

  /** Parsing the body as one stream yields `written`, and stops being framed where the terminating frame ends. */
  predicate ParsesTo(w: Writer, ps: seq<Piece>, written: seq<byte>)
    requires AllFit(Frames(ps))
  {
    && Feed(START, Body(ps)).out == written
    && (if w.padding then FramedLength(START, Body(ps)) > |Body(ps)|
        else
          && FramedLength(START, Body(ps)) == |EncodeAll(Frames(ps))|
          && Feed(START, Body(ps)).parser == Parser(-1, -1, -1, if w.direct then DIRECT else END))
  }

  lemma PiecesParse(uuid: seq<byte>, w: Writer, ps: seq<Piece>)
    requires WriterInv(uuid, w, ps) && ps != []
    ensures OnWire(uuid, ps) && Sent(ps) == uuid + Body(ps)
    ensures ParsesTo(w, ps, Carried(ps))
  {
    GrammarWire(uuid, ps);
    var fs, tail := Frames(ps), Tail(ps);
    assert uuid + EncodeAll(fs) + tail == uuid + (EncodeAll(fs) + tail);
    if Closed(ps) {
      TerminatedLength(START, fs, tail);
    } else {
      assert EncodeAll(fs) + tail == EncodeAll(fs);
      assert Payload(fs) + tail == Payload(fs);
      UnterminatedLength(START, fs);
    }
  }

  /** What any run puts on the wire, parsed as one stream, is exactly what was written. */
  lemma WireParses(uuid: seq<byte>, evs: seq<Event>)
    requires |uuid| == UUID_LENGTH && EventsOk(evs) && Run(uuid, evs).sent != []
    ensures OnWire(uuid, Run(uuid, evs).sent)
    ensures Sent(Run(uuid, evs).sent) == uuid + Body(Run(uuid, evs).sent)
    ensures ParsesTo(Run(uuid, evs).endpoint.writer, Run(uuid, evs).sent, Run(uuid, evs).written)
  {
    RunSafe(uuid, evs);
    var t := Run(uuid, evs);
    PiecesParse(uuid, t.endpoint.writer, t.sent);
  }

  /** No buffer that lies wholly behind the terminating frame can be taken for a new stream. */
  predicate CleanTail(uuid: seq<byte>, w: Writer, ps: seq<Piece>, cs: seq<seq<byte>>)
    requires AllFit(Frames(ps))
  {
    w.padding || NoneBegins(uuid, From(cs, UUID_LENGTH + |EncodeAll(Frames(ps))|))
  }

  /** Cutting the UUID off the first buffer shifts offsets by its length. */
  lemma FromShift(cs: seq<seq<byte>>, n: int)
    requires cs != [] && |cs[0]| >= UUID_LENGTH && n > 0
    ensures From([cs[0][UUID_LENGTH..]] + cs[1..], n) == From(cs, UUID_LENGTH + n)
  {
    assert ([cs[0][UUID_LENGTH..]] + cs[1..])[1..] == cs[1..];
  }

  lemma UnpadPieces(uuid: seq<byte>, w: Writer, ps: seq<Piece>, written: seq<byte>, cs: seq<seq<byte>>)
    requires |uuid| == UUID_LENGTH && AllFit(Frames(ps)) && ParsesTo(w, ps, written)
    requires Flatten(cs) == uuid + Body(ps) && cs != [] && |cs[0]| >= MIN_FIRST
    ensures UnpadAll(uuid, FRESH, cs).out == written <==> CleanTail(uuid, w, ps, cs)
    ensures CleanTail(uuid, w, ps, cs) ==> UnpadAll(uuid, FRESH, cs) == Feed(START, Body(ps))
  {
    var body := Body(ps);
    FirstBuffer(uuid, body, cs);
    var cs' := [cs[0][UUID_LENGTH..]] + cs[1..];
    FragmentationExact(uuid, START, cs');
    var n := FramedLength(START, body);
    if w.padding {
      FromPastEnd(cs', n);
    } else {
      FromShift(cs, n);
    }
  }

  /** Empty buffers do not matter to the unpadder. */
  lemma {:induction false} SkipEmpty(uuid: seq<byte>, p: Parser, cs: seq<seq<byte>>)
    requires p.Ok()
    ensures Flatten(NonEmpty(cs)) == Flatten(cs)
    ensures UnpadAll(uuid, p, NonEmpty(cs)) == UnpadAll(uuid, p, cs)
    decreases |cs|
  {
    if cs != [] {
      var r := Unpad(uuid, p, cs[0]);
      SkipEmpty(uuid, r.parser, cs[1..]);
      if cs[0] == [] {
        assert r == Fed(p, []);
        assert NonEmpty(cs) == NonEmpty(cs[1..]);
        assert [] + Flatten(cs[1..]) == Flatten(cs[1..]);
        assert [] + UnpadAll(uuid, p, cs[1..]).out == UnpadAll(uuid, p, cs[1..]).out;
      } else {
        assert NonEmpty(cs)[1..] == NonEmpty(cs[1..]);
      }
    }
  }

  /** The buffers are a cutting of the wire bytes whose first non-empty buffer has at least 21 of them. */
  predicate Cuts(cs: seq<seq<byte>>, wire: seq<byte>) {
    Flatten(cs) == wire && NonEmpty(cs) != [] && |NonEmpty(cs)[0]| >= MIN_FIRST
  }

  /** End-to-end round trip through the unpadder: for every run of the writer and every way of cutting its wire bytes
      into buffers, the first non-empty one of at least 21 bytes, unpadding gives back exactly the bytes written, if and
      only if no non-empty buffer that lies wholly behind the terminating frame begins with the UUID. */
  lemma RoundTrip(uuid: seq<byte>, evs: seq<Event>, cs: seq<seq<byte>>)
    requires |uuid| == UUID_LENGTH && EventsOk(evs) && Run(uuid, evs).sent != []
    ensures OnWire(uuid, Run(uuid, evs).sent)
    ensures
      Cuts(cs, Sent(Run(uuid, evs).sent)) ==>
      (UnpadAll(uuid, FRESH, cs).out == Run(uuid, evs).written <==>
       CleanTail(uuid, Run(uuid, evs).endpoint.writer, Run(uuid, evs).sent, NonEmpty(cs)))
  {
    var t := Run(uuid, evs);
    WireParses(uuid, evs);
    if Cuts(cs, Sent(t.sent)) {
      SkipEmpty(uuid, FRESH, cs);
      UnpadPieces(uuid, t.endpoint.writer, t.sent, t.written, NonEmpty(cs));
    }
  }

  lemma {:induction false} FromPastEnd(cs: seq<seq<byte>>, n: int)
    requires n > |Flatten(cs)|
    ensures From(cs, n) == []
    decreases |cs|
  {
    if cs != [] {
      FromPastEnd(cs[1..], n - |cs[0]|);
    }
  }

  /** The 21 bytes are needed: a shorter first non-empty buffer, with no later one mistaken for a stream, leaves the
      wire bytes as they are, which is never what was written. */
  lemma ShortFirstBuffer(uuid: seq<byte>, evs: seq<Event>, cs: seq<seq<byte>>)
    requires |uuid| == UUID_LENGTH && EventsOk(evs) && Run(uuid, evs).sent != []
    requires NonEmpty(cs) != [] && |NonEmpty(cs)[0]| < MIN_FIRST && NoneBegins(uuid, NonEmpty(cs)[1..])
    ensures OnWire(uuid, Run(uuid, evs).sent)
    ensures
      Flatten(cs) == Sent(Run(uuid, evs).sent) ==>
      UnpadAll(uuid, FRESH, cs).out == Sent(Run(uuid, evs).sent) != Run(uuid, evs).written
  {
    WireParses(uuid, evs);
    var ps := Run(uuid, evs).sent;
    var cs' := NonEmpty(cs);
    forall i | 0 <= i < |cs'| ensures !Begins(uuid, cs'[i]) {
      assert i > 0 ==> cs'[i] == cs'[1..][i - 1];
    }
    TransparentExactly(uuid, FRESH, cs');
    SkipEmpty(uuid, FRESH, cs);
    assert |Feed(START, Body(ps)).out| <= |Body(ps)|;
  }
}
