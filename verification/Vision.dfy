/** The Vision code in its own form: a TrafficState that every call updates in place, shared by a reader and a writer.
    Each method is proved against the specification functions whose runs the other Vision modules reason about. */
module Vision {
  import opened Bytes
  import opened VisionFrames
  import opened VisionUnpadding
  import opened VisionFilter
  import opened VisionWriting
  import opened VisionRun

  const CIPHER_SUITES: map<uint16, string> := map[
    0x1301 := "TLS_AES_128_GCM_SHA256",
    0x1302 := "TLS_AES_256_GCM_SHA384",
    0x1303 := "TLS_CHACHA20_POLY1305_SHA256",
    0x1304 := "TLS_AES_128_CCM_SHA256",
    0x1305 := "TLS_AES_128_CCM_8_SHA256"
  ]

  lemma SuiteNames(c: uint16)
    ensures c in CIPHER_SUITES && CIPHER_SUITES[c] != "TLS_AES_128_CCM_8_SHA256" <==> XtlsCipher(c)
  {
    assert CIPHER_SUITES[0x1301][12] != "TLS_AES_128_CCM_8_SHA256"[12];
    assert CIPHER_SUITES[0x1302][8] != "TLS_AES_128_CCM_8_SHA256"[8];
    assert CIPHER_SUITES[0x1303][4] != "TLS_AES_128_CCM_8_SHA256"[4];
    assert |CIPHER_SUITES[0x1304]| != |"TLS_AES_128_CCM_8_SHA256"|;
  }

  class TrafficState {
    var userUUID: seq<byte>
    var numberOfPacketToFilter: int
    var enableXtls: bool
    var isTLS12orAbove: bool
    var isTLS: bool
    var cipher: uint16
    var remainingServerHello: int

    // reader link state
    var withinPaddingBuffers: bool
    var readerSwitchToDirectCopy: bool
    var remainingCommand: int
    var remainingContent: int
    var remainingPadding: int
    var currentCommand: int

    // writer link state
    var isPadding: bool
    var writerSwitchToDirectCopy: bool

    function FilterView(): Filter
      reads this
    {
      Filter(numberOfPacketToFilter, enableXtls, isTLS12orAbove, isTLS, cipher, remainingServerHello)
    }

    function ParserView(): Parser
      reads this
    {
      Parser(remainingCommand, remainingContent, remainingPadding, currentCommand)
    }

    /** The abstract endpoint, given the UUID that the writer still holds. */
    function View(once: seq<byte>): Endpoint
      reads this
    {
      Endpoint(userUUID, FilterView(), ParserView(), withinPaddingBuffers, readerSwitchToDirectCopy,
               Writer(isPadding, writerSwitchToDirectCopy, once))
    }

    constructor (uuid: seq<byte>)
      ensures View(uuid) == NewEndpoint(uuid)
    {
      userUUID := uuid;
      numberOfPacketToFilter := 8;
      enableXtls, isTLS12orAbove, isTLS, cipher := false, false, false, 0;
      remainingServerHello := -1;
      withinPaddingBuffers, readerSwitchToDirectCopy := true, false;
      remainingCommand, remainingContent, remainingPadding, currentCommand := -1, -1, -1, 0;
      isPadding, writerSwitchToDirectCopy := true, false;
    }

    /** The hello recognition of XtlsFilterTls. */
    method Recognise(b: Buffer, stale: uint16)
      modifies this`isTLS12orAbove, this`isTLS, this`cipher, this`remainingServerHello
      ensures FilterView() == old(FilterView()).Recognise(b, stale)
    {
      if |b| >= 6 {
        if b[..3] == SERVER_HANDSHAKE_START && b[5] == SERVER_HELLO {
          remainingServerHello := BigEndian(b[3], b[4]) + 5;
          isTLS12orAbove := true;
          isTLS := true;
          if |b| >= 79 && remainingServerHello >= 79 {
            var at := 43 + b[43] as int + 1;
            cipher := if at + 2 <= |b| then BigEndian(b[at], b[at + 1]) else stale;
          }
        } else if b[..2] == CLIENT_HANDSHAKE_START && b[5] == CLIENT_HELLO {
          isTLS := true;
        }
      }
    }

    /** The verdict of XtlsFilterTls while a server hello is incomplete. */
    method Judge(b: Buffer) returns (stop: bool)
      modifies this`numberOfPacketToFilter, this`enableXtls, this`remainingServerHello
      ensures (FilterView(), stop) == old(FilterView()).Judge(b)
    {
      if remainingServerHello > 0 {
        var end := if remainingServerHello > |b| then |b| else remainingServerHello;
        remainingServerHello := remainingServerHello - |b|;
        if Contains(b[..end], TLS13_SUPPORTED_VERSIONS) {
          SuiteNames(cipher);
          if cipher in CIPHER_SUITES && CIPHER_SUITES[cipher] != "TLS_AES_128_CCM_8_SHA256" {
            enableXtls := true;
          }
          numberOfPacketToFilter := 0;
          return true;
        } else if remainingServerHello <= 0 {
          numberOfPacketToFilter := 0;
          return true;
        }
      }
      return false;
    }

    /** XtlsFilterTls: filters a multi-buffer and stops at the first verdict. */
    method FilterTls(buffer: MultiBuffer, stale: seq<uint16>)
      requires |stale| >= |buffer|
      modifies this`numberOfPacketToFilter, this`enableXtls, this`isTLS12orAbove, this`isTLS, this`cipher,
               this`remainingServerHello
      ensures FilterView() == old(FilterView()).All(buffer, stale)
    {
      var i := 0;
      while i < |buffer|
        invariant 0 <= i <= |buffer|
        invariant FilterView().All(buffer[i..], stale[i..]) == old(FilterView()).All(buffer, stale)
      {
        assert buffer[i..][0] == buffer[i] && buffer[i..][1..] == buffer[i + 1..];
        assert stale[i..][0] == stale[i] && stale[i..][1..] == stale[i + 1..];
        if buffer[i].Buf? {
          numberOfPacketToFilter := numberOfPacketToFilter - 1;
          Recognise(buffer[i].data, stale[i]);
          var stop := Judge(buffer[i].data);
          if stop {
            return;
          }
        }
        i := i + 1;
      }
    }

    /** One iteration of the loop of XtlsUnpadding, up to its check whether the block is done. */
    method Consume(b: seq<byte>) returns (rest: seq<byte>, data: seq<byte>)
      requires ParserView().Open() && b != []
      modifies this`remainingCommand, this`remainingContent, this`remainingPadding, this`currentCommand
      ensures |rest| < |b| && |data| + |rest| <= |b|
      ensures ParserView().Settle().Ok()
      ensures Feed(old(ParserView()), b) == Resume(Fed(ParserView().Settle(), data), rest)
    {
      ghost var p := ParserView();
      if remainingCommand > 0 {
        var byteRead := b[0];
        rest, data := b[1..], [];
        match remainingCommand {
          case 5 => currentCommand := byteRead;
          case 4 => remainingContent := BigEndian(byteRead, 0);
          case 3 => remainingContent := remainingContent + byteRead;
          case 2 => remainingPadding := BigEndian(byteRead, 0);
          case _ => remainingPadding := remainingPadding + byteRead;
        }
        remainingCommand := remainingCommand - 1;
        StepHeader(p, b);
      } else if remainingContent > 0 {
        var len := if |b| < remainingContent then |b| else remainingContent;
        rest, data := b[len..], b[..len];
        remainingContent := remainingContent - len;
        StepContent(p, b, len);
      } else {
        var len := if |b| < remainingPadding then |b| else remainingPadding;
        rest, data := b[len..], [];
        remainingPadding := remainingPadding - len;
        StepPadding(p, b, len);
      }
    }

    /** The loop of XtlsUnpadding. */
    method Strip(framed: seq<byte>) returns (out: seq<byte>)
      requires ParserView().Open()
      modifies this`remainingCommand, this`remainingContent, this`remainingPadding, this`currentCommand
      ensures Fed(ParserView(), out) == Feed(old(ParserView()), framed)
    {
      var b := framed;
      out := [];
      assert [] + Feed(ParserView(), b).out == Feed(ParserView(), b).out;
      while |b| > 0
        invariant ParserView().Open()
        invariant Feed(old(ParserView()), framed) == Feed(ParserView(), b).Before(out)
        decreases |b|
      {
        ghost var p := ParserView();
        var rest, data := Consume(b);
        BeforeResume(out, Fed(ParserView().Settle(), data), rest);
        b, out := rest, out + data;
        if remainingCommand <= 0 && remainingContent <= 0 && remainingPadding <= 0 {
          if currentCommand == 0 {
            remainingCommand := 5;
          } else {
            remainingCommand, remainingContent, remainingPadding := -1, -1, -1;
            out := out + b;
            return;
          }
        }
      }
      assert out + [] == out;
    }

    /** XtlsUnpadding: strips the frames of one buffer. The output fits wherever the input did. */
    method Unpadding(buffer: Buffer) returns (out: Buffer)
      requires ParserView().Ok()
      modifies this`remainingCommand, this`remainingContent, this`remainingPadding, this`currentCommand
      ensures Fed(ParserView(), out) == Unpad(userUUID, old(ParserView()), buffer)
      ensures ParserView().Ok() && |out| <= |buffer|
    {
      var b: seq<byte> := buffer;
      if remainingCommand == -1 && remainingContent == -1 && remainingPadding == -1 {
        if |b| >= MIN_FIRST && b[..UUID_LENGTH] == userUUID {
          b := b[UUID_LENGTH..];
          remainingCommand := 5;
        } else {
          return buffer;
        }
      }
      out := Strip(b);
    }
  }

  // --- one iteration of the unpadding loop ---

  lemma FeedTake(p: Parser, bs: seq<byte>, n: nat)
    requires p.Open() && n <= |bs|
    ensures Feed(p, bs) == Resume(Feed(p, bs[..n]), bs[n..])
  {
    assert bs == bs[..n] + bs[n..];
    FeedSplit(p, bs[..n], bs[n..]);
  }

  lemma StepHeader(p: Parser, bs: seq<byte>)
    requires p.Open() && p.command > 0 && bs != []
    ensures p.Absorb(bs[0]).Settle().Ok()
    ensures Feed(p, bs) == Resume(Fed(p.Absorb(bs[0]).Settle(), []), bs[1..])
  {
    FeedTake(p, bs, 1);
    assert bs[..1][1..] == [];
    assert Feed(p, bs[..1]) == Fed(p.Step(bs[0]), []);
  }

  lemma StepContent(p: Parser, bs: seq<byte>, n: nat)
    requires p.Open() && p.command <= 0 && p.content > 0 && n <= |bs| && n <= p.content
    ensures p.(content := p.content - n).Settle().Ok()
    ensures Feed(p, bs) == Resume(Fed(p.(content := p.content - n).Settle(), bs[..n]), bs[n..])
  {
    var q := p.(content := p.content - n).Settle();
    assert Feed(p, bs[..n]) == Fed(q, bs[..n]) by {
      FeedContent(p, bs[..n]);
    }
    assert Feed(p, bs) == Resume(Fed(q, bs[..n]), bs[n..]) by {
      FeedTake(p, bs, n);
    }
  }

  lemma StepPadding(p: Parser, bs: seq<byte>, n: nat)
    requires p.Open() && p.command <= 0 && p.content <= 0 && n <= |bs| && n <= p.padding
    ensures p.(padding := p.padding - n).Settle().Ok()
    ensures Feed(p, bs) == Resume(Fed(p.(padding := p.padding - n).Settle(), []), bs[n..])
  {
    var q := p.(padding := p.padding - n).Settle();
    assert Feed(p, bs[..n]) == Fed(q, []) by {
      FeedPadding(p, bs[..n]);
    }
    assert Feed(p, bs) == Resume(Fed(q, []), bs[n..]) by {
      FeedTake(p, bs, n);
    }
  }

  /** The body of the second loop of ReshapeMultiBuffer. */
  method SplitOne(b: Slot) returns (parts: MultiBuffer)
    ensures parts == ReshapeOne(b)
  {
    var c := b.Content();
    parts := [b];
    if |c| >= SIZE - OVERHEAD {
      var index := LastIndex(c, APPLICATION_DATA_START);
      if index < OVERHEAD || index > SIZE - OVERHEAD {
        index := SIZE / 2;
      }
      parts := [Buf(c[..index]), Buf(c[index..])];
    }
  }

  method SplitOversized(buffer: MultiBuffer) returns (mb: MultiBuffer)
    ensures mb == Reshape(buffer)
  {
    mb := [];
    var i := 0;
    while i < |buffer|
      invariant 0 <= i <= |buffer|
      invariant mb + Reshape(buffer[i..]) == Reshape(buffer)
    {
      var parts := SplitOne(buffer[i]);
      assert buffer[i..][0] == buffer[i] && buffer[i..][1..] == buffer[i + 1..];
      Assoc(mb, parts, Reshape(buffer[i + 1..]));
      mb, i := mb + parts, i + 1;
    }
    assert buffer[i..] == [];
    assert mb + [] == mb;
  }

  /** ReshapeMultiBuffer: splits the buffers that leave no room for UUID and header. */
  method ReshapeMultiBuffer(buffer: MultiBuffer) returns (mb: MultiBuffer)
    ensures mb == Reshape(buffer)
  {
    var needReshape := 0;
    for i := 0 to |buffer|
      invariant needReshape >= 0
      invariant needReshape == 0 <==> forall j :: 0 <= j < i ==> |buffer[j].Content()| < SIZE - OVERHEAD
    {
      if |buffer[i].Content()| >= SIZE - OVERHEAD {
        needReshape := needReshape + 1;
      }
    }
    if needReshape == 0 {
      ReshapeCorrect(buffer);
      return buffer;
    }
    mb := SplitOversized(buffer);
  }

  /** The buffers that pieces become. */
  function Rendered(ps: seq<Piece>): MultiBuffer
    requires forall i :: 0 <= i < |ps| ==> ps[i].Ok()
  {
    if ps == [] then [] else [ps[0].Slot()] + Rendered(ps[1..])
  }

  predicate AllOk(ps: seq<Piece>) {
    forall i :: 0 <= i < |ps| ==> ps[i].Ok()
  }

  lemma {:induction false} RenderedConcat(a: seq<Piece>, b: seq<Piece>)
    requires AllOk(a) && AllOk(b)
    ensures AllOk(a + b) && Rendered(a + b) == Rendered(a) + Rendered(b)
    decreases |a|
  {
    if a == [] {
      assert a + b == b;
    } else {
      RenderedConcat(a[1..], b);
      assert (a + b)[0] == a[0] && (a + b)[1..] == a[1..] + b;
      Assoc([a[0].Slot()], Rendered(a[1..]), Rendered(b));
    }
  }

  /** The buffers handed on carry exactly the bytes that the pieces stand for. */
  lemma {:induction false} RenderedStream(ps: seq<Piece>)
    requires AllOk(ps)
    ensures Stream(Rendered(ps)) == Sent(ps) && |Rendered(ps)| == |ps|
    decreases |ps|
  {
    if ps != [] {
      RenderedStream(ps[1..]);
      assert Rendered(ps)[1..] == Rendered(ps[1..]);
      assert ps[0].Slot().Content() == ps[0].Bytes();
    }
  }

  lemma {:induction false} RenderedRaws(mb: MultiBuffer)
    ensures AllOk(Raws(mb)) && Rendered(Raws(mb)) == mb
  {
    if mb != [] {
      RenderedRaws(mb[1..]);
    }
  }

  /** Every buffer the padding loop produces fits into a pooled buffer. */
  lemma {:induction false} PadFromOk(f: Filter, w: Writer, long: bool, mb: MultiBuffer, ds: seq<Draw>)
    requires |ds| >= |mb| && Roomy(mb) && |w.once| <= 16
    ensures AllOk(PadFrom(f, w, long, mb, ds).pieces)
    decreases |mb|
  {
    if mb != [] {
      var c := Choose(f, w.padding, w.direct, long, mb[0].Content(), |mb| == 1);
      if c.stop {
        RenderedRaws(mb[1..]);
      } else {
        PadFromOk(f, Writer(c.padding, c.direct, []), c.nextLong, mb[1..], ds[1..]);
      }
    }
  }

  /** The length that XtlsPadding draws. */
  method DrawPadding(contentLen: nat, longPadding: bool, d: Draw) returns (paddingLen: nat)
    requires contentLen <= SIZE - OVERHEAD
    ensures paddingLen == PaddingLength(contentLen, longPadding, d)
  {
    var n := 0;
    if contentLen < 900 && longPadding {
      n := d.long + 900 - contentLen;
    } else {
      n := d.short;
    }
    if n > SIZE - OVERHEAD - contentLen {
      n := SIZE - OVERHEAD - contentLen;
    }
    paddingLen := n;
  }

  /** The bytes that XtlsPadding writes into a fresh pooled buffer, in its order. */
  method FrameBuffer(once: seq<byte>, b: Slot, command: byte, paddingLen: nat, ghost long: bool, d: Draw)
    returns (newBuffer: Buffer)
    requires |once| <= UUID_LENGTH && |b.Content()| <= SIZE - OVERHEAD
    requires paddingLen == PaddingLength(|b.Content()|, long, d)
    ensures Buf(newBuffer) == PaddedSlot(once, b, command, long, d)
  {
    ghost var p := Pad(once, b, command, long, d);
    var bytes := once + HeaderBytes(command, |b.Content()|, paddingLen) + b.Content();
    var padded := bytes + Exposed(d, |bytes|, paddingLen);
    assert padded == p.Bytes() by {
      FrameBytes(once, p.frame);
    }
    newBuffer := padded;
  }

  class VisionWriter {
    const trafficState: TrafficState
    var writeOnceUserUUID: seq<byte>

    constructor (state: TrafficState)
      ensures trafficState == state && writeOnceUserUUID == state.userUUID
    {
      trafficState := state;
      writeOnceUserUUID := state.userUUID;
    }

    function WriterView(): Writer
      reads this, trafficState
    {
      Writer(trafficState.isPadding, trafficState.writerSwitchToDirectCopy, writeOnceUserUUID)
    }

    /** XtlsPadding: one frame, behind the UUID if that has not been written yet. */
    method Padding(b: Slot, command: byte, longPadding: bool, d: Draw) returns (newBuffer: Buffer)
      requires |writeOnceUserUUID| <= UUID_LENGTH && |b.Content()| <= SIZE - OVERHEAD
      modifies this`writeOnceUserUUID
      ensures Buf(newBuffer) == PaddedSlot(old(writeOnceUserUUID), b, command, longPadding, d)
      ensures writeOnceUserUUID == []
    {
      var once := writeOnceUserUUID;
      writeOnceUserUUID := [];
      var paddingLen := DrawPadding(|b.Content()|, longPadding, d);
      newBuffer := FrameBuffer(once, b, command, paddingLen, longPadding, d);
    }

    /** The branches of the padding loop: which command the next frame carries, and what happens to the flags. */
    method ChooseCommand(b: Slot, last: bool, longPadding: bool)
      returns (command: byte, long: bool, nextLong: bool, stop: bool)
      modifies trafficState`isPadding, trafficState`writerSwitchToDirectCopy
      ensures
        Choice(command, long, nextLong, stop, trafficState.isPadding, trafficState.writerSwitchToDirectCopy) ==
        Choose(trafficState.FilterView(), old(trafficState.isPadding), old(trafficState.writerSwitchToDirectCopy),
               longPadding, b.Content(), last)
    {
      var s := trafficState;
      command, long, nextLong, stop := CONTINUE, longPadding, longPadding, false;
      if s.isTLS && |b.Content()| >= 6 && b.Content()[..3] == APPLICATION_DATA_START {
        if s.enableXtls {
          s.writerSwitchToDirectCopy := true;
        }
        if last {
          command := if s.enableXtls then DIRECT else END;
        }
        s.isPadding := false;
        long, nextLong := true, false;
      } else if !s.isTLS12orAbove && s.numberOfPacketToFilter <= 1 {
        s.isPadding := false;
        command, stop := END, true;
      } else if last && !s.isPadding {
        command := if s.enableXtls then DIRECT else END;
      }
    }

    /** The body of the padding loop: the next frame and what happens to the writer. */
    method PadOne(b: Slot, last: bool, longPadding: bool, d: Draw) returns (padded: Buffer, nextLong: bool, stop: bool)
      requires |writeOnceUserUUID| <= UUID_LENGTH && |b.Content()| <= SIZE - OVERHEAD
      modifies this`writeOnceUserUUID, trafficState`isPadding, trafficState`writerSwitchToDirectCopy
      ensures
        var w := old(WriterView());
        var c := Choose(trafficState.FilterView(), w.padding, w.direct, longPadding, b.Content(), last);
        && Buf(padded) == PaddedSlot(w.once, b, c.command, c.long, d)
        && nextLong == c.nextLong && stop == c.stop && WriterView() == Writer(c.padding, c.direct, [])
    {
      var command, long;
      command, long, nextLong, stop := ChooseCommand(b, last, longPadding);
      padded := Padding(b, command, long, d);
    }

    /** The padding loop of WriteMultiBuffer, over buffers that leave room for UUID and header. */
    method PadBuffers(mb: MultiBuffer, draws: seq<Draw>) returns (out: MultiBuffer)
      requires |draws| >= |mb| && Roomy(mb) && |writeOnceUserUUID| <= UUID_LENGTH
      modifies this`writeOnceUserUUID, trafficState`isPadding, trafficState`writerSwitchToDirectCopy
      ensures
        Rendering(out, WriterView(),
                  PadFrom(trafficState.FilterView(), old(WriterView()), trafficState.isTLS, mb, draws))
    {
      ghost var f := trafficState.FilterView();
      ghost var goal := PadFrom(f, WriterView(), trafficState.isTLS, mb, draws);
      ghost var done: seq<Piece> := [];
      out := [];
      var longPadding := trafficState.isTLS;
      var i := 0;
      assert mb[0..] == mb && draws[0..] == draws;
      assert [] + goal.pieces == goal.pieces;
      while i < |mb|
        invariant 0 <= i <= |mb| && |writeOnceUserUUID| <= UUID_LENGTH
        invariant trafficState.FilterView() == f
        invariant AllOk(done) && out == Rendered(done)
        invariant goal == Prepend(done, PadFrom(f, WriterView(), longPadding, mb[i..], draws[i..]))
      {
        ghost var w, long := WriterView(), longPadding;
        var padded, nextLong, stop := PadOne(mb[i], i == |mb| - 1, longPadding, draws[i]);
        ghost var p := PadStep(f, w, long, mb[i..], draws[i..], done, goal);
        longPadding := nextLong;
        assert mb[i..][1..] == mb[i + 1..] && draws[i..][1..] == draws[i + 1..];
        done, out, i := done + [p], out + [Buf(padded)], i + 1;
        if stop {
          RenderedWithRaws(done, mb[i..]);
          out := out + mb[i..];
          return;
        }
      }
      assert done + [] == done;
    }

    /** WriteMultiBuffer behind the filter. */
    method PadOrPass(mb: MultiBuffer, draws: seq<Draw>) returns (out: MultiBuffer)
      requires |draws| >= 2 * |mb| && |writeOnceUserUUID| <= UUID_LENGTH
      modifies this`writeOnceUserUUID, trafficState`isPadding, trafficState`writerSwitchToDirectCopy
      ensures Rendering(out, WriterView(), Write(trafficState.FilterView(), old(WriterView()), mb, draws))
    {
      if trafficState.isPadding {
        if |mb| == 1 && mb[0].Nil? {
          assert mb == [Nil];
          var padded := Padding(Nil, CONTINUE, true, draws[0]);
          return [Buf(padded)];
        }
        ReshapeCorrect(mb);
        var reshaped := ReshapeMultiBuffer(mb);
        out := PadBuffers(reshaped, draws);
      } else {
        RenderedRaws(mb);
        out := mb;
      }
    }

    /** WriteMultiBuffer: filter, then pad while padding lasts. */
    method WriteMultiBuffer(mb: MultiBuffer, draws: seq<Draw>, stale: seq<uint16>) returns (out: MultiBuffer)
      requires |draws| >= 2 * |mb| && |stale| >= |mb| && |writeOnceUserUUID| <= UUID_LENGTH
      modifies this`writeOnceUserUUID, trafficState
      ensures trafficState.FilterView() == old(trafficState.FilterView()).Guarded(mb, stale)
      ensures Rendering(out, WriterView(), Write(trafficState.FilterView(), old(WriterView()), mb, draws))
      ensures
        trafficState.View(writeOnceUserUUID) ==
        old(trafficState.View(writeOnceUserUUID)).(filter := trafficState.FilterView(), writer := WriterView())
    {
      if trafficState.numberOfPacketToFilter > 0 {
        trafficState.FilterTls(mb, stale);
      }
      out := PadOrPass(mb, draws);
    }
  }

  function Prepend(ps: seq<Piece>, r: Written): Written {
    Written(r.writer, ps + r.pieces)
  }

  /** `out` and `w` are what the specification `r` says. */
  predicate Rendering(out: MultiBuffer, w: Writer, r: Written) {
    AllOk(r.pieces) && out == Rendered(r.pieces) && w == r.writer
  }

  lemma RenderedOne(done: seq<Piece>, p: Piece)
    requires AllOk(done) && p.Ok()
    ensures AllOk(done + [p]) && Rendered(done + [p]) == Rendered(done) + [p.Slot()]
  {
    assert [p][1..] == [];
    RenderedConcat(done, [p]);
  }

  lemma RenderedWithRaws(done: seq<Piece>, mb: MultiBuffer)
    requires AllOk(done)
    ensures AllOk(done + Raws(mb)) && Rendered(done + Raws(mb)) == Rendered(done) + mb
  {
    RenderedRaws(mb);
    RenderedConcat(done, Raws(mb));
  }

  /** One iteration of the padding loop against its specification. */
  lemma PadStep(f: Filter, w: Writer, long: bool, mb: MultiBuffer, ds: seq<Draw>, done: seq<Piece>, goal: Written)
    returns (p: Piece)
    requires mb != [] && |ds| >= |mb| && Roomy(mb) && |w.once| <= 16 && AllOk(done)
    requires goal == Prepend(done, PadFrom(f, w, long, mb, ds))
    ensures
      var c := Choose(f, w.padding, w.direct, long, mb[0].Content(), |mb| == 1);
      var done' := done + [p];
      var w' := Writer(c.padding, c.direct, []);
      && AllOk(done') && Rendered(done') == Rendered(done) + [PaddedSlot(w.once, mb[0], c.command, c.long, ds[0])]
      && goal == Prepend(done', if c.stop then Written(w', Raws(mb[1..]))
                                else PadFrom(f, w', c.nextLong, mb[1..], ds[1..]))
  {
    var c := Choose(f, w.padding, w.direct, long, mb[0].Content(), |mb| == 1);
    var w' := Writer(c.padding, c.direct, []);
    var rest := if c.stop then Written(w', Raws(mb[1..])) else PadFrom(f, w', c.nextLong, mb[1..], ds[1..]);
    p := Pad(w.once, mb[0], c.command, c.long, ds[0]);
    RenderedOne(done, p);
    Assoc(done, [p], rest.pieces);
  }

  class VisionReader {
    const trafficState: TrafficState

    constructor (state: TrafficState)
      ensures trafficState == state
    {
      trafficState := state;
    }

    /** The flags of ReadMultiBuffer after a pass of the unpadder. */
    method UpdateFlags()
      modifies trafficState`withinPaddingBuffers, trafficState`readerSwitchToDirectCopy
      ensures
        trafficState.withinPaddingBuffers ==
        WithinAfter(trafficState.ParserView(), old(trafficState.withinPaddingBuffers))
      ensures
        trafficState.readerSwitchToDirectCopy ==
        DirectAfter(trafficState.ParserView(), old(trafficState.readerSwitchToDirectCopy))
    {
      var s := trafficState;
      if s.remainingContent > 0 || s.remainingPadding > 0 || s.currentCommand == 0 {
        s.withinPaddingBuffers := true;
      } else if s.currentCommand == 1 {
        s.withinPaddingBuffers := false;
      } else if s.currentCommand == 2 {
        s.withinPaddingBuffers := false;
        s.readerSwitchToDirectCopy := true;
      }
    }

    /** ReadMultiBuffer while the unpadder is in use. */
    method Process(buffers: seq<Buffer>, stale: seq<uint16>) returns (out: seq<Buffer>)
      requires trafficState.ParserView().Ok() && |stale| >= |buffers|
      modifies trafficState
      ensures out == UnpadEach(trafficState.userUUID, old(trafficState.ParserView()), buffers)
      ensures trafficState.ParserView() ==
              UnpadAll(trafficState.userUUID, old(trafficState.ParserView()), buffers).parser
      ensures trafficState.withinPaddingBuffers ==
              WithinAfter(trafficState.ParserView(), old(trafficState.withinPaddingBuffers))
      ensures trafficState.readerSwitchToDirectCopy ==
              DirectAfter(trafficState.ParserView(), old(trafficState.readerSwitchToDirectCopy))
      ensures trafficState.FilterView() == old(trafficState.FilterView()).Guarded(Slots(out), stale)
      ensures unchanged(trafficState`userUUID, trafficState`isPadding, trafficState`writerSwitchToDirectCopy)
    {
      out := UnpadBuffers(buffers);
      UpdateFlags();
      if trafficState.numberOfPacketToFilter > 0 {
        var slots := ToSlots(out);
        trafficState.FilterTls(slots, stale);
      }
    }

    /** ReadMultiBuffer, given the buffers that the underlying reader returned. */
    method ReadMultiBuffer(buffers: seq<Buffer>, stale: seq<uint16>, ghost once: seq<byte>) returns (out: seq<Buffer>)
      requires trafficState.ParserView().Ok() && |stale| >= |buffers|
      modifies trafficState
      ensures Flatten(buffers) == [] ==> out == buffers && trafficState.View(once) == old(trafficState.View(once))
      ensures Flatten(buffers) != [] ==>
                (trafficState.View(once), out) == Read(old(trafficState.View(once)), buffers, stale)
    {
      out := buffers;
      if Flatten(buffers) != [] && (trafficState.withinPaddingBuffers || trafficState.numberOfPacketToFilter > 0) {
        out := Process(buffers, stale);
      }
    }

    /** The unpadding loop of ReadMultiBuffer. */
    method UnpadBuffers(buffers: seq<Buffer>) returns (out: seq<Buffer>)
      requires trafficState.ParserView().Ok()
      modifies trafficState`remainingCommand, trafficState`remainingContent, trafficState`remainingPadding,
               trafficState`currentCommand
      ensures out == UnpadEach(trafficState.userUUID, old(trafficState.ParserView()), buffers)
      ensures trafficState.ParserView() ==
              UnpadAll(trafficState.userUUID, old(trafficState.ParserView()), buffers).parser
    {
      ghost var uuid, p0 := trafficState.userUUID, trafficState.ParserView();
      out := [];
      var i := 0;
      assert buffers[0..] == buffers;
      while i < |buffers|
        invariant 0 <= i <= |buffers| && trafficState.ParserView().Ok()
        invariant out + UnpadEach(uuid, trafficState.ParserView(), buffers[i..]) == UnpadEach(uuid, p0, buffers)
        invariant UnpadAll(uuid, trafficState.ParserView(), buffers[i..]).parser == UnpadAll(uuid, p0, buffers).parser
      {
        assert buffers[i..][0] == buffers[i] && buffers[i..][1..] == buffers[i + 1..];
        var b := trafficState.Unpadding(buffers[i]);
        ghost var rest := UnpadEach(uuid, trafficState.ParserView(), buffers[i + 1..]);
        if |b| > 0 {
          Assoc(out, [b], rest);
          out := out + [b];
        } else {
          assert [] + rest == rest;
        }
        i := i + 1;
      }
      assert out + [] == out;
    }
  }

  method ToSlots(cs: seq<Buffer>) returns (mb: MultiBuffer)
    ensures mb == Slots(cs)
  {
    mb := [];
    for i := |cs| downto 0
      invariant mb == Slots(cs[i..])
    {
      assert cs[i..][1..] == cs[i + 1..];
      mb := [Buf(cs[i])] + mb;
    }
    assert cs[0..] == cs;
  }
}
