/** The Vision frame format and its resumable parser.

    `Frame.Encode` is the printer's side (one command byte, two 16-bit lengths, content, padding);
    `Feed` is the parser one byte at a time, which `XtlsUnpadding` runs in bulk. */
module VisionFrames {
  import opened Bytes

  const CONTINUE: byte := 0
  const END: byte := 1
  const DIRECT: byte := 2

  /** A header: the command and the two lengths. */
  function HeaderBytes(command: byte, contentLength: uint16, paddingLength: uint16): seq<byte> {
    [command, contentLength / 256, contentLength % 256, paddingLength / 256, paddingLength % 256]
  }

  datatype Frame = Frame(command: byte, content: seq<byte>, padding: seq<byte>) {
    predicate Fits() {
      |content| < 0x1_0000 && |padding| < 0x1_0000
    }

    function Header(): seq<byte>
      requires Fits()
    {
      HeaderBytes(command, |content|, |padding|)
    }

    function Encode(): seq<byte>
      requires Fits()
    {
      Header() + content + padding
    }
  }

  lemma FrameBytes(prefix: seq<byte>, f: Frame)
    requires f.Fits()
    ensures prefix + f.Header() + f.content + f.padding == prefix + f.Encode()
  {
    Nest(prefix, f.Header(), f.content, f.padding);
  }

  predicate AllFit(fs: seq<Frame>) {
    forall i :: 0 <= i < |fs| ==> fs[i].Fits()
  }

  function EncodeAll(fs: seq<Frame>): seq<byte>
    requires AllFit(fs)
  {
    if fs == [] then [] else fs[0].Encode() + EncodeAll(fs[1..])
  }

  function Payload(fs: seq<Frame>): seq<byte> {
    if fs == [] then [] else fs[0].content + Payload(fs[1..])
  }

  /** Every frame but possibly the last says that another frame follows. */
  predicate AllContinue(fs: seq<Frame>) {
    forall i :: 0 <= i < |fs| ==> fs[i].command == CONTINUE
  }

  predicate Terminated(fs: seq<Frame>) {
    && fs != []
    && AllContinue(fs[..|fs| - 1])
    && fs[|fs| - 1].command != CONTINUE
  }

  /** The reader's counters: RemainingCommand, RemainingContent, RemainingPadding and CurrentCommand. */
  datatype Parser = Parser(command: int, content: int, padding: int, current: int) {

    predicate Initial() {
      command == -1 && content == -1 && padding == -1
    }

    /** Inside a framed stream: the next byte belongs to a header, a content or a padding. */
    predicate Open() {
      && 0 <= command <= 5
      && -1 <= content < 0x1_0000
      && -1 <= padding < 0x1_0000
      && (command <= 3 ==> 0 <= content)
      && (command == 3 ==> content <= 0xFF00)
      && (command <= 1 ==> 0 <= padding)
      && (command == 1 ==> padding <= 0xFF00)
      && (command == 0 ==> content > 0 || padding > 0)
    }

    predicate Ok() {
      Initial() || Open()
    }

    /** The block is done: either await the next header or go back to the initial state. */
    function Settle(): Parser {
      if command <= 0 && content <= 0 && padding <= 0 then
        if current == 0 then this.(command := 5) else Parser(-1, -1, -1, current)
      else
        this
    }

    function Absorb(b: byte): Parser {
      if command > 0 then
        var p :=
          match command
          case 5 => this.(current := b)
          case 4 => this.(content := BigEndian(b, 0))
          case 3 => this.(content := content + b)
          case 2 => this.(padding := BigEndian(b, 0))
          case 1 => this.(padding := padding + b)
          case _ => this;
        p.(command := command - 1)
      else if content > 0 then this.(content := content - 1)
      else this.(padding := padding - 1)
    }

    function Step(b: byte): (p: Parser)
      ensures Open() ==> p.Ok()
    {
      Absorb(b).Settle()
    }

    function Emit(b: byte): seq<byte> {
      if command <= 0 && content > 0 then [b] else []
    }
  }

  datatype Fed = Fed(parser: Parser, out: seq<byte>) {
    function Before(prefix: seq<byte>): Fed {
      Fed(parser, prefix + out)
    }
  }

  /** Runs the parser over the bytes of one buffer; once a terminating frame is complete
      the rest of the buffer is passed through. */
  function Feed(p: Parser, bs: seq<byte>): (r: Fed)
    requires p.Open()
    ensures r.parser.Ok()
    ensures |r.out| <= |bs|
    decreases |bs|
  {
    if bs == [] then Fed(p, [])
    else
      var p1 := p.Step(bs[0]);
      if p1.Initial() then Fed(p1, p.Emit(bs[0]) + bs[1..])
      else Feed(p1, bs[1..]).Before(p.Emit(bs[0]))
  }

  /** What a later buffer does after an earlier one, when it is not mistaken for a new stream. */
  function Resume(r: Fed, bs: seq<byte>): Fed
    requires r.parser.Ok()
  {
    if r.parser.Initial() then Fed(r.parser, r.out + bs)
    else Feed(r.parser, bs).Before(r.out)
  }

  lemma BeforeResume(prefix: seq<byte>, r: Fed, bs: seq<byte>)
    requires r.parser.Ok()
    ensures Resume(r, bs).Before(prefix) == Resume(r.Before(prefix), bs)
  {
    if r.parser.Initial() {
      Assoc(prefix, r.out, bs);
    } else {
      Assoc(prefix, r.out, Feed(r.parser, bs).out);
    }
  }

  lemma {:induction false} FeedSplit(p: Parser, a: seq<byte>, b: seq<byte>)
    requires p.Open()
    ensures Feed(p, a + b) == Resume(Feed(p, a), b)
    decreases |a|
  {
    if a == [] {
      assert a + b == b;
      assert [] + Feed(p, b).out == Feed(p, b).out;
    } else {
      var p1 := p.Step(a[0]);
      assert (a + b)[1..] == a[1..] + b;
      if p1.Initial() {
        Assoc(p.Emit(a[0]), a[1..], b);
      } else {
        FeedSplit(p1, a[1..], b);
        BeforeResume(p.Emit(a[0]), Feed(p1, a[1..]), b);
      }
    }
  }

  // --- bulk steps: what one iteration of the loop in XtlsUnpadding consumes ---

  lemma {:induction false} FeedContent(p: Parser, bs: seq<byte>)
    requires p.Open() && p.command == 0 && p.content > 0 && |bs| <= p.content
    ensures Feed(p, bs) == Fed(p.(content := p.content - |bs|).Settle(), bs)
    decreases |bs|
  {
    if bs != [] {
      var p1 := p.Step(bs[0]);
      if p1.Initial() || p1.content <= 0 {
        assert bs == [bs[0]];
      } else {
        FeedContent(p1, bs[1..]);
      }
      assert bs == [bs[0]] + bs[1..];
    }
  }

  lemma {:induction false} FeedPadding(p: Parser, bs: seq<byte>)
    requires p.Open() && p.command == 0 && p.content <= 0 && |bs| <= p.padding
    ensures Feed(p, bs) == Fed(p.(padding := p.padding - |bs|).Settle(), [])
    decreases |bs|
  {
    if bs != [] {
      var p1 := p.Step(bs[0]);
      if p1.Initial() || p1.padding <= 0 {
        assert bs == [bs[0]];
      } else {
        FeedPadding(p1, bs[1..]);
      }
    }
  }

  lemma {:induction false} FeedHeader(p: Parser, h: seq<byte>)
    requires p.Open() && p.command == 5 && |h| == 5
    ensures Feed(p, h) == Fed(Parser(0, BigEndian(h[1], h[2]), BigEndian(h[3], h[4]), h[0]).Settle(), [])
  {
    var p1 := p.Step(h[0]);
    var p2 := p1.Step(h[1]);
    var p3 := p2.Step(h[2]);
    var p4 := p3.Step(h[3]);
    var p5 := p4.Step(h[4]);
    assert p1 == p.(command := 4, current := h[0]);
    assert p2 == Parser(3, BigEndian(h[1], 0), p.padding, h[0]);
    assert p3 == Parser(2, BigEndian(h[1], h[2]), p.padding, h[0]);
    assert p4 == Parser(1, BigEndian(h[1], h[2]), BigEndian(h[3], 0), h[0]);
    assert Feed(p4, h[4..]) == Fed(p5, []) by { assert h[4..][1..] == []; }
    assert Feed(p3, h[3..]) == Fed(p5, []) by { assert h[3..][1..] == h[4..]; }
    assert Feed(p2, h[2..]) == Fed(p5, []) by { assert h[2..][1..] == h[3..]; }
    assert Feed(p1, h[1..]) == Fed(p5, []) by { assert h[1..][1..] == h[2..]; }
  }

  /** The parser's state once the five header bytes of `f` are in. */
  function AfterHeader(f: Frame): Parser {
    Parser(0, |f.content|, |f.padding|, f.command).Settle()
  }

  /** The parser's state once the whole of `f` is in. */
  function AfterFrame(f: Frame): Parser {
    Parser(0, 0, 0, f.command).Settle()
  }

  lemma FeedBody(f: Frame)
    requires f.Fits() && (f.content != [] || f.padding != [])
    ensures Feed(AfterHeader(f), f.content + f.padding) == Fed(AfterFrame(f), f.content)
  {
    var p := AfterHeader(f);
    if f.content == [] {
      FeedPadding(p, f.padding);
      assert f.content + f.padding == f.padding;
    } else {
      FeedContent(p, f.content);
      FeedSplit(p, f.content, f.padding);
      if f.padding != [] {
        FeedPadding(Parser(0, 0, |f.padding|, f.command), f.padding);
        assert f.content + [] == f.content;
      }
      assert f.padding == [] ==> f.content + f.padding == f.content;
    }
  }

  /** Parsing inverts printing for one frame, whatever follows it. */
  lemma FeedFrame(p: Parser, f: Frame)
    requires p.Open() && p.command == 5 && f.Fits()
    ensures Feed(p, f.Encode()) == Fed(AfterFrame(f), f.content)
  {
    FeedHeader(p, f.Header());
    var body := f.content + f.padding;
    assert f.Encode() == f.Header() + body;
    FeedSplit(p, f.Header(), body);
    if body == [] {
      assert f.content == [] && f.padding == [];
      assert f.Encode() == f.Header();
    } else {
      assert f.content != [] || f.padding != [];
      FeedBody(f);
      assert [] + f.content == f.content;
    }
  }

  /** The state between two frames. */
  const BOUNDARY := Parser(5, 0, 0, 0)

  /** The state right after the UUID has been stripped. */
  const START := Parser(5, -1, -1, 0)

  function AfterAll(p: Parser, fs: seq<Frame>): Parser {
    if fs == [] then p else AfterFrame(fs[|fs| - 1])
  }

  /** Parsing inverts printing for every legal sequence of frames. */
  lemma {:induction false} FeedFrames(p: Parser, fs: seq<Frame>)
    requires p.Open() && p.command == 5 && AllFit(fs)
    requires fs != [] ==> AllContinue(fs[..|fs| - 1])
    ensures Feed(p, EncodeAll(fs)) == Fed(AfterAll(p, fs), Payload(fs))
    decreases |fs|
  {
    if fs != [] {
      var f, rest := fs[0], fs[1..];
      FeedFrame(p, f);
      FeedSplit(p, f.Encode(), EncodeAll(rest));
      if rest == [] {
        assert f.Encode() + EncodeAll(rest) == f.Encode();
        assert f.content + Payload(rest) == f.content;
      } else {
        assert fs[..|fs| - 1][0] == f;
        assert rest[..|rest| - 1] == fs[..|fs| - 1][1..];
        FeedFrames(BOUNDARY, rest);
      }
    }
  }

  // --- no proper prefix of a terminated stream completes it ---

  lemma {:induction false} FeedHeaderOpen(p: Parser, h: seq<byte>, k: nat)
    requires p.Open() && p.command == 5 && k < 5 && |h| == 5
    ensures Feed(p, h[..k]).parser.Open() && Feed(p, h[..k]).parser.command == 5 - k
    ensures Feed(p, h[..k]).out == []
    decreases k
  {
    if k > 0 {
      FeedHeaderOpen(p, h, k - 1);
      var q := Feed(p, h[..k - 1]).parser;
      FeedSplit(p, h[..k - 1], [h[k - 1]]);
      assert h[..k] == h[..k - 1] + [h[k - 1]];
      assert Feed(q, [h[k - 1]]) == Fed(q.Step(h[k - 1]), []);
    }
  }

  lemma FeedBodyOpen(f: Frame, k: nat)
    requires f.Fits() && k < |f.content + f.padding|
    ensures Feed(AfterHeader(f), (f.content + f.padding)[..k]).parser.Open()
  {
    var p := AfterHeader(f);
    var body := f.content + f.padding;
    if k <= |f.content| && f.content != [] {
      assert body[..k] == f.content[..k];
      FeedContent(p, f.content[..k]);
    } else {
      var j := k - |f.content|;
      assert body[..k] == f.content + f.padding[..j];
      if f.content == [] {
        assert body[..k] == f.padding[..j];
        FeedPadding(p, f.padding[..j]);
      } else {
        FeedContent(p, f.content);
        FeedSplit(p, f.content, f.padding[..j]);
        FeedPadding(Parser(0, 0, |f.padding|, f.command), f.padding[..j]);
      }
    }
  }

  lemma FeedFrameOpen(p: Parser, f: Frame, k: nat)
    requires p.Open() && p.command == 5 && f.Fits() && k < |f.Encode()|
    ensures Feed(p, f.Encode()[..k]).parser.Open()
  {
    var h, body := f.Header(), f.content + f.padding;
    assert f.Encode() == h + body;
    if k < 5 {
      assert f.Encode()[..k] == h[..k];
      FeedHeaderOpen(p, h, k);
    } else {
      assert f.Encode()[..k] == h + body[..k - 5];
      FeedRestOpen(p, f, k - 5);
    }
  }

  lemma FeedRestOpen(p: Parser, f: Frame, k: nat)
    requires p.Open() && p.command == 5 && f.Fits() && k < |f.content + f.padding|
    ensures Feed(p, f.Header() + (f.content + f.padding)[..k]).parser.Open()
  {
    FeedHeader(p, f.Header());
    FeedSplit(p, f.Header(), (f.content + f.padding)[..k]);
    FeedBodyOpen(f, k);
  }

  /** The parser stays inside the framed stream until its very last byte. */
  lemma {:induction false} FeedFramesOpen(p: Parser, fs: seq<Frame>, k: nat)
    requires p.Open() && p.command == 5 && AllFit(fs)
    requires fs != [] ==> AllContinue(fs[..|fs| - 1])
    requires k < |EncodeAll(fs)|
    ensures Feed(p, EncodeAll(fs)[..k]).parser.Open()
    decreases |fs|
  {
    var f, rest := fs[0], fs[1..];
    if k < |f.Encode()| {
      assert EncodeAll(fs)[..k] == f.Encode()[..k];
      FeedFrameOpen(p, f, k);
    } else {
      var j := k - |f.Encode()|;
      assert EncodeAll(fs)[..k] == f.Encode() + EncodeAll(rest)[..j];
      FeedFrame(p, f);
      FeedSplit(p, f.Encode(), EncodeAll(rest)[..j]);
      assert rest != [];
      assert fs[..|fs| - 1][0] == f;
      assert rest[..|rest| - 1] == fs[..|fs| - 1][1..];
      FeedFramesOpen(BOUNDARY, rest, j);
    }
  }
}
