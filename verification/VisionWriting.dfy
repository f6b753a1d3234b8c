/** The writer: reshaping, padding and the command that each frame carries. */
module VisionWriting {
  import opened Bytes
  import opened VisionFrames
  import opened VisionFilter

  /** UUID and header: the room a buffer must leave. */
  const OVERHEAD := 21

  // --- reshaping ---

  /** Where an oversized buffer is cut: before its last application-data record if that leaves room on both
      sides, otherwise in the middle. */
  function CutIndex(b: Buffer): (i: nat)
    requires |b| >= SIZE - OVERHEAD
    ensures OVERHEAD <= i <= SIZE - OVERHEAD
  {
    var i := LastIndex(b, APPLICATION_DATA_START);
    if i < OVERHEAD || i > SIZE - OVERHEAD then SIZE / 2 else i
  }

  function ReshapeOne(b: Slot): MultiBuffer {
    var c := b.Content();
    if |c| >= SIZE - OVERHEAD then [Buf(c[..CutIndex(c)]), Buf(c[CutIndex(c)..])] else [b]
  }

  function Reshape(mb: MultiBuffer): MultiBuffer {
    if mb == [] then [] else ReshapeOne(mb[0]) + Reshape(mb[1..])
  }

  predicate Roomy(mb: MultiBuffer) {
    forall i :: 0 <= i < |mb| ==> |mb[i].Content()| <= SIZE - OVERHEAD
  }

  lemma ReshapeOneStream(b: Slot)
    ensures Stream(ReshapeOne(b)) == b.Content()
    ensures Roomy(ReshapeOne(b))
  {
    var c := b.Content();
    var mb := ReshapeOne(b);
    if |c| >= SIZE - OVERHEAD {
      assert mb[1..] == [Buf(c[CutIndex(c)..])];
      assert Stream(mb[1..]) == c[CutIndex(c)..] + [];
      assert c == c[..CutIndex(c)] + c[CutIndex(c)..];
    } else {
      assert mb[1..] == [];
    }
  }

  /** Reshaping keeps the byte stream and leaves room for UUID and header in every buffer. */
  lemma {:induction false} ReshapeCorrect(mb: MultiBuffer)
    ensures Stream(Reshape(mb)) == Stream(mb)
    ensures Roomy(Reshape(mb))
    ensures |mb| <= |Reshape(mb)| <= 2 * |mb|
    ensures Roomy(mb) && (forall i :: 0 <= i < |mb| ==> |mb[i].Content()| < SIZE - OVERHEAD) ==> Reshape(mb) == mb
  {
    if mb != [] {
      ReshapeOneStream(mb[0]);
      ReshapeCorrect(mb[1..]);
      StreamConcat(ReshapeOne(mb[0]), Reshape(mb[1..]));
    }
  }

  // --- padding ---

  /** The outcome of one random draw, and the old bytes of the pooled buffer, which `Extend` exposes as padding. */
  datatype RawDraw = RawDraw(short: nat, long: nat, junk: seq<byte>)
  type Draw = d: RawDraw | d.short < 256 && d.long < 500 && |d.junk| == SIZE
    witness RawDraw(0, 0, seq(SIZE, _ => 0))

  /** The padding never exceeds what the buffer has left, and is never negative for a buffer that leaves room. */
  function PaddingLength(contentLength: nat, long: bool, d: Draw): (r: int)
    ensures r <= SIZE - OVERHEAD - contentLength
    ensures contentLength <= SIZE - OVERHEAD ==> r >= 0
  {
    var n := if contentLength < 900 && long then d.long + 900 - contentLength else d.short;
    if n > SIZE - OVERHEAD - contentLength then SIZE - OVERHEAD - contentLength else n
  }

  /** One element of what the writer emits: a frame, the first one behind the UUID, or a buffer passed on as it is. */
  datatype Piece = Framed(prefix: seq<byte>, frame: Frame) | Raw(data: Slot) {

    predicate Ok() {
      Framed? ==> frame.Fits() && |prefix| + |frame.Encode()| <= SIZE
    }

    function Bytes(): seq<byte>
      requires Ok()
    {
      if Framed? then prefix + frame.Encode() else data.Content()
    }

    function Payload(): seq<byte> {
      if Framed? then frame.content else data.Content()
    }

    /** The buffer handed to the underlying writer. */
    function Slot(): Slot
      requires Ok()
    {
      if Framed? then Buf(prefix + frame.Encode()) else data
    }
  }

  /** The old bytes of the pooled buffer that extending it by `n` at `at` exposes. */
  function Exposed(d: Draw, at: nat, n: nat): (junk: seq<byte>)
    requires at + n <= SIZE
    ensures |junk| == n
  {
    d.junk[at..at + n]
  }

  function Pad(once: seq<byte>, b: Slot, command: byte, long: bool, d: Draw): (p: Piece)
    requires |once| <= 16 && |b.Content()| <= SIZE - OVERHEAD
    ensures p.Ok()
  {
    var c := b.Content();
    var n := PaddingLength(|c|, long, d);
    Framed(once, Frame(command, c, Exposed(d, |once| + 5 + |c|, n)))
  }

  /** The buffer that padding `b` produces. */
  function PaddedSlot(once: seq<byte>, b: Slot, command: byte, long: bool, d: Draw): Slot
    requires |once| <= 16 && |b.Content()| <= SIZE - OVERHEAD
  {
    Pad(once, b, command, long, d).Slot()
  }

  /** IsPadding, WriterSwitchToDirectCopy and the UUID that is still to be written. */
  datatype Writer = Writer(padding: bool, direct: bool, once: seq<byte>)

  predicate LooksLikeApplicationData(b: seq<byte>) {
    |b| >= 6 && b[..3] == APPLICATION_DATA_START
  }

  function Terminator(f: Filter): byte {
    if f.enableXtls then DIRECT else END
  }

  function Raws(mb: MultiBuffer): seq<Piece> {
    if mb == [] then [] else [Raw(mb[0])] + Raws(mb[1..])
  }

  datatype Written = Written(writer: Writer, pieces: seq<Piece>) {
    function After(p: Piece): Written {
      Written(writer, [p] + pieces)
    }
  }

  /** What the loop decides about one buffer: the frame's command and whether its padding is long, whether later
      padding may be long, whether the remaining buffers go out raw, and the two writer flags. */
  datatype Choice = Choice(command: byte, long: bool, nextLong: bool, stop: bool, padding: bool, direct: bool)

  function Choose(f: Filter, padding: bool, direct: bool, long: bool, b: seq<byte>, last: bool): Choice {
    if f.tls && LooksLikeApplicationData(b) then
      Choice(if last then Terminator(f) else CONTINUE, true, false, false, false, direct || f.enableXtls)
    else if !f.tls12 && f.packets <= 1 then
      Choice(END, long, long, true, false, direct)
    else
      Choice(if last && !padding then Terminator(f) else CONTINUE, long, long, false, padding, direct)
  }

  /** The padding loop over reshaped buffers. */
  function PadFrom(f: Filter, w: Writer, long: bool, mb: MultiBuffer, ds: seq<Draw>): Written
    requires |ds| >= |mb| && Roomy(mb) && |w.once| <= 16
    decreases |mb|
  {
    if mb == [] then Written(w, [])
    else
      var c := Choose(f, w.padding, w.direct, long, mb[0].Content(), |mb| == 1);
      var w' := Writer(c.padding, c.direct, []);
      var rest := if c.stop then Written(w', Raws(mb[1..])) else PadFrom(f, w', c.nextLong, mb[1..], ds[1..]);
      rest.After(Pad(w.once, mb[0], c.command, c.long, ds[0]))
  }

  /** One write, after the filter has had its look: what the writer emits and remembers. */
  function Write(f: Filter, w: Writer, mb: MultiBuffer, ds: seq<Draw>): Written
    requires |ds| >= 2 * |mb| && |w.once| <= 16
  {
    if !w.padding then Written(w, Raws(mb))
    else if mb == [Nil] then Written(w.(once := []), [Pad(w.once, Nil, CONTINUE, true, ds[0])])
    else
      ReshapeCorrect(mb);
      PadFrom(f, w, f.tls, Reshape(mb), ds)
  }

  // --- the grammar of what is sent ---

  predicate AllRaw(ps: seq<Piece>) {
    forall i :: 0 <= i < |ps| ==> ps[i].Raw?
  }

  /** UUID once, then continuing frames, then at most one End or Direct frame, then raw buffers. */
  predicate Grammar(once: seq<byte>, ps: seq<Piece>)
    decreases |ps|
  {
    ps == [] ||
    (&& ps[0].Framed? && ps[0].Ok() && ps[0].prefix == once
     && (if ps[0].frame.command == CONTINUE then Grammar([], ps[1..])
         else ps[0].frame.command in {END, DIRECT} && AllRaw(ps[1..])))
  }

  /** A terminating frame has been sent. */
  predicate Closed(ps: seq<Piece>) {
    exists i :: 0 <= i < |ps| && ps[i].Framed? && ps[i].frame.command != CONTINUE
  }

  /** A frame that switches to raw copy has been sent. */
  predicate SaysDirect(ps: seq<Piece>) {
    exists i :: 0 <= i < |ps| && ps[i].Framed? && ps[i].frame.command == DIRECT
  }

  function Sent(ps: seq<Piece>): seq<byte>
    requires forall i :: 0 <= i < |ps| ==> ps[i].Ok()
  {
    if ps == [] then [] else ps[0].Bytes() + Sent(ps[1..])
  }

  function Carried(ps: seq<Piece>): seq<byte> {
    if ps == [] then [] else ps[0].Payload() + Carried(ps[1..])
  }

  function Frames(ps: seq<Piece>): seq<Frame> {
    if ps == [] then [] else (if ps[0].Framed? then [ps[0].frame] else []) + Frames(ps[1..])
  }

  function Tail(ps: seq<Piece>): seq<byte> {
    if ps == [] then [] else (if ps[0].Framed? then [] else ps[0].data.Content()) + Tail(ps[1..])
  }

  lemma {:induction false} RawsCorrect(mb: MultiBuffer)
    ensures AllRaw(Raws(mb)) && Carried(Raws(mb)) == Stream(mb)
    ensures !Closed(Raws(mb)) && !SaysDirect(Raws(mb)) && |Raws(mb)| == |mb|
  {
    if mb != [] {
      RawsCorrect(mb[1..]);
    }
  }

  lemma ConsFacts(p: Piece, ps: seq<Piece>)
    ensures Carried([p] + ps) == p.Payload() + Carried(ps)
    ensures Closed([p] + ps) <==> (p.Framed? && p.frame.command != CONTINUE) || Closed(ps)
    ensures SaysDirect([p] + ps) <==> (p.Framed? && p.frame.command == DIRECT) || SaysDirect(ps)
  {
    var qs := [p] + ps;
    assert qs[1..] == ps;
    assert qs[0] == p;
    assert forall i :: 0 <= i < |ps| ==> ps[i] == qs[i + 1];
    assert forall i :: 0 < i < |qs| ==> qs[i] == ps[i - 1];
  }

  /** The pieces obey the grammar and carry exactly the input; they close the stream exactly when IsPadding is
      cleared, with a Direct frame exactly when WriterSwitchToDirectCopy is set. */
  predicate PadsCorrectly(once: seq<byte>, input: seq<byte>, r: Written) {
    && Grammar(once, r.pieces)
    && Carried(r.pieces) == input
    && Closed(r.pieces) == !r.writer.padding
    && SaysDirect(r.pieces) == r.writer.direct
    && r.writer.once == (if r.pieces == [] then once else [])
  }

  lemma PadsLast(p: Piece, w: Writer, rest: MultiBuffer)
    requires p.Framed? && p.Ok() && w.once == []
    requires if p.frame.command == CONTINUE then rest == [] else p.frame.command in {END, DIRECT}
    requires w.padding == (p.frame.command == CONTINUE) && w.direct == (p.frame.command == DIRECT)
    ensures PadsCorrectly(p.prefix, p.Payload() + Stream(rest), Written(w, [p] + Raws(rest)))
  {
    RawsCorrect(rest);
    ConsFacts(p, Raws(rest));
    assert ([p] + Raws(rest))[1..] == Raws(rest);
  }

  lemma PadsMore(p: Piece, input: seq<byte>, r: Written)
    requires p.Framed? && p.Ok() && p.frame.command == CONTINUE
    requires PadsCorrectly([], input, r)
    ensures PadsCorrectly(p.prefix, p.Payload() + input, r.After(p))
  {
    ConsFacts(p, r.pieces);
    assert ([p] + r.pieces)[1..] == r.pieces;
  }

  /** The padding loop is correct for every filter verdict that satisfies the filter's invariant. */
  lemma {:induction false} PadFromCorrect(f: Filter, w: Writer, long: bool, mb: MultiBuffer, ds: seq<Draw>)
    requires |ds| >= |mb| && Roomy(mb) && |w.once| <= 16 && f.Inv()
    requires w.direct == (f.enableXtls && !w.padding)
    requires !w.padding ==> mb != []
    ensures PadsCorrectly(w.once, Stream(mb), PadFrom(f, w, long, mb, ds))
    ensures PadFrom(f, w, long, mb, ds).pieces == [] <==> mb == []
    decreases |mb|
  {
    if mb != [] {
      var rest := mb[1..];
      var c := Choose(f, w.padding, w.direct, long, mb[0].Content(), |mb| == 1);
      var p := Pad(w.once, mb[0], c.command, c.long, ds[0]);
      var w' := Writer(c.padding, c.direct, []);
      if c.stop {
        PadsLast(p, w', rest);
      } else if rest == [] {
        PadsLast(p, w', rest);
        assert Raws(rest) == [];
      } else {
        PadFromCorrect(f, w', c.nextLong, rest, ds[1..]);
        PadsMore(p, Stream(rest), PadFrom(f, w', c.nextLong, rest, ds[1..]));
      }
    }
  }

  /** What holds of a writer between two writes, given all it has sent. */
  predicate WriterInv(uuid: seq<byte>, w: Writer, sent: seq<Piece>) {
    && Grammar(uuid, sent)
    && Closed(sent) == !w.padding
    && SaysDirect(sent) == w.direct
    && w.once == (if sent == [] then uuid else [])
  }

  lemma {:induction false} GrammarAppend(once: seq<byte>, a: seq<Piece>, b: seq<Piece>)
    requires Grammar(once, a)
    requires if Closed(a) then AllRaw(b) else Grammar(if a == [] then once else [], b)
    ensures Grammar(once, a + b)
    decreases |a|
  {
    if a == [] {
      assert a + b == b;
    } else {
      var p, rest := a[0], a[1..];
      assert a == [p] + rest;
      ConsFacts(p, rest);
      assert (a + b)[0] == p && (a + b)[1..] == rest + b;
      if p.frame.command == CONTINUE {
        GrammarAppend([], rest, b);
      } else {
        RawGrammarAppend(rest, b);
      }
    }
  }

  lemma {:induction false} CarriedConcat(a: seq<Piece>, b: seq<Piece>)
    ensures Carried(a + b) == Carried(a) + Carried(b)
    decreases |a|
  {
    if a == [] {
      assert a + b == b;
    } else {
      CarriedConcat(a[1..], b);
      assert (a + b)[1..] == a[1..] + b;
      Assoc(a[0].Payload(), Carried(a[1..]), Carried(b));
    }
  }

  lemma MarksConcat(a: seq<Piece>, b: seq<Piece>)
    ensures Closed(a + b) == (Closed(a) || Closed(b))
    ensures SaysDirect(a + b) == (SaysDirect(a) || SaysDirect(b))
  {
    var c := a + b;
    assert forall i :: 0 <= i < |a| ==> a[i] == c[i];
    assert forall i :: 0 <= i < |b| ==> b[i] == c[|a| + i];
    assert forall i :: |a| <= i < |c| ==> c[i] == b[i - |a|];
  }

  lemma RawGrammarAppend(a: seq<Piece>, b: seq<Piece>)
    requires AllRaw(a) && AllRaw(b)
    ensures AllRaw(a + b)
  {}

  /** One write keeps the invariant and carries exactly the bytes it was given. */
  lemma WriteKeepsInv(uuid: seq<byte>, f: Filter, w: Writer, sent: seq<Piece>, mb: MultiBuffer, ds: seq<Draw>)
    requires |ds| >= 2 * |mb| && |uuid| <= 16 && f.Inv() && WriterInv(uuid, w, sent)
    ensures
      var r := Write(f, w, mb, ds);
      && WriterInv(uuid, r.writer, sent + r.pieces)
      && Carried(sent + r.pieces) == Carried(sent) + Stream(mb)
      && (!w.padding ==> !r.writer.padding && r.writer.direct == w.direct)
  {
    var r := Write(f, w, mb, ds);
    if !w.padding {
      RawsCorrect(mb);
    } else if mb == [Nil] {
      ConsFacts(r.pieces[0], []);
      assert mb[1..] == [];
      assert r.pieces[1..] == [];
      assert Stream(mb) == [] + Stream([]);
      assert r.pieces == [r.pieces[0]] + [];
    } else {
      ReshapeCorrect(mb);
      assert SaysDirect(sent) ==> Closed(sent);
      PadFromCorrect(f, w, f.tls, Reshape(mb), ds);
    }
    GrammarAppend(uuid, sent, r.pieces);
    CarriedConcat(sent, r.pieces);
    MarksConcat(sent, r.pieces);
    assert sent + r.pieces == [] <==> sent == [] && r.pieces == [];
  }

  // --- from the grammar to the wire ---

  lemma {:induction false} RawWire(ps: seq<Piece>)
    requires AllRaw(ps)
    ensures Sent(ps) == Tail(ps) == Carried(ps) && Frames(ps) == [] && !Closed(ps) && !SaysDirect(ps)
  {
    if ps != [] {
      RawWire(ps[1..]);
    }
  }

  lemma {:induction false} GrammarOk(once: seq<byte>, ps: seq<Piece>)
    requires Grammar(once, ps)
    ensures forall i :: 0 <= i < |ps| ==> ps[i].Ok()
    decreases |ps|
  {
    if ps != [] && ps[0].frame.command == CONTINUE {
      GrammarOk([], ps[1..]);
      assert forall i :: 0 < i < |ps| ==> ps[i] == ps[1..][i - 1];
    } else if ps != [] {
      assert forall i :: 0 < i < |ps| ==> ps[i] == ps[1..][i - 1];
    }
  }

  /** The grammar at its terminating frame. */
  lemma ClosingWire(once: seq<byte>, p: Piece, rest: seq<Piece>)
    requires p.Framed? && p.Ok() && p.prefix == once && p.frame.command in {END, DIRECT} && AllRaw(rest)
    ensures OnWire(once, [p] + rest)
  {
    RawWire(rest);
    ConsFacts(p, rest);
    ConsWire(p, rest);
    TerminatedOne(p.frame);
    assert [p.frame] + [] == [p.frame] && [p.frame][1..] == [];
    assert EncodeAll([p.frame]) == p.frame.Encode() + [] == p.frame.Encode();
    assert Payload([p.frame]) == p.frame.content + [] == p.frame.content;
  }

  /** The grammar at a continuing frame: its facts follow from those of what comes after. */
  lemma ContinuingWire(once: seq<byte>, p: Piece, rest: seq<Piece>)
    requires p.Framed? && p.Ok() && p.prefix == once
    requires forall i :: 0 <= i < |rest| ==> rest[i].Ok()
    requires AllFit(Frames(rest)) && Sent(rest) == EncodeAll(Frames(rest)) + Tail(rest)
    ensures AllFit([p.frame] + Frames(rest))
    ensures p.Bytes() + Sent(rest) == once + EncodeAll([p.frame] + Frames(rest)) + Tail(rest)
  {
    EncodeCons(p.frame, Frames(rest));
    Glue(once, p.frame.Encode(), EncodeAll(Frames(rest)), Tail(rest),
         p.Bytes(), Sent(rest), EncodeAll([p.frame] + Frames(rest)));
  }

  lemma Glue(a: seq<byte>, b: seq<byte>, c: seq<byte>, d: seq<byte>, ab: seq<byte>, cd: seq<byte>, bc: seq<byte>)
    requires ab == a + b && cd == c + d && bc == b + c
    ensures ab + cd == a + bc + d
  {
  }

  lemma EncodeCons(f: Frame, fs: seq<Frame>)
    requires f.Fits() && AllFit(fs)
    ensures AllFit([f] + fs) && EncodeAll([f] + fs) == f.Encode() + EncodeAll(fs)
  {
    assert ([f] + fs)[1..] == fs;
  }

  lemma ContinuingPayload(p: Piece, rest: seq<Piece>)
    requires p.Framed? && Carried(rest) == Payload(Frames(rest)) + Tail(rest)
    ensures p.Payload() + Carried(rest) == Payload([p.frame] + Frames(rest)) + Tail(rest)
  {
    assert ([p.frame] + Frames(rest))[1..] == Frames(rest);
    Associate([], p.frame.content, Payload(Frames(rest)), Tail(rest));
  }

  lemma TerminatedCons(f: Frame, fs: seq<Frame>)
    requires f.command == CONTINUE && Terminated(fs)
    ensures Terminated([f] + fs)
    ensures ([f] + fs)[|fs|] == fs[|fs| - 1]
  {
    assert ([f] + fs)[..|fs|] == [f] + fs[..|fs| - 1];
  }

  lemma TerminatedOne(f: Frame)
    requires f.command != CONTINUE
    ensures Terminated([f])
  {
    assert [f][..0] == [];
  }

  lemma ConsWire(p: Piece, ps: seq<Piece>)
    requires p.Framed? && p.Ok() && forall i :: 0 <= i < |ps| ==> ps[i].Ok()
    ensures Frames([p] + ps) == [p.frame] + Frames(ps)
    ensures Tail([p] + ps) == Tail(ps)
    ensures Sent([p] + ps) == p.Bytes() + Sent(ps)
  {
    var qs := [p] + ps;
    assert qs[1..] == ps;
    assert qs[0] == p;
  }

  /** The stream is the UUID, then the encoding of a sequence of frames, then the raw bytes. */
  predicate Laid(once: seq<byte>, ps: seq<Piece>) {
    && (forall i :: 0 <= i < |ps| ==> ps[i].Ok())
    && AllFit(Frames(ps))
    && Sent(ps) == once + EncodeAll(Frames(ps)) + Tail(ps)
  }

  /** The frames are legal, terminated exactly when the writer has closed the padding, and by a Direct frame exactly
      when it says so. */
  predicate Ended(ps: seq<Piece>) {
    && Frames(ps) != []
    && (if Closed(ps) then EndsWith(Frames(ps), if SaysDirect(ps) then DIRECT else END)
        else AllContinue(Frames(ps)) && Tail(ps) == [] && !SaysDirect(ps))
  }

  predicate OnWire(once: seq<byte>, ps: seq<Piece>) {
    && Laid(once, ps)
    && Ended(ps)
    && Carried(ps) == Payload(Frames(ps)) + Tail(ps)
  }

  predicate EndsWith(fs: seq<Frame>, command: byte) {
    Terminated(fs) && fs[|fs| - 1].command == command
  }

  lemma LaidCons(once: seq<byte>, p: Piece, rest: seq<Piece>)
    requires p.Framed? && p.Ok() && p.prefix == once && Laid([], rest)
    ensures Laid(once, [p] + rest)
  {
    var fs := Frames(rest);
    assert [] + EncodeAll(fs) == EncodeAll(fs);
    ContinuingWire(once, p, rest);
    ConsWire(p, rest);
  }

  lemma EndedCons(p: Piece, rest: seq<Piece>)
    requires p.Framed? && p.Ok() && p.frame.command == CONTINUE
    requires forall i :: 0 <= i < |rest| ==> rest[i].Ok()
    requires rest != [] ==> Ended(rest)
    ensures Ended([p] + rest)
  {
    ConsWire(p, rest);
    ConsFacts(p, rest);
    if Closed(rest) {
      TerminatedCons(p.frame, Frames(rest));
    }
  }

  lemma OnWireCons(once: seq<byte>, p: Piece, rest: seq<Piece>)
    requires p.Framed? && p.Ok() && p.prefix == once && p.frame.command == CONTINUE
    requires rest != [] ==> OnWire([], rest)
    ensures OnWire(once, [p] + rest)
  {
    LaidCons(once, p, rest);
    EndedCons(p, rest);
    ConsWire(p, rest);
    ConsFacts(p, rest);
    ContinuingPayload(p, rest);
  }

  /** Everything that obeys the grammar reads on the wire as the framing says. */
  lemma {:induction false} GrammarWire(once: seq<byte>, ps: seq<Piece>)
    requires Grammar(once, ps) && ps != []
    ensures OnWire(once, ps)
    decreases |ps|
  {
    GrammarOk(once, ps);
    var p, rest := ps[0], ps[1..];
    assert ps == [p] + rest;
    if p.frame.command != CONTINUE {
      ClosingWire(once, p, rest);
    } else {
      if rest != [] {
        GrammarWire([], rest);
      }
      OnWireCons(once, p, rest);
    }
  }
}
