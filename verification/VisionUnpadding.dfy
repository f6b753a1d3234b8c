/** Unpadding a framed stream that arrives in arbitrary buffers: fragmentation independence,
    stated as an exact condition on where the buffers are cut. */
module VisionUnpadding {
  import opened Bytes
  import opened VisionFrames

  const UUID_LENGTH := 16

  /** UUID, one command byte and two lengths. */
  const MIN_FIRST := 21

  /** A buffer that the unpadder, when in its initial state, takes for the start of a framed stream. */
  predicate Begins(uuid: seq<byte>, b: seq<byte>) {
    |b| >= MIN_FIRST && b[..UUID_LENGTH] == uuid
  }

  /** One call of the unpadder: the parser afterwards and the bytes handed on. */
  function Unpad(uuid: seq<byte>, p: Parser, b: seq<byte>): (r: Fed)
    requires p.Ok()
    ensures r.parser.Ok()
    ensures |r.out| <= |b|
  {
    if p.Initial() then
      if Begins(uuid, b) then Feed(p.(command := 5), b[UUID_LENGTH..]) else Fed(p, b)
    else
      Feed(p, b)
  }

  function UnpadAll(uuid: seq<byte>, p: Parser, cs: seq<seq<byte>>): (r: Fed)
    requires p.Ok()
    ensures r.parser.Ok()
    decreases |cs|
  {
    if cs == [] then Fed(p, [])
    else
      var r := Unpad(uuid, p, cs[0]);
      UnpadAll(uuid, r.parser, cs[1..]).Before(r.out)
  }

  predicate NoneBegins(uuid: seq<byte>, cs: seq<seq<byte>>) {
    forall i :: 0 <= i < |cs| ==> !Begins(uuid, cs[i])
  }

  /** The buffers that start at or after stream offset `n`. */
  function From(cs: seq<seq<byte>>, n: int): seq<seq<byte>> {
    if cs == [] || n <= 0 then cs else From(cs[1..], n - |cs[0]|)
  }

  /** The number of bytes of `s` up to and including the terminating frame; more than `|s|` if it is not reached. */
  function FramedLength(p: Parser, s: seq<byte>): (n: nat)
    requires p.Open()
    ensures n > 0
    decreases |s|
  {
    if s == [] || p.Step(s[0]).Initial() then 1
    else 1 + FramedLength(p.Step(s[0]), s[1..])
  }

  lemma {:induction false} FramedLengthSplit(p: Parser, a: seq<byte>, b: seq<byte>)
    requires p.Open()
    ensures Feed(p, a).parser.Initial() <==> FramedLength(p, a) <= |a|
    ensures Feed(p, a).parser.Initial() ==> FramedLength(p, a + b) == FramedLength(p, a)
    ensures Feed(p, a).parser.Open() ==> FramedLength(p, a + b) == |a| + FramedLength(Feed(p, a).parser, b)
    decreases |a|
  {
    if a == [] {
      assert a + b == b;
    } else {
      assert (a + b)[1..] == a[1..] + b;
      if !p.Step(a[0]).Initial() {
        FramedLengthSplit(p.Step(a[0]), a[1..], b);
      }
    }
  }

  /** Header bytes are never handed on. */
  lemma {:induction false} HeaderIsDropped(p: Parser, bs: seq<byte>)
    requires p.Open()
    ensures p.command <= |bs| ==> |Feed(p, bs).out| <= |bs| - p.command
    ensures p.command >= |bs| ==> Feed(p, bs).out == []
    decreases |bs|
  {
    if bs != [] && p.command > 0 {
      var p1 := p.Step(bs[0]);
      if !p1.Initial() && p1.command == p.command - 1 {
        HeaderIsDropped(p1, bs[1..]);
      }
    }
  }

  lemma StrippingShortens(uuid: seq<byte>, p: Parser, b: seq<byte>)
    requires p.Initial() && Begins(uuid, b)
    ensures |Unpad(uuid, p, b).out| <= |b| - MIN_FIRST
  {
    HeaderIsDropped(p.(command := 5), b[UUID_LENGTH..]);
  }

  lemma {:induction false} NeverLengthens(uuid: seq<byte>, p: Parser, cs: seq<seq<byte>>)
    requires p.Ok()
    ensures |UnpadAll(uuid, p, cs).out| <= |Flatten(cs)|
    decreases |cs|
  {
    if cs != [] {
      NeverLengthens(uuid, Unpad(uuid, p, cs[0]).parser, cs[1..]);
    }
  }

  /** In its initial state the unpadder is transparent exactly for buffers that do not begin with the UUID. */
  lemma {:induction false} TransparentExactly(uuid: seq<byte>, p: Parser, cs: seq<seq<byte>>)
    requires p.Initial()
    ensures UnpadAll(uuid, p, cs).out == Flatten(cs) <==> NoneBegins(uuid, cs)
    ensures NoneBegins(uuid, cs) ==> UnpadAll(uuid, p, cs) == Fed(p, Flatten(cs))
    ensures !NoneBegins(uuid, cs) ==> |UnpadAll(uuid, p, cs).out| < |Flatten(cs)|
    decreases |cs|
  {
    if cs != [] {
      var c, rest := cs[0], cs[1..];
      assert NoneBegins(uuid, cs) <==> !Begins(uuid, c) && NoneBegins(uuid, rest) by {
        if !Begins(uuid, c) && NoneBegins(uuid, rest) {
          forall i | 0 <= i < |cs| ensures !Begins(uuid, cs[i]) {
            assert i > 0 ==> cs[i] == rest[i - 1];
          }
        }
        if NoneBegins(uuid, cs) {
          assert forall i :: 0 <= i < |rest| ==> rest[i] == cs[i + 1];
        }
      }
      if Begins(uuid, c) {
        StrippingShortens(uuid, p, c);
        NeverLengthens(uuid, Unpad(uuid, p, c).parser, rest);
      } else {
        TransparentExactly(uuid, p, rest);
      }
    }
  }

  /** Fragmentation independence: however a framed stream is cut into buffers, unpadding the buffers one by one
      hands on the same bytes as unpadding the uncut stream, exactly when no buffer that starts behind the
      terminating frame begins with the UUID; and then the parser ends in the same state. Otherwise bytes are lost. */
  lemma {:induction false} FragmentationExact(uuid: seq<byte>, p: Parser, cs: seq<seq<byte>>)
    requires p.Open()
    ensures
      var whole := Feed(p, Flatten(cs));
      var tail := From(cs, FramedLength(p, Flatten(cs)));
      && (UnpadAll(uuid, p, cs).out == whole.out <==> NoneBegins(uuid, tail))
      && (NoneBegins(uuid, tail) ==> UnpadAll(uuid, p, cs) == whole)
      && (!NoneBegins(uuid, tail) ==> |UnpadAll(uuid, p, cs).out| < |whole.out|)
    decreases |cs|
  {
    if cs != [] {
      var c, rest := cs[0], cs[1..];
      var s := Flatten(rest);
      var r := Feed(p, c);
      FeedSplit(p, c, s);
      FramedLengthSplit(p, c, s);
      if r.parser.Initial() {
        FramedLengthWithin(p, c);
        TransparentExactly(uuid, r.parser, rest);
        FromBehind(rest, FramedLength(p, Flatten(cs)) - |c|);
      } else {
        FragmentationExact(uuid, r.parser, rest);
      }
    }
  }

  lemma FromBehind(cs: seq<seq<byte>>, n: int)
    requires n <= 0
    ensures From(cs, n) == cs
  {}

  lemma FramedLengthWithin(p: Parser, a: seq<byte>)
    requires p.Open() && Feed(p, a).parser.Initial()
    ensures FramedLength(p, a) <= |a|
  {
    FramedLengthSplit(p, a, []);
  }

  /** A terminated sequence of frames ends where its encoding ends. */
  lemma TerminatedLength(p: Parser, fs: seq<Frame>, tail: seq<byte>)
    requires p.Open() && p.command == 5 && AllFit(fs) && Terminated(fs)
    ensures FramedLength(p, EncodeAll(fs) + tail) == |EncodeAll(fs)|
    ensures Feed(p, EncodeAll(fs) + tail) == Fed(AfterAll(p, fs), Payload(fs) + tail)
  {
    var s := EncodeAll(fs);
    var n := |s|;
    FeedFrames(p, fs);
    FeedSplit(p, s, tail);
    FramedLengthSplit(p, s, tail);
    assert n > 0;
    FeedFramesOpen(p, fs, n - 1);
    var q := Feed(p, s[..n - 1]).parser;
    assert s == s[..n - 1] + [s[n - 1]];
    FeedSplit(p, s[..n - 1], [s[n - 1]]);
    FramedLengthSplit(p, s[..n - 1], [s[n - 1]]);
    assert FramedLength(q, [s[n - 1]]) <= 1 by { FramedLengthSplit(q, [s[n - 1]], []); }
  }

  /** Frames that all announce a successor leave the parser waiting for it. */
  lemma UnterminatedLength(p: Parser, fs: seq<Frame>)
    requires p.Open() && p.command == 5 && AllFit(fs) && AllContinue(fs)
    ensures FramedLength(p, EncodeAll(fs)) > |EncodeAll(fs)|
    ensures Feed(p, EncodeAll(fs)) == Fed(AfterAll(p, fs), Payload(fs))
    ensures AfterAll(p, fs).Open()
  {
    FeedFrames(p, fs);
    FramedLengthSplit(p, EncodeAll(fs), []);
  }

  /** The parser of a fresh connection. */
  const FRESH := Parser(-1, -1, -1, 0)

  /** A first buffer of at least 21 bytes is recognised and loses just the UUID. */
  lemma FirstBuffer(uuid: seq<byte>, wire: seq<byte>, cs: seq<seq<byte>>)
    requires |uuid| == UUID_LENGTH && cs != [] && Flatten(cs) == uuid + wire && |cs[0]| >= MIN_FIRST
    ensures Begins(uuid, cs[0])
    ensures UnpadAll(uuid, FRESH, cs) == UnpadAll(uuid, START, [cs[0][UUID_LENGTH..]] + cs[1..])
    ensures Flatten([cs[0][UUID_LENGTH..]] + cs[1..]) == wire
  {
    var c, rest := cs[0], cs[1..];
    var cs' := [c[UUID_LENGTH..]] + rest;
    assert cs'[1..] == rest;
    assert c[..UUID_LENGTH] == Flatten(cs)[..UUID_LENGTH] == uuid;
    assert Flatten(cs') == Flatten(cs)[UUID_LENGTH..] == wire;
  }
}
