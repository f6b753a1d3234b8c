/** Server hellos as they are encoded, and what the TLS filter learns from the buffers in which one arrives. */
module VisionHello {
  import opened Bytes
  import opened VisionFilter
  import Sniffer

  /** A ServerHello message (section 4.1.3 of RFC 8446) at the start of a TLS record, which may hold further handshake
      messages behind it. */
  datatype ServerHello = ServerHello(version: seq<byte>, random: seq<byte>, session: seq<byte>, cipher: uint16,
                                     compression: byte, extensions: seq<Sniffer.Extension>, further: seq<byte>)
  {
    predicate Ok() {
      && |version| == 2 && |random| == 32 && |session| <= 32
      && Sniffer.ExtensionsOk(extensions) && |Sniffer.EncodeExtensions(extensions)| < 0x8000 && |further| < 0x4000
    }

    /** Compression method and extensions. */
    function Tail(): (b: seq<byte>)
      requires Ok()
    {
      var es := Sniffer.EncodeExtensions(extensions);
      [compression] + Sniffer.U16(|es|) + es
    }

    /** The length of the message behind its own header. */
    function Length(): (n: nat)
      requires Ok()
      ensures n < 0x1_0000 - 4 - |further|
    {
      2 + 32 + 1 + |session| + 2 + |Tail()|
    }

    /** Record header, handshake header, version and random. */
    function Head(): (b: seq<byte>)
      requires Ok()
      ensures |b| == 43
    {
      [0x16, 3, 3] + Sniffer.U16(4 + Length() + |further|) + ([2, 0] + Sniffer.U16(Length())) + version + random
    }

    function Encode(): (b: seq<byte>)
      requires Ok()
      ensures |b| == 9 + Length() + |further|
    {
      Head() + ([|session|] + session) + Sniffer.U16(cipher) + Tail() + further
    }
  }

  /** A head begins like a server hello and says how long its record is. */
  lemma HeadStarts(h: ServerHello)
    requires h.Ok()
    ensures StartsServerHello(h.Head())
    ensures 256 * h.Head()[3] as int + h.Head()[4] as int + 5 == |h.Encode()|
  {
    var n := 4 + h.Length() + |h.further|;
    var b := h.Head();
    var a := [0x16, 3, 3] + Sniffer.U16(n);
    assert a == [0x16, 3, 3, n / 256, n % 256];
    assert b[..5] == a;
    assert b[3] == b[..5][3] && b[4] == b[..5][4];
    assert b[0] == b[..5][0] && b[1] == b[..5][1] && b[2] == b[..5][2];
    var c := [2, 0] + Sniffer.U16(h.Length());
    assert b == a + c + h.version + h.random;
    assert b[5] == c[0];
  }

  /** Where the length of the session id and the cipher suite lie. */
  lemma SuiteLies(h: ServerHello, b: seq<byte>)
    requires h.Ok() && |b| >= 79 && |h.Encode()| >= 79
    requires forall i :: 0 <= i < |b| && i < |h.Encode()| ==> b[i] == h.Encode()[i]
    ensures b[43] == |h.session|
    ensures 256 * b[44 + |h.session|] as int + b[45 + |h.session|] as int == h.cipher
    ensures StartsServerHello(b) && 256 * b[3] as int + b[4] as int + 5 == |h.Encode()|
  {
    var e, n := h.Encode(), |h.session|;
    HeadStarts(h);
    assert forall i :: 0 <= i < 43 ==> e[i] == h.Head()[i];
    var s := [|h.session|] + h.session;
    assert e[43] == s[0];
    var u := Sniffer.U16(h.cipher);
    assert e[44 + n] == u[0] && e[45 + n] == u[1];
  }

  /** The filter on the buffer in which a server hello begins, of which `n` bytes arrive, with anything behind it: it
      learns the cipher suite, counts what is left of the hello, and enables raw copy if and only if the suite is
      allowed and the TLS 1.3 marker lies in the bytes of the hello that have arrived. */
  lemma HelloRecognised(h: ServerHello, more: seq<byte>, n: nat, f: Filter, stale: uint16)
    requires h.Ok() && |h.Encode()| >= 79 && 79 <= n <= SIZE && n <= |h.Encode() + more| && !f.enableXtls
    ensures
      var b := (h.Encode() + more)[..n];
      var g := f.All([Buf(b)], [stale]);
      var seen := h.Encode()[..Min(n, |h.Encode()|)];
      && g.tls && g.tls12 && g.cipher == h.cipher && g.hello == |h.Encode()| - n
      && (g.enableXtls <==> 0x1301 <= h.cipher <= 0x1304 && HasMarker(seen))
      && g.packets == if HasMarker(seen) || n >= |h.Encode()| then 0 else f.packets - 1
  {
    var e := h.Encode();
    var b := (e + more)[..n];
    var seen := e[..Min(n, |e|)];
    FirstPart(h, b, f, stale);
    assert [Buf(b)][1..] == [];
    assert (if n < |e| then b else b[..|e|]) == seen;
  }

  /** The state after the buffer in which the hello begins. */
  lemma FirstPart(h: ServerHello, b: Buffer, f: Filter, stale: uint16)
    requires h.Ok() && |h.Encode()| >= 79 && |b| >= 79 && !f.enableXtls
    requires forall i :: 0 <= i < |b| && i < |h.Encode()| ==> b[i] == h.Encode()[i]
    ensures
      var e := h.Encode();
      var (g, stop) := f.One(b, stale);
      var found := HasMarker(if |b| < |e| then b else b[..|e|]);
      && g.tls && g.tls12 && g.cipher == h.cipher && g.hello == |e| - |b|
      && (g.enableXtls <==> 0x1301 <= h.cipher <= 0x1304 && found)
      && stop == (found || |b| >= |e|) && g.packets == if stop then 0 else f.packets - 1
  {
    var f' := f.(packets := f.packets - 1);
    RecognisedExactly(f', b, stale);
    SuiteLies(h, b);
    JudgedExactly(f'.Recognise(b, stale), b);
  }

  /** The verdict on one buffer while a hello is under way. */
  lemma JudgedExactly(g: Filter, b: Buffer)
    requires g.hello > 0 && !g.enableXtls
    ensures
      var (g', stop) := g.Judge(b);
      var found := HasMarker(if |b| < g.hello then b else b[..g.hello]);
      && g'.hello == g.hello - |b| && g'.cipher == g.cipher && g'.tls == g.tls && g'.tls12 == g.tls12
      && (g'.enableXtls <==> 0x1301 <= g.cipher <= 0x1304 && found)
      && stop == (found || |b| >= g.hello) && g'.packets == if stop then 0 else g.packets
  {
    MarkerFound(g.HelloPart(b));
    assert |b| <= g.hello ==> g.HelloPart(b) == b;
    assert |b| == g.hello ==> b[..g.hello] == b;
  }

  // --- a hello in several buffers ---

  /** The parts of the hello bytes `e` that the buffers hold. */
  function Parts(e: seq<byte>, cs: seq<Buffer>): seq<seq<byte>> {
    if cs == [] || e == [] then []
    else
      var n := Min(|cs[0]|, |e|);
      [e[..n]] + Parts(e[n..], cs[1..])
  }

  /** No buffer in which the hello goes on looks like another one. */
  predicate NoOther(e: seq<byte>, cs: seq<Buffer>) {
    forall i :: 0 <= i < |Parts(e, cs)| && i < |cs| ==> !StartsServerHello(cs[i])
  }

  predicate SomePart(ps: seq<seq<byte>>) {
    exists i :: 0 <= i < |ps| && HasMarker(ps[i])
  }

  function Filled(cs: seq<Buffer>): (mb: MultiBuffer)
    ensures |mb| == |cs| && forall i :: 0 <= i < |cs| ==> mb[i] == Buf(cs[i])
  {
    seq(|cs|, i requires 0 <= i < |cs| => Buf(cs[i]))
  }

  lemma SomeCons(p: seq<byte>, ps: seq<seq<byte>>)
    ensures SomePart([p] + ps) <==> HasMarker(p) || SomePart(ps)
  {
    var qs := [p] + ps;
    if HasMarker(p) {
      assert HasMarker(qs[0]);
    }
    if SomePart(ps) {
      var i :| 0 <= i < |ps| && HasMarker(ps[i]);
      assert HasMarker(qs[i + 1]);
    }
  }

  lemma PartsStep(e: seq<byte>, cs: seq<Buffer>)
    requires cs != [] && e != []
    ensures
      var n := Min(|cs[0]|, |e|);
      && Parts(e, cs) == [e[..n]] + Parts(e[n..], cs[1..])
      && (SomePart(Parts(e, cs)) <==> HasMarker(e[..n]) || SomePart(Parts(e[n..], cs[1..])))
  {
    var n := Min(|cs[0]|, |e|);
    SomeCons(e[..n], Parts(e[n..], cs[1..]));
  }

  lemma NoOtherTail(e: seq<byte>, cs: seq<Buffer>)
    requires cs != [] && e != [] && NoOther(e, cs)
    ensures !StartsServerHello(cs[0]) && NoOther(e[Min(|cs[0]|, |e|)..], cs[1..])
  {
    var rest := e[Min(|cs[0]|, |e|)..];
    PartsStep(e, cs);
    forall i | 0 <= i < |Parts(rest, cs[1..])| && i < |cs[1..]| ensures !StartsServerHello(cs[1..][i]) {
      assert cs[1..][i] == cs[i + 1];
    }
  }

  /** The buffers hold the bytes `e` from their start, as far as they go. */
  predicate Hold(cs: seq<Buffer>, e: seq<byte>) {
    forall i :: 0 <= i < |Flatten(cs)| && i < |e| ==> Flatten(cs)[i] == e[i]
  }

  lemma HoldTail(cs: seq<Buffer>, e: seq<byte>)
    requires cs != [] && Hold(cs, e)
    ensures forall i :: 0 <= i < |cs[0]| && i < |e| ==> cs[0][i] == e[i]
    ensures Hold(cs[1..], e[Min(|cs[0]|, |e|)..])
  {
    HoldSplit(cs[0], Flatten(cs[1..]), e);
  }

  lemma HoldSplit(c: seq<byte>, rest: seq<byte>, e: seq<byte>)
    requires forall i :: 0 <= i < |c + rest| && i < |e| ==> (c + rest)[i] == e[i]
    ensures forall i :: 0 <= i < |c| && i < |e| ==> c[i] == e[i]
    ensures
      var e' := e[Min(|c|, |e|)..];
      forall i :: 0 <= i < |rest| && i < |e'| ==> rest[i] == e'[i]
  {
    forall i | 0 <= i < |c| && i < |e| ensures c[i] == e[i] {
      assert (c + rest)[i] == c[i];
    }
    var e' := e[Min(|c|, |e|)..];
    forall i | 0 <= i < |rest| && i < |e'| ensures rest[i] == e'[i] {
      assert (c + rest)[|c| + i] == rest[i];
    }
  }

  /** One more buffer of a hello under way. */
  lemma NextPart(f: Filter, b: Buffer, e: seq<byte>, stale: uint16)
    requires !f.enableXtls && e != [] && f.hello == |e| && !StartsServerHello(b)
    requires forall i :: 0 <= i < |b| && i < |e| ==> b[i] == e[i]
    ensures
      var (g, stop) := f.One(b, stale);
      var found := HasMarker(e[..Min(|b|, |e|)]);
      && g.hello == |e| - |b| && g.cipher == f.cipher
      && (g.enableXtls <==> 0x1301 <= f.cipher <= 0x1304 && found)
      && stop == (found || |b| >= |e|)
  {
    var f' := f.(packets := f.packets - 1);
    RecognisedExactly(f', b, stale);
    JudgedExactly(f'.Recognise(b, stale), b);
    assert (if |b| < |e| then b else b[..|e|]) == e[..Min(|b|, |e|)];
  }

  lemma {:induction false} NextParts(f: Filter, cs: seq<Buffer>, e: seq<byte>, stale: seq<uint16>)
    requires |stale| >= |cs| && !f.enableXtls && e != [] && f.hello == |e|
    requires Hold(cs, e) && NoOther(e, cs)
    ensures f.All(Filled(cs), stale).cipher == f.cipher
    ensures f.All(Filled(cs), stale).enableXtls <==> 0x1301 <= f.cipher <= 0x1304 && SomePart(Parts(e, cs))
    decreases |cs|
  {
    if cs != [] {
      var n := Min(|cs[0]|, |e|);
      HoldTail(cs, e);
      NoOtherTail(e, cs);
      PartsStep(e, cs);
      NextPart(f, cs[0], e, stale[0]);
      assert Filled(cs)[1..] == Filled(cs[1..]);
      var (g, stop) := f.One(cs[0], stale[0]);
      if !stop {
        NextParts(g, cs[1..], e[n..], stale[1..]);
      } else if !HasMarker(e[..n]) {
        assert e[n..] == [];
      }
    }
  }

  /** A server hello that arrives in any number of buffers of one call, at least 79 bytes of it in the first: raw copy
      is enabled if and only if its cipher suite is allowed and one buffer holds all of the TLS 1.3 marker, provided
      that no buffer in which the hello goes on looks like another hello. */
  lemma HelloInParts(h: ServerHello, cs: seq<Buffer>, f: Filter, stale: seq<uint16>)
    requires h.Ok() && |h.Encode()| >= 79 && !f.enableXtls && |stale| >= |cs|
    requires cs != [] && |cs[0]| >= 79 && Hold(cs, h.Encode())
    requires |cs[0]| < |h.Encode()| ==> NoOther(h.Encode()[|cs[0]|..], cs[1..])
    ensures
      var g := f.All(Filled(cs), stale);
      && g.tls && g.tls12 && g.cipher == h.cipher
      && (g.enableXtls <==> 0x1301 <= h.cipher <= 0x1304 && SomePart(Parts(h.Encode(), cs)))
  {
    var e := h.Encode();
    var n := Min(|cs[0]|, |e|);
    HoldTail(cs, e);
    PartsStep(e, cs);
    FirstPart(h, cs[0], f, stale[0]);
    assert Filled(cs)[1..] == Filled(cs[1..]);
    assert (if |cs[0]| < |e| then cs[0] else cs[0][..|e|]) == e[..n];
    var (g, stop) := f.One(cs[0], stale[0]);
    if !stop {
      NextParts(g, cs[1..], e[n..], stale[1..]);
      TlsStays(g, Filled(cs[1..]), stale[1..]);
    } else if !HasMarker(e[..n]) {
      assert e[n..] == [];
    }
  }

  lemma {:induction false} TlsStays(f: Filter, mb: MultiBuffer, stale: seq<uint16>)
    requires |stale| >= |mb| && f.tls && f.tls12
    ensures f.All(mb, stale).tls && f.All(mb, stale).tls12
    decreases |mb|
  {
    if mb != [] {
      if mb[0].Nil? {
        TlsStays(f, mb[1..], stale[1..]);
      } else {
        var (g, stop) := f.One(mb[0].data, stale[0]);
        if !stop {
          TlsStays(g, mb[1..], stale[1..]);
        }
      }
    }
  }

  // --- TLS 1.3 hellos ---

  /** The supported_versions extension of a server that selects TLS 1.3 (section 4.2.1 of RFC 8446). */
  predicate SelectsTls13(h: ServerHello) {
    exists i :: 0 <= i < |h.extensions| && h.extensions[i] == Sniffer.Other(0x2b, [3, 4])
  }

  lemma MarkerWithin(a: seq<byte>, b: seq<byte>, c: seq<byte>)
    requires HasMarker(b)
    ensures HasMarker(a + b + c)
  {
    var i :| 0 <= i <= |b| - 6 && MarkerAt(b, i);
    var s := a + b + c;
    assert forall j :: 0 <= j < |b| ==> s[|a| + j] == b[j];
    assert MarkerAt(s, |a| + i);
  }

  lemma {:induction false} ExtensionsMarked(es: seq<Sniffer.Extension>, i: nat)
    requires Sniffer.ExtensionsOk(es) && i < |es| && es[i] == Sniffer.Other(0x2b, [3, 4])
    ensures HasMarker(Sniffer.EncodeExtensions(es))
    decreases |es|
  {
    var rest := Sniffer.EncodeExtensions(es[1..]);
    if i == 0 {
      var b := es[0].Encode();
      assert b == [0, 0x2b, 0, 2, 3, 4];
      assert MarkerAt(b, 0);
      MarkerWithin([], b, rest);
      assert [] + b + rest == b + rest;
    } else {
      ExtensionsMarked(es[1..], i - 1);
      MarkerLast(es[0].Encode(), rest);
    }
  }

  lemma HelloMarked(h: ServerHello)
    requires h.Ok() && SelectsTls13(h)
    ensures HasMarker(h.Encode())
  {
    var i :| 0 <= i < |h.extensions| && h.extensions[i] == Sniffer.Other(0x2b, [3, 4]);
    var es := Sniffer.EncodeExtensions(h.extensions);
    assert HasMarker(h.Tail()) by {
      ExtensionsMarked(h.extensions, i);
      MarkerLast([h.compression] + Sniffer.U16(|es|), es);
    }
    MarkerWithin(h.Head() + ([|h.session|] + h.session) + Sniffer.U16(h.cipher), h.Tail(), h.further);
  }

  lemma MarkerLast(a: seq<byte>, b: seq<byte>)
    requires HasMarker(b)
    ensures HasMarker(a + b)
  {
    MarkerWithin(a, b, []);
    assert a + b + [] == a + b;
  }

  /** Every whole TLS 1.3 hello enables raw copy exactly when its cipher suite is allowed. */
  lemma Tls13Enables(h: ServerHello, more: seq<byte>, n: nat, f: Filter, stale: uint16)
    requires h.Ok() && 79 <= |h.Encode()| <= n <= SIZE && n <= |h.Encode() + more| && !f.enableXtls && SelectsTls13(h)
    ensures f.All([Buf((h.Encode() + more)[..n])], [stale]).enableXtls <==> 0x1301 <= h.cipher <= 0x1304
  {
    HelloRecognised(h, more, n, f, stale);
    HelloMarked(h);
    assert h.Encode()[..|h.Encode()|] == h.Encode();
  }
}
