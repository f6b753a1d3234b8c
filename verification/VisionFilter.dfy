/** The TLS filter: which buffers look like a TLS handshake, and whether the connection may leave
    padding for raw copy. */
module VisionFilter {
  import opened Bytes
  import opened Options

  const CLIENT_HANDSHAKE_START: seq<byte> := [0x16, 0x03]
  const SERVER_HANDSHAKE_START: seq<byte> := [0x16, 0x03, 0x03]
  const APPLICATION_DATA_START: seq<byte> := [0x17, 0x03, 0x03]
  const TLS13_SUPPORTED_VERSIONS: seq<byte> := [0x00, 0x2b, 0x00, 0x02, 0x03, 0x04]
  const CLIENT_HELLO: byte := 0x01
  const SERVER_HELLO: byte := 0x02

  /** The cipher suites of section B.4 of RFC 8446 for which raw copy is allowed; 0x1305 is recognised but refused. */
  predicate XtlsCipher(c: int) {
    0x1301 <= c <= 0x1304
  }

  /** NumberOfPacketToFilter, EnableXtls, IsTLS12orAbove, IsTLS, Cipher and RemainingServerHello. */
  datatype Filter = Filter(packets: int, enableXtls: bool, tls12: bool, tls: bool, cipher: uint16, hello: int) {

    /** What every filter state of a connection satisfies. */
    predicate Inv() {
      && (enableXtls ==> tls && tls12 && XtlsCipher(cipher) && packets <= 0)
      && (hello > 0 ==> tls && tls12)
    }

    /** Recognises a hello in the first bytes of a buffer. `stale` stands for the two bytes read
        beyond the buffer's content when the session id is longer than the format allows. */
    function Recognise(b: Buffer, stale: uint16): Filter {
      if |b| < 6 then this
      else if b[..3] == SERVER_HANDSHAKE_START && b[5] == SERVER_HELLO then
        var f := this.(hello := BigEndian(b[3], b[4]) + 5, tls12 := true, tls := true);
        if |b| >= 79 && f.hello >= 79 then
          var at := 44 + b[43] as int;
          f.(cipher := if at + 2 <= |b| then BigEndian(b[at], b[at + 1]) else stale)
        else f
      else if b[..2] == CLIENT_HANDSHAKE_START && b[5] == CLIENT_HELLO then
        this.(tls := true)
      else this
    }

    /** The part of the buffer that still belongs to the server hello. */
    function HelloPart(b: Buffer): Buffer {
      b[..if hello <= 0 then 0 else if hello > |b| then |b| else hello]
    }

    /** Looks for the TLS 1.3 marker while a server hello is incomplete; the flag says that filtering is over. */
    function Judge(b: Buffer): (Filter, bool) {
      if hello <= 0 then (this, false)
      else
        var f := this.(hello := hello - |b|);
        if Contains(HelloPart(b), TLS13_SUPPORTED_VERSIONS) then
          (f.(enableXtls := enableXtls || XtlsCipher(cipher), packets := 0), true)
        else if f.hello <= 0 then (f.(packets := 0), true)
        else (f, false)
    }

    function One(b: Buffer, stale: uint16): (Filter, bool) {
      this.(packets := packets - 1).Recognise(b, stale).Judge(b)
    }

    /** One call of the filter over a multi-buffer. */
    function All(mb: MultiBuffer, stale: seq<uint16>): Filter
      requires |stale| >= |mb|
      decreases |mb|
    {
      if mb == [] then this
      else if mb[0].Nil? then All(mb[1..], stale[1..])
      else
        var (f, stop) := One(mb[0].data, stale[0]);
        if stop then f else f.All(mb[1..], stale[1..])
    }

    /** The call as the reader and the writer make it: only while the packet window is open. */
    function Guarded(mb: MultiBuffer, stale: seq<uint16>): Filter
      requires |stale| >= |mb|
    {
      if packets > 0 then All(mb, stale) else this
    }
  }

  const NEW_FILTER := Filter(8, false, false, false, 0, -1)

  function NonNil(mb: MultiBuffer): nat {
    if mb == [] then 0 else (if mb[0].Nil? then 0 else 1) + NonNil(mb[1..])
  }

  lemma {:induction false} AllKeepsInv(f: Filter, mb: MultiBuffer, stale: seq<uint16>)
    requires |stale| >= |mb| && f.Inv() && !f.enableXtls
    ensures f.All(mb, stale).Inv()
    ensures f.tls ==> f.All(mb, stale).tls
    ensures f.tls12 ==> f.All(mb, stale).tls12
    decreases |mb|
  {
    if mb != [] {
      if mb[0].Nil? {
        AllKeepsInv(f, mb[1..], stale[1..]);
      } else {
        var (g, stop) := f.One(mb[0].data, stale[0]);
        if !stop {
          AllKeepsInv(g, mb[1..], stale[1..]);
        }
      }
    }
  }

  /** Every buffer that is looked at shrinks the window, or closes it for good. */
  lemma {:induction false} AllCounts(f: Filter, mb: MultiBuffer, stale: seq<uint16>)
    requires |stale| >= |mb|
    ensures f.All(mb, stale).packets == f.packets - NonNil(mb) || f.All(mb, stale).packets == 0
    decreases |mb|
  {
    if mb != [] {
      if mb[0].Nil? {
        AllCounts(f, mb[1..], stale[1..]);
      } else {
        var (g, stop) := f.One(mb[0].data, stale[0]);
        if !stop {
          AllCounts(g, mb[1..], stale[1..]);
        }
      }
    }
  }

  lemma GuardedKeepsInv(f: Filter, mb: MultiBuffer, stale: seq<uint16>)
    requires |stale| >= |mb| && f.Inv()
    ensures f.Guarded(mb, stale).Inv()
  {
    if f.packets > 0 {
      AllKeepsInv(f, mb, stale);
    }
  }

  /** The state in which the buffer at index `i` is looked at; None if it is nil or filtering ends before it. */
  function Before(f: Filter, mb: MultiBuffer, stale: seq<uint16>, i: nat): Option<Filter>
    requires |stale| >= |mb| && i < |mb|
    decreases |mb|
  {
    if i == 0 then
      if mb[0].Nil? then None else Some(f)
    else if mb[0].Nil? then Before(f, mb[1..], stale[1..], i - 1)
    else
      var (g, stop) := f.One(mb[0].data, stale[0]);
      if stop then None else Before(g, mb[1..], stale[1..], i - 1)
  }

  /** The buffer completes the picture: a server hello under way, the TLS 1.3 marker inside it, and an allowed cipher
      suite. */
  predicate Completes(f: Filter, b: Buffer, stale: uint16) {
    var left, suite := HelloLeft(f, b), Suite(f, b, stale);
    left > 0 && 0x1301 <= suite <= 0x1304 && HasMarker(if left < |b| then b[..left] else b)
  }

  /** The first six bytes of a server hello: a handshake record of version 3.3, its length, and the message type. */
  predicate StartsServerHello(b: seq<byte>) {
    |b| >= 6 && b[0] == 0x16 && b[1] == 3 && b[2] == 3 && b[5] == 2
  }

  /** Those of a client hello, in a record of any version 3.x. */
  predicate StartsClientHello(b: seq<byte>) {
    |b| >= 6 && b[0] == 0x16 && b[1] == 3 && b[5] == 1
  }

  /** The bytes of the server hello that have not been looked at, before this buffer is. */
  function HelloLeft(f: Filter, b: seq<byte>): int {
    if StartsServerHello(b) then 256 * b[3] as int + b[4] as int + 5 else f.hello
  }

  /** The cipher suite known with this buffer: behind the session id, whose length is the 44th byte. */
  function Suite(f: Filter, b: seq<byte>, stale: uint16): int {
    if !StartsServerHello(b) || |b| < 79 || 256 * b[3] as int + b[4] as int < 74 then f.cipher
    else
      var at := 44 + b[43] as int;
      if at + 2 <= |b| then 256 * b[at] as int + b[at + 1] as int else stale
  }

  /** The supported_versions extension that selects TLS 1.3, anywhere in the bytes. */
  predicate HasMarker(b: seq<byte>) {
    exists i :: 0 <= i <= |b| - 6 && MarkerAt(b, i)
  }

  predicate MarkerAt(b: seq<byte>, i: nat)
    requires i + 6 <= |b|
  {
    b[i] == 0 && b[i + 1] == 0x2b && b[i + 2] == 0 && b[i + 3] == 2 && b[i + 4] == 3 && b[i + 5] == 4
  }

  lemma MarkerFound(b: seq<byte>)
    ensures Contains(b, TLS13_SUPPORTED_VERSIONS) <==> HasMarker(b)
  {
    var m := TLS13_SUPPORTED_VERSIONS;
    forall i | 0 <= i <= |b| - 6 ensures OccursAt(b, m, i) <==> MarkerAt(b, i) {
      assert b[i..i + 6] == [b[i], b[i + 1], b[i + 2], b[i + 3], b[i + 4], b[i + 5]];
    }
    if HasMarker(b) {
      var i :| 0 <= i <= |b| - 6 && MarkerAt(b, i);
      assert OccursAt(b, m, i);
    }
  }

  lemma StartsTested(b: seq<byte>)
    requires |b| >= 6
    ensures b[..3] == SERVER_HANDSHAKE_START && b[5] == SERVER_HELLO <==> StartsServerHello(b)
    ensures b[..2] == CLIENT_HANDSHAKE_START && b[5] == CLIENT_HELLO <==> StartsClientHello(b)
  {
    assert b[..3] == [b[0], b[1], b[2]] && b[..2] == [b[0], b[1]];
  }

  /** What recognising a hello does to every field. */
  lemma RecognisedExactly(f: Filter, b: Buffer, stale: uint16)
    ensures
      var g := f.Recognise(b, stale);
      && g.hello == HelloLeft(f, b) && g.cipher == Suite(f, b, stale)
      && (g.tls <==> f.tls || StartsServerHello(b) || StartsClientHello(b))
      && (g.tls12 <==> f.tls12 || StartsServerHello(b))
      && g.enableXtls == f.enableXtls && g.packets == f.packets
  {
    if |b| >= 6 {
      StartsTested(b);
    }
  }

  predicate CompletesAt(f: Filter, mb: MultiBuffer, stale: seq<uint16>, i: nat)
    requires |stale| >= |mb| && i < |mb|
  {
    Before(f, mb, stale, i).Some? && Completes(Before(f, mb, stale, i).value, mb[i].Content(), stale[i])
  }

  predicate SomeCompletes(f: Filter, mb: MultiBuffer, stale: seq<uint16>)
    requires |stale| >= |mb|
  {
    exists i :: 0 <= i < |mb| && CompletesAt(f, mb, stale, i)
  }

  lemma CompletesTail(f: Filter, mb: MultiBuffer, stale: seq<uint16>, g: Filter)
    requires |stale| >= |mb| && mb != []
    requires if mb[0].Nil? then g == f else f.One(mb[0].data, stale[0]) == (g, false)
    ensures SomeCompletes(f, mb, stale) <==> CompletesAt(f, mb, stale, 0) || SomeCompletes(g, mb[1..], stale[1..])
  {
    forall i | 0 < i < |mb| ensures CompletesAt(f, mb, stale, i) <==> CompletesAt(g, mb[1..], stale[1..], i - 1) {
      assert mb[1..][i - 1] == mb[i] && stale[1..][i - 1] == stale[i];
    }
    if SomeCompletes(g, mb[1..], stale[1..]) {
      var i :| 0 <= i < |mb[1..]| && CompletesAt(g, mb[1..], stale[1..], i);
      assert CompletesAt(f, mb, stale, i + 1);
    }
  }

  lemma OneEnables(f: Filter, b: Buffer, stale: uint16)
    requires !f.enableXtls
    ensures
      var (g, stop) := f.One(b, stale);
      (g.enableXtls <==> Completes(f, b, stale)) && (g.enableXtls ==> stop)
  {
    var f' := f.(packets := f.packets - 1);
    RecognisedExactly(f', b, stale);
    MarkerFound(f'.Recognise(b, stale).HelloPart(b));
    assert b[..|b|] == b;
  }

  /** A call of the filter enables raw copy if and only if one of the buffers that it gets to completes the picture. */
  lemma {:induction false} EnabledExactly(f: Filter, mb: MultiBuffer, stale: seq<uint16>)
    requires |stale| >= |mb| && !f.enableXtls
    ensures f.All(mb, stale).enableXtls <==> SomeCompletes(f, mb, stale)
    decreases |mb|
  {
    if mb != [] {
      if mb[0].Nil? {
        CompletesTail(f, mb, stale, f);
        EnabledExactly(f, mb[1..], stale[1..]);
      } else {
        var (g, stop) := f.One(mb[0].data, stale[0]);
        OneEnables(f, mb[0].data, stale[0]);
        if stop {
          StopsThere(f, mb, stale);
        } else {
          CompletesTail(f, mb, stale, g);
          EnabledExactly(g, mb[1..], stale[1..]);
        }
      }
    }
  }

  lemma StopsThere(f: Filter, mb: MultiBuffer, stale: seq<uint16>)
    requires |stale| >= |mb| && mb != [] && mb[0].Buf? && f.One(mb[0].data, stale[0]).1
    ensures SomeCompletes(f, mb, stale) <==> Completes(f, mb[0].data, stale[0])
  {
    assert forall i :: 0 < i < |mb| ==> !CompletesAt(f, mb, stale, i);
    assert CompletesAt(f, mb, stale, 0) <==> Completes(f, mb[0].data, stale[0]);
  }

  /** Buffers too short for a hello only count. */
  lemma {:induction false} ShortBuffersCount(f: Filter, mb: MultiBuffer, stale: seq<uint16>)
    requires |stale| >= |mb| && f.hello <= 0
    requires forall i :: 0 <= i < |mb| ==> mb[i].Buf? && |mb[i].data| < 6
    ensures f.All(mb, stale) == f.(packets := f.packets - |mb|)
    decreases |mb|
  {
    if mb != [] {
      ShortBuffersCount(f.(packets := f.packets - 1), mb[1..], stale[1..]);
    }
  }
}
