/** The TLS sniffer: finds the server name in the first bytes of a connection. */
module Sniffer {
  import opened Bytes

  const SERVER_NAME: uint16 := 0
  const HOST_NAME: byte := 0

  /** ASCII lower case. */
  function Lower(s: seq<byte>): seq<byte> {
    if s == [] then [] else [if 65 <= s[0] <= 90 then s[0] + 32 else s[0]] + Lower(s[1..])
  }

  function Word(data: seq<byte>, pos: nat): uint16
    requires pos + 2 <= |data|
  {
    BigEndian(data[pos], data[pos + 1])
  }

  // --- the scan, stage by stage ---

  /** The inner loop: the server name list between two offsets. */
  function ScanNames(data: seq<byte>, pos: nat, end: nat): seq<byte>
    requires end <= |data|
    decreases |data| + 1 - Min(pos, |data| + 1)
  {
    if pos + 3 > end then []
    else
      var length := Word(data, pos + 1);
      if data[pos] == HOST_NAME && pos + 3 + length <= end then Lower(data[pos + 3..pos + 3 + length])
      else ScanNames(data, pos + 3 + length, end)
  }

  /** What is found in a server_name extension whose body starts at `pos`. */
  function ScanServerName(data: seq<byte>, pos: nat, end: nat): seq<byte>
    requires end <= |data|
  {
    if pos + 2 > end then [] else ScanNames(data, pos + 2, Min(pos + 2 + Word(data, pos), end))
  }

  /** The outer loop: the extensions between two offsets. */
  function ScanExtensions(data: seq<byte>, pos: nat, end: nat): seq<byte>
    requires end <= |data|
    decreases |data| + 1 - Min(pos, |data| + 1)
  {
    if pos + 4 > end then []
    else if Word(data, pos) == SERVER_NAME then ScanServerName(data, pos + 4, end)
    else ScanExtensions(data, pos + 4 + Word(data, pos + 2), end)
  }

  function FromExtensions(data: seq<byte>, pos: nat): seq<byte> {
    if pos + 2 > |data| then []
    else ScanExtensions(data, pos + 2, Min(pos + 2 + Word(data, pos), |data|))
  }

  function FromCompression(data: seq<byte>, pos: nat): seq<byte> {
    if pos + 1 > |data| then [] else FromExtensions(data, pos + 1 + data[pos] as int)
  }

  function FromCiphers(data: seq<byte>, pos: nat): seq<byte> {
    if pos + 2 > |data| then [] else FromCompression(data, pos + 2 + Word(data, pos))
  }

  function FromSession(data: seq<byte>): seq<byte>
    requires |data| >= 44
  {
    FromCiphers(data, 44 + data[43] as int)
  }

  /** The server name that the sniffer reports for the captured bytes; empty if it finds none. */
  function Sniff(data: seq<byte>): seq<byte> {
    if |data| < 44 || data[0] != 0x16 || data[1] != 0x03 || data[5] != 0x01 then [] else FromSession(data)
  }

  /** The loop over the server name list. */
  method SniffNames(data: seq<byte>, start: nat, end: nat) returns (host: seq<byte>)
    requires end <= |data|
    ensures host == ScanNames(data, start, end)
  {
    var pos := start;
    while pos + 3 <= end
      invariant ScanNames(data, pos, end) == ScanNames(data, start, end)
      decreases end - pos
    {
      var nameType, nameLen := data[pos], Word(data, pos + 1);
      pos := pos + 3;
      if nameType == HOST_NAME && pos + nameLen <= end {
        return Lower(data[pos..pos + nameLen]);
      }
      pos := pos + nameLen;
    }
    return [];
  }

  /** The server_name branch of the loop over the extensions. */
  method SniffServerName(data: seq<byte>, pos: nat, end: nat) returns (host: seq<byte>)
    requires end <= |data|
    ensures host == ScanServerName(data, pos, end)
  {
    if pos + 2 > end {
      return [];
    }
    var sniEnd := pos + 2 + Word(data, pos);
    if sniEnd > end {
      sniEnd := end;
    }
    host := SniffNames(data, pos + 2, sniEnd);
  }

  /** The loop over the extensions. */
  method SniffExtensions(data: seq<byte>, start: nat, end: nat) returns (host: seq<byte>)
    requires end <= |data|
    ensures host == ScanExtensions(data, start, end)
  {
    var pos := start;
    while pos + 4 <= end
      invariant ScanExtensions(data, pos, end) == ScanExtensions(data, start, end)
      decreases end - pos
    {
      var extType, extLen := Word(data, pos), Word(data, pos + 2);
      pos := pos + 4;
      if extType == SERVER_NAME {
        host := SniffServerName(data, pos, end);
        return;
      }
      pos := pos + extLen;
    }
    return [];
  }

  /** sniffTLS: never reads out of bounds and terminates on every input. */
  method SniffTLS(data: seq<byte>) returns (host: seq<byte>)
    ensures host == Sniff(data)
  {
    if |data| < 44 || data[0] != 0x16 || data[1] != 0x03 {
      return [];
    }
    if data[5] != 0x01 {
      return [];
    }
    var pos := 43 + 1 + data[43] as int;
    if pos + 2 > |data| {
      return [];
    }
    pos := pos + 2 + Word(data, pos);
    if pos + 1 > |data| {
      return [];
    }
    pos := pos + 1 + data[pos] as int;
    if pos + 2 > |data| {
      return [];
    }
    var end := pos + 2 + Word(data, pos);
    if end > |data| {
      end := |data|;
    }
    host := SniffExtensions(data, pos + 2, end);
  }

  // --- what can be found ---

  lemma {:induction false} LowerExactly(s: seq<byte>, i: nat)
    requires i < |s|
    ensures |Lower(s)| == |s| && Lower(s)[i] == if 65 <= s[i] <= 90 then s[i] + 32 else s[i]
    decreases |s|
  {
    if |s| > 1 {
      LowerExactly(s[1..], if i > 0 then i - 1 else 0);
    }
  }

  /** A list entry of type host_name lies at `p`, complete, and `host` is its name in lower case. */
  predicate NameLies(data: seq<byte>, p: nat, host: seq<byte>) {
    && p + 3 + |host| <= |data| && data[p] == 0 && BigEndian(data[p + 1], data[p + 2]) == |host|
    && forall i :: 0 <= i < |host| ==>
         host[i] == if 65 <= data[p + 3 + i] <= 90 then data[p + 3 + i] + 32 else data[p + 3 + i]
  }

  lemma LoweredLies(data: seq<byte>, p: nat, length: nat)
    requires p + 3 + length <= |data| && data[p] == 0 && BigEndian(data[p + 1], data[p + 2]) == length
    ensures NameLies(data, p, Lower(data[p + 3..p + 3 + length]))
  {
    var name := data[p + 3..p + 3 + length];
    if name != [] {
      LowerExactly(name, 0);
    }
    forall i | 0 <= i < |name|
      ensures Lower(name)[i] == if 65 <= data[p + 3 + i] <= 90 then data[p + 3 + i] + 32 else data[p + 3 + i]
    {
      LowerExactly(name, i);
    }
  }

  lemma {:induction false} NamesFound(data: seq<byte>, pos: nat, end: nat) returns (p: nat)
    requires end <= |data| && ScanNames(data, pos, end) != []
    ensures pos <= p && NameLies(data, p, ScanNames(data, pos, end))
    decreases |data| + 1 - Min(pos, |data| + 1)
  {
    var length := Word(data, pos + 1);
    if data[pos] == HOST_NAME && pos + 3 + length <= end {
      p := pos;
      LoweredLies(data, p, length);
    } else {
      p := NamesFound(data, pos + 3 + length, end);
    }
  }

  lemma {:induction false} ExtensionsFound(data: seq<byte>, pos: nat, end: nat) returns (q: nat, p: nat)
    requires end <= |data| && ScanExtensions(data, pos, end) != []
    ensures pos <= q && q + 6 <= p && HostLies(data, q, p, ScanExtensions(data, pos, end))
    decreases |data| + 1 - Min(pos, |data| + 1)
  {
    if Word(data, pos) == SERVER_NAME {
      q := pos;
      p := NamesFound(data, pos + 6, Min(pos + 6 + Word(data, pos + 4), end));
    } else {
      q, p := ExtensionsFound(data, pos + 4 + Word(data, pos + 2), end);
    }
  }

  /** The entry at `p` lies behind the header, at `q`, of an extension of type server_name. */
  predicate HostLies(data: seq<byte>, q: nat, p: nat, host: seq<byte>) {
    q + 6 <= p && NameLies(data, p, host) && data[q] == 0 && data[q + 1] == 0
  }

  /** A name is reported only for a handshake record of a ClientHello, and only one that lies in the captured bytes as a
      complete host_name entry behind the header of a server_name extension. */
  lemma FoundOnlyWhereItLies(data: seq<byte>)
    requires Sniff(data) != []
    ensures |data| >= 44 && data[0] == 22 && data[1] == 3 && data[5] == 1
    ensures exists q: nat, p: nat :: 48 <= q && HostLies(data, q, p, Sniff(data))
  {
    var c := 44 + data[43] as int;
    var m := c + 2 + Word(data, c);
    var e := m + 1 + data[m] as int;
    var q, p := ExtensionsFound(data, e + 2, Min(e + 2 + Word(data, e), |data|));
    assert HostLies(data, q, p, Sniff(data));
  }

  // --- prefix stability ---

  /** `d'` begins with `d`. */
  predicate Extends(d: seq<byte>, d': seq<byte>) {
    |d| <= |d'| && forall i :: 0 <= i < |d| ==> d[i] == d'[i]
  }

  lemma WordStable(d: seq<byte>, d': seq<byte>, pos: nat)
    requires Extends(d, d') && pos + 2 <= |d|
    ensures Word(d', pos) == Word(d, pos)
  {
  }

  lemma {:induction false} NamesStable(d: seq<byte>, d': seq<byte>, pos: nat, end: nat, end': nat)
    requires Extends(d, d') && end <= |d| && end <= end' <= |d'|
    ensures ScanNames(d, pos, end) != [] ==> ScanNames(d', pos, end') == ScanNames(d, pos, end)
    decreases |d| + 1 - Min(pos, |d| + 1)
  {
    if pos + 3 <= end {
      var length := Word(d, pos + 1);
      WordStable(d, d', pos + 1);
      if d[pos] == HOST_NAME && pos + 3 + length <= end {
        assert d'[pos + 3..pos + 3 + length] == d[pos + 3..pos + 3 + length];
      } else {
        NamesStable(d, d', pos + 3 + length, end, end');
      }
    }
  }

  lemma ServerNameStable(d: seq<byte>, d': seq<byte>, pos: nat, end: nat, end': nat)
    requires Extends(d, d') && end <= |d| && end <= end' <= |d'|
    ensures ScanServerName(d, pos, end) != [] ==> ScanServerName(d', pos, end') == ScanServerName(d, pos, end)
  {
    if pos + 2 <= end {
      WordStable(d, d', pos);
      var n := pos + 2 + Word(d, pos);
      NamesStable(d, d', pos + 2, Min(n, end), Min(n, end'));
    }
  }

  lemma {:induction false} ExtensionsStable(d: seq<byte>, d': seq<byte>, pos: nat, end: nat, end': nat)
    requires Extends(d, d') && end <= |d| && end <= end' <= |d'|
    ensures ScanExtensions(d, pos, end) != [] ==> ScanExtensions(d', pos, end') == ScanExtensions(d, pos, end)
    decreases |d| + 1 - Min(pos, |d| + 1)
  {
    if pos + 4 > end {
      assert ScanExtensions(d, pos, end) == [];
    } else {
      WordStable(d, d', pos);
      WordStable(d, d', pos + 2);
      if Word(d, pos) == SERVER_NAME {
        ServerNameStable(d, d', pos + 4, end, end');
        assert ScanExtensions(d, pos, end) == ScanServerName(d, pos + 4, end);
        assert ScanExtensions(d', pos, end') == ScanServerName(d', pos + 4, end');
      } else {
        var next := pos + 4 + Word(d, pos + 2);
        ExtensionsStable(d, d', next, end, end');
        assert ScanExtensions(d, pos, end) == ScanExtensions(d, next, end);
        assert ScanExtensions(d', pos, end') == ScanExtensions(d', next, end');
      }
    }
  }

  lemma FromExtensionsStable(d: seq<byte>, d': seq<byte>, pos: nat)
    requires Extends(d, d')
    ensures FromExtensions(d, pos) != [] ==> FromExtensions(d', pos) == FromExtensions(d, pos)
  {
    if pos + 2 <= |d| {
      WordStable(d, d', pos);
      var n := pos + 2 + Word(d, pos);
      ExtensionsStable(d, d', pos + 2, Min(n, |d|), Min(n, |d'|));
    }
  }

  lemma FromCiphersStable(d: seq<byte>, d': seq<byte>, pos: nat)
    requires Extends(d, d')
    ensures FromCiphers(d, pos) != [] ==> FromCiphers(d', pos) == FromCiphers(d, pos)
  {
    if pos + 2 <= |d| {
      WordStable(d, d', pos);
      var next := pos + 2 + Word(d, pos);
      if next < |d| {
        FromExtensionsStable(d, d', next + 1 + d[next] as int);
      }
    }
  }

  /** A name found in a truncated capture is not changed by any further bytes. */
  lemma PrefixStable(d: seq<byte>, more: seq<byte>)
    requires Sniff(d) != []
    ensures Sniff(d + more) == Sniff(d)
  {
    assert Extends(d, d + more);
    FromCiphersStable(d, d + more, 44 + d[43] as int);
  }

  // --- the messages ---

  function U16(n: uint16): seq<byte> {
    [n / 256, n % 256]
  }

  /** Section 3 of RFC 6066: one entry of a server name list. */
  datatype ServerName = ServerName(kind: byte, name: seq<byte>) {
    predicate Ok() {
      |name| < 0x1_0000
    }

    function Encode(): (r: seq<byte>)
      requires Ok()
      ensures |r| == 3 + |name|
    {
      [kind] + U16(|name|) + name
    }
  }

  predicate NamesOk(ns: seq<ServerName>) {
    (forall i :: 0 <= i < |ns| ==> ns[i].Ok())
  }

  function EncodeNames(ns: seq<ServerName>): seq<byte>
    requires NamesOk(ns)
  {
    if ns == [] then [] else ns[0].Encode() + EncodeNames(ns[1..])
  }

  /** The first host name of the list in lower case, or nothing. */
  function FirstHost(ns: seq<ServerName>): seq<byte> {
    if ns == [] then [] else if ns[0].kind == HOST_NAME then Lower(ns[0].name) else FirstHost(ns[1..])
  }

  /** Section 4.2 of RFC 8446: an extension, with the server name list spelled out. */
  datatype Extension = ServerNames(names: seq<ServerName>) | Other(kind: uint16, body: seq<byte>) {
    predicate Ok() {
      match this
      case ServerNames(names) => NamesOk(names) && |EncodeNames(names)| < 0x1_0000 - 2
      case Other(kind, body) => kind != SERVER_NAME && |body| < 0x1_0000
    }

    function Kind(): uint16 {
      if ServerNames? then SERVER_NAME else kind
    }

    function Body(): (b: seq<byte>)
      requires Ok()
      ensures |b| < 0x1_0000
    {
      if ServerNames? then U16(|EncodeNames(names)|) + EncodeNames(names) else body
    }

    function Encode(): (r: seq<byte>)
      requires Ok()
      ensures |r| == 4 + |Body()|
    {
      U16(Kind()) + U16(|Body()|) + Body()
    }
  }

  predicate ExtensionsOk(es: seq<Extension>) {
    forall i :: 0 <= i < |es| ==> es[i].Ok()
  }

  function EncodeExtensions(es: seq<Extension>): seq<byte>
    requires ExtensionsOk(es)
  {
    if es == [] then [] else es[0].Encode() + EncodeExtensions(es[1..])
  }

  /** The host that the first server_name extension names, or nothing. */
  function Host(es: seq<Extension>): seq<byte> {
    if es == [] then [] else if es[0].ServerNames? then FirstHost(es[0].names) else Host(es[1..])
  }

  /** Section 4.1.2 of RFC 8446, in one TLS record: 43 bytes of record header, handshake header, version and random,
      then session id, cipher suites, compression methods and extensions. */
  datatype ClientHello = ClientHello(head: seq<byte>, session: seq<byte>, ciphers: seq<byte>, compression: seq<byte>,
                                     extensions: seq<Extension>)
  {
    predicate Ok() {
      && |head| == 43 && head[0] == 0x16 && head[1] == 0x03 && head[5] == 0x01
      && |session| < 256 && |ciphers| < 0x1_0000 && |compression| < 256
      && ExtensionsOk(extensions) && |EncodeExtensions(extensions)| < 0x1_0000
    }

    function Tail(): seq<byte>
      requires Ok()
    {
      U16(|EncodeExtensions(extensions)|) + EncodeExtensions(extensions)
    }

    function Encode(): seq<byte>
      requires Ok()
    {
      head + ([|session|] + session) + (U16(|ciphers|) + ciphers) + ([|compression|] + compression) + Tail()
    }
  }

  // --- recovery ---

  /** The bytes `s` lie in `data` at offset `pos`. */
  predicate At(data: seq<byte>, pos: nat, s: seq<byte>) {
    pos + |s| <= |data| && forall i :: 0 <= i < |s| ==> s[i] == data[pos + i]
  }

  lemma AtSplit(data: seq<byte>, pos: nat, a: seq<byte>, b: seq<byte>)
    requires At(data, pos, a + b)
    ensures At(data, pos, a) && At(data, pos + |a|, b)
  {
    forall i | 0 <= i < |a| ensures a[i] == data[pos + i] {
      assert (a + b)[i] == a[i];
    }
    forall i | 0 <= i < |b| ensures b[i] == data[pos + |a| + i] {
      assert (a + b)[|a| + i] == b[i];
    }
  }

  lemma AtByte(data: seq<byte>, pos: nat, b: byte)
    requires At(data, pos, [b])
    ensures data[pos] == b
  {
    assert [b][0] == b;
  }

  lemma AtWord(data: seq<byte>, pos: nat, n: uint16)
    requires At(data, pos, U16(n))
    ensures pos + 2 <= |data| && Word(data, pos) == n
  {
    assert U16(n)[0] == n / 256 && U16(n)[1] == n % 256;
  }

  lemma NameAt(data: seq<byte>, pos: nat, n: ServerName)
    requires n.Ok() && At(data, pos, n.Encode())
    ensures pos + 3 + |n.name| <= |data|
    ensures data[pos] == n.kind && Word(data, pos + 1) == |n.name| && data[pos + 3..pos + 3 + |n.name|] == n.name
  {
    AtSplit(data, pos, [n.kind] + U16(|n.name|), n.name);
    AtSplit(data, pos, [n.kind], U16(|n.name|));
    AtByte(data, pos, n.kind);
    AtWord(data, pos + 1, |n.name|);
  }

  lemma FirstNameAt(data: seq<byte>, pos: nat, n: ServerName, rest: seq<byte>)
    requires n.Ok() && At(data, pos, n.Encode() + rest)
    ensures At(data, pos, n.Encode()) && At(data, pos + 3 + |n.name|, rest)
  {
    AtSplit(data, pos, n.Encode(), rest);
  }

  /** One iteration of the inner loop, on a host name. */
  lemma HostNameStep(data: seq<byte>, pos: nat, n: ServerName, end: nat)
    requires n.Ok() && At(data, pos, n.Encode()) && pos + 3 + |n.name| <= end <= |data| && n.kind == HOST_NAME
    ensures ScanNames(data, pos, end) == Lower(n.name)
  {
    NameAt(data, pos, n);
    assert ScanNames(data, pos, end) == Lower(data[pos + 3..pos + 3 + |n.name|]);
  }

  /** One iteration of the inner loop, on any other name. */
  lemma OtherNameStep(data: seq<byte>, pos: nat, length: nat, end: nat)
    requires pos + 3 + length <= end <= |data| && data[pos] != HOST_NAME && Word(data, pos + 1) == length
    ensures ScanNames(data, pos, end) == ScanNames(data, pos + 3 + length, end)
  {
  }

  lemma {:induction false} NamesRecovered(data: seq<byte>, pos: nat, ns: seq<ServerName>, end: nat)
    requires NamesOk(ns) && At(data, pos, EncodeNames(ns)) && end == pos + |EncodeNames(ns)|
    ensures ScanNames(data, pos, end) == FirstHost(ns)
    decreases |ns|
  {
    if ns == [] {
      assert ScanNames(data, pos, end) == [];
    } else {
      var n, rest := ns[0], ns[1..];
      var next := pos + 3 + |n.name|;
      assert EncodeNames(ns) == n.Encode() + EncodeNames(rest);
      FirstNameAt(data, pos, n, EncodeNames(rest));
      if n.kind == HOST_NAME {
        HostNameStep(data, pos, n, end);
      } else {
        NameAt(data, pos, n);
        OtherNameStep(data, pos, |n.name|, end);
        NamesRecovered(data, next, rest, end);
      }
    }
  }

  lemma ExtensionAt(data: seq<byte>, pos: nat, e: Extension)
    requires e.Ok() && At(data, pos, e.Encode())
    ensures pos + 4 + |e.Body()| <= |data|
    ensures Word(data, pos) == e.Kind() && Word(data, pos + 2) == |e.Body()| && At(data, pos + 4, e.Body())
  {
    AtSplit(data, pos, U16(e.Kind()) + U16(|e.Body()|), e.Body());
    AtSplit(data, pos, U16(e.Kind()), U16(|e.Body()|));
    AtWord(data, pos, e.Kind());
    AtWord(data, pos + 2, |e.Body()|);
  }

  lemma ListScanned(data: seq<byte>, pos: nat, ns: seq<ServerName>, end: nat)
    requires NamesOk(ns) && At(data, pos + 2, EncodeNames(ns)) && pos + 2 + |EncodeNames(ns)| <= end <= |data|
    requires Word(data, pos) == |EncodeNames(ns)|
    ensures ScanServerName(data, pos, end) == FirstHost(ns)
  {
    NamesRecovered(data, pos + 2, ns, pos + 2 + |EncodeNames(ns)|);
  }

  lemma ServerNameRecovered(data: seq<byte>, pos: nat, e: Extension, end: nat)
    requires e.ServerNames? && e.Ok() && At(data, pos, e.Body()) && pos + |e.Body()| <= end <= |data|
    ensures ScanServerName(data, pos, end) == FirstHost(e.names)
  {
    var body := EncodeNames(e.names);
    AtSplit(data, pos, U16(|body|), body);
    AtWord(data, pos, |body|);
    ListScanned(data, pos, e.names, end);
  }

  /** An extension lies at `pos`. */
  predicate Lies(data: seq<byte>, pos: nat, e: Extension)
    requires e.Ok()
  {
    && pos + 4 + |e.Body()| <= |data|
    && Word(data, pos) == e.Kind() && Word(data, pos + 2) == |e.Body()|
    && (e.ServerNames? ==> At(data, pos + 4, e.Body()))
  }

  /** The extensions lie one behind the other, from `pos` to `end`. */
  predicate Laid(data: seq<byte>, pos: nat, es: seq<Extension>, end: nat)
    requires ExtensionsOk(es)
    decreases |es|
  {
    if es == [] then pos == end
    else
      var next := pos + 4 + |es[0].Body()|;
      next <= end && Lies(data, pos, es[0]) && Laid(data, next, es[1..], end)
  }

  lemma FirstExtensionAt(data: seq<byte>, pos: nat, e: Extension, rest: seq<byte>)
    requires e.Ok() && At(data, pos, e.Encode() + rest)
    ensures Lies(data, pos, e) && At(data, pos + 4 + |e.Body()|, rest)
  {
    AtSplit(data, pos, e.Encode(), rest);
    ExtensionAt(data, pos, e);
  }

  lemma LaidCons(data: seq<byte>, pos: nat, es: seq<Extension>, next: nat, end: nat)
    requires ExtensionsOk(es) && es != [] && next == pos + 4 + |es[0].Body()| <= end
    requires Lies(data, pos, es[0]) && Laid(data, next, es[1..], end)
    ensures Laid(data, pos, es, end)
  {
  }

  lemma {:induction false} ExtensionsLaid(data: seq<byte>, pos: nat, es: seq<Extension>, end: nat)
    requires ExtensionsOk(es) && At(data, pos, EncodeExtensions(es)) && end == pos + |EncodeExtensions(es)|
    ensures Laid(data, pos, es, end)
    decreases |es|
  {
    if es != [] {
      var e, rest := es[0], es[1..];
      var next := pos + 4 + |e.Body()|;
      assert EncodeExtensions(es) == e.Encode() + EncodeExtensions(rest);
      FirstExtensionAt(data, pos, e, EncodeExtensions(rest));
      ExtensionsLaid(data, next, rest, end);
      LaidCons(data, pos, es, next, end);
    }
  }

  /** One iteration of the outer loop, on a server_name extension. */
  lemma ServerNamesStep(data: seq<byte>, pos: nat, e: Extension, end: nat)
    requires e.ServerNames? && e.Ok() && Lies(data, pos, e) && pos + 4 + |e.Body()| <= end <= |data|
    ensures ScanExtensions(data, pos, end) == FirstHost(e.names)
  {
    ServerNameRecovered(data, pos + 4, e, end);
    assert ScanExtensions(data, pos, end) == ScanServerName(data, pos + 4, end);
  }

  /** One iteration of the outer loop, on any other extension. */
  lemma OtherStep(data: seq<byte>, pos: nat, kind: uint16, length: nat, end: nat)
    requires pos + 4 + length <= end <= |data|
    requires Word(data, pos) == kind != SERVER_NAME && Word(data, pos + 2) == length
    ensures ScanExtensions(data, pos, end) == ScanExtensions(data, pos + 4 + length, end)
  {
  }

  lemma {:induction false} LaidScanned(data: seq<byte>, pos: nat, es: seq<Extension>, end: nat)
    requires ExtensionsOk(es) && end <= |data| && Laid(data, pos, es, end)
    ensures ScanExtensions(data, pos, end) == Host(es)
    decreases |es|
  {
    if es == [] {
      assert ScanExtensions(data, pos, end) == [];
    } else {
      if es[0].ServerNames? {
        ServerNamesStep(data, pos, es[0], end);
      } else {
        OtherStep(data, pos, es[0].kind, |es[0].Body()|, end);
        LaidScanned(data, pos + 4 + |es[0].Body()|, es[1..], end);
      }
    }
  }

  lemma TailScanned(data: seq<byte>, pos: nat, n: nat)
    requires pos + 2 + n <= |data| && Word(data, pos) == n
    ensures FromExtensions(data, pos) == ScanExtensions(data, pos + 2, pos + 2 + n)
  {
  }

  lemma TailRecovered(data: seq<byte>, pos: nat, h: ClientHello)
    requires h.Ok() && At(data, pos, h.Tail())
    ensures FromExtensions(data, pos) == Host(h.extensions)
  {
    var es := EncodeExtensions(h.extensions);
    AtSplit(data, pos, U16(|es|), es);
    AtWord(data, pos, |es|);
    TailScanned(data, pos, |es|);
    ExtensionsLaid(data, pos + 2, h.extensions, pos + 2 + |es|);
    LaidScanned(data, pos + 2, h.extensions, pos + 2 + |es|);
  }

  lemma BlockAt(data: seq<byte>, pos: nat, body: seq<byte>)
    requires |body| < 256 && At(data, pos, [|body|] + body)
    ensures pos + 1 + |body| <= |data| && data[pos] == |body|
    ensures FromCompression(data, pos) == FromExtensions(data, pos + 1 + |body|)
  {
    AtSplit(data, pos, [|body|], body);
    AtByte(data, pos, |body|);
  }

  lemma CiphersAt(data: seq<byte>, pos: nat, ciphers: seq<byte>)
    requires |ciphers| < 0x1_0000 && At(data, pos, U16(|ciphers|) + ciphers)
    ensures FromCiphers(data, pos) == FromCompression(data, pos + 2 + |ciphers|)
  {
    AtSplit(data, pos, U16(|ciphers|), ciphers);
    AtWord(data, pos, |ciphers|);
  }

  /** Where the five parts of a hello lie. */
  lemma PartsAt(data: seq<byte>, a: seq<byte>, b: seq<byte>, c: seq<byte>, d: seq<byte>, e: seq<byte>)
    requires At(data, 0, a + b + c + d + e)
    ensures At(data, 0, a) && At(data, |a|, b) && At(data, |a| + |b|, c)
    ensures At(data, |a| + |b| + |c|, d) && At(data, |a| + |b| + |c| + |d|, e)
  {
    AtSplit(data, 0, a + b + c + d, e);
    AtSplit(data, 0, a + b + c, d);
    AtSplit(data, 0, a + b, c);
    AtSplit(data, 0, a, b);
  }

  lemma CompressionRecovered(data: seq<byte>, pos: nat, h: ClientHello)
    requires h.Ok() && At(data, pos, [|h.compression|] + h.compression)
    requires At(data, pos + 1 + |h.compression|, h.Tail())
    ensures FromCompression(data, pos) == Host(h.extensions)
  {
    TailRecovered(data, pos + 1 + |h.compression|, h);
    BlockAt(data, pos, h.compression);
  }

  lemma CiphersRecovered(data: seq<byte>, pos: nat, h: ClientHello)
    requires h.Ok() && At(data, pos, U16(|h.ciphers|) + h.ciphers)
    requires FromCompression(data, pos + 2 + |h.ciphers|) == Host(h.extensions)
    ensures FromCiphers(data, pos) == Host(h.extensions)
  {
    CiphersAt(data, pos, h.ciphers);
  }

  lemma HeadRecovered(data: seq<byte>, h: ClientHello)
    requires h.Ok() && At(data, 0, h.head) && At(data, 43, [|h.session|] + h.session)
    requires FromCiphers(data, 44 + |h.session|) == Host(h.extensions)
    ensures Sniff(data) == Host(h.extensions)
  {
    HeadAt(data, h.head);
    BlockAt(data, 43, h.session);
  }

  lemma HelloParts(h: ClientHello, rest: seq<byte>, p1: nat, p2: nat, p3: nat)
    requires h.Ok() && p1 == 44 + |h.session| && p2 == p1 + 2 + |h.ciphers| && p3 == p2 + 1 + |h.compression|
    ensures
      var data := h.Encode() + rest;
      && At(data, 0, h.head) && At(data, 43, [|h.session|] + h.session) && At(data, p1, U16(|h.ciphers|) + h.ciphers)
      && At(data, p2, [|h.compression|] + h.compression) && At(data, p3, h.Tail())
  {
    var data := h.Encode() + rest;
    assert At(data, 0, h.Encode());
    PartsAt(data, h.head, [|h.session|] + h.session, U16(|h.ciphers|) + h.ciphers,
            [|h.compression|] + h.compression, h.Tail());
  }

  /** Every well-formed hello, whatever follows it in the capture: the sniffer reports the first host name of its
      first server_name extension in lower case, and nothing if there is none. */
  lemma HelloRecovered(h: ClientHello, rest: seq<byte>)
    requires h.Ok()
    ensures Sniff(h.Encode() + rest) == Host(h.extensions)
  {
    var data := h.Encode() + rest;
    var p1 := 44 + |h.session|;
    var p2 := p1 + 2 + |h.ciphers|;
    HelloParts(h, rest, p1, p2, p2 + 1 + |h.compression|);
    CompressionRecovered(data, p2, h);
    CiphersRecovered(data, p1, h);
    HeadRecovered(data, h);
  }

  lemma HeadAt(data: seq<byte>, head: seq<byte>)
    requires |head| == 43 && At(data, 0, head)
    ensures data[0] == head[0] && data[1] == head[1] && data[5] == head[5]
  {
  }
}
