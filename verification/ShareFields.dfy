/** What stream settings are parsed to and printed as, field by field, over the keys and values of the query. */
module ShareFields {
  import opened Options
  import opened ShareQuery
  import opened ShareLink

  // --- lists ---

  /** A list is cut at every comma: no element has one. Together with joining it back this determines the list. */
  lemma {:induction false} SplitLacksComma(s: string, i: nat)
    requires i < |SplitComma(s)|
    ensures Lacks(SplitComma(s)[i], ',')
    decreases |s|
  {
    if s != "" {
      var rest := SplitComma(s[1..]);
      if s[0] == ',' {
        if i > 0 {
          SplitLacksComma(s[1..], i - 1);
        }
      } else {
        SplitLacksComma(s[1..], i);
        assert i == 0 ==> SplitComma(s)[0] == [s[0]] + rest[0];
        assert i > 0 ==> SplitComma(s)[i] == rest[i];
      }
    }
  }

  /** A list in a query: none for an empty value. */
  function List(value: string): seq<string> {
    if value == "" then [] else SplitComma(value)
  }

  // --- parsing ---

  /** Network, security, and which security settings there are. */
  lemma SecurityParsed(trojan: bool, q: Query)
    requires q != []
    ensures
      var s, security := Parse(trojan, q), Get(q, "security");
      && s.network == (if Get(q, "type") == "" then "tcp" else Get(q, "type"))
      && s.security == (if security != "" && security != "none" then security else if trojan then "tls" else "none")
      && (s.tls.Some? <==> s.security == "tls") && (s.reality.Some? <==> s.security == "reality")
  {
  }

  /** A trojan link always has TLS settings unless it names another security. */
  lemma TrojanHasTls(q: Query)
    requires q != [] && (Get(q, "security") == "" || Get(q, "security") == "none")
    ensures Parse(true, q).security == "tls" && Parse(true, q).tls.Some?
  {
    SecurityParsed(true, q);
  }

  lemma TlsParsed(trojan: bool, q: Query)
    requires q != [] && Parse(trojan, q).tls.Some?
    ensures
      var s := Parse(trojan, q);
      var t := s.tls.value;
      && t.fingerprint == Get(q, "fp")
      && t.serverName == (if Get(q, "sni") == "" && s.network == "ws" then Get(q, "host") else Get(q, "sni"))
      && t.alpn == List(Get(q, "alpn"))
      && (t.allowInsecure <==> Get(q, "allowInsecure") == "true" || Get(q, "allowInsecure") == "1")
  {
    NetworkTexts(NetworkText(q));
    TlsOf(NetworkOf(NetworkText(q)), q);
    assert Parse(trojan, q).tls == Some(ParseTls(NetworkOf(NetworkText(q)), q));
  }

  lemma TlsOf(n: Network, q: Query)
    ensures
      var t := ParseTls(n, q);
      && t.fingerprint == Get(q, "fp")
      && t.serverName == (if Get(q, "sni") == "" && n == NWs then Get(q, "host") else Get(q, "sni"))
      && t.alpn == List(Get(q, "alpn"))
      && (t.allowInsecure <==> Get(q, "allowInsecure") == "true" || Get(q, "allowInsecure") == "1")
  {
    var t := ParseTls(n, q);
    assert t.fingerprint == At(q, Fp) && t.serverName == ServerNameOf(n, q) && t.alpn == List(At(q, Alpn));
  }

  lemma RealityParsed(trojan: bool, q: Query)
    requires q != [] && Parse(trojan, q).reality.Some?
    ensures
      var r := Parse(trojan, q).reality.value;
      && r.fingerprint == Get(q, "fp") && r.serverName == Get(q, "sni") && r.publicKey == Get(q, "pbk")
      && r.shortId == Get(q, "sid") && r.spiderX == Get(q, "spx")
  {
    assert Parse(trojan, q).reality == Some(ParseReality(q));
    RealityOf(q);
  }

  lemma RealityOf(q: Query)
    ensures
      var r := ParseReality(q);
      && r.fingerprint == Get(q, "fp") && r.serverName == Get(q, "sni") && r.publicKey == Get(q, "pbk")
      && r.shortId == Get(q, "sid") && r.spiderX == Get(q, "spx")
  {
  }

  /** The texts of the networks. */
  lemma NetworkTexts(s: string)
    ensures NetworkOf(s) == NTcp <==> s == "tcp"
    ensures NetworkOf(s) == NKcp <==> s == "kcp"
    ensures NetworkOf(s) == NMkcp <==> s == "mkcp"
    ensures NetworkOf(s) == NWs <==> s == "ws"
    ensures NetworkOf(s) == NWebsocket <==> s == "websocket"
    ensures NetworkOf(s) == NGrpc <==> s == "grpc"
    ensures NetworkOf(s) == NGun <==> s == "gun"
    ensures NetworkOf(s) == NH2 <==> s == "h2"
    ensures NetworkOf(s) == NHttp <==> s == "http"
    ensures NetworkOf(s) == NHttpUpgrade <==> s == "httpupgrade"
    ensures NetworkOf(s) == NSplitHttp <==> s == "splithttp"
  {
    assert |"mkcp"| == |"grpc"| == |"http"| == 4 && "mkcp"[0] != "grpc"[0] && "mkcp"[0] != "http"[0];
    assert "grpc"[0] != "http"[0];
    assert |"ws"| == |"h2"| == 2 && "ws"[0] != "h2"[0];
    assert |"tcp"| == |"kcp"| == |"gun"| == 3 && "tcp"[0] != "kcp"[0] && "tcp"[0] != "gun"[0] && "kcp"[0] != "gun"[0];
    assert |"websocket"| == |"splithttp"| == 9 && "websocket"[0] != "splithttp"[0];
    assert |"httpupgrade"| == 11;
  }

  /** The settings of tcp, of which only the http header counts. */
  lemma TcpParsed(trojan: bool, q: Query)
    requires q != [] && Parse(trojan, q).network == "tcp"
    ensures
      var hosts := Get(q, "host");
      Parse(trojan, q).transport ==
      if Get(q, "headerType") != "http" then NoTransport
      else Tcp(Some(TcpHeader("http", Some(TcpRequest(List(Get(q, "path")),
                                                      if hosts == "" then None else Some(SplitComma(hosts)))))))
  {
    NetworkTexts(NetworkText(q));
  }

  /** The settings of the other networks, aliases included. */
  lemma TransportParsed(trojan: bool, q: Query)
    requires q != [] && Parse(trojan, q).network != "tcp"
    ensures
      var n, t := Parse(trojan, q).network, Parse(trojan, q).transport;
      if n == "kcp" || n == "mkcp" then
        t == Kcp(if Get(q, "headerType") == "" then None else Some(Get(q, "headerType")), Get(q, "seed"))
      else if n == "ws" || n == "websocket" then t == Ws(Get(q, "path"), Get(q, "host"))
      else if n == "grpc" || n == "gun" then
        t == Grpc(Get(q, "authority"), Get(q, "serviceName"), Get(q, "mode") == "multi")
      else if n == "h2" || n == "http" then t == Http(SplitComma(Get(q, "host")), Get(q, "path"))
      else if n == "httpupgrade" then t == HttpUpgrade(Get(q, "host"), Get(q, "path"))
      else if n == "splithttp" then t == SplitHttp(Get(q, "host"), Get(q, "path"))
      else t == NoTransport
  {
    NetworkTexts(NetworkText(q));
    TransportOf(NetworkOf(NetworkText(q)), q);
  }

  lemma TransportOf(n: Network, q: Query)
    requires n != NTcp
    ensures
      var t := ParseTransport(n, q);
      if n == NKcp || n == NMkcp then
        t == Kcp(if Get(q, "headerType") == "" then None else Some(Get(q, "headerType")), Get(q, "seed"))
      else if n == NWs || n == NWebsocket then t == Ws(Get(q, "path"), Get(q, "host"))
      else if n == NGrpc || n == NGun then
        t == Grpc(Get(q, "authority"), Get(q, "serviceName"), Get(q, "mode") == "multi")
      else if n == NH2 || n == NHttp then t == Http(SplitComma(Get(q, "host")), Get(q, "path"))
      else if n == NHttpUpgrade then t == HttpUpgrade(Get(q, "host"), Get(q, "path"))
      else if n == NSplitHttp then t == SplitHttp(Get(q, "host"), Get(q, "path"))
      else t == NoTransport
  {
    if n == NKcp || n == NMkcp {
      KcpOf(n, q);
    } else if n == NGrpc || n == NGun {
      GrpcOf(n, q);
    } else if n == NWs || n == NWebsocket {
      WsOf(n, q);
    } else {
      HttpOf(n, q);
    }
  }

  lemma KcpOf(n: Network, q: Query)
    requires n == NKcp || n == NMkcp
    ensures
      ParseTransport(n, q) ==
      Kcp(if Get(q, "headerType") == "" then None else Some(Get(q, "headerType")), Get(q, "seed"))
  {
  }

  lemma GrpcOf(n: Network, q: Query)
    requires n == NGrpc || n == NGun
    ensures ParseTransport(n, q) == Grpc(Get(q, "authority"), Get(q, "serviceName"), Get(q, "mode") == "multi")
  {
  }

  lemma WsOf(n: Network, q: Query)
    requires n == NWs || n == NWebsocket
    ensures ParseTransport(n, q) == Ws(Get(q, "path"), Get(q, "host"))
  {
  }

  lemma HttpOf(n: Network, q: Query)
    requires n in {NH2, NHttp, NHttpUpgrade, NSplitHttp, NOther}
    ensures
      ParseTransport(n, q) ==
      if n == NH2 || n == NHttp then Http(SplitComma(Get(q, "host")), Get(q, "path"))
      else if n == NHttpUpgrade then HttpUpgrade(Get(q, "host"), Get(q, "path"))
      else if n == NSplitHttp then SplitHttp(Get(q, "host"), Get(q, "path"))
      else NoTransport
  {
  }

  // --- printing ---

  /** The query that is printed for settings. */
  function Printed(s: Settings): Query {
    Emit(Fields(s))
  }

  lemma FieldRead(s: Settings, fs: seq<Field>, i: nat, key: string)
    requires Reads(Printed(s), fs) && i < |fs| && Name(fs[i].key) == key
    ensures Get(Printed(s), key) == fs[i].value
  {
    assert At(Printed(s), fs[i].key) == fs[i].value;
  }

  lemma SectionsRead(s: Settings)
    ensures Reads(Printed(s), HeadFields(s))
    ensures Reads(Printed(s), TransportFields(NetworkOf(Effective(s)), s.transport))
    ensures Reads(Printed(s), SecurityFields(s))
  {
    assert [] + Fields(s) == Fields(s);
    HeadReads([], s);
    TransportReads([], s);
    SecurityReads([], s);
  }

  lemma HeadPrinted(s: Settings)
    ensures Get(Printed(s), "type") == (if s.network == "" then "tcp" else s.network)
    ensures Get(Printed(s), "security") == (if s.security == "" then "none" else s.security)
  {
    SectionsRead(s);
    FieldRead(s, HeadFields(s), 0, "type");
    FieldRead(s, HeadFields(s), 1, "security");
  }

  lemma TlsPrinted(s: Settings)
    requires s.security == "tls" && s.tls.Some?
    ensures Get(Printed(s), "fp") == s.tls.value.fingerprint
    ensures Get(Printed(s), "sni") == s.tls.value.serverName
    ensures Get(Printed(s), "alpn") == JoinComma(s.tls.value.alpn)
    ensures Get(Printed(s), "allowInsecure") == (if s.tls.value.allowInsecure then "1" else "")
  {
    SectionsRead(s);
    var fs := TlsFields(s.tls.value);
    assert SecurityFields(s) == fs;
    FieldRead(s, fs, 0, "fp");
    FieldRead(s, fs, 1, "sni");
    FieldRead(s, fs, 2, "alpn");
    FieldRead(s, fs, 3, "allowInsecure");
  }

  lemma RealityPrinted(s: Settings)
    requires s.security == "reality" && s.reality.Some?
    ensures Get(Printed(s), "fp") == s.reality.value.fingerprint
    ensures Get(Printed(s), "sni") == s.reality.value.serverName
    ensures Get(Printed(s), "pbk") == s.reality.value.publicKey
    ensures Get(Printed(s), "sid") == s.reality.value.shortId
    ensures Get(Printed(s), "spx") == s.reality.value.spiderX
  {
    SectionsRead(s);
    var fs := RealityFields(s.reality.value);
    assert SecurityFields(s) == fs;
    FieldRead(s, fs, 0, "fp");
    FieldRead(s, fs, 1, "sni");
    FieldRead(s, fs, 2, "pbk");
    FieldRead(s, fs, 3, "sid");
    FieldRead(s, fs, 4, "spx");
  }

  lemma TcpPrinted(s: Settings)
    requires (s.network == "" || s.network == "tcp") && s.transport.Tcp? && s.transport.header.Some?
    requires s.transport.header.value.kind != ""
    ensures Get(Printed(s), "headerType") == s.transport.header.value.kind
    ensures s.transport.header.value.request.Some? ==>
              var r := s.transport.header.value.request.value;
              && Get(Printed(s), "path") == JoinComma(r.path)
              && Get(Printed(s), "host") == JoinComma(if r.hosts.None? then [] else r.hosts.value)
  {
    SectionsRead(s);
    NetworkTexts(Effective(s));
    var fs := TransportFields(NTcp, s.transport);
    FieldRead(s, fs, 0, "headerType");
    if s.transport.header.value.request.Some? {
      FieldRead(s, fs, 1, "path");
      FieldRead(s, fs, 2, "host");
    }
  }

  lemma KcpPrinted(s: Settings)
    requires s.network == "kcp" && s.transport.Kcp?
    ensures Get(Printed(s), "seed") == s.transport.seed
    ensures Get(Printed(s), "headerType") == (if s.transport.kcpHeader.None? then "" else s.transport.kcpHeader.value)
  {
    SectionsRead(s);
    NetworkTexts(Effective(s));
    var fs := TransportFields(NKcp, s.transport);
    FieldRead(s, fs, 0, "seed");
    FieldRead(s, fs, 1, "headerType");
  }

  lemma GrpcPrinted(s: Settings)
    requires s.network == "grpc" && s.transport.Grpc?
    ensures Get(Printed(s), "mode") == (if s.transport.multi then "multi" else "gun")
    ensures Get(Printed(s), "serviceName") == s.transport.serviceName
    ensures Get(Printed(s), "authority") == s.transport.authority
  {
    SectionsRead(s);
    NetworkTexts(Effective(s));
    var fs := TransportFields(NGrpc, s.transport);
    FieldRead(s, fs, 0, "mode");
    FieldRead(s, fs, 1, "serviceName");
    FieldRead(s, fs, 2, "authority");
  }

  /** The networks that print a host and a path. */
  lemma HostPathPrinted(s: Settings)
    ensures s.network == "ws" && s.transport.Ws? ==>
              Get(Printed(s), "path") == s.transport.wsPath && Get(Printed(s), "host") == s.transport.wsHost
    ensures s.network == "http" && s.transport.Http? ==>
              Get(Printed(s), "path") == s.transport.path && Get(Printed(s), "host") == JoinComma(s.transport.hosts)
    ensures s.network == "httpupgrade" && s.transport.HttpUpgrade? ==>
              Get(Printed(s), "path") == s.transport.upPath && Get(Printed(s), "host") == s.transport.upHost
    ensures s.network == "splithttp" && s.transport.SplitHttp? ==>
              Get(Printed(s), "path") == s.transport.splitPath && Get(Printed(s), "host") == s.transport.splitHost
  {
    SectionsRead(s);
    NetworkTexts(Effective(s));
    var n := NetworkOf(Effective(s));
    var fs := TransportFields(n, s.transport);
    if n == NWs && s.transport.Ws? {
      FieldRead(s, fs, 0, "path");
      FieldRead(s, fs, 1, "host");
    } else if (n == NHttp && s.transport.Http?) || (n == NHttpUpgrade && s.transport.HttpUpgrade?) ||
              (n == NSplitHttp && s.transport.SplitHttp?) {
      FieldRead(s, fs, 0, "host");
      FieldRead(s, fs, 1, "path");
    }
  }
}
