/** Stream settings of share links: parsed from a query, printed to a query. */
module ShareLink {
  import opened Bytes
  import opened Options
  import opened ShareQuery

  // --- keys ---

  datatype Key =
    | Type | Security
    | HeaderType | Path | Host | Seed | GrpcMode | ServiceName | Authority
    | Fp | Sni | Alpn | AllowInsecure | Pbk | Sid | Spx
    | Flow | Encryption

  function Name(k: Key): string {
    match k
    case Type => "type"
    case Security => "security"
    case HeaderType => "headerType"
    case Path => "path"
    case Host => "host"
    case Seed => "seed"
    case GrpcMode => "mode"
    case ServiceName => "serviceName"
    case Authority => "authority"
    case Fp => "fp"
    case Sni => "sni"
    case Alpn => "alpn"
    case AllowInsecure => "allowInsecure"
    case Pbk => "pbk"
    case Sid => "sid"
    case Spx => "spx"
    case Flow => "flow"
    case Encryption => "encryption"
  }

  /** Length and first two letters tell the names apart. */
  function Mark(k: Key): (nat, char, char) {
    match k
    case Type => (4, 't', 'y')
    case Security => (8, 's', 'e')
    case HeaderType => (10, 'h', 'e')
    case Path => (4, 'p', 'a')
    case Host => (4, 'h', 'o')
    case Seed => (4, 's', 'e')
    case GrpcMode => (4, 'm', 'o')
    case ServiceName => (11, 's', 'e')
    case Authority => (9, 'a', 'u')
    case Fp => (2, 'f', 'p')
    case Sni => (3, 's', 'n')
    case Alpn => (4, 'a', 'l')
    case AllowInsecure => (13, 'a', 'l')
    case Pbk => (3, 'p', 'b')
    case Sid => (3, 's', 'i')
    case Spx => (3, 's', 'p')
    case Flow => (4, 'f', 'l')
    case Encryption => (10, 'e', 'n')
  }

  lemma Marked(k: Key)
    ensures |Name(k)| >= 2 && Mark(k) == (|Name(k)|, Name(k)[0], Name(k)[1])
    ensures SimpleKey(Name(k))
  {
  }

  lemma NameInjective(k: Key, l: Key)
    requires k != l
    ensures Name(k) != Name(l)
  {
    Marked(k);
    Marked(l);
    assert Mark(k) != Mark(l);
  }

  // --- comma-separated lists ---

  /** `strings.Split(s, ",")`: never empty. */
  function SplitComma(s: string): (r: seq<string>)
    ensures r != []
  {
    if s == "" then [""]
    else
      var rest := SplitComma(s[1..]);
      if s[0] == ',' then [""] + rest else [[s[0]] + rest[0]] + rest[1..]
  }

  /** `strings.Join(l, ",")`. */
  function JoinComma(l: seq<string>): string {
    if l == [] then "" else if |l| == 1 then l[0] else l[0] + "," + JoinComma(l[1..])
  }

  lemma {:induction false} JoinSplit(s: string)
    ensures JoinComma(SplitComma(s)) == s
    decreases |s|
  {
    if s != "" {
      JoinSplit(s[1..]);
      var rest := SplitComma(s[1..]);
      assert s == [s[0]] + s[1..];
      if s[0] == ',' {
        assert ([""] + rest)[1..] == rest;
      } else {
        var l := [[s[0]] + rest[0]] + rest[1..];
        assert l[1..] == rest[1..];
        if |rest| > 1 {
          Nest([s[0]], rest[0], ",", JoinComma(rest[1..]));
        }
      }
    }
  }

  // --- settings ---

  datatype TcpRequest = TcpRequest(path: seq<string>, hosts: Option<seq<string>>)
  datatype TcpHeader = TcpHeader(kind: string, request: Option<TcpRequest>)

  /** The settings of the chosen network; `NoTransport` stands for nil. */
  datatype Transport =
    | NoTransport
    | Tcp(header: Option<TcpHeader>)
    | Kcp(kcpHeader: Option<string>, seed: string)
    | Ws(wsPath: string, wsHost: string)
    | Grpc(authority: string, serviceName: string, multi: bool)
    | Http(hosts: seq<string>, path: string)
    | HttpUpgrade(upHost: string, upPath: string)
    | SplitHttp(splitHost: string, splitPath: string)

  datatype Tls = Tls(fingerprint: string, serverName: string, alpn: seq<string>, allowInsecure: bool)
  datatype Reality = Reality(fingerprint: string, serverName: string, publicKey: string, shortId: string,
                             spiderX: string)

  datatype Settings = Settings(network: string, security: string, transport: Transport,
                               tls: Option<Tls>, reality: Option<Reality>)

  /** The networks the code knows; the aliases are parsed but not printed. */
  datatype Network =
    | NTcp | NKcp | NMkcp | NWs | NWebsocket | NGrpc | NGun | NH2 | NHttp | NHttpUpgrade | NSplitHttp | NOther

  function NetworkOf(s: string): Network {
    if s == "tcp" then NTcp
    else if s == "kcp" then NKcp
    else if s == "mkcp" then NMkcp
    else if s == "ws" then NWs
    else if s == "websocket" then NWebsocket
    else if s == "grpc" then NGrpc
    else if s == "gun" then NGun
    else if s == "h2" then NH2
    else if s == "http" then NHttp
    else if s == "httpupgrade" then NHttpUpgrade
    else if s == "splithttp" then NSplitHttp
    else NOther
  }

  predicate Alias(n: Network) {
    n in {NMkcp, NWebsocket, NGun, NH2}
  }

  // --- parsing ---

  function At(q: Query, k: Key): string {
    Get(q, Name(k))
  }

  function ParseTcp(g: Query): Transport {
    if At(g, HeaderType) == "http" then
      Tcp(Some(TcpHeader(At(g, HeaderType),
                         Some(TcpRequest(if At(g, Path) == "" then [] else SplitComma(At(g, Path)),
                                         if At(g, Host) == "" then None else Some(SplitComma(At(g, Host))))))))
    else NoTransport
  }

  function ParseTransport(n: Network, g: Query): Transport {
    match n
    case NTcp => ParseTcp(g)
    case NKcp => Kcp(if At(g, HeaderType) == "" then None else Some(At(g, HeaderType)), At(g, Seed))
    case NMkcp => Kcp(if At(g, HeaderType) == "" then None else Some(At(g, HeaderType)), At(g, Seed))
    case NWs => Ws(At(g, Path), At(g, Host))
    case NWebsocket => Ws(At(g, Path), At(g, Host))
    case NGrpc => Grpc(At(g, Authority), At(g, ServiceName), At(g, GrpcMode) == "multi")
    case NGun => Grpc(At(g, Authority), At(g, ServiceName), At(g, GrpcMode) == "multi")
    case NH2 => Http(SplitComma(At(g, Host)), At(g, Path))
    case NHttp => Http(SplitComma(At(g, Host)), At(g, Path))
    case NHttpUpgrade => HttpUpgrade(At(g, Host), At(g, Path))
    case NSplitHttp => SplitHttp(At(g, Host), At(g, Path))
    case NOther => NoTransport
  }

  /** The security of a link, with the fix-up for trojan. */
  function ParseSecurity(trojan: bool, g: Query): string {
    var s := if At(g, Security) == "" then "none" else At(g, Security);
    if trojan && s == "none" then "tls" else s
  }

  /** The server name, with the fix-up for a ws link that only names its host. */
  function ServerNameOf(n: Network, g: Query): string {
    if n == NWs && At(g, Sni) == "" then At(g, Host) else At(g, Sni)
  }

  function ParseTls(n: Network, g: Query): Tls {
    Tls(At(g, Fp), ServerNameOf(n, g), if At(g, Alpn) == "" then [] else SplitComma(At(g, Alpn)),
        At(g, AllowInsecure) == "true" || At(g, AllowInsecure) == "1")
  }

  function ParseReality(g: Query): Reality {
    Reality(At(g, Fp), At(g, Sni), At(g, Pbk), At(g, Sid), At(g, Spx))
  }

  function NetworkText(g: Query): string {
    if At(g, Type) == "" then "tcp" else At(g, Type)
  }

  function ParseWith(trojan: bool, g: Query): Settings {
    var n, security := NetworkOf(NetworkText(g)), ParseSecurity(trojan, g);
    Settings(NetworkText(g), security, ParseTransport(n, g),
             if security == "tls" then Some(ParseTls(n, g)) else None,
             if security == "reality" then Some(ParseReality(g)) else None)
  }

  /** streamSettings with parseSecurity: a query without any pair gives empty settings. */
  function Parse(trojan: bool, q: Query): Settings {
    if q == [] then Settings("", "", NoTransport, None, None) else ParseWith(trojan, q)
  }

  // --- printing ---

  /** A pair that is printed if it is forced or not empty. */
  datatype Field = Field(key: Key, value: string, force: bool) {
    function Pairs(): Query {
      if force || value != "" then [Pair(Name(key), value)] else []
    }
  }

  function Emit(fs: seq<Field>): Query {
    if fs == [] then [] else fs[0].Pairs() + Emit(fs[1..])
  }

  function HeadFields(s: Settings): seq<Field> {
    [Field(Type, if s.network == "" then "tcp" else s.network, true),
     Field(Security, if s.security == "" then "none" else s.security, true)]
  }

  function RequestFields(r: TcpRequest): seq<Field> {
    var hosts := if r.hosts.None? then [] else r.hosts.value;
    [Field(Path, JoinComma(r.path), r.path != []), Field(Host, JoinComma(hosts), hosts != [])]
  }

  function TcpFields(h: TcpHeader): seq<Field> {
    if h.kind == "" then []
    else [Field(HeaderType, h.kind, true)] + if h.request.None? then [] else RequestFields(h.request.value)
  }

  function TransportFields(n: Network, t: Transport): seq<Field> {
    match (n, t)
    case (NTcp, Tcp(Some(h))) => TcpFields(h)
    case (NKcp, Kcp(h, seed)) =>
      [Field(Seed, seed, false), Field(HeaderType, if h.None? then "" else h.value, false)]
    case (NWs, Ws(path, host)) => [Field(Path, path, false), Field(Host, host, false)]
    case (NGrpc, Grpc(authority, serviceName, multi)) =>
      [Field(GrpcMode, if multi then "multi" else "gun", true), Field(ServiceName, serviceName, false),
       Field(Authority, authority, false)]
    case (NHttp, Http(hosts, path)) => [Field(Host, JoinComma(hosts), hosts != []), Field(Path, path, false)]
    case (NHttpUpgrade, HttpUpgrade(host, path)) => [Field(Host, host, false), Field(Path, path, false)]
    case (NSplitHttp, SplitHttp(host, path)) => [Field(Host, host, false), Field(Path, path, false)]
    case _ => []
  }

  function TlsFields(t: Tls): seq<Field> {
    [Field(Fp, t.fingerprint, false), Field(Sni, t.serverName, false), Field(Alpn, JoinComma(t.alpn), t.alpn != []),
     Field(AllowInsecure, if t.allowInsecure then "1" else "", false)]
  }

  function RealityFields(r: Reality): seq<Field> {
    [Field(Fp, r.fingerprint, false), Field(Sni, r.serverName, false), Field(Pbk, r.publicKey, false),
     Field(Sid, r.shortId, false), Field(Spx, r.spiderX, false)]
  }

  function SecurityFields(s: Settings): seq<Field> {
    if s.security == "tls" && s.tls.Some? then TlsFields(s.tls.value)
    else if s.security == "reality" && s.reality.Some? then RealityFields(s.reality.value)
    else []
  }

  function Effective(s: Settings): string {
    if s.network == "" then "tcp" else s.network
  }

  function Fields(s: Settings): seq<Field> {
    HeadFields(s) + TransportFields(NetworkOf(Effective(s)), s.transport) + SecurityFields(s)
  }

  // --- reading a printed query ---

  predicate HasKey(fs: seq<Field>, k: Key) {
    exists i :: 0 <= i < |fs| && fs[i].key == k
  }

  predicate Distinct(fs: seq<Field>) {
    forall i, j :: 0 <= i < j < |fs| ==> fs[i].key != fs[j].key
  }

  lemma {:induction false} EmitConcat(a: seq<Field>, b: seq<Field>)
    ensures Emit(a + b) == Emit(a) + Emit(b)
    decreases |a|
  {
    if a == [] {
      assert a + b == b;
    } else {
      EmitConcat(a[1..], b);
      assert (a + b)[1..] == a[1..] + b;
      Assoc(a[0].Pairs(), Emit(a[1..]), Emit(b));
    }
  }

  /** A query that has no pair of the key does not get in the way of what follows. */
  lemma {:induction false} GetPast(fs: seq<Field>, rest: Query, k: Key)
    requires !HasKey(fs, k)
    ensures Get(Emit(fs) + rest, Name(k)) == Get(rest, Name(k))
    decreases |fs|
  {
    if fs == [] {
      assert Emit(fs) + rest == rest;
    } else {
      assert forall i :: 0 <= i < |fs[1..]| ==> fs[1..][i] == fs[i + 1];
      GetPast(fs[1..], rest, k);
      assert fs[0].key != k;
      NameInjective(fs[0].key, k);
      var ps, tail := fs[0].Pairs(), Emit(fs[1..]) + rest;
      Assoc(ps, Emit(fs[1..]), rest);
      if ps != [] {
        assert (ps + tail)[1..] == tail;
      } else {
        assert ps + tail == tail;
      }
    }
  }

  /** A field is read back, whatever follows that does not have its key. */
  lemma {:induction false} GetField(fs: seq<Field>, rest: Query, i: nat)
    requires Distinct(fs) && i < |fs| && Get(rest, Name(fs[i].key)) == ""
    ensures Get(Emit(fs) + rest, Name(fs[i].key)) == fs[i].value
    decreases |fs|
  {
    var f := fs[0];
    var ps, tail := f.Pairs(), Emit(fs[1..]) + rest;
    Assoc(ps, Emit(fs[1..]), rest);
    if i == 0 {
      if ps == [] {
        assert ps + tail == tail;
        assert !HasKey(fs[1..], f.key);
        GetPast(fs[1..], rest, f.key);
      } else {
        assert (ps + tail)[0] == Pair(Name(f.key), f.value);
      }
    } else {
      GetField(fs[1..], rest, i - 1);
      NameInjective(f.key, fs[i].key);
      if ps != [] {
        assert (ps + tail)[1..] == tail;
      } else {
        assert ps + tail == tail;
      }
    }
  }

  // --- the three sections of a printed query ---

  const TRANSPORT_KEYS := {HeaderType, Path, Host, Seed, GrpcMode, ServiceName, Authority}

  predicate TransportKey(k: Key) {
    k in TRANSPORT_KEYS
  }

  predicate SecurityKey(k: Key) {
    k in {Fp, Sni, Alpn, AllowInsecure, Pbk, Sid, Spx}
  }

  predicate HeadKey(k: Key) {
    k == Type || k == Security
  }

  lemma HeadShape(s: Settings)
    ensures Distinct(HeadFields(s)) && forall i :: 0 <= i < |HeadFields(s)| ==> HeadKey(HeadFields(s)[i].key)
  {
  }

  lemma TransportShape(n: Network, t: Transport)
    ensures Distinct(TransportFields(n, t))
    ensures forall i :: 0 <= i < |TransportFields(n, t)| ==> TransportKey(TransportFields(n, t)[i].key)
  {
  }

  lemma SecurityShape(s: Settings)
    ensures Distinct(SecurityFields(s))
    ensures forall i :: 0 <= i < |SecurityFields(s)| ==> SecurityKey(SecurityFields(s)[i].key)
  {
  }

  /** The getter reads the fields back, and nothing for the other keys of the section. */
  predicate Reads(g: Query, fs: seq<Field>) {
    forall i :: 0 <= i < |fs| ==> At(g, fs[i].key) == fs[i].value
  }

  predicate Silent(g: Query, fs: seq<Field>, keys: set<Key>) {
    forall k :: k in keys && !HasKey(fs, k) ==> At(g, k) == ""
  }

  /** A field in the middle of a query is read back if its key occurs neither before nor behind. */
  lemma ReadMiddle(a: seq<Field>, b: seq<Field>, c: seq<Field>, i: nat)
    requires Distinct(b) && i < |b| && !HasKey(a, b[i].key) && !HasKey(c, b[i].key)
    ensures Get(Emit(a + b + c), Name(b[i].key)) == b[i].value
  {
    var k := b[i].key;
    EmitConcat(a + b, c);
    EmitConcat(a, b);
    Assoc(Emit(a), Emit(b), Emit(c));
    GetPast(a, Emit(b) + Emit(c), k);
    GetPast(c, [], k);
    assert Emit(c) + [] == Emit(c);
    GetField(b, Emit(c), i);
  }

  lemma ReadLast(a: seq<Field>, b: seq<Field>, i: nat)
    requires Distinct(b) && i < |b| && !HasKey(a, b[i].key)
    ensures Get(Emit(a + b), Name(b[i].key)) == b[i].value
  {
    assert a + b + [] == a + b;
    ReadMiddle(a, b, [], i);
  }

  lemma ReadNothing(fs: seq<Field>, k: Key)
    requires !HasKey(fs, k)
    ensures Get(Emit(fs), Name(k)) == ""
  {
    GetPast(fs, [], k);
    assert Emit(fs) + [] == Emit(fs);
  }

  /** The pairs that the link itself contributed before the stream settings. */
  predicate Own(own: seq<Field>) {
    forall i :: 0 <= i < |own| ==> own[i].key == Flow || own[i].key == Encryption
  }

  lemma HeadReads(own: seq<Field>, s: Settings)
    requires Own(own)
    ensures Reads(Emit(own + Fields(s)), HeadFields(s))
  {
    var h, t, c := HeadFields(s), TransportFields(NetworkOf(Effective(s)), s.transport), SecurityFields(s);
    HeadShape(s);
    TransportShape(NetworkOf(Effective(s)), s.transport);
    SecurityShape(s);
    assert own + Fields(s) == own + h + (t + c);
    forall i | 0 <= i < |h| ensures At(Emit(own + Fields(s)), h[i].key) == h[i].value {
      ReadMiddle(own, h, t + c, i);
    }
  }

  lemma TransportReads(own: seq<Field>, s: Settings)
    requires Own(own)
    ensures Reads(Emit(own + Fields(s)), TransportFields(NetworkOf(Effective(s)), s.transport))
  {
    var h, t, c := HeadFields(s), TransportFields(NetworkOf(Effective(s)), s.transport), SecurityFields(s);
    HeadShape(s);
    TransportShape(NetworkOf(Effective(s)), s.transport);
    SecurityShape(s);
    assert own + Fields(s) == (own + h) + t + c;
    forall i | 0 <= i < |t| ensures At(Emit(own + Fields(s)), t[i].key) == t[i].value {
      ReadMiddle(own + h, t, c, i);
    }
  }

  lemma NotBefore(own: seq<Field>, s: Settings, k: Key)
    requires Own(own) && TransportKey(k)
    ensures !HasKey(own, k) && !HasKey(HeadFields(s), k)
  {
    HeadShape(s);
  }

  lemma NotBehind(s: Settings, k: Key)
    requires TransportKey(k)
    ensures !HasKey(SecurityFields(s), k)
  {
    SecurityShape(s);
  }

  lemma TransportSilent(own: seq<Field>, s: Settings)
    requires Own(own)
    ensures Silent(Emit(own + Fields(s)), TransportFields(NetworkOf(Effective(s)), s.transport), TRANSPORT_KEYS)
  {
    var h, t, c := HeadFields(s), TransportFields(NetworkOf(Effective(s)), s.transport), SecurityFields(s);
    Nest(own, h, t, c);
    forall k | k in TRANSPORT_KEYS && !HasKey(t, k) ensures At(Emit(own + Fields(s)), k) == "" {
      NotBefore(own, s, k);
      NotBehind(s, k);
      NotInAny(own, h, t, c, k);
      ReadNothing(own + h + t + c, k);
    }
  }

  lemma NotInAny(a: seq<Field>, b: seq<Field>, c: seq<Field>, d: seq<Field>, k: Key)
    requires !HasKey(a, k) && !HasKey(b, k) && !HasKey(c, k) && !HasKey(d, k)
    ensures !HasKey(a + b + c + d, k)
  {
  }

  lemma NotInThree(a: seq<Field>, b: seq<Field>, c: seq<Field>, k: Key)
    requires !HasKey(a, k) && !HasKey(b, k) && !HasKey(c, k)
    ensures !HasKey(a + b + c, k)
  {
  }

  lemma NotBeforeSecurity(own: seq<Field>, s: Settings, k: Key)
    requires Own(own) && SecurityKey(k)
    ensures !HasKey(own + HeadFields(s) + TransportFields(NetworkOf(Effective(s)), s.transport), k)
  {
    HeadShape(s);
    TransportShape(NetworkOf(Effective(s)), s.transport);
    NotInThree(own, HeadFields(s), TransportFields(NetworkOf(Effective(s)), s.transport), k);
  }

  lemma SecurityReads(own: seq<Field>, s: Settings)
    requires Own(own)
    ensures Reads(Emit(own + Fields(s)), SecurityFields(s))
  {
    var h, t, c := HeadFields(s), TransportFields(NetworkOf(Effective(s)), s.transport), SecurityFields(s);
    SecurityShape(s);
    Nest(own, h, t, c);
    forall i | 0 <= i < |c| ensures At(Emit(own + Fields(s)), c[i].key) == c[i].value {
      NotBeforeSecurity(own, s, c[i].key);
      ReadLast(own + h + t, c, i);
    }
  }

  // --- stability, section by section ---

  /** What an alias is parsed to when only its name was printed. */
  function Default(n: Network): Transport {
    ParseTransport(n, [])
  }

  lemma TcpStable(g: Query, g': Query)
    requires
      var t := ParseTcp(g);
      Reads(g', TransportFields(NTcp, t)) && Silent(g', TransportFields(NTcp, t), TRANSPORT_KEYS)
    ensures ParseTcp(g') == ParseTcp(g)
  {
    var t := ParseTcp(g);
    var fs := TransportFields(NTcp, t);
    if At(g, HeaderType) == "http" {
      assert fs == TcpFields(t.header.value);
      assert fs[0].key == HeaderType && fs[1].key == Path && fs[2].key == Host;
      JoinSplit(At(g, Path));
      JoinSplit(At(g, Host));
    } else {
      assert !HasKey(fs, HeaderType);
    }
  }

  lemma KcpStable(g: Query, g': Query)
    requires Reads(g', TransportFields(NKcp, ParseTransport(NKcp, g)))
    ensures ParseTransport(NKcp, g') == ParseTransport(NKcp, g)
  {
    var fs := TransportFields(NKcp, ParseTransport(NKcp, g));
    assert fs[0].key == Seed && fs[1].key == HeaderType;
  }

  lemma WsStable(g: Query, g': Query)
    requires Reads(g', TransportFields(NWs, ParseTransport(NWs, g)))
    ensures ParseTransport(NWs, g') == ParseTransport(NWs, g)
  {
    var fs := TransportFields(NWs, ParseTransport(NWs, g));
    assert fs[0].key == Path && fs[1].key == Host;
  }

  lemma GrpcStable(g: Query, g': Query)
    requires Reads(g', TransportFields(NGrpc, ParseTransport(NGrpc, g)))
    ensures ParseTransport(NGrpc, g') == ParseTransport(NGrpc, g)
  {
    var fs := TransportFields(NGrpc, ParseTransport(NGrpc, g));
    assert fs[0].key == GrpcMode && fs[1].key == ServiceName && fs[2].key == Authority;
  }

  lemma HttpStable(g: Query, g': Query)
    requires Reads(g', TransportFields(NHttp, ParseTransport(NHttp, g)))
    ensures ParseTransport(NHttp, g') == ParseTransport(NHttp, g)
  {
    var fs := TransportFields(NHttp, ParseTransport(NHttp, g));
    assert fs[0].key == Host && fs[1].key == Path;
    JoinSplit(At(g, Host));
  }

  lemma UpgradeStable(n: Network, g: Query, g': Query)
    requires n in {NHttpUpgrade, NSplitHttp} && Reads(g', TransportFields(n, ParseTransport(n, g)))
    ensures ParseTransport(n, g') == ParseTransport(n, g)
  {
    var fs := TransportFields(n, ParseTransport(n, g));
    assert fs[0].key == Host && fs[1].key == Path;
  }

  lemma OthersStable(n: Network, g: Query, g': Query)
    requires n != NTcp && !Alias(n) && Reads(g', TransportFields(n, ParseTransport(n, g)))
    ensures ParseTransport(n, g') == ParseTransport(n, g)
  {
    match n {
      case NKcp => KcpStable(g, g');
      case NWs => WsStable(g, g');
      case NGrpc => GrpcStable(g, g');
      case NHttp => HttpStable(g, g');
      case NHttpUpgrade => UpgradeStable(n, g, g');
      case NSplitHttp => UpgradeStable(n, g, g');
      case NOther =>
    }
  }

  lemma AliasForgets(n: Network, t: Transport, g': Query)
    requires Alias(n) && Reads(g', TransportFields(n, t)) && Silent(g', TransportFields(n, t), TRANSPORT_KEYS)
    ensures ParseTransport(n, g') == Default(n)
  {
    assert TransportFields(n, t) == [];
    assert forall k :: k in TRANSPORT_KEYS ==> !HasKey([], k);
  }

  lemma TlsStable(n: Network, g: Query, g': Query, s: Settings)
    requires s.security == "tls" && s.tls == Some(ParseTls(n, g)) && Reads(g', SecurityFields(s))
    requires n == NWs ==> At(g', Host) == At(g, Host)
    ensures ParseTls(n, g') == ParseTls(n, g)
  {
    var fs := SecurityFields(s);
    assert fs[0].key == Fp && fs[1].key == Sni && fs[2].key == Alpn && fs[3].key == AllowInsecure;
    JoinSplit(At(g, Alpn));
  }

  lemma RealityStable(g: Query, g': Query, s: Settings)
    requires s.security == "reality" && s.reality == Some(ParseReality(g)) && Reads(g', SecurityFields(s))
    ensures ParseReality(g') == ParseReality(g)
  {
    var fs := SecurityFields(s);
    assert fs[0].key == Fp && fs[1].key == Sni && fs[2].key == Pbk && fs[3].key == Sid && fs[4].key == Spx;
  }

  lemma HeadStable(trojan: bool, g: Query, g': Query)
    requires Reads(g', HeadFields(ParseWith(trojan, g)))
    ensures NetworkText(g') == NetworkText(g) && ParseSecurity(trojan, g') == ParseSecurity(trojan, g)
  {
    var fs := HeadFields(ParseWith(trojan, g));
    assert fs[0].key == Type && fs[1].key == Security;
  }

  /** Printing and parsing again is exact unless the network was given by an alias whose settings are not the
      defaults. */
  lemma SettingsStable(trojan: bool, g: Query, own: seq<Field>)
    requires Own(own)
    ensures
      var s := ParseWith(trojan, g);
      var n := NetworkOf(s.network);
      ParseWith(trojan, Emit(own + Fields(s))) == s <==> !Alias(n) || s.transport == Default(n)
  {
    var s := ParseWith(trojan, g);
    var n := NetworkOf(s.network);
    var g' := Emit(own + Fields(s));
    HeadReads(own, s);
    TransportReads(own, s);
    TransportSilent(own, s);
    SecurityReads(own, s);
    HeadStable(trojan, g, g');
    if Alias(n) {
      AliasForgets(n, s.transport, g');
    } else if n == NTcp {
      TcpStable(g, g');
    } else {
      OthersStable(n, g, g');
    }
    if s.security == "tls" {
      WsHostStable(n, g, g');
      TlsStable(n, g, g', s);
    } else if s.security == "reality" {
      RealityStable(g, g', s);
    }
  }

  lemma WsHostStable(n: Network, g: Query, g': Query)
    requires Reads(g', TransportFields(n, ParseTransport(n, g)))
    ensures n == NWs ==> At(g', Host) == At(g, Host)
  {
    if n == NWs {
      var fs := TransportFields(n, ParseTransport(n, g));
      assert fs[1].key == Host;
    }
  }

  // --- the strings ---

  predicate FieldsOk(fs: seq<Field>) {
    forall i :: 0 <= i < |fs| ==> ByteString(fs[i].value)
  }

  lemma {:induction false} EmitPrints(fs: seq<Field>)
    requires FieldsOk(fs)
    ensures Printable(Emit(fs)) && SimpleKeys(Emit(fs))
    decreases |fs|
  {
    if fs != [] {
      EmitPrints(fs[1..]);
      Marked(fs[0].key);
    }
  }

  lemma HeadBytes(trojan: bool, q: Query)
    requires Printable(q)
    ensures FieldsOk(HeadFields(ParseWith(trojan, q)))
  {
    GetBytes(q, Name(Type));
    GetBytes(q, Name(Security));
  }

  lemma TcpBytes(q: Query)
    requires Printable(q)
    ensures FieldsOk(TransportFields(NTcp, ParseTcp(q)))
  {
    GetBytes(q, Name(HeaderType));
    GetBytes(q, Name(Path));
    GetBytes(q, Name(Host));
    JoinSplit(At(q, Path));
    JoinSplit(At(q, Host));
  }

  lemma TransportBytes(n: Network, q: Query)
    requires Printable(q)
    ensures FieldsOk(TransportFields(n, ParseTransport(n, q)))
  {
    if n == NTcp {
      TcpBytes(q);
    } else if n == NKcp {
      GetBytes(q, Name(HeaderType));
      GetBytes(q, Name(Seed));
    } else if n == NGrpc {
      GetBytes(q, Name(ServiceName));
      GetBytes(q, Name(Authority));
    } else {
      GetBytes(q, Name(Path));
      GetBytes(q, Name(Host));
      JoinSplit(At(q, Host));
    }
  }

  lemma SecurityBytes(trojan: bool, q: Query)
    requires Printable(q)
    ensures FieldsOk(SecurityFields(ParseWith(trojan, q)))
  {
    GetBytes(q, Name(Fp));
    GetBytes(q, Name(Sni));
    GetBytes(q, Name(Host));
    GetBytes(q, Name(Alpn));
    GetBytes(q, Name(Pbk));
    GetBytes(q, Name(Sid));
    GetBytes(q, Name(Spx));
    JoinSplit(At(q, Alpn));
  }

  lemma JoinedOk(a: seq<Field>, b: seq<Field>, c: seq<Field>)
    requires FieldsOk(a) && FieldsOk(b) && FieldsOk(c)
    ensures FieldsOk(a + b + c)
  {
  }

  lemma SettingsBytes(trojan: bool, q: Query)
    requires Printable(q)
    ensures FieldsOk(Fields(Parse(trojan, q)))
  {
    if q != [] {
      var s := ParseWith(trojan, q);
      HeadBytes(trojan, q);
      TransportBytes(NetworkOf(s.network), q);
      SecurityBytes(trojan, q);
      JoinedOk(HeadFields(s), TransportFields(NetworkOf(s.network), s.transport), SecurityFields(s));
      assert Effective(s) == s.network;
    }
  }

  /** Share-link stability. Parse any query, print the settings behind the link's own pairs as an escaped query, and
      parse that again under the same scheme: the settings are identical if and only if the query had a pair at all
      and did not give the network by an alias with settings of its own. */
  lemma ShareLinkStable(trojan: bool, raw: string, own: seq<Field>)
    requires ByteString(raw) && Own(own) && FieldsOk(own)
    ensures Printable(Emit(own + Fields(Parse(trojan, ParseQuery(raw)))))
    ensures
      var q := ParseQuery(raw);
      var s := Parse(trojan, q);
      var printed := AddAll("", Emit(own + Fields(s)));
      Parse(trojan, ParseQuery(printed)) == s <==>
      q != [] && (!Alias(NetworkOf(s.network)) || s.transport == Default(NetworkOf(s.network)))
  {
    var q := ParseQuery(raw);
    var s := Parse(trojan, q);
    var fs := own + Fields(s);
    ParsedBytes(raw);
    SettingsBytes(trojan, q);
    EmitPrints(fs);
    PrintedParses(Emit(fs));
    HeadReads(own, s);
    assert HeadFields(s)[0].key == Type && At(Emit(fs), Type) != "" == At([], Type);
    if q != [] {
      SettingsStable(trojan, q, own);
    }
  }

  // --- the two ways in which printing is not stable ---

  lemma AliasParsed(trojan: bool)
    ensures
      var s := Parse(trojan, [Pair("type", "mkcp"), Pair("seed", "a")]);
      s.network == "mkcp" && s.transport == Kcp(None, "a")
  {
    var q := [Pair("type", "mkcp"), Pair("seed", "a")];
    assert q[1..] == [Pair("seed", "a")] && q[1..][1..] == [];
    NameInjective(Type, Seed);
    NameInjective(Type, HeaderType);
    NameInjective(Seed, HeaderType);
    assert At(q, Type) == "mkcp" && At(q, Seed) == "a" && At(q, HeaderType) == "";
  }

  lemma AliasQuery(raw: string, p: Pair, q: Pair)
    requires raw == "type=mkcp&seed=a" && p == Pair("type", "mkcp") && q == Pair("seed", "a")
    ensures ByteString(raw) && ParseQuery(raw) == [p, q]
  {
    assert raw == p.key + "=" + p.value + "&" + (q.key + "=" + q.value);
    TwoPairsParse(p, q);
  }

  /** A network given by an alias: the seed of this link is forgotten when it is printed. */
  lemma AliasFails(trojan: bool, raw: string, own: seq<Field>)
    requires raw == "type=mkcp&seed=a" && Own(own) && FieldsOk(own)
    ensures
      var s := Parse(trojan, ParseQuery(raw));
      && s.network == "mkcp" && s.transport == Kcp(None, "a")
      && Printable(Emit(own + Fields(s)))
      && Parse(trojan, ParseQuery(AddAll("", Emit(own + Fields(s))))) != s
  {
    AliasQuery(raw, Pair("type", "mkcp"), Pair("seed", "a"));
    AliasParsed(trojan);
    ShareLinkStable(trojan, raw, own);
    assert Default(NMkcp) == Kcp(None, "");
  }

  /** A link without a query: what is printed for it is parsed as a network and a security. */
  lemma EmptyQueryFails(trojan: bool, own: seq<Field>)
    requires Own(own) && FieldsOk(own)
    ensures
      var s := Parse(trojan, ParseQuery(""));
      && Printable(Emit(own + Fields(s)))
      && Parse(trojan, ParseQuery(AddAll("", Emit(own + Fields(s))))) != s
  {
    ShareLinkStable(trojan, "", own);
  }

  /** Stability of the query that streamSettingsQuery leaves in a link that already has its own pairs. */
  lemma LinkStable(trojan: bool, raw: string, own: seq<Field>)
    requires ByteString(raw) && Own(own) && FieldsOk(own)
    ensures Printable(Emit(own)) && Printable(Emit(Fields(Parse(trojan, ParseQuery(raw)))))
    ensures
      var q := ParseQuery(raw);
      var s := Parse(trojan, q);
      var link := AddAll(AddAll("", Emit(own)), Emit(Fields(s)));
      Parse(trojan, ParseQuery(link)) == s <==>
      q != [] && (!Alias(NetworkOf(s.network)) || s.transport == Default(NetworkOf(s.network)))
  {
    var fs := Fields(Parse(trojan, ParseQuery(raw)));
    ParsedBytes(raw);
    SettingsBytes(trojan, ParseQuery(raw));
    EmitPrints(own);
    EmitPrints(fs);
    EmitConcat(own, fs);
    AddAllConcat("", Emit(own), Emit(fs));
    ShareLinkStable(trojan, raw, own);
  }

  // --- streamSettingsQuery, which grows a query string ---

  lemma Append(p: seq<Field>, a: seq<Field>, b: seq<Field>, ab: seq<Field>)
    requires ab == a + b
    ensures p + a + b == p + ab
  {
    Assoc(p, a, b);
  }

  /** Settings that do not belong to the network are not printed. */
  lemma NoFields(n: Network, t: Transport, printed: seq<Field>)
    requires !(n.NTcp? && t.Tcp?) && !(n.NKcp? && t.Kcp?) && !(n.NWs? && t.Ws?) && !(n.NGrpc? && t.Grpc?)
    requires !(n.NHttp? && t.Http?) && !(n.NHttpUpgrade? && t.HttpUpgrade?) && !(n.NSplitHttp? && t.SplitHttp?)
    ensures printed + TransportFields(n, t) == printed
  {
    assert TransportFields(n, t) == [];
  }

  /** The link under construction: its raw query, and the fields that went into it. */
  class Link {
    const start: string
    var rawQuery: string
    ghost var printed: seq<Field>

    ghost predicate Valid()
      reads this
    {
      FieldsOk(printed) && Printable(Emit(printed)) && rawQuery == AddAll(start, Emit(printed))
    }

    constructor (raw: string)
      ensures Valid() && start == raw && printed == []
    {
      start, rawQuery, printed := raw, raw, [];
    }

    /** addQuery under the condition that the value is printed at all. */
    method Add(f: Field)
      requires Valid() && ByteString(f.value)
      modifies this
      ensures Valid() && printed == old(printed) + [f]
    {
      EmitConcat(printed, [f]);
      assert [f][1..] == [];
      assert Emit([f]) == f.Pairs() + [] == f.Pairs();
      if f.force || |f.value| > 0 {
        AddAllSnoc(start, Emit(printed), Pair(Name(f.key), f.value));
        rawQuery := AddQuery(rawQuery, Pair(Name(f.key), f.value));
      } else {
        assert Emit(printed) + [] == Emit(printed);
      }
      printed := printed + [f];
    }

    method AddTcp(h: TcpHeader)
      requires Valid() && FieldsOk(TcpFields(h))
      modifies this
      ensures Valid() && printed == old(printed) + TcpFields(h)
    {
      ghost var fs := TcpFields(h);
      if |h.kind| > 0 {
        assert fs[0].value == h.kind;
        Add(Field(HeaderType, h.kind, true));
        if h.request.Some? {
          var r := h.request.value;
          assert RequestFields(r)[0] == fs[1] && RequestFields(r)[1] == fs[2];
          Append(old(printed), [Field(HeaderType, h.kind, true)], RequestFields(r), fs);
          AddRequest(r);
        }
      }
    }

    method AddRequest(r: TcpRequest)
      requires Valid() && FieldsOk(RequestFields(r))
      modifies this
      ensures Valid() && printed == old(printed) + RequestFields(r)
    {
      var hosts := if r.hosts.None? then [] else r.hosts.value;
      AddTwo(Field(Path, JoinComma(r.path), |r.path| > 0), Field(Host, JoinComma(hosts), |hosts| > 0));
    }

    method AddTwo(f: Field, g: Field)
      requires Valid() && FieldsOk([f, g])
      modifies this
      ensures Valid() && printed == old(printed) + [f, g]
    {
      assert [f, g][0] == f && [f, g][1] == g;
      Add(f);
      Add(g);
    }

    method AddThree(f: Field, g: Field, h: Field)
      requires Valid() && ByteString(f.value) && ByteString(g.value) && ByteString(h.value)
      modifies this
      ensures Valid() && printed == old(printed) + [f, g, h]
    {
      Append(printed, [f, g], [h], [f, g, h]);
      AddTwo(f, g);
      Add(h);
    }

    /** The switch on the network. */
    method AddTransport(n: Network, t: Transport)
      requires Valid() && FieldsOk(TransportFields(n, t))
      modifies this
      ensures Valid() && printed == old(printed) + TransportFields(n, t)
    {
      match (n, t)
      case (NTcp, Tcp(Some(h))) => AddTcp(h);
      case (NTcp, Tcp(None)) => assert printed + [] == printed;
      case (NKcp, Kcp(h, seed)) => AddKcp(h, seed);
      case (NWs, Ws(path, host)) => AddWs(path, host);
      case (NGrpc, Grpc(authority, serviceName, multi)) => AddGrpc(authority, serviceName, multi);
      case _ => AddHttpTransport(n, t);
    }

    /** The last cases of that switch. */
    method AddHttpTransport(n: Network, t: Transport)
      requires Valid() && FieldsOk(TransportFields(n, t))
      requires !(n.NTcp? && t.Tcp?) && !(n.NKcp? && t.Kcp?) && !(n.NWs? && t.Ws?) && !(n.NGrpc? && t.Grpc?)
      modifies this
      ensures Valid() && printed == old(printed) + TransportFields(n, t)
    {
      if n.NHttp? && t.Http? {
        AddHttp(t.hosts, t.path);
      } else if n.NHttpUpgrade? && t.HttpUpgrade? {
        AddUpgrade(t.upHost, t.upPath);
      } else if n.NSplitHttp? && t.SplitHttp? {
        AddSplit(t.splitHost, t.splitPath);
      } else {
        NoFields(n, t, printed);
      }
    }

    method AddKcp(h: Option<string>, seed: string)
      requires Valid() && FieldsOk(TransportFields(NKcp, Kcp(h, seed)))
      modifies this
      ensures Valid() && printed == old(printed) + TransportFields(NKcp, Kcp(h, seed))
    {
      AddTwo(Field(Seed, seed, false), Field(HeaderType, if h.None? then "" else h.value, false));
    }

    method AddWs(path: string, host: string)
      requires Valid() && FieldsOk(TransportFields(NWs, Ws(path, host)))
      modifies this
      ensures Valid() && printed == old(printed) + TransportFields(NWs, Ws(path, host))
    {
      AddTwo(Field(Path, path, false), Field(Host, host, false));
    }

    method AddHttp(hosts: seq<string>, path: string)
      requires Valid() && FieldsOk(TransportFields(NHttp, Http(hosts, path)))
      modifies this
      ensures Valid() && printed == old(printed) + TransportFields(NHttp, Http(hosts, path))
    {
      AddTwo(Field(Host, JoinComma(hosts), |hosts| > 0), Field(Path, path, false));
    }

    method AddUpgrade(host: string, path: string)
      requires Valid() && FieldsOk(TransportFields(NHttpUpgrade, HttpUpgrade(host, path)))
      modifies this
      ensures Valid() && printed == old(printed) + TransportFields(NHttpUpgrade, HttpUpgrade(host, path))
    {
      AddTwo(Field(Host, host, false), Field(Path, path, false));
    }

    method AddSplit(host: string, path: string)
      requires Valid() && FieldsOk(TransportFields(NSplitHttp, SplitHttp(host, path)))
      modifies this
      ensures Valid() && printed == old(printed) + TransportFields(NSplitHttp, SplitHttp(host, path))
    {
      AddTwo(Field(Host, host, false), Field(Path, path, false));
    }

    method AddGrpc(authority: string, serviceName: string, multi: bool)
      requires Valid() && FieldsOk(TransportFields(NGrpc, Grpc(authority, serviceName, multi)))
      modifies this
      ensures Valid() && printed == old(printed) + TransportFields(NGrpc, Grpc(authority, serviceName, multi))
    {
      ghost var fs := TransportFields(NGrpc, Grpc(authority, serviceName, multi));
      var mode := "gun";
      if multi {
        mode := "multi";
      }
      assert fs[0].value == mode && fs[1].value == serviceName && fs[2].value == authority;
      AddThree(Field(GrpcMode, mode, true), Field(ServiceName, serviceName, false), Field(Authority, authority, false));
    }

    method AddTls(t: Tls)
      requires Valid() && FieldsOk(TlsFields(t))
      modifies this
      ensures Valid() && printed == old(printed) + TlsFields(t)
    {
      ghost var fs := TlsFields(t);
      assert fs[0].value == t.fingerprint && fs[1].value == t.serverName && fs[2].value == JoinComma(t.alpn);
      Append(printed, [fs[0], fs[1]], [fs[2], fs[3]], fs);
      AddTwo(Field(Fp, t.fingerprint, false), Field(Sni, t.serverName, false));
      AddTwo(Field(Alpn, JoinComma(t.alpn), |t.alpn| > 0),
             Field(AllowInsecure, if t.allowInsecure then "1" else "", false));
    }

    method AddReality(r: Reality)
      requires Valid() && FieldsOk(RealityFields(r))
      modifies this
      ensures Valid() && printed == old(printed) + RealityFields(r)
    {
      ghost var fs := RealityFields(r);
      assert fs[0].value == r.fingerprint && fs[1].value == r.serverName;
      assert fs[2].value == r.publicKey && fs[3].value == r.shortId && fs[4].value == r.spiderX;
      Append(printed, [fs[0], fs[1]], [fs[2], fs[3], fs[4]], fs);
      AddTwo(Field(Fp, r.fingerprint, false), Field(Sni, r.serverName, false));
      AddThree(Field(Pbk, r.publicKey, false), Field(Sid, r.shortId, false), Field(Spx, r.spiderX, false));
    }

    /** The switch on the security. */
    method AddSecurity(s: Settings)
      requires Valid() && FieldsOk(SecurityFields(s))
      modifies this
      ensures Valid() && printed == old(printed) + SecurityFields(s)
    {
      if s.security == "tls" && s.tls.Some? {
        AddTls(s.tls.value);
      } else if s.security == "reality" && s.reality.Some? {
        AddReality(s.reality.value);
      } else {
        assert printed + [] == printed;
      }
    }

    /** streamSettingsQuery behind its check for nil. */
    method PrintSettings(settings: Settings) returns (updated: Settings)
      requires Valid() && printed == [] && FieldsOk(Fields(settings))
      modifies this
      ensures Valid() && printed == Fields(settings)
      ensures updated == Filled(settings)
    {
      FieldsSplit(settings);
      FilledFields(settings);
      updated := settings;
      if |updated.network| == 0 {
        updated := updated.(network := "tcp");
      }
      if |updated.security| == 0 {
        updated := updated.(security := "none");
      }
      ghost var t := TransportFields(NetworkOf(updated.network), updated.transport);
      assert [] + HeadFields(settings) == HeadFields(settings);
      AddTwo(Field(Type, updated.network, true), Field(Security, updated.security, true));
      assert printed == HeadFields(settings);
      AddTransport(NetworkOf(updated.network), updated.transport);
      assert printed == HeadFields(settings) + t;
      AddSecurity(updated);
    }

    /** streamSettingsQuery: prints the settings behind the query that the link has, nothing for nil, and returns them
        with the defaults that it fills in. */
    method StreamSettingsQuery(settings: Option<Settings>) returns (updated: Option<Settings>)
      requires Valid() && printed == [] && (settings.Some? ==> FieldsOk(Fields(settings.value)))
      modifies this
      ensures Valid()
      ensures settings.None? ==> rawQuery == old(rawQuery) && updated == None
      ensures settings.Some? ==>
                && Printable(Emit(Fields(settings.value)))
                && rawQuery == AddAll(old(rawQuery), Emit(Fields(settings.value)))
                && updated == Some(Filled(settings.value))
    {
      if settings.None? {
        return None;
      }
      var filled := PrintSettings(settings.value);
      updated := Some(filled);
    }
  }

  /** The settings with the defaults for network and security. */
  function Filled(s: Settings): Settings {
    s.(network := Effective(s), security := if s.security == "" then "none" else s.security)
  }

  lemma FilledFields(s: Settings)
    ensures HeadFields(s) == [Field(Type, Filled(s).network, true), Field(Security, Filled(s).security, true)]
    ensures SecurityFields(Filled(s)) == SecurityFields(s)
    ensures Fields(Filled(s)) == Fields(s)
  {
  }

  lemma FieldsSplit(s: Settings)
    requires FieldsOk(Fields(s))
    ensures FieldsOk(HeadFields(s)) && FieldsOk(TransportFields(NetworkOf(Effective(s)), s.transport))
    ensures FieldsOk(SecurityFields(s))
  {
    var h, t, c := HeadFields(s), TransportFields(NetworkOf(Effective(s)), s.transport), SecurityFields(s);
    assert forall i :: 0 <= i < |h| ==> h[i] == Fields(s)[i];
    assert forall i :: 0 <= i < |t| ==> t[i] == Fields(s)[|h| + i];
    assert forall i :: 0 <= i < |c| ==> c[i] == Fields(s)[|h| + |t| + i];
  }
}
