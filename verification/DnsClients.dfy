/** The DNS dispatcher: the table that ties domain rules to name-server clients, and the order in which the clients
    are asked. */
module DnsClients {
  import opened Bytes
  import opened Options

  /** A prioritised domain: its text, and whether a matcher can be built from it. */
  datatype Domain = Domain(text: string, valid: bool)

  datatype OriginalRule = OriginalRule(rule: string, size: nat)

  datatype NameServer = NameServer(isLocal: bool, skipFallback: bool, domains: seq<Domain>, rules: seq<OriginalRule>)

  datatype Client = Client(skipFallback: bool, domains: seq<string>)

  /** The client and the rule of that client that a matcher index stands for, as 16-bit numbers. */
  datatype Info = Info(clientIdx: nat, ruleIdx: nat)

  /** Indices are stored as 16-bit numbers. */
  const INDEX_LIMIT := 0x1_0000

  const LOCAL_COUNT := 9

  function LocalDomain(i: nat): Domain {
    match i
    case 0 => Domain("^[^.]+$", true)
    case 1 => Domain("local", true)
    case 2 => Domain("localdomain", true)
    case 3 => Domain("localhost", true)
    case 4 => Domain("lan", true)
    case 5 => Domain("home.arpa", true)
    case 6 => Domain("example", true)
    case 7 => Domain("invalid", true)
    case _ => Domain("test", true)
  }

  /** The special-use domains that a local server takes in addition. */
  function LocalDomains(): (ds: seq<Domain>)
    ensures |ds| == LOCAL_COUNT
  {
    seq(LOCAL_COUNT, i requires 0 <= i => LocalDomain(i))
  }

  /** The domains and rules a client really gets: a local server also takes the local ones. */
  function AllDomains(ns: NameServer): seq<Domain> {
    if ns.isLocal then ns.domains + LocalDomains() else ns.domains
  }

  function AllRules(ns: NameServer): seq<OriginalRule> {
    if ns.isLocal then ns.rules + [OriginalRule("geosite:private", LOCAL_COUNT)] else ns.rules
  }

  function ConfiguredDomains(nss: seq<NameServer>): nat {
    if nss == [] then 0 else |nss[0].domains| + ConfiguredDomains(nss[1..])
  }

  type Table = seq<Option<Info>>

  /** The entry names client `client`, as far as 16 bits can, and one of its `rules` rules. */
  predicate Names(entry: Option<Info>, client: nat, rules: nat) {
    entry.Some? && entry.value.clientIdx == client % INDEX_LIMIT && entry.value.ruleIdx < rules
  }

  /** The rule that the `i`-th domain belongs to, and its place among that rule's domains: every original rule covers
      as many domains as its size says, at least one, and each further domain is a rule of its own. */
  function Position(original: seq<OriginalRule>, i: nat): (nat, nat) {
    if original == [] then (i, 0)
    else if i == 0 || i < original[0].size then (0, i)
    else
      var width := if original[0].size == 0 then 1 else original[0].size;
      var (r, t) := Position(original[1..], i - width);
      (r + 1, t)
  }

  lemma {:induction false} PositionStep(original: seq<OriginalRule>, i: nat)
    ensures
      var (r, t) := Position(original, i);
      && r <= i && (r >= |original| ==> t == 0)
      && Position(original, i + 1) ==
         if r < |original| && t + 1 < original[r].size then (r, t + 1) else (r + 1, 0)
    decreases |original|
  {
    if original != [] && i != 0 && i >= original[0].size {
      var width := if original[0].size == 0 then 1 else original[0].size;
      PositionStep(original[1..], i - width);
    } else if original != [] && i + 1 >= original[0].size {
      assert Position(original[1..], 0) == (0, 0);
    }
  }

  function Width(o: OriginalRule): nat {
    if o.size == 0 then 1 else o.size
  }

  /** How many domains the first `r` original rules cover. */
  function Covered(original: seq<OriginalRule>, r: nat): nat
    requires r <= |original|
  {
    if r == 0 then 0 else Covered(original, r - 1) + Width(original[r - 1])
  }

  lemma {:induction false} CoveredTail(original: seq<OriginalRule>, r: nat)
    requires 0 < r <= |original|
    ensures Covered(original, r) == Width(original[0]) + Covered(original[1..], r - 1)
    decreases r
  {
    if r > 1 {
      CoveredTail(original, r - 1);
    }
  }

  /** A domain belongs to an original rule exactly if it lies behind the domains that the rules before it cover and
      within those that the rule itself covers; behind all of them every domain has a rule to itself. */
  lemma {:induction false} PositionExactly(original: seq<OriginalRule>, i: nat)
    ensures
      var (r, t) := Position(original, i);
      if r < |original| then Covered(original, r) + t == i < Covered(original, r + 1)
      else i == Covered(original, |original|) + (r - |original|)
    decreases |original|
  {
    if original != [] {
      var width := Width(original[0]);
      CoveredTail(original, |original|);
      if i >= width {
        var rest := original[1..];
        var (r, t) := Position(rest, i - width);
        PositionExactly(rest, i - width);
        assert Position(original, i) == (r + 1, t);
        if r < |rest| {
          CoveredTail(original, r + 1);
          CoveredTail(original, r + 2);
        }
      } else {
        assert Covered(original, 1) == Covered(original, 0) + width;
      }
    }
  }

  /** The text of a rule: the original one, or the only domain it covers. */
  predicate Texts(domains: seq<Domain>, original: seq<OriginalRule>, rules: seq<string>, n: nat)
    requires n <= |domains|
  {
    forall i :: 0 <= i < n ==>
      var r := Position(original, i).0;
      r < |rules| && rules[r] == if r < |original| then original[r].rule else domains[i].text
  }

  predicate AllValid(domains: seq<Domain>) {
    forall i :: 0 <= i < |domains| ==> domains[i].valid
  }

  /** The rules after `i` domains. */
  predicate RulesOk(domains: seq<Domain>, original: seq<OriginalRule>, rules: seq<string>, i: nat)
    requires i <= |domains|
  {
    var (r, t) := Position(original, i);
    && |rules| == r + (if t > 0 then 1 else 0) <= i
    && (forall k :: 0 <= k < |rules| && k < |original| ==> rules[k] == original[k].rule)
    && Texts(domains, original, rules, i)
  }

  /** The part of the rule loop that follows the original rules. */
  method NextRule(domains: seq<Domain>, original: seq<OriginalRule>, i: nat, rules: seq<string>, curr: nat, iter: nat)
    returns (rules': seq<string>, curr': nat, iter': nat)
    requires i < |domains| && RulesOk(domains, original, rules, i) && (curr, iter) == Position(original, i)
    ensures RulesOk(domains, original, rules', i + 1) && (curr', iter') == Position(original, i + 1)
  {
    PositionStep(original, i);
    rules', curr', iter' := rules, curr, iter;
    if curr < |original| {
      if curr >= |rules| {
        rules' := rules + [original[curr].rule];
      }
      iter' := iter + 1;
      if iter' >= original[curr].size {
        iter', curr' := 0, curr + 1;
      }
    } else {
      rules' := rules + [domains[i].text];
      curr' := curr + 1;
    }
  }

  /** The table after `n` domains of a client: its entries behind the first `added` name the client and the rules. */
  predicate Filled(infos: Table, table: Table, added: nat, original: seq<OriginalRule>, clientIdx: nat, n: nat) {
    && |infos| == |table| && added + n < |table|
    && (forall m :: 0 <= m <= added ==> infos[m] == table[m])
    && (forall i :: 0 <= i < n ==>
          infos[added + 1 + i] == Some(Info(clientIdx % INDEX_LIMIT, Position(original, i).0 % INDEX_LIMIT)))
  }

  lemma FilledStep(infos: Table, table: Table, added: nat, original: seq<OriginalRule>, clientIdx: nat, n: nat)
    requires Filled(infos, table, added, original, clientIdx, n) && added + n + 1 < |table|
    ensures
      var info := Info(clientIdx % INDEX_LIMIT, Position(original, n).0 % INDEX_LIMIT);
      Filled(infos[added + n + 1 := Some(info)], table, added, original, clientIdx, n + 1)
  {
  }

  /** The state of the rule loop after `n` domains. */
  predicate Established(domains: seq<Domain>, original: seq<OriginalRule>, clientIdx: nat, table: Table, added: nat,
                        rules: seq<string>, infos: Table, n: nat)
    requires n <= |domains|
  {
    RulesOk(domains, original, rules, n) && Filled(infos, table, added, original, clientIdx, n)
  }

  /** One iteration of the rule loop, with the update that its callback makes to the matcher table. */
  method EstablishRule(domains: seq<Domain>, original: seq<OriginalRule>, clientIdx: nat, ghost table: Table,
                       added: nat, rules: seq<string>, infos: Table, i: nat, curr: nat, iter: nat)
    returns (rules': seq<string>, infos': Table, curr': nat, iter': nat)
    requires i < |domains| && added + |domains| < |table|
    requires Established(domains, original, clientIdx, table, added, rules, infos, i)
    requires (curr, iter) == Position(original, i)
    ensures Established(domains, original, clientIdx, table, added, rules', infos', i + 1)
    ensures (curr', iter') == Position(original, i + 1)
  {
    rules', curr', iter' := NextRule(domains, original, i, rules, curr, iter);
    FilledStep(infos, table, added, original, clientIdx, i);
    infos' := infos[added + i + 1 := Some(Info(clientIdx % INDEX_LIMIT, curr % INDEX_LIMIT))];
  }

  /** The rule loop of NewClient. */
  method EstablishRules(domains: seq<Domain>, original: seq<OriginalRule>, clientIdx: nat, table: Table, added: nat)
    returns (ok: bool, rules: seq<string>, infos: Table)
    requires added + |domains| < |table|
    ensures ok <==> AllValid(domains)
    ensures ok ==> Established(domains, original, clientIdx, table, added, rules, infos, |domains|)
  {
    rules, infos := [], table;
    var ruleCurr, ruleIter, i := 0, 0, 0;
    while i < |domains|
      invariant 0 <= i <= |domains|
      invariant forall j :: 0 <= j < i ==> domains[j].valid
      invariant (ruleCurr, ruleIter) == Position(original, i)
      invariant Established(domains, original, clientIdx, table, added, rules, infos, i)
    {
      if !domains[i].valid {
        return false, rules, infos;
      }
      rules, infos, ruleCurr, ruleIter :=
        EstablishRule(domains, original, clientIdx, table, added, rules, infos, i, ruleCurr, ruleIter);
      i := i + 1;
    }
    ok := true;
  }

  function Repeat(n: nat, x: nat): seq<nat> {
    seq(n, _ => x)
  }

  /** The clients that the domains of `nss` belong to, in the order in which the matcher numbers the domains. */
  function Owners(nss: seq<NameServer>, first: nat): seq<nat> {
    if nss == [] then [] else Repeat(|AllDomains(nss[0])|, first) + Owners(nss[1..], first + 1)
  }

  /** Every index the matcher can return leads to the client that owns the domain, as far as 16 bits can name it, and to
      one of its rules. */
  predicate TableOk(infos: Table, clients: seq<Client>, owners: seq<nat>) {
    && |owners| < |infos|
    && forall k :: 0 <= k < |owners| ==> Owned(infos[k + 1], clients, owners[k])
  }

  predicate Owned(entry: Option<Info>, clients: seq<Client>, owner: nat) {
    owner < |clients| && Names(entry, owner, |clients[owner].domains|)
  }

  /** An entry leads to the owner of its domain if and only if the owner's index fits 16 bits. */
  lemma LeadsToOwnerExactly(infos: Table, clients: seq<Client>, owners: seq<nat>, k: nat)
    requires TableOk(infos, clients, owners) && k < |owners|
    ensures infos[k + 1].Some? && (infos[k + 1].value.clientIdx == owners[k] <==> owners[k] < INDEX_LIMIT)
  {
    assert Owned(infos[k + 1], clients, owners[k]);
  }

  predicate Valid(nss: seq<NameServer>) {
    forall i :: 0 <= i < |nss| ==> AllValid(AllDomains(nss[i]))
  }

  lemma {:induction false} OwnersAppend(nss: seq<NameServer>, ns: NameServer, first: nat)
    ensures Owners(nss + [ns], first) == Owners(nss, first) + Repeat(|AllDomains(ns)|, first + |nss|)
    decreases |nss|
  {
    if nss == [] {
      assert nss + [ns] == [ns] && [ns][1..] == [];
    } else {
      var a, b := Repeat(|AllDomains(nss[0])|, first), Owners(nss[1..], first + 1);
      var c := Repeat(|AllDomains(ns)|, first + |nss|);
      assert (nss + [ns])[0] == nss[0] && (nss + [ns])[1..] == nss[1..] + [ns];
      assert Owners(nss[1..] + [ns], first + 1) == b + c by {
        OwnersAppend(nss[1..], ns, first + 1);
      }
      Assoc(a, b, c);
    }
  }

  lemma {:induction false} ConfiguredSplit(nss: seq<NameServer>, i: nat)
    requires i < |nss|
    ensures ConfiguredDomains(nss[i..]) == |nss[i].domains| + ConfiguredDomains(nss[i + 1..])
  {
    assert nss[i..][1..] == nss[i + 1..];
  }

  lemma TableExtended(infos: Table, infos': Table, clients: seq<Client>, owners: seq<nat>, c: Client, n: nat)
    requires TableOk(infos, clients, owners) && |infos'| >= |infos| && |owners| + n < |infos'|
    requires forall m :: 0 <= m <= |owners| ==> infos'[m] == infos[m]
    requires forall m :: |owners| < m <= |owners| + n ==> Names(infos'[m], |clients|, |c.domains|)
    ensures TableOk(infos', clients + [c], owners + Repeat(n, |clients|))
  {
    var owners', clients' := owners + Repeat(n, |clients|), clients + [c];
    forall k | 0 <= k < |owners'|
      ensures Owned(infos'[k + 1], clients', owners'[k])
    {
      if k < |owners| {
        assert Owned(infos[k + 1], clients, owners[k]);
      }
    }
  }

  /** The matcher table before the rules of `ns` are established. */
  function Enlarged(infos: Table, ns: NameServer): Table {
    if ns.isLocal then infos + seq(LOCAL_COUNT, _ => Some(Info(0, 0))) else infos
  }

  /** The entries of the domains of one name server: each names the client and the rule that covers the domain, as far
      as 16 bits can. */
  function EntriesOf(ns: NameServer, client: nat): (es: seq<Info>)
    ensures |es| == |AllDomains(ns)|
  {
    seq(|AllDomains(ns)|, j requires 0 <= j => Info(client % INDEX_LIMIT, Position(AllRules(ns), j).0 % INDEX_LIMIT))
  }

  /** The entries that a configuration calls for, in the order in which the matcher numbers the domains. */
  function Entries(nss: seq<NameServer>, first: nat): seq<Info> {
    if nss == [] then [] else EntriesOf(nss[0], first) + Entries(nss[1..], first + 1)
  }

  lemma {:induction false} EntriesAppend(nss: seq<NameServer>, ns: NameServer, first: nat)
    ensures Entries(nss + [ns], first) == Entries(nss, first) + EntriesOf(ns, first + |nss|)
    decreases |nss|
  {
    if nss == [] {
      assert nss + [ns] == [ns] && [ns][1..] == [];
    } else {
      var a, b, c := EntriesOf(nss[0], first), Entries(nss[1..], first + 1), EntriesOf(ns, first + |nss|);
      assert (nss + [ns])[0] == nss[0] && (nss + [ns])[1..] == nss[1..] + [ns];
      assert Entries(nss[1..] + [ns], first + 1) == b + c by {
        EntriesAppend(nss[1..], ns, first + 1);
      }
      Assoc(a, b, c);
    }
  }

  predicate HasEntries(infos: Table, es: seq<Info>) {
    |es| < |infos| && forall k :: 0 <= k < |es| ==> infos[k + 1] == Some(es[k])
  }

  lemma EntriesExtended(infos: Table, infos': Table, es: seq<Info>, ns: NameServer, client: nat)
    requires HasEntries(infos, es)
    requires Filled(infos', Enlarged(infos, ns), |es|, AllRules(ns), client, |AllDomains(ns)|)
    ensures HasEntries(infos', es + EntriesOf(ns, client))
  {
    var es' := es + EntriesOf(ns, client);
    forall k | 0 <= k < |es'| ensures infos'[k + 1] == Some(es'[k]) {
      if k < |es| {
        assert infos'[k + 1] == Enlarged(infos, ns)[k + 1] == infos[k + 1];
      } else {
        assert infos'[|es| + 1 + (k - |es|)] == Some(EntriesOf(ns, client)[k - |es|]);
      }
    }
  }

  /** The client is what its name server calls for. */
  predicate Made(c: Client, ns: NameServer) {
    && c.skipFallback == ns.skipFallback
    && Texts(AllDomains(ns), AllRules(ns), c.domains, |AllDomains(ns)|)
  }

  /** Simple clients without rules come first, then one client per name server. */
  predicate Configured(clients: seq<Client>, simple: nat, nss: seq<NameServer>) {
    && |clients| >= simple + |nss|
    && (forall i :: 0 <= i < simple ==> clients[i] == Client(false, []))
    && (forall i :: 0 <= i < |nss| ==> Made(clients[simple + i], nss[i]))
  }

  lemma ConfiguredAppend(clients: seq<Client>, simple: nat, nss: seq<NameServer>, c: Client, ns: NameServer)
    requires |clients| == simple + |nss| && Configured(clients, simple, nss) && Made(c, ns)
    ensures Configured(clients + [c], simple, nss + [ns])
  {
    var clients', nss' := clients + [c], nss + [ns];
    forall i | 0 <= i < |nss'| ensures Made(clients'[simple + i], nss'[i]) {
      assert i < |nss| ==> Made(clients[simple + i], nss[i]);
    }
  }

  /** NewClient: establishes the rules of one name server and extends the table with them. */
  method NewClient(ns: NameServer, clients: seq<Client>, infos: Table, ghost owners: seq<nat>, count: nat)
    returns (client: Option<Client>, infos': Table)
    requires TableOk(infos, clients, owners) && count == |owners| && count + |ns.domains| < |infos|
    ensures client.Some? <==> AllValid(AllDomains(ns))
    ensures client.Some? ==>
              && Made(client.value, ns)
              && Filled(infos', Enlarged(infos, ns), count, AllRules(ns), |clients|, |AllDomains(ns)|)
              && |infos'| == |infos| + |AllDomains(ns)| - |ns.domains|
              && TableOk(infos', clients + [client.value], owners + Repeat(|AllDomains(ns)|, |clients|))
  {
    var domains, original, table := AllDomains(ns), AllRules(ns), Enlarged(infos, ns);
    var ok, rules;
    ok, rules, infos' := EstablishRules(domains, original, |clients|, table, count);
    if !ok {
      return None, infos';
    }
    client := Some(Client(ns.skipFallback, rules));
    FilledNames(infos', table, count, domains, original, |clients|, rules);
    TableExtended(infos, infos', clients, owners, client.value, |domains|);
  }

  lemma FilledNames(infos: Table, table: Table, added: nat, domains: seq<Domain>, original: seq<OriginalRule>,
                    clientIdx: nat, rules: seq<string>)
    requires Filled(infos, table, added, original, clientIdx, |domains|)
    requires Texts(domains, original, rules, |domains|)
    ensures forall m :: added < m <= added + |domains| ==> Names(infos[m], clientIdx, |rules|)
  {
    forall m | added < m <= added + |domains| ensures Names(infos[m], clientIdx, |rules|) {
      var i := m - added - 1;
      assert infos[added + 1 + i] == Some(Info(clientIdx % INDEX_LIMIT, Position(original, i).0 % INDEX_LIMIT));
    }
  }

  /** The matcher table of `count` domains, given who owns them and the entries they should have. */
  predicate TableBuilt(clients: seq<Client>, infos: Table, count: nat, owners: seq<nat>, entries: seq<Info>) {
    count == |owners| == |entries| && TableOk(infos, clients, owners) && HasEntries(infos, entries)
  }

  /** The clients that the name servers so far call for. */
  predicate ClientsBuilt(simple: nat, nss: seq<NameServer>, clients: seq<Client>) {
    |clients| == simple + |nss| && Configured(clients, simple, nss) && Valid(nss)
  }

  /** What the construction has made of the name servers so far; `count` is the matcher's own count of domains. */
  predicate BuiltFrom(simple: nat, nss: seq<NameServer>, clients: seq<Client>, infos: Table, count: nat) {
    && ClientsBuilt(simple, nss, clients)
    && TableBuilt(clients, infos, count, Owners(nss, simple), Entries(nss, simple))
  }

  /** The state of the construction after `i` name servers: the table has room for the domains of the others. */
  predicate Built(simple: nat, nss: seq<NameServer>, i: nat, clients: seq<Client>, infos: Table, count: nat)
    requires i <= |nss|
  {
    BuiltFrom(simple, nss[..i], clients, infos, count) && |infos| == 1 + count + ConfiguredDomains(nss[i..])
  }

  method AddNameServer(simple: nat, nss: seq<NameServer>, i: nat, clients: seq<Client>, infos: Table, count: nat)
    returns (client: Option<Client>, infos': Table, count': nat)
    requires i < |nss|
    requires Built(simple, nss, i, clients, infos, count)
    ensures client.Some? <==> AllValid(AllDomains(nss[i]))
    ensures client.Some? ==> Built(simple, nss, i + 1, clients + [client.value], infos', count')
  {
    ConfiguredSplit(nss, i);
    assert nss[..i + 1] == nss[..i] + [nss[i]];
    client, infos', count' := AddOne(simple, nss[..i], nss[i], nss[..i + 1], clients, infos, count);
  }

  /** One iteration of the loop over the name servers. */
  method AddOne(ghost simple: nat, ghost nss: seq<NameServer>, ns: NameServer, ghost nss': seq<NameServer>,
                clients: seq<Client>, infos: Table, count: nat)
    returns (client: Option<Client>, infos': Table, count': nat)
    requires BuiltFrom(simple, nss, clients, infos, count) && count + |ns.domains| < |infos| && nss' == nss + [ns]
    ensures client.Some? <==> AllValid(AllDomains(ns))
    ensures client.Some? ==> BuiltFrom(simple, nss', clients + [client.value], infos', count')
    ensures client.Some? ==> count' == count + |AllDomains(ns)| && |infos'| - count' == |infos| - count - |ns.domains|
  {
    client, infos' := NewClient(ns, clients, infos, Owners(nss, simple), count);
    count' := count + |AllDomains(ns)|;
    if client.Some? {
      BuiltStep(simple, nss, ns, clients, infos, count, client.value, infos');
    }
  }

  lemma BuiltStep(simple: nat, nss: seq<NameServer>, ns: NameServer, clients: seq<Client>, infos: Table, count: nat,
                  c: Client, infos': Table)
    requires BuiltFrom(simple, nss, clients, infos, count) && Made(c, ns) && AllValid(AllDomains(ns))
    requires Filled(infos', Enlarged(infos, ns), count, AllRules(ns), |clients|, |AllDomains(ns)|)
    requires TableOk(infos', clients + [c], Owners(nss, simple) + Repeat(|AllDomains(ns)|, |clients|))
    ensures BuiltFrom(simple, nss + [ns], clients + [c], infos', count + |AllDomains(ns)|)
  {
    TableGrows(simple, nss, ns, clients, infos, count, c, infos');
    ClientsStep(simple, nss, clients, c, ns);
  }

  lemma TableGrows(simple: nat, nss: seq<NameServer>, ns: NameServer, clients: seq<Client>, infos: Table, count: nat,
                   c: Client, infos': Table)
    requires TableBuilt(clients, infos, count, Owners(nss, simple), Entries(nss, simple))
    requires |clients| == simple + |nss|
    requires Filled(infos', Enlarged(infos, ns), count, AllRules(ns), |clients|, |AllDomains(ns)|)
    requires TableOk(infos', clients + [c], Owners(nss, simple) + Repeat(|AllDomains(ns)|, |clients|))
    ensures
      TableBuilt(clients + [c], infos', count + |AllDomains(ns)|, Owners(nss + [ns], simple),
                 Entries(nss + [ns], simple))
  {
    OwnersAppend(nss, ns, simple);
    EntriesAppend(nss, ns, simple);
    TableStep(clients, infos, count, Owners(nss, simple), Entries(nss, simple), ns, c, infos',
              Owners(nss + [ns], simple), Entries(nss + [ns], simple));
  }

  lemma TableStep(clients: seq<Client>, infos: Table, count: nat, owners: seq<nat>, entries: seq<Info>, ns: NameServer,
                  c: Client, infos': Table, owners': seq<nat>, entries': seq<Info>)
    requires TableBuilt(clients, infos, count, owners, entries)
    requires Filled(infos', Enlarged(infos, ns), count, AllRules(ns), |clients|, |AllDomains(ns)|)
    requires owners' == owners + Repeat(|AllDomains(ns)|, |clients|) && entries' == entries + EntriesOf(ns, |clients|)
    requires TableOk(infos', clients + [c], owners')
    ensures TableBuilt(clients + [c], infos', count + |AllDomains(ns)|, owners', entries')
  {
    EntriesExtended(infos, infos', entries, ns, |clients|);
  }

  lemma ClientsStep(simple: nat, nss: seq<NameServer>, clients: seq<Client>, c: Client, ns: NameServer)
    requires ClientsBuilt(simple, nss, clients) && Made(c, ns) && AllValid(AllDomains(ns))
    ensures ClientsBuilt(simple, nss + [ns], clients + [c])
  {
    ConfiguredAppend(clients, simple, nss, c, ns);
    ValidAppend(nss, ns);
  }

  lemma ValidAppend(nss: seq<NameServer>, ns: NameServer)
    requires Valid(nss) && AllValid(AllDomains(ns))
    ensures Valid(nss + [ns])
  {
  }

  /** The construction of the dispatcher: simple clients first, then one client per configured name server; a
      configuration without any gets the local client. */
  method New(simple: nat, nss: seq<NameServer>) returns (clients: Option<seq<Client>>, infos: Table)
    ensures clients.Some? <==> Valid(nss)
    ensures clients.Some? ==>
              && |clients.value| == (if simple + |nss| == 0 then 1 else simple + |nss|)
              && Configured(clients.value, simple, nss)
              && HasEntries(infos, Entries(nss, simple))
              && TableOk(infos, clients.value, Owners(nss, simple))
  {
    var built: seq<Client> := seq(simple, _ => Client(false, []));
    infos := seq(ConfiguredDomains(nss) + 1, _ => None);
    var count, i := 0, 0;
    assert nss[0..] == nss && nss[..0] == [];
    while i < |nss|
      invariant 0 <= i <= |nss| && Built(simple, nss, i, built, infos, count)
    {
      var client, infos', count' := AddNameServer(simple, nss, i, built, infos, count);
      if client.None? {
        return None, infos;
      }
      infos, count, built, i := infos', count', built + [client.value], i + 1;
    }
    assert nss[..i] == nss;
    if |built| == 0 {
      built := [Client(false, [])];
    }
    clients := Some(built);
  }

  // --- the order of the clients ---

  /** The elements of a sequence at their first occurrence. */
  function Firsts(s: seq<nat>): seq<nat> {
    if s == [] then []
    else
      var n := |s| - 1;
      if s[n] in s[..n] then Firsts(s[..n]) else Firsts(s[..n]) + [s[n]]
  }

  lemma {:induction false} FirstsMeaning(s: seq<nat>)
    ensures forall x: nat :: x in Firsts(s) <==> x in s
    ensures Distinct(Firsts(s))
    decreases |s|
  {
    if s != [] {
      var n := |s| - 1;
      FirstsMeaning(s[..n]);
      assert s == s[..n] + [s[n]];
    }
  }

  predicate Distinct(s: seq<nat>) {
    forall i, j :: 0 <= i < j < |s| ==> s[i] != s[j]
  }

  /** The clients below `n` that fall-back may still use, in configuration order. */
  function Unused(clients: seq<Client>, used: seq<nat>, n: nat): seq<nat>
    requires n <= |clients|
  {
    if n == 0 then []
    else if n - 1 in used || clients[n - 1].skipFallback then Unused(clients, used, n - 1)
    else Unused(clients, used, n - 1) + [n - 1]
  }

  predicate Ascending(s: seq<nat>) {
    forall i, j :: 0 <= i < j < |s| ==> s[i] < s[j]
  }

  lemma {:induction false} UnusedMeaning(clients: seq<Client>, used: seq<nat>, n: nat)
    requires n <= |clients|
    ensures forall x: nat :: x in Unused(clients, used, n) <==> x < n && x !in used && !clients[x].skipFallback
    ensures Ascending(Unused(clients, used, n))
    decreases n
  {
    if n > 0 {
      UnusedMeaning(clients, used, n - 1);
      var before := Unused(clients, used, n - 1);
      assert forall i :: 0 <= i < |before| ==> before[i] in before;
    }
  }

  datatype Policy = Policy(disableFallback: bool, disableFallbackIfMatch: bool)

  /** The specified order: matched clients in match order, then the unused ones if fall-back applies, and the first
      client if that leaves none. */
  function Order(clients: seq<Client>, policy: Policy, matched: seq<nat>): seq<nat> {
    var first := Firsts(matched);
    var all := first + if FallsBack(policy, matched) then Unused(clients, matched, |clients|) else [];
    if all == [] then [0] else all
  }

  /** The clients asked are real, distinct and at least one. */
  lemma OrderIsSound(clients: seq<Client>, policy: Policy, matched: seq<nat>)
    requires clients != [] && forall x: nat :: x in matched ==> x < |clients|
    ensures Order(clients, policy, matched) != []
    ensures Distinct(Order(clients, policy, matched))
    ensures forall x: nat :: x in Order(clients, policy, matched) ==> x < |clients|
  {
    FirstsMeaning(matched);
    UnusedMeaning(clients, matched, |clients|);
    var first, rest := Firsts(matched), Unused(clients, matched, |clients|);
    assert forall i :: 0 <= i < |first| ==> first[i] in first;
    assert forall i :: 0 <= i < |rest| ==> rest[i] in rest;
  }

  /** Exactly these clients are asked: the matched ones, those that fall-back may use, and the first one if that leaves
      none. */
  lemma OrderIsExact(clients: seq<Client>, policy: Policy, matched: seq<nat>, x: nat)
    requires x < |clients| && forall y: nat :: y in matched ==> y < |clients|
    ensures
      x in Order(clients, policy, matched) <==>
      || x in matched
      || (!policy.disableFallback && (policy.disableFallbackIfMatch ==> matched == []) && !clients[x].skipFallback)
      || (x == 0 && matched == [] &&
          (policy.disableFallback || forall i :: 0 <= i < |clients| ==> clients[i].skipFallback))
  {
    FirstsMeaning(matched);
    UnusedMeaning(clients, matched, |clients|);
    var first, rest := Firsts(matched), Unused(clients, matched, |clients|);
    assert matched != [] ==> matched[0] in first;
    assert rest != [] ==> rest[0] in rest;
  }

  predicate FallsBack(policy: Policy, matched: seq<nat>) {
    !policy.disableFallback && !(policy.disableFallbackIfMatch && matched != [])
  }

  /** The index of the first occurrence. */
  function FirstIndex(s: seq<nat>, x: nat): (i: nat)
    requires x in s
    ensures i < |s| && s[i] == x && x !in s[..i]
  {
    var n := |s| - 1;
    if x in s[..n] then
      assert s[..n][..FirstIndex(s[..n], x)] == s[..FirstIndex(s[..n], x)];
      FirstIndex(s[..n], x)
    else n
  }

  lemma {:induction false} FirstsInOrder(s: seq<nat>, i: nat, j: nat)
    requires i < j < |Firsts(s)|
    ensures Firsts(s)[i] in s && Firsts(s)[j] in s
    ensures FirstIndex(s, Firsts(s)[i]) < FirstIndex(s, Firsts(s)[j])
    decreases |s|
  {
    var n := |s| - 1;
    FirstsMeaning(s);
    FirstsMeaning(s[..n]);
    assert Firsts(s)[i] in Firsts(s) && Firsts(s)[j] in Firsts(s);
    if j < |Firsts(s[..n])| {
      FirstsInOrder(s[..n], i, j);
      assert Firsts(s)[i] == Firsts(s[..n])[i] && Firsts(s)[j] == Firsts(s[..n])[j];
    } else {
      assert Firsts(s)[i] == Firsts(s[..n])[i];
      assert Firsts(s[..n])[i] in Firsts(s[..n]);
    }
  }

  /** How any two of them are ranked: matched clients come first, in the order of their first match; the others follow
      in configuration order. */
  lemma OrderIsRanked(clients: seq<Client>, policy: Policy, matched: seq<nat>, i: nat, j: nat)
    requires clients != [] && i < j < |Order(clients, policy, matched)|
    ensures
      var x, y := Order(clients, policy, matched)[i], Order(clients, policy, matched)[j];
      if y in matched then x in matched && FirstIndex(matched, x) < FirstIndex(matched, y)
      else x in matched || x < y
  {
    FirstsMeaning(matched);
    UnusedMeaning(clients, matched, |clients|);
    var first, rest := Firsts(matched), Unused(clients, matched, |clients|);
    assert forall k :: 0 <= k < |first| ==> first[k] in first;
    assert forall k :: 0 <= k < |rest| ==> rest[k] in rest;
    if j < |first| {
      FirstsInOrder(matched, i, j);
    }
  }

  predicate InRange(matches: seq<nat>, n: nat) {
    forall i :: 0 <= i < |matches| ==> 0 < matches[i] <= n
  }

  /** The clients that the matched domains belong to. */
  function OwnersOf(owners: seq<nat>, matches: seq<nat>): (r: seq<nat>)
    requires InRange(matches, |owners|)
    ensures |r| == |matches| && forall i :: 0 <= i < |matches| ==> r[i] == owners[matches[i] - 1]
  {
    seq(|matches|, i requires 0 <= i < |matches| => owners[matches[i] - 1])
  }

  /** sortClients, given the indices that the domain matcher returned. No table access is out of range. */
  method SortClients(clients: seq<Client>, infos: Table, policy: Policy, ghost owners: seq<nat>, matches: seq<nat>)
    returns (order: seq<nat>)
    requires 0 < |clients| <= INDEX_LIMIT && TableOk(infos, clients, owners) && InRange(matches, |owners|)
    ensures order == Order(clients, policy, OwnersOf(owners, matches))
  {
    ghost var matched := OwnersOf(owners, matches);
    order := [];
    var clientUsed := new bool[|clients|](_ => false);
    var hasMatch := false;
    for k := 0 to |matches|
      invariant order == Firsts(matched[..k])
      invariant hasMatch <==> k > 0
      invariant forall x: nat :: x < |clients| ==> (clientUsed[x] <==> x in matched[..k])
    {
      LeadsToOwnerExactly(infos, clients, owners, matches[k] - 1);
      assert Owned(infos[matches[k] - 1 + 1], clients, owners[matches[k] - 1]);
      var info := infos[matches[k]].value;
      var domainRule := clients[info.clientIdx].domains[info.ruleIdx];
      assert matched[..k + 1] == matched[..k] + [info.clientIdx];
      assert matched[..k + 1][..k] == matched[..k];
      hasMatch := true;
      if !clientUsed[info.clientIdx] {
        clientUsed[info.clientIdx] := true;
        order := order + [info.clientIdx];
      }
    }
    assert matched[..|matches|] == matched;
    if !(policy.disableFallback || (policy.disableFallbackIfMatch && hasMatch)) {
      order := AppendUnused(clients, clientUsed, order, matched);
    } else {
      assert order + [] == order;
    }
    if |order| == 0 {
      order := [0];
    }
  }

  /** The fall-back loop. */
  method AppendUnused(clients: seq<Client>, clientUsed: array<bool>, order: seq<nat>, ghost used: seq<nat>)
    returns (order': seq<nat>)
    requires clientUsed.Length == |clients|
    requires forall x: nat :: x < |clients| ==> (clientUsed[x] <==> x in used)
    modifies clientUsed
    ensures order' == order + Unused(clients, used, |clients|)
  {
    order' := order;
    for idx := 0 to |clients|
      invariant order' == order + Unused(clients, used, idx)
      invariant forall x: nat :: idx <= x < |clients| ==> (clientUsed[x] <==> x in used)
    {
      if !clientUsed[idx] && !clients[idx].skipFallback {
        clientUsed[idx] := true;
        order' := order' + [idx];
      }
    }
  }
}
