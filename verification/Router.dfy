/** The router: the rules it is built from and the order in which they decide. */
module Router {
  import opened Bytes
  import opened Options
  import opened Routing
  import opened DomainMatching

  /** The mode of a configuration; `Unset` is the empty string, `Unknown` any other text. */
  datatype Mode = Unset | Rule | Global | AlwaysDirect | Unknown

  function Effective(m: Mode): Mode {
    if m == Unset then Rule else m
  }

  /** A suffix rule as it is loaded. */
  datatype Suffix = Suffix(text: string, action: Action)

  /** An address rule as it is loaded; None stands for text that is neither a block nor an address. */
  datatype IpRule = IpRule(cidr: Option<Cidr>, action: Action)

  /** A configuration. The lists hold the custom rules. */
  datatype Config = Config(mode: Mode, directDomains: seq<string>, proxyDomains: seq<string>, blockDomains: seq<string>,
                           directIPs: seq<Option<Cidr>>, proxyIPs: seq<Option<Cidr>>, blockIPs: seq<Option<Cidr>>)

  /** The built-in tables. */
  datatype Builtin = Builtin(blockSuffixes: seq<string>, directSuffixes: seq<string>,
                             chinaV4: seq<Range>, chinaV6: seq<WideRange>)
  {
    predicate Ok() {
      Sorted(chinaV4) && WideOk(chinaV6) && Sorted(Narrow(chinaV6))
    }
  }

  function Suffixes(ds: seq<string>, action: Action): seq<Suffix> {
    if ds == [] then [] else [Suffix(ds[0], action)] + Suffixes(ds[1..], action)
  }

  function CustomSuffixes(cfg: Config): seq<Suffix> {
    Suffixes(cfg.blockDomains, Block) + Suffixes(cfg.directDomains, Direct) + Suffixes(cfg.proxyDomains, Proxy)
  }

  /** The suffix rules in loading order. */
  function Loaded(cfg: Config, b: Builtin): seq<Suffix> {
    var custom := CustomSuffixes(cfg);
    if Effective(cfg.mode) == Rule then custom + Suffixes(b.blockSuffixes, Block) + Suffixes(b.directSuffixes, Direct)
    else custom
  }

  function Blocks(cs: seq<Option<Cidr>>, action: Action): seq<IpRule> {
    if cs == [] then [] else [IpRule(cs[0], action)] + Blocks(cs[1..], action)
  }

  function LoadedIPs(cfg: Config): seq<IpRule> {
    Blocks(cfg.blockIPs, Block) + Blocks(cfg.directIPs, Direct) + Blocks(cfg.proxyIPs, Proxy)
  }

  // --- the specification: one pass over the rules as they were loaded ---

  /** The rule applies to the domain. */
  predicate Applies(e: Suffix, domain: string) {
    SuffixKey(e.text) != "" && DotSuffix(domain, SuffixKey(e.text))
  }

  /** The winning suffix rule: the longest key, and among equal keys the one loaded last. */
  function Winner(es: seq<Suffix>, domain: string): (w: Option<Suffix>)
    ensures w.Some? ==> w.value in es && Applies(w.value, domain)
  {
    if es == [] then None
    else
      var before, e := Winner(es[..|es| - 1], domain), es[|es| - 1];
      if Applies(e, domain) && (before.None? || |SuffixKey(before.value.text)| <= |SuffixKey(e.text)|) then Some(e)
      else before
  }

  /** The length of the rule's key if it applies, otherwise 0. */
  function Weight(e: Suffix, domain: string): nat {
    if Applies(e, domain) then |SuffixKey(e.text)| else 0
  }

  function Weights(es: seq<Suffix>, domain: string): (ws: seq<nat>)
    ensures |ws| == |es| && forall i :: 0 <= i < |es| ==> ws[i] == Weight(es[i], domain)
  {
    if es == [] then [] else Weights(es[..|es| - 1], domain) + [Weight(es[|es| - 1], domain)]
  }

  /** Index `i` holds the last of the greatest weights. */
  predicate LastGreatest(ws: seq<nat>, i: nat) {
    && i < |ws| && (forall j :: 0 <= j < |ws| ==> ws[j] <= ws[i]) && (forall j :: i < j < |ws| ==> ws[j] < ws[i])
  }

  lemma LastGreatestStep(ws: seq<nat>, i: nat, w: nat)
    requires LastGreatest(ws, i)
    ensures LastGreatest(ws + [w], if ws[i] <= w then |ws| else i)
  {
  }

  lemma WeightMeaning(e: Suffix, domain: string)
    ensures Applies(e, domain) <==> Weight(e, domain) > 0
    ensures Applies(e, domain) ==> Weight(e, domain) == |SuffixKey(e.text)|
  {
  }

  lemma WinnerStep(es: seq<Suffix>, domain: string)
    requires es != []
    ensures
      var before, e := Winner(es[..|es| - 1], domain), es[|es| - 1];
      Winner(es, domain) ==
      if Weight(e, domain) > 0 && (before.None? || Weight(before.value, domain) <= Weight(e, domain)) then Some(e)
      else before
  {
    var before, e := Winner(es[..|es| - 1], domain), es[|es| - 1];
    WeightMeaning(e, domain);
    if before.Some? {
      WeightMeaning(before.value, domain);
    }
  }

  /** The winner has the longest key of all rules that apply, and no later rule has one as long; there is none exactly
      when no rule applies. */
  lemma {:induction false} WinnerWins(es: seq<Suffix>, domain: string) returns (i: nat)
    requires es != []
    ensures LastGreatest(Weights(es, domain), i)
    ensures Winner(es, domain) == if Weight(es[i], domain) > 0 then Some(es[i]) else None
    decreases |es|
  {
    var n := |es| - 1;
    WinnerStep(es, domain);
    if n == 0 {
      i := 0;
    } else {
      i := WinnerWins(es[..n], domain);
      LastGreatestStep(Weights(es[..n], domain), i, Weight(es[n], domain));
      if Weight(es[i], domain) <= Weight(es[n], domain) {
        i := n;
      }
    }
  }

  /** The first parsable block that holds the address. */
  function FirstBlock(rs: seq<IpRule>, ip: IP): Option<Action> {
    if rs == [] then None
    else if rs[0].cidr.Some? && rs[0].cidr.value.Contains(ip) then Some(rs[0].action)
    else FirstBlock(rs[1..], ip)
  }

  /** An address in the China ranges. */
  predicate China(b: Builtin, ip: IP) {
    match To4(ip)
    case Some(v4) => Member(b.chinaV4, Value(v4))
    case None => |ip| == 16 && Member(Narrow(b.chinaV6), Value(ip))
  }

  /** The decision for a target, as the configuration promises it. `ip` is None for a nil address. */
  function Decision(cfg: Config, b: Builtin, domain: string, ip: Option<IP>): Action {
    if ip.Some? && IsPrivate(ip.value) then Direct
    else if Effective(cfg.mode) == Global then Proxy
    else if Effective(cfg.mode) == AlwaysDirect then Direct
    else
      var w := if Clean(domain) == "" then None else Winner(Loaded(cfg, b), Clean(domain));
      if w.Some? then w.value.action
      else if ip.None? then Proxy
      else
        var block := FirstBlock(LoadedIPs(cfg), ip.value);
        if block.Some? then block.value
        else if Effective(cfg.mode) == Rule && China(b, ip.value) then Direct
        else Proxy
  }

  // --- the loaded map against the list of rules ---

  /** The suffix map holds the rules as loaded one after the other. */
  function Table(es: seq<Suffix>): map<string, Action> {
    if es == [] then map[]
    else
      var m, e := Table(es[..|es| - 1]), es[|es| - 1];
      if SuffixKey(e.text) == "" then m else m[SuffixKey(e.text) := e.action]
  }

  lemma {:induction false} TableNoEmpty(es: seq<Suffix>)
    ensures "" !in Table(es)
    decreases |es|
  {
    if es != [] {
      TableNoEmpty(es[..|es| - 1]);
    }
  }

  /** Looking up the longest suffix in the map gives the winner of the list. */
  lemma {:induction false} WinnerIsLongest(es: seq<Suffix>, domain: string)
    ensures Winner(es, domain).None? <==> NoSuffix(Table(es), domain)
    ensures
      Winner(es, domain).Some? ==>
        var w := Winner(es, domain).value;
        Longest(Table(es), domain, SuffixKey(w.text)) && Table(es)[SuffixKey(w.text)] == w.action
    decreases |es|
  {
    if es != [] {
      var before, e := es[..|es| - 1], es[|es| - 1];
      WinnerIsLongest(before, domain);
      var m, m', k := Table(before), Table(es), SuffixKey(e.text);
      if k != "" {
        assert forall t :: t in m' <==> t in m || t == k;
        if Applies(e, domain) {
          assert k in m' && DotSuffix(domain, k);
          var w := Winner(before, domain);
          if w.Some? && SuffixKey(w.value.text) == k {
            assert m'[k] == e.action;
          }
        }
      }
    }
  }

  // --- the decision over the lists of a configuration ---

  predicate InRuleMode(cfg: Config) {
    cfg.mode == Rule || cfg.mode == Unset
  }

  /** The lists of suffix rules, the later ones winning: custom block, direct and proxy, built-in block and direct. */
  function RuleList(cfg: Config, b: Builtin, r: nat): seq<string> {
    match r
    case 0 => cfg.blockDomains
    case 1 => cfg.directDomains
    case 2 => cfg.proxyDomains
    case 3 => if InRuleMode(cfg) then b.blockSuffixes else []
    case 4 => if InRuleMode(cfg) then b.directSuffixes else []
    case _ => []
  }

  function RuleAction(r: nat): Action {
    if r == 0 || r == 3 then Block else if r == 2 then Proxy else Direct
  }

  /** The key of the text is the domain or what follows one of its dots. */
  predicate Hits(text: string, domain: string) {
    var k := SuffixKey(text);
    k != "" && (domain == k || (|domain| > |k| && domain[|domain| - |k| - 1..] == "." + k))
  }

  predicate HitAt(cfg: Config, b: Builtin, domain: string, r: nat, i: nat) {
    r < 5 && i < |RuleList(cfg, b, r)| && Hits(RuleList(cfg, b, r)[i], domain)
  }

  ghost predicate SomeHit(cfg: Config, b: Builtin, domain: string) {
    exists r: nat, i: nat :: HitAt(cfg, b, domain, r, i)
  }

  /** No rule that applies has a longer key, and none with an equally long key is in a later list. */
  ghost predicate BestHit(cfg: Config, b: Builtin, domain: string, r: nat, i: nat) {
    && HitAt(cfg, b, domain, r, i)
    && forall r2: nat, i2: nat :: HitAt(cfg, b, domain, r2, i2) ==>
         var n, n2 := |SuffixKey(RuleList(cfg, b, r)[i])|, |SuffixKey(RuleList(cfg, b, r2)[i2])|;
         n2 < n || (n2 == n && r2 <= r)
  }

  /** The lists of address rules, the first deciding: block, direct, proxy. */
  function BlockList(cfg: Config, r: nat): seq<Option<Cidr>> {
    if r == 0 then cfg.blockIPs else if r == 1 then cfg.directIPs else if r == 2 then cfg.proxyIPs else []
  }

  predicate SomeHolds(cs: seq<Option<Cidr>>, ip: IP) {
    exists i :: 0 <= i < |cs| && cs[i].Some? && cs[i].value.Contains(ip)
  }

  predicate FirstHolding(cfg: Config, ip: IP, r: nat) {
    r < 3 && SomeHolds(BlockList(cfg, r), ip) && forall r2: nat :: r2 < r ==> !SomeHolds(BlockList(cfg, r2), ip)
  }

  predicate SomeBlock(cfg: Config, ip: IP) {
    exists r: nat :: r < 3 && SomeHolds(BlockList(cfg, r), ip)
  }

  /** The action for a target: private addresses are direct in every mode; otherwise the modes global and direct decide;
      otherwise the best suffix rule, then the first list of address rules that holds the address, then the China ranges
      in rule mode, and else proxy. */
  ghost predicate Decided(cfg: Config, b: Builtin, domain: string, ip: Option<IP>, action: Action) {
    if ip.Some? && ListedPrivate(ip.value) then action == Direct
    else if cfg.mode == Global then action == Proxy
    else if cfg.mode == AlwaysDirect then action == Direct
    else if SomeHit(cfg, b, Clean(domain)) then
      exists r: nat, i: nat :: BestHit(cfg, b, Clean(domain), r, i) && action == RuleAction(r)
    else if ip.None? then action == Proxy
    else if SomeBlock(cfg, ip.value) then exists r: nat :: FirstHolding(cfg, ip.value, r) && action == RuleAction(r)
    else if InRuleMode(cfg) && China(b, ip.value) then action == Direct
    else action == Proxy
  }

  lemma HitsExactly(e: Suffix, domain: string)
    ensures Applies(e, domain) <==> Hits(e.text, domain)
  {
    var k := SuffixKey(e.text);
    var n := |domain| - |k|;
    if n > 0 {
      assert domain[n - 1..] == [domain[n - 1]] + domain[n..];
      if domain[n - 1..] == "." + k {
        assert domain[n - 1..][0] == '.' && domain[n..] == domain[n - 1..][1..] == k;
      }
    } else if n == 0 {
      assert domain[n..] == domain;
    }
  }

  lemma {:induction false} SuffixesAt(ds: seq<string>, action: Action, i: nat)
    requires i < |ds|
    ensures |Suffixes(ds, action)| == |ds| && Suffixes(ds, action)[i] == Suffix(ds[i], action)
    decreases |ds|
  {
    if |ds| > 1 {
      SuffixesAt(ds[1..], action, if i > 0 then i - 1 else 0);
    }
  }

  lemma SuffixesLength(ds: seq<string>, action: Action)
    ensures |Suffixes(ds, action)| == |ds|
  {
    if ds != [] {
      SuffixesAt(ds, action, 0);
    }
  }

  function ListOf(cfg: Config, b: Builtin, r: nat): seq<Suffix> {
    Suffixes(RuleList(cfg, b, r), RuleAction(r))
  }

  /** The first `r` lists, one behind the other. */
  function Joined(cfg: Config, b: Builtin, r: nat): seq<Suffix> {
    if r == 0 then [] else Joined(cfg, b, r - 1) + ListOf(cfg, b, r - 1)
  }

  lemma LoadedJoined(cfg: Config, b: Builtin)
    ensures Loaded(cfg, b) == Joined(cfg, b, 5)
  {
    var l0, l1, l2 := ListOf(cfg, b, 0), ListOf(cfg, b, 1), ListOf(cfg, b, 2);
    assert Joined(cfg, b, 3) == CustomSuffixes(cfg) by {
      assert Joined(cfg, b, 1) == [] + l0 == l0;
      assert Joined(cfg, b, 2) == l0 + l1;
    }
    assert Joined(cfg, b, 4) == Joined(cfg, b, 3) + ListOf(cfg, b, 3);
    if !InRuleMode(cfg) {
      assert ListOf(cfg, b, 3) == [] && ListOf(cfg, b, 4) == [];
    }
  }

  /** Where the rule at index `i` of list `r` lies among the loaded ones. */
  lemma {:induction false} JoinedAt(cfg: Config, b: Builtin, n: nat, r: nat, i: nat)
    requires r < n && i < |RuleList(cfg, b, r)|
    ensures |Joined(cfg, b, r)| + i < |Joined(cfg, b, r + 1)| <= |Joined(cfg, b, n)|
    ensures Joined(cfg, b, n)[|Joined(cfg, b, r)| + i] == Suffix(RuleList(cfg, b, r)[i], RuleAction(r))
    decreases n
  {
    var before, last := Joined(cfg, b, n - 1), ListOf(cfg, b, n - 1);
    assert Joined(cfg, b, n) == before + last;
    if r == n - 1 {
      SuffixesAt(RuleList(cfg, b, r), RuleAction(r), i);
    } else {
      JoinedAt(cfg, b, n - 1, r, i);
    }
  }

  lemma {:induction false} JoinedGrows(cfg: Config, b: Builtin, r: nat, n: nat)
    requires r <= n
    ensures |Joined(cfg, b, r)| <= |Joined(cfg, b, n)|
    decreases n
  {
    if r < n {
      JoinedGrows(cfg, b, r, n - 1);
    }
  }

  lemma {:induction false} Locate(cfg: Config, b: Builtin, n: nat, m: nat) returns (r: nat, i: nat)
    requires m < |Joined(cfg, b, n)|
    ensures r < n && i < |RuleList(cfg, b, r)| && m == |Joined(cfg, b, r)| + i
    decreases n
  {
    var before := Joined(cfg, b, n - 1);
    if m < |before| {
      r, i := Locate(cfg, b, n - 1, m);
    } else {
      r, i := n - 1, m - |before|;
      SuffixesLength(RuleList(cfg, b, r), RuleAction(r));
    }
  }

  lemma WeightHits(e: Suffix, domain: string)
    ensures Weight(e, domain) > 0 <==> Hits(e.text, domain)
    ensures Hits(e.text, domain) ==> Weight(e, domain) == |SuffixKey(e.text)|
  {
    HitsExactly(e, domain);
    WeightMeaning(e, domain);
  }

  function KeyLength(cfg: Config, b: Builtin, r: nat, i: nat): nat
    requires i < |RuleList(cfg, b, r)|
  {
    |SuffixKey(RuleList(cfg, b, r)[i])|
  }

  /** The weight of a rule among the first `n` lists. */
  lemma HitWeight(cfg: Config, b: Builtin, n: nat, domain: string, r: nat, i: nat, m: nat)
    requires r < n <= 5 && i < |RuleList(cfg, b, r)| && m == |Joined(cfg, b, r)| + i
    ensures m < |Joined(cfg, b, n)|
    ensures
      Weights(Joined(cfg, b, n), domain)[m] == if HitAt(cfg, b, domain, r, i) then KeyLength(cfg, b, r, i) else 0
    ensures HitAt(cfg, b, domain, r, i) ==> KeyLength(cfg, b, r, i) > 0
  {
    var es, text := Joined(cfg, b, n), RuleList(cfg, b, r)[i];
    assert m < |es| && es[m] == Suffix(text, RuleAction(r)) by {
      JoinedAt(cfg, b, n, r, i);
    }
    TextWeight(text, RuleAction(r), domain);
  }

  lemma TextWeight(text: string, action: Action, domain: string)
    ensures Weight(Suffix(text, action), domain) == if Hits(text, domain) then |SuffixKey(text)| else 0
    ensures Hits(text, domain) ==> |SuffixKey(text)| > 0
  {
    WeightHits(Suffix(text, action), domain);
  }

  /** A rule of a later list comes later among the loaded ones. */
  lemma LaterList(cfg: Config, b: Builtin, r: nat, i: nat, r2: nat, i2: nat)
    requires r < r2 && i < |RuleList(cfg, b, r)|
    ensures |Joined(cfg, b, r)| + i < |Joined(cfg, b, r2)| + i2
  {
    JoinedAt(cfg, b, r + 1, r, i);
    JoinedGrows(cfg, b, r + 1, r2);
  }

  /** How one hit compares with the winner at index `m`. */
  lemma HitCompares(cfg: Config, b: Builtin, n: nat, domain: string, m: nat, r: nat, i: nat, r2: nat, i2: nat)
    requires n == 5 && LastGreatest(Weights(Joined(cfg, b, n), domain), m)
    requires r < n && i < |RuleList(cfg, b, r)| && m == |Joined(cfg, b, r)| + i && HitAt(cfg, b, domain, r2, i2)
    ensures HitAt(cfg, b, domain, r, i)
    ensures
      var k, k2 := KeyLength(cfg, b, r, i), KeyLength(cfg, b, r2, i2);
      k2 < k || (k2 == k && r2 <= r)
  {
    HitWeight(cfg, b, n, domain, r, i, m);
    HitWeight(cfg, b, n, domain, r2, i2, |Joined(cfg, b, r2)| + i2);
    if r2 > r {
      LaterList(cfg, b, r, i, r2, i2);
    }
  }

  /** The winner's place in the lists. */
  lemma BestAt(cfg: Config, b: Builtin, n: nat, domain: string, m: nat, r: nat, i: nat)
    requires n == 5 && LastGreatest(Weights(Joined(cfg, b, n), domain), m)
    requires r < n && i < |RuleList(cfg, b, r)| && m == |Joined(cfg, b, r)| + i
    ensures HitAt(cfg, b, domain, r, i) <==> SomeHit(cfg, b, domain)
    ensures SomeHit(cfg, b, domain) ==> BestHit(cfg, b, domain, r, i)
  {
    forall r2: nat, i2: nat | HitAt(cfg, b, domain, r2, i2)
      ensures HitAt(cfg, b, domain, r, i)
      ensures
        var k, k2 := |SuffixKey(RuleList(cfg, b, r)[i])|, |SuffixKey(RuleList(cfg, b, r2)[i2])|;
        k2 < k || (k2 == k && r2 <= r)
    {
      HitCompares(cfg, b, n, domain, m, r, i, r2, i2);
    }
  }

  /** The rule is the best hit, and there is none exactly when nothing hits. */
  ghost predicate IsBest(cfg: Config, b: Builtin, domain: string, w: Option<Suffix>) {
    if w.None? then !SomeHit(cfg, b, domain)
    else exists r: nat, i: nat :: BestHit(cfg, b, domain, r, i) && w.value.action == RuleAction(r)
  }

  /** The winner among the loaded rules is the best hit. */
  lemma WinnerIsBest(cfg: Config, b: Builtin, domain: string)
    ensures IsBest(cfg, b, domain, Winner(Loaded(cfg, b), domain))
  {
    LoadedJoined(cfg, b);
    JoinedBest(cfg, b, 5, domain);
  }

  lemma JoinedBest(cfg: Config, b: Builtin, n: nat, domain: string)
    requires n == 5
    ensures IsBest(cfg, b, domain, Winner(Joined(cfg, b, n), domain))
  {
    var es := Joined(cfg, b, n);
    if es == [] {
      NothingHits(cfg, b, n, domain);
    } else {
      var m := WinnerWins(es, domain);
      WinnerAt(cfg, b, n, domain, m, es[m], Weights(es, domain)[m]);
    }
  }

  lemma WinnerAt(cfg: Config, b: Builtin, n: nat, domain: string, m: nat, e: Suffix, weight: nat)
    requires n == 5 && LastGreatest(Weights(Joined(cfg, b, n), domain), m)
    requires e == Joined(cfg, b, n)[m] && weight == Weights(Joined(cfg, b, n), domain)[m]
    ensures IsBest(cfg, b, domain, if weight > 0 then Some(e) else None)
  {
    var r, i := Place(cfg, b, n, m, e);
    HitIsBest(cfg, b, n, domain, m, r, i, weight);
    BestAs(cfg, b, domain, r, i, e, weight);
  }

  lemma Place(cfg: Config, b: Builtin, n: nat, m: nat, e: Suffix) returns (r: nat, i: nat)
    requires m < |Joined(cfg, b, n)| && e == Joined(cfg, b, n)[m]
    ensures r < n && i < |RuleList(cfg, b, r)| && m == |Joined(cfg, b, r)| + i && e.action == RuleAction(r)
  {
    r, i := Locate(cfg, b, n, m);
    JoinedAt(cfg, b, n, r, i);
  }

  lemma BestAs(cfg: Config, b: Builtin, domain: string, r: nat, i: nat, e: Suffix, weight: nat)
    requires if weight > 0 then BestHit(cfg, b, domain, r, i) else !SomeHit(cfg, b, domain)
    requires e.action == RuleAction(r)
    ensures IsBest(cfg, b, domain, if weight > 0 then Some(e) else None)
  {
  }

  lemma HitIsBest(cfg: Config, b: Builtin, n: nat, domain: string, m: nat, r: nat, i: nat, weight: nat)
    requires n == 5 && LastGreatest(Weights(Joined(cfg, b, n), domain), m)
    requires weight == Weights(Joined(cfg, b, n), domain)[m]
    requires r < n && i < |RuleList(cfg, b, r)| && m == |Joined(cfg, b, r)| + i
    ensures if weight > 0 then BestHit(cfg, b, domain, r, i) else !SomeHit(cfg, b, domain)
  {
    HitWeight(cfg, b, n, domain, r, i, m);
    BestAt(cfg, b, n, domain, m, r, i);
  }

  lemma NothingHits(cfg: Config, b: Builtin, n: nat, domain: string)
    requires n == 5 && Joined(cfg, b, n) == []
    ensures !SomeHit(cfg, b, domain)
  {
    forall r: nat, i: nat ensures !HitAt(cfg, b, domain, r, i) {
      if r < n && i < |RuleList(cfg, b, r)| {
        JoinedAt(cfg, b, n, r, i);
        assert false;
      }
    }
  }

  lemma {:induction false} BlocksDecide(cs: seq<Option<Cidr>>, action: Action, ip: IP)
    ensures FirstBlock(Blocks(cs, action), ip) == if SomeHolds(cs, ip) then Some(action) else None
    decreases |cs|
  {
    if cs != [] {
      var rest := cs[1..];
      BlocksDecide(rest, action, ip);
      assert SomeHolds(cs, ip) <==> (cs[0].Some? && cs[0].value.Contains(ip)) || SomeHolds(rest, ip) by {
        assert forall i :: 0 < i < |cs| ==> cs[i] == rest[i - 1];
        if SomeHolds(rest, ip) {
          var i :| 0 <= i < |rest| && rest[i].Some? && rest[i].value.Contains(ip);
          assert cs[i + 1].Some? && cs[i + 1].value.Contains(ip);
        }
      }
    }
  }

  /** The first block among the loaded rules is that of the first list that holds the address. */
  lemma FirstBlockIsFirst(cfg: Config, ip: IP)
    ensures FirstBlock(LoadedIPs(cfg), ip).Some? <==> SomeBlock(cfg, ip)
    ensures
      FirstBlock(LoadedIPs(cfg), ip).Some? ==>
      exists r: nat :: FirstHolding(cfg, ip, r) && FirstBlock(LoadedIPs(cfg), ip).value == RuleAction(r)
  {
    var l0, l1, l2 := Blocks(cfg.blockIPs, Block), Blocks(cfg.directIPs, Direct), Blocks(cfg.proxyIPs, Proxy);
    BlocksDecide(cfg.blockIPs, Block, ip);
    BlocksDecide(cfg.directIPs, Direct, ip);
    BlocksDecide(cfg.proxyIPs, Proxy, ip);
    FirstBlockConcat(l0 + l1, l2, ip);
    FirstBlockConcat(l0, l1, ip);
    if SomeHolds(BlockList(cfg, 0), ip) {
      assert FirstHolding(cfg, ip, 0);
    } else if SomeHolds(BlockList(cfg, 1), ip) {
      assert FirstHolding(cfg, ip, 1);
    } else if SomeHolds(BlockList(cfg, 2), ip) {
      assert FirstHolding(cfg, ip, 2);
    }
  }

  lemma DecisionDecided(cfg: Config, b: Builtin, domain: string, ip: Option<IP>)
    ensures Decided(cfg, b, domain, ip, Decision(cfg, b, domain, ip))
  {
    if ip.Some? {
      PrivateExactly(ip.value);
    }
    if !(ip.Some? && IsPrivate(ip.value)) && cfg.mode != Global && cfg.mode != AlwaysDirect {
      RulesDecide(cfg, b, domain, ip);
    }
  }

  lemma RulesDecide(cfg: Config, b: Builtin, domain: string, ip: Option<IP>)
    requires ip.Some? ==> !IsPrivate(ip.value) && !ListedPrivate(ip.value)
    requires cfg.mode != Global && cfg.mode != AlwaysDirect
    ensures Decided(cfg, b, domain, ip, Decision(cfg, b, domain, ip))
  {
    var d := Clean(domain);
    var w := if d == "" then None else Winner(Loaded(cfg, b), d);
    SuffixDecides(cfg, b, d, w);
    if w.None? && ip.Some? {
      BlocksDecideRest(cfg, b, domain, ip.value);
    }
  }

  lemma BlocksDecideRest(cfg: Config, b: Builtin, domain: string, ip: IP)
    requires !IsPrivate(ip) && !ListedPrivate(ip) && cfg.mode != Global && cfg.mode != AlwaysDirect
    requires Clean(domain) == "" || Winner(Loaded(cfg, b), Clean(domain)).None?
    requires !SomeHit(cfg, b, Clean(domain))
    ensures Decided(cfg, b, domain, Some(ip), Decision(cfg, b, domain, Some(ip)))
  {
    FirstBlockIsFirst(cfg, ip);
  }

  lemma SuffixDecides(cfg: Config, b: Builtin, domain: string, w: Option<Suffix>)
    requires w == if domain == "" then None else Winner(Loaded(cfg, b), domain)
    ensures w.Some? <==> SomeHit(cfg, b, domain)
    ensures w.Some? ==> exists r: nat, i: nat :: BestHit(cfg, b, domain, r, i) && w.value.action == RuleAction(r)
  {
    if domain != "" {
      WinnerIsBest(cfg, b, domain);
    }
  }

  /** The lists determine the action. */
  lemma DecidedOnce(cfg: Config, b: Builtin, domain: string, ip: Option<IP>, x: Action, y: Action)
    requires Decided(cfg, b, domain, ip, x) && Decided(cfg, b, domain, ip, y)
    ensures x == y
  {
  }

  // --- the router as an object ---

  /** IsChinaIP. */
  method IsChinaIP(b: Builtin, ip: IP) returns (found: bool)
    requires b.Ok()
    ensures found <==> China(b, ip)
  {
    var v4 := To4(ip);
    if v4.Some? {
      found := SearchV4(b.chinaV4, Value(v4.value));
    } else if |ip| == 16 {
      SplitValue(ip);
      found := SearchV6(b.chinaV6, Split(ip));
    } else {
      found := false;
    }
  }

  /** The rules that could be parsed. */
  function Parsed(rs: seq<IpRule>): seq<IpRule> {
    if rs == [] then []
    else Parsed(rs[..|rs| - 1]) + if rs[|rs| - 1].cidr.Some? then [rs[|rs| - 1]] else []
  }

  lemma {:induction false} FirstBlockConcat(a: seq<IpRule>, b: seq<IpRule>, ip: IP)
    ensures FirstBlock(a + b, ip) == if FirstBlock(a, ip).Some? then FirstBlock(a, ip) else FirstBlock(b, ip)
    decreases |a|
  {
    if a == [] {
      assert a + b == b;
    } else {
      FirstBlockConcat(a[1..], b, ip);
      assert (a + b)[1..] == a[1..] + b;
    }
  }

  lemma {:induction false} FirstBlockParsed(rs: seq<IpRule>, ip: IP)
    ensures FirstBlock(Parsed(rs), ip) == FirstBlock(rs, ip)
    decreases |rs|
  {
    if rs != [] {
      var before, r := rs[..|rs| - 1], rs[|rs| - 1];
      FirstBlockParsed(before, ip);
      FirstBlockConcat(before, [r], ip);
      FirstBlockConcat(Parsed(before), if r.cidr.Some? then [r] else [], ip);
      assert rs == before + [r] && [r][1..] == [];
    }
  }

  class IPMatcher {
    var rules: seq<IpRule>

    constructor ()
      ensures rules == []
    {
      rules := [];
    }

    /** AddCIDR: the flag reports text that could not be parsed. */
    method AddCIDR(cidr: Option<Cidr>, action: Action) returns (err: bool)
      modifies this
      ensures err == cidr.None? && rules == if err then old(rules) else old(rules) + [IpRule(cidr, action)]
    {
      if cidr.None? {
        return true;
      }
      rules := rules + [IpRule(cidr, action)];
      err := false;
    }

    method Match(ip: IP) returns (r: Option<Action>)
      ensures r == FirstBlock(rules, ip)
    {
      var i := 0;
      assert rules[0..] == rules;
      while i < |rules|
        invariant 0 <= i <= |rules| && FirstBlock(rules[i..], ip) == FirstBlock(rules, ip)
      {
        assert rules[i..][0] == rules[i] && rules[i..][1..] == rules[i + 1..];
        if rules[i].cidr.Some? && rules[i].cidr.value.Contains(ip) {
          return Some(rules[i].action);
        }
        i := i + 1;
      }
      return None;
    }
  }

  class Router {
    var mode: Mode
    const domainMatcher: DomainMatcher
    const ipMatcher: IPMatcher

    /** The matchers hold what the configuration loads. */
    ghost predicate Valid(cfg: Config, b: Builtin)
      reads this, domainMatcher, ipMatcher
    {
      && mode == Effective(cfg.mode)
      && domainMatcher.exact == map[] && domainMatcher.keywords == []
      && domainMatcher.suffixes == Table(Loaded(cfg, b))
      && ipMatcher.rules == Parsed(LoadedIPs(cfg))
    }

    /** NewRouter. */
    constructor (cfg: Config, b: Builtin)
      ensures Valid(cfg, b) && fresh(domainMatcher) && fresh(ipMatcher)
    {
      mode := if cfg.mode == Unset then Rule else cfg.mode;
      domainMatcher := new DomainMatcher();
      ipMatcher := new IPMatcher();
      new;
      LoadCustomDomains(domainMatcher, cfg);
      LoadCustomIPs(ipMatcher, cfg);
      if mode == Rule {
        ghost var custom := CustomSuffixes(cfg);
        LoadSuffixes(domainMatcher, b.blockSuffixes, Block, custom);
        LoadSuffixes(domainMatcher, b.directSuffixes, Direct, custom + Suffixes(b.blockSuffixes, Block));
      }
    }

    /** Route decides as the configuration promises. */
    method Route(cfg: Config, b: Builtin, domain: string, ip: Option<IP>) returns (action: Action)
      requires Valid(cfg, b) && b.Ok()
      ensures action == Decision(cfg, b, domain, ip)
      ensures Decided(cfg, b, domain, ip, action)
    {
      DecisionDecided(cfg, b, domain, ip);
      if ip.Some? && IsPrivate(ip.value) {
        return Direct;
      }
      if mode == Global {
        return Proxy;
      }
      if mode == AlwaysDirect {
        return Direct;
      }
      CleanTrim(domain);
      var cleanDomain := Trim(domain);
      if cleanDomain != "" {
        TableNoEmpty(Loaded(cfg, b));
        var r := domainMatcher.Match(cleanDomain);
        MatchedWinner(Loaded(cfg, b), Clean(domain), r);
        if r.Some? {
          return r.value;
        }
      }
      if ip.Some? {
        FirstBlockParsed(LoadedIPs(cfg), ip.value);
        var r := ipMatcher.Match(ip.value);
        if r.Some? {
          return r.value;
        }
        if mode == Rule {
          var china := IsChinaIP(b, ip.value);
          if china {
            return Direct;
          }
        }
      }
      return Proxy;
    }
  }

  lemma MatchedWinner(es: seq<Suffix>, domain: string, r: Option<Action>)
    requires domain != "" && Matches(map[], Table(es), [], domain, r)
    ensures r == if Winner(es, domain).Some? then Some(Winner(es, domain).value.action) else None
  {
    WinnerIsLongest(es, domain);
    if Winner(es, domain).Some? {
      var s :| Longest(Table(es), domain, s) && Table(es)[s] == r.value;
      LongestUnique(Table(es), domain, s, SuffixKey(Winner(es, domain).value.text));
    }
  }

  method LoadCustomDomains(dm: DomainMatcher, cfg: Config)
    requires dm.suffixes == map[]
    modifies dm`suffixes
    ensures dm.suffixes == Table(CustomSuffixes(cfg))
  {
    ghost var block, direct := Suffixes(cfg.blockDomains, Block), Suffixes(cfg.directDomains, Direct);
    LoadSuffixes(dm, cfg.blockDomains, Block, []);
    assert [] + block == block;
    LoadSuffixes(dm, cfg.directDomains, Direct, block);
    LoadSuffixes(dm, cfg.proxyDomains, Proxy, block + direct);
  }

  method LoadCustomIPs(im: IPMatcher, cfg: Config)
    requires im.rules == []
    modifies im
    ensures im.rules == Parsed(LoadedIPs(cfg))
  {
    ghost var block, direct := Blocks(cfg.blockIPs, Block), Blocks(cfg.directIPs, Direct);
    LoadBlocks(im, cfg.blockIPs, Block, []);
    assert [] + block == block;
    LoadBlocks(im, cfg.directIPs, Direct, block);
    LoadBlocks(im, cfg.proxyIPs, Proxy, block + direct);
  }

  /** One loading loop of NewRouter. */
  method LoadSuffixes(dm: DomainMatcher, ds: seq<string>, action: Action, ghost before: seq<Suffix>)
    requires dm.suffixes == Table(before)
    modifies dm`suffixes
    ensures dm.suffixes == Table(before + Suffixes(ds, action))
  {
    assert before + Suffixes(ds[..0], action) == before;
    for i := 0 to |ds|
      invariant dm.suffixes == Table(before + Suffixes(ds[..i], action))
    {
      dm.AddSuffix(ds[i], action);
      TableStep(before, ds, i, action);
    }
    assert ds[..|ds|] == ds;
  }

  lemma TableStep(before: seq<Suffix>, ds: seq<string>, i: nat, action: Action)
    requires i < |ds|
    ensures
      var m, k := Table(before + Suffixes(ds[..i], action)), SuffixKey(ds[i]);
      Table(before + Suffixes(ds[..i + 1], action)) == if k == "" then m else m[k := action]
  {
    var es := before + Suffixes(ds[..i], action);
    assert ds[..i + 1] == ds[..i] + [ds[i]];
    SuffixesSnoc(ds[..i], ds[i], action);
    Assoc(before, Suffixes(ds[..i], action), [Suffix(ds[i], action)]);
    assert (es + [Suffix(ds[i], action)])[..|es|] == es;
  }

  lemma {:induction false} SuffixesSnoc(ds: seq<string>, d: string, action: Action)
    ensures Suffixes(ds + [d], action) == Suffixes(ds, action) + [Suffix(d, action)]
    decreases |ds|
  {
    if ds == [] {
      assert ds + [d] == [d] && [d][1..] == [];
    } else {
      SuffixesSnoc(ds[1..], d, action);
      assert (ds + [d])[1..] == ds[1..] + [d];
    }
  }

  method LoadBlocks(im: IPMatcher, cs: seq<Option<Cidr>>, action: Action, ghost before: seq<IpRule>)
    requires im.rules == Parsed(before)
    modifies im
    ensures im.rules == Parsed(before + Blocks(cs, action))
  {
    assert before + Blocks(cs[..0], action) == before;
    for i := 0 to |cs|
      invariant im.rules == Parsed(before + Blocks(cs[..i], action))
    {
      var err := im.AddCIDR(cs[i], action);
      ParsedStep(before, cs, i, action);
    }
    assert cs[..|cs|] == cs;
  }

  lemma ParsedStep(before: seq<IpRule>, cs: seq<Option<Cidr>>, i: nat, action: Action)
    requires i < |cs|
    ensures
      var rs := Parsed(before + Blocks(cs[..i], action));
      Parsed(before + Blocks(cs[..i + 1], action)) == if cs[i].None? then rs else rs + [IpRule(cs[i], action)]
  {
    var rs := before + Blocks(cs[..i], action);
    assert cs[..i + 1] == cs[..i] + [cs[i]];
    BlocksSnoc(cs[..i], cs[i], action);
    Assoc(before, Blocks(cs[..i], action), [IpRule(cs[i], action)]);
    assert (rs + [IpRule(cs[i], action)])[..|rs|] == rs;
  }

  lemma {:induction false} BlocksSnoc(cs: seq<Option<Cidr>>, c: Option<Cidr>, action: Action)
    ensures Blocks(cs + [c], action) == Blocks(cs, action) + [IpRule(c, action)]
    decreases |cs|
  {
    if cs == [] {
      assert cs + [c] == [c] && [c][1..] == [];
    } else {
      BlocksSnoc(cs[1..], c, action);
      assert (cs + [c])[1..] == cs[1..] + [c];
    }
  }
}
