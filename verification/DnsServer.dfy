/** The UDP name server: its answer cache, and how responses are matched to pending requests by 16-bit id. */
module DnsServer {
  import opened Bytes
  import opened Options

  type Time = int
  type Address = seq<byte>

  datatype Family = V4 | V6

  datatype IPRecord = IPRecord(reqId: uint16, ips: seq<Address>, expire: Time, rcode: nat)

  /** The cached answers of one domain. */
  datatype Record = Record(a: Option<IPRecord>, aaaa: Option<IPRecord>) {
    function Of(family: Family): Option<IPRecord> {
      if family == V4 then a else aaaa
    }
  }

  datatype Request = Request(family: Family, domain: string, expire: Time)

  datatype IPOption = IPOption(ipv4: bool, ipv6: bool)

  /** The outcome of a lookup; `NotFound` makes the caller query the server. */
  datatype Answer = Addresses(ips: seq<Address>) | NotFound | RCodeError(rcode: nat) | EmptyResponse

  const REQUEST_LIFETIME := 8

  // --- the operations on values ---

  function IsNewer(base: Option<IPRecord>, rec: Option<IPRecord>): bool {
    rec.Some? && (base.None? || base.value.expire < rec.value.expire)
  }

  function Merge(base: Record, rec: Record): Record {
    Record(if IsNewer(base.a, rec.a) then rec.a else base.a,
           if IsNewer(base.aaaa, rec.aaaa) then rec.aaaa else base.aaaa)
  }

  type Ips = map<string, Record>
  type Requests = map<uint16, Request>

  function Entry(ips: Ips, domain: string): Record {
    if domain in ips then ips[domain] else Record(None, None)
  }

  function Updated(ips: Ips, domain: string, rec: Record): Ips {
    var base := Entry(ips, domain);
    if IsNewer(base.a, rec.a) || IsNewer(base.aaaa, rec.aaaa) then ips[domain := Merge(base, rec)] else ips
  }

  function Unexpired(r: Option<IPRecord>, now: Time): Option<IPRecord> {
    if r.Some? && r.value.expire < now then None else r
  }

  function Trim(rec: Record, now: Time): Record {
    Record(Unexpired(rec.a, now), Unexpired(rec.aaaa, now))
  }

  function CleanIps(ips: Ips, now: Time): Ips {
    map d | d in ips && Trim(ips[d], now) != Record(None, None) :: Trim(ips[d], now)
  }

  function CleanRequests(rs: Requests, now: Time): Requests {
    map id | id in rs && rs[id].expire >= now :: rs[id]
  }

  function RecordFor(family: Family, rec: IPRecord): Record {
    if family == V4 then Record(Some(rec), None) else Record(None, Some(rec))
  }

  /** What one family contributes to an answer: addresses, or the reason why there are none. */
  function GetIPs(r: Option<IPRecord>, now: Time): Answer {
    if Unexpired(r, now).None? then NotFound
    else if r.value.rcode != 0 then RCodeError(r.value.rcode)
    else Addresses(r.value.ips)
  }

  function Contribution(enabled: bool, r: Option<IPRecord>, now: Time): Answer {
    if enabled then GetIPs(r, now) else Addresses([])
  }

  function Combine(g4: Answer, g6: Answer): Answer {
    var ips := (if g4.Addresses? then g4.ips else []) + (if g6.Addresses? then g6.ips else []);
    if ips != [] then Addresses(ips)
    else if !g4.Addresses? then g4
    else if !g6.Addresses? then g6
    else EmptyResponse
  }

  /** The answer computed from one record per family. */
  function AnswerFrom(a: Option<IPRecord>, aaaa: Option<IPRecord>, opt: IPOption, now: Time): Answer {
    Combine(Contribution(opt.ipv4, a, now), Contribution(opt.ipv6, aaaa, now))
  }

  function Lookup(ips: Ips, domain: string, opt: IPOption, now: Time): Answer {
    if domain !in ips then NotFound else AnswerFrom(ips[domain].a, ips[domain].aaaa, opt, now)
  }

  // --- what an answer is ---

  /** A record that answers: it is there, has not expired and reports success. */
  predicate Usable(r: Option<IPRecord>, now: Time) {
    r.Some? && r.value.expire >= now && r.value.rcode == 0
  }

  /** Why a record does not answer: it is missing or has expired, or it reports an error. */
  predicate Reason(r: Option<IPRecord>, now: Time, answer: Answer) {
    if r.None? || r.value.expire < now then answer == NotFound
    else r.value.rcode != 0 && answer == RCodeError(r.value.rcode)
  }

  function Part(enabled: bool, r: Option<IPRecord>, now: Time): seq<Address> {
    if enabled && Usable(r, now) then r.value.ips else []
  }

  /** The answer from a record per family: the addresses of those that are enabled and usable, IPv4 first; without any,
      the reason why the IPv4 record does not answer if it is asked for and does not, then that of the IPv6 record, and
      an empty response if both that are asked for do. */
  predicate Answered(a: Option<IPRecord>, aaaa: Option<IPRecord>, opt: IPOption, now: Time, answer: Answer) {
    var all := Part(opt.ipv4, a, now) + Part(opt.ipv6, aaaa, now);
    if all != [] then answer == Addresses(all)
    else if opt.ipv4 && !Usable(a, now) then Reason(a, now, answer)
    else if opt.ipv6 && !Usable(aaaa, now) then Reason(aaaa, now, answer)
    else answer == EmptyResponse
  }

  lemma AnswerExactly(a: Option<IPRecord>, aaaa: Option<IPRecord>, opt: IPOption, now: Time)
    ensures Answered(a, aaaa, opt, now, AnswerFrom(a, aaaa, opt, now))
  {
    var g4, g6 := Contribution(opt.ipv4, a, now), Contribution(opt.ipv6, aaaa, now);
    assert (if g4.Addresses? then g4.ips else []) == Part(opt.ipv4, a, now);
    assert (if g6.Addresses? then g6.ips else []) == Part(opt.ipv6, aaaa, now);
  }

  // --- runs ---

  /** A response between its two lock sections: its request has been taken, its record is not stored yet. */
  datatype Taken = Taken(family: Family, domain: string, rec: IPRecord)

  /** One lock section of the server. HandleResponse has two, which the calls `h` may interleave in any way. */
  datatype Event =
    | Register(id: uint16, family: Family, domain: string, now: Time)
    | Take(h: nat, rec: IPRecord)   // HandleResponse: look up the request and remove it
    | Store(h: nat)                 // HandleResponse: updateIP
    | Cleanup(now: Time)            // the clock is read before the lock is taken

  datatype Server = Server(ips: Ips, requests: Requests, taken: map<nat, Taken>) {
    function Then(ev: Event): Server {
      match ev
      case Register(id, family, domain, now) =>
        this.(requests := requests[id := Request(family, domain, now + REQUEST_LIFETIME)])
      case Take(h, rec) =>
        if h in taken || rec.reqId !in requests then this
        else
          var req := requests[rec.reqId];
          this.(requests := requests - {rec.reqId}, taken := taken[h := Taken(req.family, req.domain, rec)])
      case Store(h) =>
        if h !in taken then this
        else
          this.(ips := Stored(ips, taken[h]), taken := taken - {h})
      case Cleanup(now) =>
        this.(ips := CleanIps(ips, now), requests := CleanRequests(requests, now))
    }
  }

  /** The cache after the second lock section of a response. */
  function Stored(ips: Ips, t: Taken): Ips {
    if t.domain == "" then ips else Updated(ips, t.domain, RecordFor(t.family, t.rec))
  }

  function Run(evs: seq<Event>): Server {
    if evs == [] then Server(map[], map[], map[]) else Run(evs[..|evs| - 1]).Then(evs[|evs| - 1])
  }

  /** The registration, as an index into the run, that a response with this id would consume. */
  function PendingAt(evs: seq<Event>, id: uint16): (r: Option<nat>)
    ensures r.Some? ==> r.value < |evs| && evs[r.value].Register? && evs[r.value].id == id
    decreases |evs|
  {
    if evs == [] then None
    else
      var n := |evs| - 1;
      var before := PendingAt(evs[..n], id);
      match evs[n]
      case Register(i, _, _, _) => if i == id then Some(n) else before
      case Take(h, rec) => if rec.reqId == id && TakenAt(evs[..n], h).None? then None else before
      case Store(_) => before
      case Cleanup(now) =>
        if before.Some? && evs[before.value].now + 8 < now then None else before
  }

  /** The taking, as an index into the run, whose record call `h` has yet to store. */
  function TakenAt(evs: seq<Event>, h: nat): (r: Option<nat>)
    ensures r.Some? ==> r.value < |evs| && evs[r.value].Take? && evs[r.value].h == h
    decreases |evs|
  {
    if evs == [] then None
    else
      var n := |evs| - 1;
      var before := TakenAt(evs[..n], h);
      match evs[n]
      case Take(i, rec) => if i == h && before.None? && PendingAt(evs[..n], rec.reqId).Some? then Some(n) else before
      case Store(i) => if i == h then None else before
      case _ => before
  }

  /** The registration that the taking at index `j` consumes. */
  function Consumes(evs: seq<Event>, j: nat): Option<nat>
    requires j < |evs|
  {
    if evs[j].Take? && TakenAt(evs[..j], evs[j].h).None? then PendingAt(evs[..j], evs[j].rec.reqId) else None
  }

  /** The taking whose record the storing at index `k` stores. */
  function Stores(evs: seq<Event>, k: nat): Option<nat>
    requires k < |evs|
  {
    if evs[k].Store? then TakenAt(evs[..k], evs[k].h) else None
  }

  /** What the taking at index `j` holds between its lock sections. */
  predicate Holds(evs: seq<Event>, j: nat, t: Taken)
    requires j < |evs|
  {
    && evs[j].Take? && evs[j].rec == t.rec
    && Consumes(evs, j).Some?
    && evs[Consumes(evs, j).value].family == t.family && evs[Consumes(evs, j).value].domain == t.domain
  }

  lemma HoldsExtends(evs: seq<Event>, j: nat, t: Taken)
    requires j < |evs| - 1 && Holds(evs[..|evs| - 1], j, t)
    ensures Holds(evs, j, t)
  {
    assert evs[..|evs| - 1][..j] == evs[..j];
  }

  /** The pending map is exactly what the history of registrations, responses and cleanups says. */
  predicate PendingAgrees(evs: seq<Event>, id: uint16) {
    && (id in Run(evs).requests <==> PendingAt(evs, id).Some?)
    && (id in Run(evs).requests ==>
          var reg := evs[PendingAt(evs, id).value];
          Run(evs).requests[id] == Request(reg.family, reg.domain, reg.now + 8))
  }

  /** So is the set of responses between their lock sections. */
  predicate TakenAgrees(evs: seq<Event>, h: nat) {
    && (h in Run(evs).taken <==> TakenAt(evs, h).Some?)
    && (h in Run(evs).taken ==> Holds(evs, TakenAt(evs, h).value, Run(evs).taken[h]))
  }

  lemma {:induction false} PendingCorrect(evs: seq<Event>, id: uint16)
    ensures PendingAgrees(evs, id)
    decreases |evs|
  {
    if evs != [] {
      var before, ev := evs[..|evs| - 1], evs[|evs| - 1];
      PendingCorrect(before, id);
      if ev.Take? {
        TakenCorrect(before, ev.h);
      }
    }
  }

  lemma {:induction false} TakenCorrect(evs: seq<Event>, h: nat)
    ensures TakenAgrees(evs, h)
    decreases |evs|
  {
    if evs != [] {
      var n := |evs| - 1;
      var before, ev := evs[..n], evs[n];
      TakenCorrect(before, h);
      if ev.Take? {
        PendingCorrect(before, ev.rec.reqId);
      }
      if h in Run(before).taken && h in Run(evs).taken {
        HoldsExtends(evs, TakenAt(before, h).value, Run(before).taken[h]);
      }
    }
  }

  /** A registration that is no longer pending never becomes pending again. */
  lemma {:induction false} ConsumedIsGone(evs: seq<Event>, i: nat, j: nat, k: nat)
    requires i < j < k <= |evs| && evs[i].Register?
    requires Consumes(evs, j) == Some(i)
    ensures PendingAt(evs[..k], evs[i].id) != Some(i)
    decreases k
  {
    var before := evs[..k][..k - 1];
    assert before == evs[..k - 1];
    if k - 1 > j {
      ConsumedIsGone(evs, i, j, k - 1);
    }
  }

  /** Every registered request is consumed by at most one response. */
  lemma ConsumedOnce(evs: seq<Event>, j: nat, k: nat)
    requires j < k < |evs| && Consumes(evs, j).Some? && Consumes(evs, k).Some?
    ensures Consumes(evs, j).value != Consumes(evs, k).value
  {
    var i := Consumes(evs, j).value;
    assert evs[..j][i] == evs[i];
    if Consumes(evs, k).value == i {
      assert evs[..k][i] == evs[i];
      ConsumedIsGone(evs, i, j, k);
    }
  }

  /** A cached record of a domain and family was stored by a response whose id was, when it was consumed, registered to
      a request for exactly that domain and family. */
  ghost predicate Provenance(evs: seq<Event>, domain: string, family: Family, rec: IPRecord) {
    exists k :: 0 <= k < |evs| && StoresFor(evs, k, Taken(family, domain, rec))
  }

  ghost predicate StoresFor(evs: seq<Event>, k: nat, t: Taken)
    requires k < |evs|
  {
    Stores(evs, k).Some? && Holds(evs, Stores(evs, k).value, t)
  }

  lemma StoresExtends(evs: seq<Event>, k: nat, t: Taken)
    requires k < |evs| - 1 && StoresFor(evs[..|evs| - 1], k, t)
    ensures StoresFor(evs, k, t)
  {
    assert evs[..|evs| - 1][..k] == evs[..k];
    HoldsExtends(evs, Stores(evs, k).value, t);
  }

  lemma StoresNow(evs: seq<Event>)
    requires evs != [] && evs[|evs| - 1].Store? && evs[|evs| - 1].h in Run(evs[..|evs| - 1]).taken
    ensures StoresFor(evs, |evs| - 1, Run(evs[..|evs| - 1]).taken[evs[|evs| - 1].h])
  {
    var n := |evs| - 1;
    TakenCorrect(evs[..n], evs[n].h);
    HoldsExtends(evs, TakenAt(evs[..n], evs[n].h).value, Run(evs[..n]).taken[evs[n].h]);
  }

  lemma {:induction false} CacheProvenance(evs: seq<Event>, domain: string, family: Family)
    requires Entry(Run(evs).ips, domain).Of(family).Some?
    ensures Provenance(evs, domain, family, Entry(Run(evs).ips, domain).Of(family).value)
    decreases |evs|
  {
    var n := |evs| - 1;
    var before, ev := evs[..n], evs[n];
    var was, cur := Entry(Run(before).ips, domain).Of(family), Entry(Run(evs).ips, domain).Of(family);
    if was == cur {
      CacheProvenance(before, domain, family);
      var k :| 0 <= k < |before| && StoresFor(before, k, Taken(family, domain, cur.value));
      StoresExtends(evs, k, Taken(family, domain, cur.value));
    } else {
      StoresNow(evs);
      assert Run(before).taken[ev.h] == Taken(family, domain, cur.value);
    }
  }

  // --- the cache against its history ---

  /** The records that responses stored for a domain and family, in the order of storing. */
  function History(evs: seq<Event>, domain: string, family: Family): seq<IPRecord> {
    if evs == [] then []
    else
      var n := |evs| - 1;
      var before := History(evs[..n], domain, family);
      var j := Stores(evs, n);
      if domain != "" && j.Some? && IsFor(evs, j.value, domain, family) then before + [evs[j.value].rec] else before
  }

  /** The response taken at index `j` consumed a request for the domain and family. */
  predicate IsFor(evs: seq<Event>, j: nat, domain: string, family: Family)
    requires j < |evs|
  {
    var i := Consumes(evs, j);
    i.Some? && evs[i.value].family == family && evs[i.value].domain == domain
  }

  /** The first record of maximal expiry. */
  function Best(h: seq<IPRecord>): (b: Option<IPRecord>)
    ensures b.None? <==> h == []
    ensures b.Some? ==> b.value in h && forall i :: 0 <= i < |h| ==> h[i].expire <= b.value.expire
  {
    if h == [] then None
    else
      var before, r := Best(h[..|h| - 1]), h[|h| - 1];
      if before.None? || before.value.expire < r.expire then Some(r) else before
  }

  /** No record expires later than the best one, and no earlier record expires as late. */
  lemma {:induction false} BestIsFirst(h: seq<IPRecord>) returns (i: nat)
    requires h != []
    ensures i < |h| && Best(h) == Some(h[i])
    ensures forall j :: 0 <= j < |h| ==> h[j].expire <= h[i].expire
    ensures forall j :: 0 <= j < i ==> h[j].expire < h[i].expire
    decreases |h|
  {
    var n := |h| - 1;
    var before := h[..n];
    if before == [] {
      i := n;
    } else {
      i := BestIsFirst(before);
      assert forall j :: 0 <= j < n ==> h[j] == before[j];
      if h[i].expire < h[n].expire {
        i := n;
      }
    }
  }

  /** The cache holds the best record of the history unless it has expired, and then nothing unexpired. */
  predicate Faithful(entry: Option<IPRecord>, best: Option<IPRecord>, clock: Time) {
    Unexpired(entry, clock) == Unexpired(best, clock) && (best.None? ==> entry.None?)
  }

  lemma FaithfulUpdate(entry: Option<IPRecord>, h: seq<IPRecord>, r: IPRecord, clock: Time)
    requires Faithful(entry, Best(h), clock)
    ensures Faithful(if IsNewer(entry, Some(r)) then Some(r) else entry, Best(h + [r]), clock)
  {
    assert (h + [r])[..|h|] == h;
  }

  /** How a storing changes one cache entry. */
  lemma StoredEntry(ips: Ips, t: Taken, domain: string, family: Family)
    ensures
      var e := Entry(ips, domain).Of(family);
      Entry(Stored(ips, t), domain).Of(family) ==
      if domain != "" && t.domain == domain && t.family == family && IsNewer(e, Some(t.rec)) then Some(t.rec) else e
  {
  }

  lemma CleanupEntry(s: Server, t: Time, domain: string, family: Family)
    ensures Entry(s.Then(Cleanup(t)).ips, domain).Of(family) == Unexpired(Entry(s.ips, domain).Of(family), t)
  {
  }

  lemma HistoryStep(evs: seq<Event>, domain: string, family: Family)
    requires evs != []
    ensures
      var s, ev := Run(evs[..|evs| - 1]), evs[|evs| - 1];
      var h := History(evs[..|evs| - 1], domain, family);
      History(evs, domain, family) ==
      if && ev.Store? && ev.h in s.taken && domain != ""
         && s.taken[ev.h].domain == domain && s.taken[ev.h].family == family
      then h + [s.taken[ev.h].rec] else h
  {
    var n := |evs| - 1;
    if evs[n].Store? {
      TakenCorrect(evs[..n], evs[n].h);
      if evs[n].h in Run(evs[..n]).taken {
        HoldsExtends(evs, TakenAt(evs[..n], evs[n].h).value, Run(evs[..n]).taken[evs[n].h]);
      }
    }
  }

  /** No cleanup of the run used a later time. */
  predicate CleanedUntil(evs: seq<Event>, now: Time) {
    forall i :: 0 <= i < |evs| && evs[i].Cleanup? ==> evs[i].now <= now
  }

  lemma StoreFaithful(s: Server, h: nat, domain: string, family: Family, past: seq<IPRecord>, now: Time)
    requires h in s.taken && Faithful(Entry(s.ips, domain).Of(family), Best(past), now)
    ensures
      var t := s.taken[h];
      var hit := domain != "" && t.domain == domain && t.family == family;
      Faithful(Entry(s.Then(Store(h)).ips, domain).Of(family), Best(if hit then past + [t.rec] else past), now)
  {
    StoredEntry(s.ips, s.taken[h], domain, family);
    FaithfulUpdate(Entry(s.ips, domain).Of(family), past, s.taken[h].rec, now);
  }

  lemma {:induction false} CacheFaithful(evs: seq<Event>, domain: string, family: Family, now: Time)
    requires CleanedUntil(evs, now)
    ensures Faithful(Entry(Run(evs).ips, domain).Of(family), Best(History(evs, domain, family)), now)
    decreases |evs|
  {
    if evs != [] {
      var n := |evs| - 1;
      var before, ev := evs[..n], evs[n];
      CacheFaithful(before, domain, family, now);
      HistoryStep(evs, domain, family);
      var s := Run(before);
      match ev {
        case Register(_, _, _, _) => assert Run(evs).ips == s.ips;
        case Take(_, _) => assert Run(evs).ips == s.ips;
        case Store(h) =>
          if h in s.taken {
            StoreFaithful(s, h, domain, family, History(before, domain, family), now);
          }
        case Cleanup(t) =>
          assert History(evs, domain, family) == History(before, domain, family);
          CleanupEntry(s, t, domain, family);
      }
    }
  }

  /** For every run, between any two lock sections, a lookup whose time is not before that of a cleanup answers exactly
      as if it were computed from the full history, using per family the first record of maximal expiry, so that
      cleanups are invisible and expired records are never used; the only exception is a lookup with no family enabled
      for a domain that is not cached. */
  lemma LookupRefinesHistory(evs: seq<Event>, domain: string, opt: IPOption, now: Time)
    requires CleanedUntil(evs, now)
    ensures
      Lookup(Run(evs).ips, domain, opt, now) ==
      AnswerFrom(Best(History(evs, domain, V4)), Best(History(evs, domain, V6)), opt, now)
      <==> opt.ipv4 || opt.ipv6 || domain in Run(evs).ips
    ensures
      opt.ipv4 || opt.ipv6 ==>
      Answered(Best(History(evs, domain, V4)), Best(History(evs, domain, V6)), opt, now,
               Lookup(Run(evs).ips, domain, opt, now))
  {
    AnswerExactly(Best(History(evs, domain, V4)), Best(History(evs, domain, V6)), opt, now);
    CacheFaithful(evs, domain, V4, now);
    CacheFaithful(evs, domain, V6, now);
  }

  /** Without an enabled family the cache does show: a domain whose records have expired is told apart from a cleaned
      one. This is why the caller answers such queries before the lookup. */
  lemma CleanupVisibleWithoutFamily(rec: IPRecord, domain: string, h: nat)
    requires domain != ""
    ensures
      var evs := [Register(rec.reqId, V4, domain, rec.expire), Take(h, rec), Store(h)];
      var opt := IPOption(false, false);
      && Lookup(Run(evs).ips, domain, opt, rec.expire + 1) == EmptyResponse
      && Lookup(Run(evs + [Cleanup(rec.expire + 1)]).ips, domain, opt, rec.expire + 1) == NotFound
  {
    var e1, e2, e3, e4 := Register(rec.reqId, V4, domain, rec.expire), Take(h, rec), Store(h), Cleanup(rec.expire + 1);
    assert [e1][..0] == [] && [e1, e2][..1] == [e1] && [e1, e2, e3][..2] == [e1, e2];
    assert Run([e1]) == Server(map[], map[], map[]).Then(e1);
    assert Run([e1, e2]) == Run([e1]).Then(e2);
    assert Run([e1, e2]).taken == map[h := Taken(V4, domain, rec)];
    assert Run([e1, e2, e3]) == Run([e1, e2]).Then(e3);
    assert Run([e1, e2, e3]).ips == map[domain := Record(Some(rec), None)];
    var evs := [e1, e2, e3] + [e4];
    assert evs[..3] == [e1, e2, e3];
    assert Run(evs) == Run([e1, e2, e3]).Then(e4);
  }

  // --- request ids ---

  /** The id drawn when the 32-bit counter stands at `counter`: the counter is incremented, then truncated. */
  function IdAfter(counter: nat): uint16 {
    (counter + 1) % 0x1_0000_0000 % 0x1_0000
  }

  function CounterAfter(counter: nat, draws: nat): nat {
    (counter + draws) % 0x1_0000_0000
  }

  lemma IdIsLinear(counter: nat, k: nat)
    ensures IdAfter(CounterAfter(counter, k)) == (counter + k + 1) % 0x1_0000
  {
    var m := counter + k;
    var q := m / 0x1_0000_0000;
    assert CounterAfter(counter, k) == m - q * 0x1_0000_0000;
    var c := CounterAfter(counter, k);
    var q' := (c + 1) / 0x1_0000_0000;
    assert (c + 1) % 0x1_0000_0000 == m + 1 - (q + q') * 0x1_0000_0000;
    assert (m + 1 - (q + q') * 0x1_0000_0000) % 0x1_0000 == (m + 1) % 0x1_0000 by {
      ModShift(m + 1, (q + q') * 0x1_0000);
    }
  }

  lemma ModShift(x: int, k: nat)
    ensures (x - k * 0x1_0000) % 0x1_0000 == x % 0x1_0000
    decreases k
  {
    if k > 0 {
      ModShift(x - 0x1_0000, k - 1);
    }
  }

  lemma WithinOneCycle(x: nat, y: nat)
    requires x < y
    ensures y - x < 0x1_0000 ==> x % 0x1_0000 != y % 0x1_0000
    ensures y - x == 0x1_0000 ==> x % 0x1_0000 == y % 0x1_0000
  {
  }

  /** Any 65536 consecutive draws give distinct ids, also across the counter's wrap-around; the next one repeats. */
  lemma ConsecutiveIdsDistinct(counter: nat, j: nat, k: nat)
    requires j < k
    ensures k - j < 0x1_0000 ==> IdAfter(CounterAfter(counter, j)) != IdAfter(CounterAfter(counter, k))
    ensures k - j == 0x1_0000 ==> IdAfter(CounterAfter(counter, j)) == IdAfter(CounterAfter(counter, k))
  {
    IdIsLinear(counter, j);
    IdIsLinear(counter, k);
    WithinOneCycle(counter + j + 1, counter + k + 1);
  }

  /** The ids of the registrations come from the counter: event `i` was given the draw with number `draws[i]`, and no
      two registrations share one. Concurrent queries may register in another order than they drew. */
  predicate Drawn(evs: seq<Event>, draws: seq<nat>, counter: nat) {
    && |draws| == |evs|
    && (forall i :: 0 <= i < |evs| && evs[i].Register? ==> evs[i].id == IdAfter(CounterAfter(counter, draws[i])))
    && (forall i, j :: 0 <= i < j < |evs| && evs[i].Register? && evs[j].Register? ==> draws[i] != draws[j])
  }

  /** A registration replaces a request that is still pending only if at least 65536 ids lie between the two. */
  lemma ReplacesOnlyAfterWrap(evs: seq<Event>, draws: seq<nat>, counter: nat, n: nat)
    requires Drawn(evs, draws, counter) && n < |evs| && evs[n].Register? && evs[n].id in Run(evs[..n]).requests
    ensures PendingAt(evs[..n], evs[n].id).Some?
    ensures
      var i := PendingAt(evs[..n], evs[n].id).value;
      draws[n] >= draws[i] + 0x1_0000 || draws[i] >= draws[n] + 0x1_0000
  {
    PendingCorrect(evs[..n], evs[n].id);
    var i := PendingAt(evs[..n], evs[n].id).value;
    assert evs[..n][i] == evs[i];
    if draws[i] < draws[n] {
      ConsecutiveIdsDistinct(counter, draws[i], draws[n]);
    } else {
      ConsecutiveIdsDistinct(counter, draws[n], draws[i]);
    }
  }

  // --- answers ---

  datatype Kind = TypeA | TypeAAAA | OtherType

  /** One resource record of an answer section; `parsed` says whether its body could be read. */
  datatype Resource = Resource(kind: Kind, ttl: nat, parsed: bool, address: Address)

  const MAX_TTL := 600

  function Ttl(r: Resource): nat {
    if r.ttl == 0 then MAX_TTL else r.ttl
  }

  /** The records that count: up to the first that cannot be read, whose ttl still counts. */
  function Counted(rs: seq<Resource>): seq<Resource> {
    if rs == [] then [] else [rs[0]] + if rs[0].parsed then Counted(rs[1..]) else []
  }

  function AddressesOf(rs: seq<Resource>): seq<Address> {
    if rs == [] then []
    else (if rs[0].parsed && rs[0].kind != OtherType then [rs[0].address] else []) + AddressesOf(rs[1..])
  }

  /** The shortest lifetime among the records, ten minutes at most. */
  function Lifetime(rs: seq<Resource>): (t: nat)
    ensures 0 < t <= MAX_TTL
  {
    if rs == [] then MAX_TTL else Min(Ttl(rs[0]), Lifetime(rs[1..]))
  }

  lemma {:induction false} LifetimeIsShortest(rs: seq<Resource>)
    ensures forall i :: 0 <= i < |rs| ==> Lifetime(rs) <= Ttl(rs[i])
    ensures Lifetime(rs) == MAX_TTL || exists i :: 0 <= i < |rs| && Lifetime(rs) == Ttl(rs[i])
    decreases |rs|
  {
    if rs != [] {
      var rest := rs[1..];
      LifetimeIsShortest(rest);
      assert forall i :: 0 < i < |rs| ==> rs[i] == rest[i - 1];
      if Lifetime(rs) != MAX_TTL && Lifetime(rs) != Ttl(rs[0]) {
        var i :| 0 <= i < |rest| && Lifetime(rest) == Ttl(rest[i]);
        assert Lifetime(rs) == Ttl(rs[i + 1]);
      }
    }
  }

  // --- the same by index ---

  /** An answer that was read and holds an address. */
  predicate HoldsAddress(r: Resource) {
    r.parsed && (r.kind == TypeA || r.kind == TypeAAAA)
  }

  /** How many of the first `i` answers hold an address. */
  function AddressesBefore(rs: seq<Resource>, i: nat): nat
    requires i <= |rs|
  {
    if i == 0 then 0 else AddressesBefore(rs, i - 1) + if HoldsAddress(rs[i - 1]) then 1 else 0
  }

  lemma {:induction false} BeforeCons(rs: seq<Resource>, i: nat)
    requires 0 < i <= |rs|
    ensures AddressesBefore(rs, i) == (if HoldsAddress(rs[0]) then 1 else 0) + AddressesBefore(rs[1..], i - 1)
    decreases i
  {
    if i > 1 {
      BeforeCons(rs, i - 1);
      assert rs[1..][i - 2] == rs[i - 1];
    }
  }

  lemma {:induction false} AddressCount(rs: seq<Resource>)
    ensures |AddressesOf(rs)| == AddressesBefore(rs, |rs|)
    decreases |rs|
  {
    if rs != [] {
      var rest, n := rs[1..], |rs|;
      assert |AddressesOf(rs)| == (if HoldsAddress(rs[0]) then 1 else 0) + |AddressesOf(rest)|;
      AddressCount(rest);
      BeforeCons(rs, n);
    }
  }

  lemma {:induction false} AddressAt(rs: seq<Resource>, i: nat)
    requires i < |rs| && HoldsAddress(rs[i])
    ensures AddressesBefore(rs, i) < |AddressesOf(rs)| && AddressesOf(rs)[AddressesBefore(rs, i)] == rs[i].address
    decreases |rs|
  {
    if i > 0 {
      AddressAt(rs[1..], i - 1);
      BeforeCons(rs, i);
    }
  }

  /** The first `n` answers are those that are looked at: all of them, or up to the first that cannot be read. */
  predicate LookedAt(rs: seq<Resource>, n: nat) {
    && n <= |rs| && (forall i :: 0 <= i < n - 1 ==> rs[i].parsed)
    && (n < |rs| ==> n > 0 && !rs[n - 1].parsed)
  }

  lemma {:induction false} CountedLookedAt(rs: seq<Resource>) returns (n: nat)
    ensures LookedAt(rs, n) && Counted(rs) == rs[..n]
    decreases |rs|
  {
    if rs == [] {
      n := 0;
    } else if !rs[0].parsed {
      n := 1;
    } else {
      var m := CountedLookedAt(rs[1..]);
      n := m + 1;
      assert forall i :: 0 < i < n ==> rs[i] == rs[1..][i - 1];
      assert rs[..n] == [rs[0]] + rs[1..][..m];
    }
  }

  /** The record is made of the answers that are looked at: it lives for the shortest of their TTLs, where 0 counts as
      600, and for 600 at most; and it has the addresses they hold, in order. */
  predicate MadeFrom(rs: seq<Resource>, n: nat, now: Time, rec: IPRecord)
    requires LookedAt(rs, n)
  {
    && rec.expire <= now + 600
    && (forall i :: 0 <= i < n && rs[i].ttl > 0 ==> rec.expire <= now + rs[i].ttl)
    && (rec.expire == now + 600 || exists i :: 0 <= i < n && rs[i].ttl > 0 && rec.expire == now + rs[i].ttl)
    && |rec.ips| == AddressesBefore(rs, n)
    && (forall i :: 0 <= i < n && HoldsAddress(rs[i]) ==> HasAt(rec.ips, AddressesBefore(rs, i), rs[i].address))
  }

  predicate HasAt(ips: seq<Address>, i: nat, a: Address) {
    i < |ips| && ips[i] == a
  }

  lemma {:induction false} BeforePrefix(rs: seq<Resource>, n: nat, i: nat)
    requires i <= n <= |rs|
    ensures AddressesBefore(rs[..n], i) == AddressesBefore(rs, i)
    decreases i
  {
    if i > 0 {
      BeforePrefix(rs, n, i - 1);
    }
  }

  lemma LifetimeExactly(rs: seq<Resource>)
    ensures Lifetime(rs) <= 600
    ensures forall i :: 0 <= i < |rs| && rs[i].ttl > 0 ==> Lifetime(rs) <= rs[i].ttl
    ensures Lifetime(rs) == 600 || exists i :: 0 <= i < |rs| && rs[i].ttl > 0 && Lifetime(rs) == rs[i].ttl
  {
    LifetimeIsShortest(rs);
  }

  lemma AddressesExactly(rs: seq<Resource>, n: nat)
    requires n <= |rs|
    ensures |AddressesOf(rs[..n])| == AddressesBefore(rs, n)
    ensures forall i :: 0 <= i < n && HoldsAddress(rs[i]) ==>
              HasAt(AddressesOf(rs[..n]), AddressesBefore(rs, i), rs[i].address)
  {
    AddressCount(rs[..n]);
    BeforePrefix(rs, n, n);
    forall i | 0 <= i < n && HoldsAddress(rs[i])
      ensures HasAt(AddressesOf(rs[..n]), AddressesBefore(rs, i), rs[i].address)
    {
      AddressAt(rs[..n], i);
      BeforePrefix(rs, n, i);
    }
  }

  /** What parseResponse makes of the answers. */
  lemma ResponseExactly(id: uint16, rcode: nat, rs: seq<Resource>, now: Time) returns (n: nat)
    ensures LookedAt(rs, n)
    ensures MadeFrom(rs, n, now, IPRecord(id, AddressesOf(Counted(rs)), now + Lifetime(Counted(rs)), rcode))
  {
    n := CountedLookedAt(rs);
    LifetimeExactly(rs[..n]);
    AddressesExactly(rs, n);
    var t := Lifetime(rs[..n]);
    if t != 600 {
      var i :| 0 <= i < |rs[..n]| && rs[..n][i].ttl > 0 && t == rs[..n][i].ttl;
      assert rs[i].ttl > 0 && now + t == now + rs[i].ttl;
    }
    forall i | 0 <= i < n && rs[i].ttl > 0 ensures t <= rs[i].ttl {
      assert rs[..n][i] == rs[i];
    }
  }

  /** parseResponse behind the header. */
  method ParseResponse(id: uint16, rcode: nat, answers: seq<Resource>, now: Time) returns (rec: IPRecord)
    ensures rec == IPRecord(id, AddressesOf(Counted(answers)), now + Lifetime(Counted(answers)), rcode)
    ensures rec.reqId == id && rec.rcode == rcode
    ensures exists n :: LookedAt(answers, n) && MadeFrom(answers, n, now, rec)
  {
    ghost var looked := ResponseExactly(id, rcode, answers, now);
    var ips, expire := CollectAnswers(answers, now);
    rec := IPRecord(id, ips, expire, rcode);
  }

  /** The answer loop of parseResponse. */
  method CollectAnswers(answers: seq<Resource>, now: Time) returns (ips: seq<Address>, expire: Time)
    ensures ips == AddressesOf(Counted(answers)) && expire == now + Lifetime(Counted(answers))
  {
    expire, ips := now + MAX_TTL, [];
    var i := 0;
    assert answers[0..] == answers;
    assert [] + AddressesOf(Counted(answers)) == AddressesOf(Counted(answers));
    while i < |answers|
      invariant 0 <= i <= |answers|
      invariant Collected(answers, i, expire - now, ips)
    {
      var r := answers[i];
      CollectStep(answers, i, expire - now, ips);
      var ttl := if r.ttl == 0 then MAX_TTL else r.ttl;
      if expire > now + ttl {
        expire := now + ttl;
      }
      if !r.parsed {
        return;
      }
      if r.kind != OtherType {
        ips := ips + [r.address];
      }
      i := i + 1;
    }
    assert answers[i..] == [] && ips + [] == ips;
  }

  /** The state of the answer loop before index `i`: lifetime and addresses so far, with the rest still to come. */
  predicate Collected(answers: seq<Resource>, i: nat, lifetime: int, ips: seq<Address>)
    requires i <= |answers|
  {
    && 0 < lifetime <= MAX_TTL
    && Min(lifetime, Lifetime(Counted(answers[i..]))) == Lifetime(Counted(answers))
    && ips + AddressesOf(Counted(answers[i..])) == AddressesOf(Counted(answers))
  }

  /** One iteration of the answer loop: it goes on behind a readable answer and stops at another one. */
  lemma CollectStep(answers: seq<Resource>, i: nat, lifetime: int, ips: seq<Address>)
    requires i < |answers| && Collected(answers, i, lifetime, ips)
    ensures
      var r := answers[i];
      var lifetime' := Min(lifetime, Ttl(r));
      if !r.parsed then lifetime' == Lifetime(Counted(answers)) && ips == AddressesOf(Counted(answers))
      else Collected(answers, i + 1, lifetime', if r.kind != OtherType then ips + [r.address] else ips)
  {
    var r, rest := answers[i], answers[i + 1..];
    assert answers[i..][0] == r && answers[i..][1..] == rest;
    CountedStep(answers[i..]);
    if !r.parsed {
      assert ips + ([] + []) == ips;
    } else if r.kind != OtherType {
      Assoc(ips, [r.address], AddressesOf(Counted(rest)));
    } else {
      assert [] + AddressesOf(Counted(rest)) == AddressesOf(Counted(rest));
    }
  }

  lemma CountedStep(rs: seq<Resource>)
    requires rs != []
    ensures
      var rest := if rs[0].parsed then Counted(rs[1..]) else [];
      && Lifetime(Counted(rs)) == Min(Ttl(rs[0]), Lifetime(rest))
      && AddressesOf(Counted(rs)) ==
         (if rs[0].parsed && rs[0].kind != OtherType then [rs[0].address] else []) + AddressesOf(rest)
  {
    var rest := if rs[0].parsed then Counted(rs[1..]) else [];
    assert Counted(rs)[1..] == rest;
  }

  // --- the server as an object ---

  class ClassicNameServer {
    var ips: Ips
    var requests: Requests
    var reqID: nat
    /** The responses between their two lock sections, which the source keeps in local variables. */
    ghost var taken: map<nat, Taken>

    ghost function View(): Server
      reads this
    {
      Server(ips, requests, taken)
    }

    constructor ()
      ensures View() == Run([]) && reqID == 0
    {
      ips, requests, reqID, taken := map[], map[], 0, map[];
    }

    /** newReqID */
    method NewReqID() returns (id: uint16)
      modifies this`reqID
      ensures id == IdAfter(old(reqID)) && reqID == CounterAfter(old(reqID), 1)
    {
      reqID := (reqID + 1) % 0x1_0000_0000;
      id := reqID % 0x1_0000;
    }

    method AddPendingRequest(id: uint16, family: Family, domain: string, now: Time)
      modifies this`requests
      ensures View() == old(View()).Then(Register(id, family, domain, now))
    {
      requests := requests[id := Request(family, domain, now + REQUEST_LIFETIME)];
    }

    method UpdateIP(domain: string, newRec: Record)
      modifies this`ips
      ensures ips == Updated(old(ips), domain, newRec)
    {
      var rec := Record(None, None);
      if domain in ips {
        rec := ips[domain];
      }
      var updated := false;
      if IsNewer(rec.a, newRec.a) {
        rec := rec.(a := newRec.a);
        updated := true;
      }
      if IsNewer(rec.aaaa, newRec.aaaa) {
        rec := rec.(aaaa := newRec.aaaa);
        updated := true;
      }
      if updated {
        ips := ips[domain := rec];
      }
    }

    /** The first lock section of HandleResponse, in the call `h`. */
    method TakeRequest(rec: IPRecord, ghost h: nat) returns (req: Option<Request>)
      requires h !in taken
      modifies this`requests, this`taken
      ensures View() == old(View()).Then(Take(h, rec))
      ensures req.Some? <==> h in taken
      ensures req.Some? ==> taken[h] == Taken(req.value.family, req.value.domain, rec)
    {
      if rec.reqId !in requests {
        return None;
      }
      req := Some(requests[rec.reqId]);
      taken := taken[h := Taken(req.value.family, req.value.domain, rec)];
      requests := requests - {rec.reqId};
    }

    /** The second one, updateIP included. */
    method StoreRecord(req: Request, rec: IPRecord, ghost h: nat)
      requires h in taken && taken[h] == Taken(req.family, req.domain, rec)
      modifies this`ips, this`taken
      ensures View() == old(View()).Then(Store(h))
    {
      if |req.domain| > 0 {
        UpdateIP(req.domain, RecordFor(req.family, rec));
      }
      taken := taken - {h};
    }

    /** HandleResponse, when nothing comes between its lock sections. */
    method HandleResponse(rec: IPRecord, ghost h: nat)
      requires h !in taken
      modifies this`ips, this`requests, this`taken
      ensures View() == old(View()).Then(Take(h, rec)).Then(Store(h))
    {
      var req := TakeRequest(rec, h);
      if req.Some? {
        StoreRecord(req.value, rec, h);
      }
    }

    /** Cleanup: the flag says that there was something to look at. */
    method CleanupAt(now: Time) returns (more: bool)
      modifies this`ips, this`requests
      ensures View() == old(View()).Then(Cleanup(now))
      ensures more <==> old(|ips| != 0 || |requests| != 0)
    {
      if |ips| == 0 && |requests| == 0 {
        return false;
      }
      CleanCache(now);
      CleanPending(now);
      return true;
    }

    /** The loop over the cache. */
    method CleanCache(now: Time)
      modifies this`ips
      ensures ips == CleanIps(old(ips), now)
    {
      var todo := ips.Keys;
      while todo != {}
        invariant todo <= old(ips).Keys
        invariant forall d :: d in todo ==> d in ips && ips[d] == old(ips)[d]
        invariant forall d :: d in ips ==> d in old(ips)
        invariant forall d :: d in old(ips) && d !in todo ==>
          if Trim(old(ips)[d], now) == Record(None, None) then d !in ips
          else d in ips && ips[d] == Trim(old(ips)[d], now)
        decreases |todo|
      {
        var domain :| domain in todo;
        todo := todo - {domain};
        var record := ips[domain];
        if record.a.Some? && record.a.value.expire < now {
          record := record.(a := None);
        }
        if record.aaaa.Some? && record.aaaa.value.expire < now {
          record := record.(aaaa := None);
        }
        if record.a.None? && record.aaaa.None? {
          ips := ips - {domain};
        } else {
          ips := ips[domain := record];
        }
      }
    }

    /** The loop over the pending requests. */
    method CleanPending(now: Time)
      modifies this`requests
      ensures requests == CleanRequests(old(requests), now)
    {
      var todo := requests.Keys;
      while todo != {}
        invariant todo <= old(requests).Keys
        invariant forall id :: id in todo ==> id in requests
        invariant forall id :: id in requests ==> id in old(requests) && requests[id] == old(requests)[id]
        invariant forall id :: id in old(requests) && id !in todo ==>
          (id in requests <==> old(requests)[id].expire >= now)
        decreases |todo|
      {
        var id :| id in todo;
        todo := todo - {id};
        if requests[id].expire < now {
          requests := requests - {id};
        }
      }
    }

    method FindIPsForDomain(domain: string, opt: IPOption, now: Time) returns (r: Answer)
      ensures r == Lookup(ips, domain, opt, now)
      ensures domain !in ips ==> r == NotFound
      ensures domain in ips ==> Answered(ips[domain].a, ips[domain].aaaa, opt, now, r)
    {
      if domain !in ips {
        return NotFound;
      }
      var record := ips[domain];
      AnswerExactly(record.a, record.aaaa, opt, now);
      var found: seq<Address> := [];
      var err4, err6: Option<Answer> := None, None;
      if opt.ipv4 {
        var g := GetIPs(record.a, now);
        if g.Addresses? { found := g.ips; } else { err4 := Some(g); }
      }
      if opt.ipv6 {
        var g := GetIPs(record.aaaa, now);
        if g.Addresses? { found := found + g.ips; } else { err6 := Some(g); }
      }
      if |found| > 0 {
        return Addresses(found);
      }
      if err4.Some? {
        return err4.value;
      }
      if err6.Some? {
        return err6.value;
      }
      return EmptyResponse;
    }
  }
}
