/** Connection handlers of the netstack runtime: tokens, the closed flag under its read-write lock, and the work group.
    Every handler, every worker and close are threads of atomic steps that may interleave in any way. */
module NetstackTokens {

  datatype Proto = TCP | UDP

  const MAX_CONCURRENT := 48

  /** Where a handler stands. A handler that startWork admits turns into a worker. */
  datatype Phase =
    | Holding    // has taken a token
    | Entered    // startWork: holds the read lock and has seen the runtime open
    | Counted    // startWork: has added itself to the work group, still under the read lock
    | Working    // a worker: released the read lock, proxying
    | Finishing  // the worker has returned its token and is about to leave the work group
    | Turned     // startWork: holds the read lock and has seen the runtime closed
    | Refused    // startWork has returned false, the token is still held
    | Gone

  datatype Thread = Thread(proto: Proto, phase: Phase)

  /** The groups of threads that the counters stand for. */
  datatype Group = Holders(proto: Proto) | Returners(proto: Proto) | Live | Locking | Admitting

  predicate In(t: Thread, g: Group) {
    match g
    case Holders(p) => t.proto == p && t.phase !in {Finishing, Gone}
    case Returners(p) => t.proto == p && t.phase in {Finishing, Gone}
    case Live => t.phase in {Counted, Working, Finishing}
    case Locking => t.phase in {Entered, Counted, Turned}
    case Admitting => t.phase in {Entered, Counted}
  }

  function One(t: Thread, g: Group): nat {
    if In(t, g) then 1 else 0
  }

  function Count(ts: seq<Thread>, g: Group): nat {
    if ts == [] then 0 else Count(ts[..|ts| - 1], g) + One(ts[|ts| - 1], g)
  }

  /** A number per protocol. */
  datatype Pool = Pool(tcp: nat, udp: nat) {
    function Of(p: Proto): nat {
      if p == TCP then tcp else udp
    }

    function Plus(p: Proto): Pool {
      if p == TCP then Pool(tcp + 1, udp) else Pool(tcp, udp + 1)
    }

    /** A receive; the channel must not be empty. */
    function Minus(p: Proto): Pool
      requires Of(p) > 0
    {
      if p == TCP then Pool(tcp - 1, udp) else Pool(tcp, udp - 1)
    }
  }

  datatype Closer = NotClosing | Locked | FlagSet | Returned

  /** `tokens` are the two channels, `returned` counts the receives from them, `work` is the work group, `readers` the
      holders of the read lock, `others` those among them that read or inject packets. */
  datatype State = State(threads: seq<Thread>, tokens: Pool, returned: Pool, work: nat, readers: nat, others: nat,
                         writer: bool, closed: bool, closer: Closer)

  const INIT := State([], Pool(0, 0), Pool(0, 0), 0, 0, 0, false, false, NotClosing)

  datatype Event =
    | Arrive(proto: Proto)      // handleTCP or handleUDP: take a token or turn the request down
    | Fail(i: nat)              // no endpoint, bad address, blocked or dial error: return the token
    | Enter(i: nat)             // startWork: read lock, look at closed
    | Add(i: nat)               // startWork: work.Add
    | Spawn(i: nat)             // startWork: unlock and start the worker
    | Back(i: nat)              // startWork: unlock and return false
    | GiveUp(i: nat)            // the refused handler returns its token
    | Finish(i: nat)            // the worker's deferred receive from the channel
    | Leave(i: nat)             // work.Done
    | PacketIn | PacketOut      // injectPacket or readPacket takes and releases the read lock
    | CloseLock | CloseSet | CloseReturn

  function Move(s: State, i: nat, phase: Phase): State
    requires i < |s.threads|
  {
    s.(threads := s.threads[i := s.threads[i].(phase := phase)])
  }

  predicate IsIn(s: State, i: nat, phase: Phase) {
    i < |s.threads| && s.threads[i].phase == phase
  }

  /** A receive from the channel of thread `i` does not block. */
  predicate CanReturn(s: State, i: nat) {
    i < |s.threads| && s.tokens.Of(s.threads[i].proto) > 0
  }

  /** The step can happen: the thread is there, no lock is in its way, and no counter would go below zero. */
  predicate Enabled(s: State, ev: Event) {
    match ev
    case Arrive(p) => s.tokens.Of(p) < MAX_CONCURRENT
    case Fail(i) => IsIn(s, i, Holding) && CanReturn(s, i)
    case Enter(i) => IsIn(s, i, Holding) && !s.writer
    case Add(i) => IsIn(s, i, Entered)
    case Spawn(i) => IsIn(s, i, Counted) && s.readers > 0
    case Back(i) => IsIn(s, i, Turned) && s.readers > 0
    case GiveUp(i) => IsIn(s, i, Refused) && CanReturn(s, i)
    case Finish(i) => IsIn(s, i, Working) && CanReturn(s, i)
    case Leave(i) => IsIn(s, i, Finishing) && s.work > 0
    case PacketIn => !s.writer
    case PacketOut => s.others > 0 && s.readers > 0
    case CloseLock => s.closer == NotClosing && s.readers == 0 && !s.writer
    case CloseSet => s.closer == Locked
    case CloseReturn => s.closer == FlagSet && s.work == 0
  }

  function Apply(s: State, ev: Event): State
    requires Enabled(s, ev)
  {
    match ev
    case Arrive(p) => s.(threads := s.threads + [Thread(p, Holding)], tokens := s.tokens.Plus(p))
    case Fail(i) => GiveBack(s, i, Gone)
    case Enter(i) => Move(s, i, if s.closed then Turned else Entered).(readers := s.readers + 1)
    case Add(i) => Move(s, i, Counted).(work := s.work + 1)
    case Spawn(i) => Move(s, i, Working).(readers := s.readers - 1)
    case Back(i) => Move(s, i, Refused).(readers := s.readers - 1)
    case GiveUp(i) => GiveBack(s, i, Gone)
    case Finish(i) => GiveBack(s, i, Finishing)
    case Leave(i) => Move(s, i, Gone).(work := s.work - 1)
    case PacketIn => s.(readers := s.readers + 1, others := s.others + 1)
    case PacketOut => s.(readers := s.readers - 1, others := s.others - 1)
    case CloseLock => s.(writer := true, closer := Locked)
    case CloseSet => s.(closed := true, writer := false, closer := FlagSet)
    case CloseReturn => s.(closer := Returned)
  }

  /** A receive from the channel of the thread's protocol. */
  function GiveBack(s: State, i: nat, phase: Phase): State
    requires CanReturn(s, i)
  {
    var p := s.threads[i].proto;
    Move(s, i, phase).(tokens := s.tokens.Minus(p), returned := s.returned.Plus(p))
  }

  /** A step that cannot happen yet leaves the state as it is. */
  function Step(s: State, ev: Event): State {
    if Enabled(s, ev) then Apply(s, ev) else s
  }

  /** Every interleaving of handlers, workers, packet functions and close. */
  function Run(evs: seq<Event>): State {
    if evs == [] then INIT else Step(Run(evs[..|evs| - 1]), evs[|evs| - 1])
  }

  /** What the counters must be for the threads there are. */
  predicate Balanced(s: State) {
    && (forall p: Proto :: s.tokens.Of(p) == Count(s.threads, Holders(p)))
    && (forall p: Proto :: s.returned.Of(p) == Count(s.threads, Returners(p)))
    && s.work == Count(s.threads, Live)
    && s.readers == Count(s.threads, Locking) + s.others
  }

  predicate Safe(s: State) {
    && s.tokens.tcp <= 48 && s.tokens.udp <= 48
    && (s.writer <==> s.closer == Locked)
    && (s.writer ==> s.readers == 0)
    && (s.closed <==> s.closer in {FlagSet, Returned})
    && (s.closed ==> Count(s.threads, Admitting) == 0)
    && (s.closer == Returned ==> s.work == 0)
  }

  predicate Inv(s: State) {
    Balanced(s) && Safe(s)
  }

  lemma {:induction false} CountUpdate(ts: seq<Thread>, i: nat, t: Thread, g: Group)
    requires i < |ts|
    ensures Count(ts[i := t], g) + One(ts[i], g) == Count(ts, g) + One(t, g)
    decreases |ts|
  {
    var n := |ts| - 1;
    if i == n {
      assert ts[i := t][..n] == ts[..n];
    } else {
      CountUpdate(ts[..n], i, t, g);
      assert ts[i := t][..n] == ts[..n][i := t];
    }
  }

  /** A thread that belongs to a group is counted. */
  lemma {:induction false} CountMember(ts: seq<Thread>, i: nat, g: Group)
    requires i < |ts| && In(ts[i], g)
    ensures Count(ts, g) > 0
    decreases |ts|
  {
    if i < |ts| - 1 {
      CountMember(ts[..|ts| - 1], i, g);
    }
  }

  /** Live and admitting threads, and the lock holders among the admitting ones. */
  lemma {:induction false} CountBelow(ts: seq<Thread>)
    ensures Count(ts, Admitting) <= Count(ts, Locking)
    decreases |ts|
  {
    if ts != [] {
      CountBelow(ts[..|ts| - 1]);
    }
  }

  // --- every step keeps the invariant ---

  lemma Moved(s: State, i: nat, phase: Phase)
    requires i < |s.threads|
    ensures
      forall g: Group ::
        Count(Move(s, i, phase).threads, g) + One(s.threads[i], g) ==
        Count(s.threads, g) + One(s.threads[i].(phase := phase), g)
  {
    forall g: Group
      ensures Count(Move(s, i, phase).threads, g) + One(s.threads[i], g) ==
              Count(s.threads, g) + One(s.threads[i].(phase := phase), g)
    {
      CountUpdate(s.threads, i, s.threads[i].(phase := phase), g);
    }
  }

  lemma ArriveKeeps(s: State, p: Proto)
    requires Inv(s) && Enabled(s, Arrive(p))
    ensures Inv(Apply(s, Arrive(p)))
  {
    var ts := s.threads + [Thread(p, Holding)];
    assert ts[..|s.threads|] == s.threads;
    assert forall g: Group :: Count(ts, g) == Count(s.threads, g) + One(Thread(p, Holding), g);
  }

  lemma GiveBackKeeps(s: State, i: nat, phase: Phase)
    requires Inv(s) && CanReturn(s, i) && phase in {Gone, Finishing}
    requires if phase == Gone then s.threads[i].phase in {Holding, Refused} else s.threads[i].phase == Working
    ensures Inv(GiveBack(s, i, phase))
  {
    Moved(s, i, phase);
  }

  lemma EnterKeeps(s: State, i: nat)
    requires Inv(s) && Enabled(s, Enter(i))
    ensures Inv(Apply(s, Enter(i)))
  {
    Moved(s, i, if s.closed then Turned else Entered);
  }

  lemma AddKeeps(s: State, i: nat)
    requires Inv(s) && Enabled(s, Add(i))
    ensures Inv(Apply(s, Add(i)))
  {
    Moved(s, i, Counted);
    CountMember(s.threads, i, Admitting);
  }

  lemma SpawnKeeps(s: State, i: nat)
    requires Inv(s) && Enabled(s, Spawn(i))
    ensures Inv(Apply(s, Spawn(i)))
  {
    Moved(s, i, Working);
    CountMember(s.threads, i, Admitting);
  }

  lemma BackKeeps(s: State, i: nat)
    requires Inv(s) && Enabled(s, Back(i))
    ensures Inv(Apply(s, Back(i)))
  {
    Moved(s, i, Refused);
  }

  lemma LeaveKeeps(s: State, i: nat)
    requires Inv(s) && Enabled(s, Leave(i))
    ensures Inv(Apply(s, Leave(i)))
  {
    Moved(s, i, Gone);
  }

  lemma StepKeepsInv(s: State, ev: Event)
    requires Inv(s) && Enabled(s, ev)
    ensures Inv(Apply(s, ev))
  {
    match ev {
      case Arrive(p) => ArriveKeeps(s, p);
      case Fail(i) => GiveBackKeeps(s, i, Gone);
      case GiveUp(i) => GiveBackKeeps(s, i, Gone);
      case Finish(i) => GiveBackKeeps(s, i, Finishing);
      case Enter(i) => EnterKeeps(s, i);
      case Add(i) => AddKeeps(s, i);
      case Spawn(i) => SpawnKeeps(s, i);
      case Back(i) => BackKeeps(s, i);
      case Leave(i) => LeaveKeeps(s, i);
      case CloseSet => CountBelow(s.threads);
      case _ =>
    }
  }

  lemma StepInv(s: State, ev: Event)
    requires Inv(s)
    ensures Inv(Step(s, ev))
  {
    if Enabled(s, ev) {
      StepKeepsInv(s, ev);
    }
  }

  lemma FreshInv(s: State)
    requires s.threads == [] && s.tokens == s.returned == Pool(0, 0) && s.work == s.readers == s.others == 0
    requires !s.writer && !s.closed && s.closer == NotClosing
    ensures Inv(s)
  {
    assert forall g: Group :: Count(s.threads, g) == 0;
  }

  lemma {:induction false} RunInv(evs: seq<Event>)
    ensures Inv(Run(evs))
    decreases |evs|
  {
    if evs == [] {
      FreshInv(Run(evs));
    } else {
      var s := Run(evs[..|evs| - 1]);
      RunInv(evs[..|evs| - 1]);
      StepInv(s, evs[|evs| - 1]);
      assert Run(evs) == Step(s, evs[|evs| - 1]);
    }
  }

  // --- the promises ---

  /** Token conservation: in every run the tokens out are exactly the handlers and workers that hold one, at most 48
      per protocol, and every handler that ever took one holds it or has returned it once. */
  lemma {:induction false} TokensConserved(evs: seq<Event>, p: Proto)
    ensures
      var s := Run(evs);
      && s.tokens.Of(p) == Count(s.threads, Holders(p)) <= 48
      && s.returned.Of(p) == Count(s.threads, Returners(p))
      && s.tokens.Of(p) + s.returned.Of(p) == Arrived(s.threads, p)
  {
    RunInv(evs);
    HoldOrReturn(Run(evs).threads, p);
  }

  /** In every run a request takes a token exactly if fewer than 48 handlers and workers of its protocol hold one. */
  lemma ArriveExactly(evs: seq<Event>, p: Proto)
    ensures
      var s, s' := Run(evs), Run(evs + [Arrive(p)]);
      if Count(s.threads, Holders(p)) < 48
      then s'.threads == s.threads + [Thread(p, Holding)] && s'.tokens.Of(p) == s.tokens.Of(p) + 1
      else s' == s
  {
    TokensConserved(evs, p);
    assert (evs + [Arrive(p)])[..|evs|] == evs;
  }

  function Arrived(ts: seq<Thread>, p: Proto): nat {
    if ts == [] then 0 else Arrived(ts[..|ts| - 1], p) + if ts[|ts| - 1].proto == p then 1 else 0
  }

  lemma {:induction false} HoldOrReturn(ts: seq<Thread>, p: Proto)
    ensures Count(ts, Holders(p)) + Count(ts, Returners(p)) == Arrived(ts, p)
    decreases |ts|
  {
    if ts != [] {
      HoldOrReturn(ts[..|ts| - 1], p);
    }
  }

  /** A worker: admitted and not yet out of the work group. */
  predicate IsWorker(s: State, i: nat) {
    i < |s.threads| && s.threads[i].phase in {Working, Finishing}
  }

  lemma NoAdmissionStep(s: State, ev: Event, i: nat)
    requires Inv(s) && s.closed
    ensures Step(s, ev).closed
    ensures IsWorker(Step(s, ev), i) ==> IsWorker(s, i)
  {
    if ev.Spawn? && Enabled(s, ev) {
      CountMember(s.threads, ev.i, Admitting);
    }
  }

  lemma NoAdmissionNext(evs: seq<Event>, i: nat)
    requires evs != [] && Run(evs[..|evs| - 1]).closed
    ensures Run(evs).closed
    ensures IsWorker(Run(evs), i) ==> IsWorker(Run(evs[..|evs| - 1]), i)
  {
    var s := Run(evs[..|evs| - 1]);
    RunInv(evs[..|evs| - 1]);
    NoAdmissionStep(s, evs[|evs| - 1], i);
    assert Run(evs) == Step(s, evs[|evs| - 1]);
  }

  /** No worker is admitted once closed is set: whoever works later was already a worker then. */
  lemma {:induction false} NoAdmissionAfterClose(evs: seq<Event>, k: nat, i: nat)
    requires k <= |evs| && Run(evs[..k]).closed
    ensures Run(evs).closed
    ensures IsWorker(Run(evs), i) ==> IsWorker(Run(evs[..k]), i)
    decreases |evs|
  {
    if k == |evs| {
      assert evs[..k] == evs;
    } else {
      var n := |evs| - 1;
      assert evs[..n][..k] == evs[..k];
      NoAdmissionAfterClose(evs[..n], k, i);
      NoAdmissionNext(evs, i);
    }
  }

  /** When close has returned no worker is live, then or ever after. */
  lemma {:induction false} NoneLiveAfterClose(evs: seq<Event>, k: nat, i: nat)
    requires k <= |evs| && Run(evs[..k]).closer == Returned
    ensures !IsWorker(Run(evs), i) && !IsIn(Run(evs), i, Counted)
  {
    var s := Run(evs[..k]);
    RunInv(evs[..k]);
    RunInv(evs);
    NoAdmissionAfterClose(evs, k, i);
    if IsWorker(s, i) {
      CountMember(s.threads, i, Live);
    }
    if IsIn(Run(evs), i, Counted) {
      CountMember(Run(evs).threads, i, Admitting);
    }
  }

  /** No release ever waits or fails: in every run, whoever holds a token can return it at once, whoever holds the read
      lock can release it, and whoever is in the work group can leave it. */
  lemma ReleaseNeverBlocks(evs: seq<Event>, i: nat)
    requires i < |Run(evs).threads|
    ensures
      var s := Run(evs);
      var t := s.threads[i];
      && (In(t, Holders(t.proto)) ==> CanReturn(s, i))
      && (In(t, Locking) ==> s.readers > 0)
      && (In(t, Live) ==> s.work > 0)
  {
    RunInv(evs);
    var s := Run(evs);
    var t := s.threads[i];
    if In(t, Holders(t.proto)) {
      CountMember(s.threads, i, Holders(t.proto));
    }
    if In(t, Locking) {
      CountMember(s.threads, i, Locking);
    }
    if In(t, Live) {
      CountMember(s.threads, i, Live);
    }
  }
}
