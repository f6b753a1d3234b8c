/** The engine and the netstack: two locks, one running instance, and a runtime that refers to it. */
module EngineCoupling {
  import opened Options

  /** Who holds the engine lock, and how far it has got. NetstackStop unregisters the runtime without this lock. */
  datatype Holder =
    | Free
    | Starting | Installed               // StartJSON: before and after it stores the instance
    | Stopping | NetClosing              // Stop: before stopNetstack, and in it, behind the netstack lock
    | NetStopped | Removed               // Stop: behind stopNetstack, and with the instance cleared
    | NetStarting                        // NetstackStart
    | Leaving                            // done, about to unlock

  /** Instances are numbered. A netstack runtime is told by the instance it uses: `runtime` is the registered one,
      `closing` the one that Stop has unregistered and is closing, and `detached` those that calls of NetstackStop
      have unregistered and not closed yet. */
  datatype State = State(holder: Holder, instance: Option<nat>, running: bool, created: nat,
                         runtime: Option<nat>, closing: Option<nat>, detached: multiset<nat>)

  const INIT := State(Free, None, false, 0, None, None, multiset{})

  datatype Event =
    | LockStart | LockStop | LockNetStart | Unlock
    | StartRejected        // already running, bad configuration, creation or start failed
    | StoreInstance | StoreRunning
    | StopIdle             // nothing to stop
    | StopUnregister       // Stop: take the runtime, if there is one, out of the registry
    | StopClosed           // Stop: its close has returned
    | ClearInstance | ClearRunning
    | NetRejected          // engine not running, a runtime registered already, or creation failed
    | Register             // startNetstack under the netstack lock
    | NetstackUnregister   // NetstackStop, at any time: take the runtime, if there is one, out of the registry
    | NetstackClosed(id: nat)   // NetstackStop: its close has returned

  /** One step; a step that cannot happen leaves the state as it is. */
  function Step(s: State, ev: Event): State {
    match ev
    case LockStart => if s.holder == Free then s.(holder := Starting) else s
    case LockStop => if s.holder == Free then s.(holder := Stopping) else s
    case LockNetStart => if s.holder == Free then s.(holder := NetStarting) else s
    case Unlock => if s.holder == Leaving then s.(holder := Free) else s
    case StartRejected => if s.holder == Starting then s.(holder := Leaving) else s
    case StoreInstance =>
      if s.holder == Starting && s.instance.None? && !s.running
      then s.(holder := Installed, instance := Some(s.created), created := s.created + 1) else s
    case StoreRunning => if s.holder == Installed then s.(holder := Leaving, running := true) else s
    case StopIdle =>
      if s.holder == Stopping && s.instance.None? then s.(holder := Leaving, running := false) else s
    case StopUnregister =>
      if s.holder == Stopping && s.instance.Some?
      then s.(holder := NetClosing, runtime := None, closing := s.runtime) else s
    case StopClosed => if s.holder == NetClosing then s.(holder := NetStopped, closing := None) else s
    case ClearInstance => if s.holder == NetStopped then s.(holder := Removed, instance := None) else s
    case ClearRunning => if s.holder == Removed then s.(holder := Leaving, running := false) else s
    case NetRejected => if s.holder == NetStarting then s.(holder := Leaving) else s
    case Register =>
      if s.holder == NetStarting && s.instance.Some? && s.running && s.runtime.None?
      then s.(holder := Leaving, runtime := s.instance) else s
    case NetstackUnregister =>
      if s.runtime.Some? then s.(runtime := None, detached := s.detached + multiset{s.runtime.value}) else s
    case NetstackClosed(id) => s.(detached := s.detached - multiset{id})
  }

  function Run(evs: seq<Event>): State {
    if evs == [] then INIT else Step(Run(evs[..|evs| - 1]), evs[|evs| - 1])
  }

  predicate Inv(s: State) {
    && (s.runtime.Some? ==> s.runtime == s.instance)
    && (s.closing.Some? ==> s.closing == s.instance && s.holder == NetClosing)
    && (s.instance.Some? ==> s.instance.value < s.created)
    && (forall id :: id in s.detached ==> id < s.created)
    && (s.holder == Installed ==> s.instance.Some? && !s.running && s.runtime.None?)
    && (s.holder == Removed ==> s.instance.None?)
    && (s.holder in {NetClosing, NetStopped, Removed} ==> s.runtime.None?)
    && (s.holder !in {Installed, Removed} ==> (s.running <==> s.instance.Some?))
  }

  lemma StepKeepsInv(s: State, ev: Event)
    requires Inv(s)
    ensures Inv(Step(s, ev))
  {
  }

  lemma {:induction false} RunInv(evs: seq<Event>)
    ensures Inv(Run(evs))
    decreases |evs|
  {
    if evs != [] {
      RunInv(evs[..|evs| - 1]);
      StepKeepsInv(Run(evs[..|evs| - 1]), evs[|evs| - 1]);
    }
  }

  /** In every interleaving, whenever the engine lock is free: the engine is running exactly when an instance exists,
      and a registered netstack uses that instance. */
  lemma Coupled(evs: seq<Event>)
    ensures
      var s := Run(evs);
      && (s.holder == Free ==> (s.running <==> s.instance.Some?))
      && (s.runtime.Some? ==> s.runtime == s.instance)
  {
    RunInv(evs);
  }

  // --- instances that have been removed ---

  /** A netstack runtime that is registered or not closed yet uses the instance. */
  predicate InUse(s: State, id: nat) {
    s.runtime == Some(id) || s.closing == Some(id) || id in s.detached
  }

  /** The instance was created and is not the current one any more. */
  predicate IsRemoved(s: State, id: nat) {
    id < s.created && s.instance != Some(id)
  }

  /** In every interleaving a removed instance is still in use if and only if a call of NetstackStop has unregistered a
      runtime of it and not closed that runtime yet. Stop itself never leaves one behind. */
  lemma RemovedInUseExactly(evs: seq<Event>, id: nat)
    requires IsRemoved(Run(evs), id)
    ensures InUse(Run(evs), id) <==> id in Run(evs).detached
  {
    RunInv(evs);
  }

  lemma RemovedStep(s: State, ev: Event, id: nat)
    requires Inv(s) && IsRemoved(s, id)
    ensures IsRemoved(Step(s, ev), id) && Step(s, ev).detached[id] <= s.detached[id]
  {
  }

  /** A removed instance stays removed, and no further runtime of it appears: once those that NetstackStop was closing
      are closed, it is never used again. */
  lemma {:induction false} RemovedStaysRemoved(evs: seq<Event>, k: nat, id: nat)
    requires k <= |evs| && IsRemoved(Run(evs[..k]), id)
    ensures IsRemoved(Run(evs), id)
    ensures Run(evs).detached[id] <= Run(evs[..k]).detached[id]
    ensures !InUse(Run(evs[..k]), id) ==> !InUse(Run(evs), id)
    decreases |evs|
  {
    if k == |evs| {
      assert evs[..k] == evs;
    } else {
      var n := |evs| - 1;
      assert evs[..n][..k] == evs[..k];
      RemovedStaysRemoved(evs[..n], k, id);
      RemovedNext(evs, id);
    }
  }

  lemma RemovedNext(evs: seq<Event>, id: nat)
    requires evs != [] && IsRemoved(Run(evs[..|evs| - 1]), id)
    ensures IsRemoved(Run(evs), id) && Run(evs).detached[id] <= Run(evs[..|evs| - 1]).detached[id]
    ensures !InUse(Run(evs[..|evs| - 1]), id) ==> !InUse(Run(evs), id)
  {
    var s, ev := Run(evs[..|evs| - 1]), evs[|evs| - 1];
    RunInv(evs[..|evs| - 1]);
    RemovedStep(s, ev, id);
    assert Run(evs) == Step(s, ev);
    RemovedInUseExactly(evs, id);
  }

  lemma RunNext(evs: seq<Event>, ev: Event)
    ensures Run(evs + [ev]) == Step(Run(evs), ev)
  {
    assert (evs + [ev])[..|evs|] == evs;
  }

  /** Engine and netstack have been started. */
  lemma StartBoth() returns (evs: seq<Event>)
    ensures Run(evs) == State(Free, Some(0), true, 1, Some(0), None, multiset{})
  {
    evs := [];
    RunNext(evs, LockStart);
    evs := evs + [LockStart];
    RunNext(evs, StoreInstance);
    evs := evs + [StoreInstance];
    RunNext(evs, StoreRunning);
    evs := evs + [StoreRunning];
    RunNext(evs, Unlock);
    evs := evs + [Unlock];
    RunNext(evs, LockNetStart);
    evs := evs + [LockNetStart];
    RunNext(evs, Register);
    evs := evs + [Register];
    RunNext(evs, Unlock);
    evs := evs + [Unlock];
  }

  /** A removed instance can be in use: NetstackStop unregisters the runtime, and before it has closed it the engine is
      stopped. Then the engine lock is free, no engine runs, and the runtime still uses the removed instance. */
  lemma OvertakenStopLeavesUse() returns (evs: seq<Event>)
    ensures IsRemoved(Run(evs), 0) && InUse(Run(evs), 0)
    ensures Run(evs).holder == Free && !Run(evs).running
  {
    evs := StartBoth();
    RunNext(evs, NetstackUnregister);
    evs := evs + [NetstackUnregister];
    RunNext(evs, LockStop);
    evs := evs + [LockStop];
    RunNext(evs, StopUnregister);
    evs := evs + [StopUnregister];
    RunNext(evs, StopClosed);
    evs := evs + [StopClosed];
    RunNext(evs, ClearInstance);
    evs := evs + [ClearInstance];
    RunNext(evs, ClearRunning);
    evs := evs + [ClearRunning];
    RunNext(evs, Unlock);
    evs := evs + [Unlock];
  }
}
