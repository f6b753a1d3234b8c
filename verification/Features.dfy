/** Feature registration in the core instance: callbacks wait until all the features they depend on are there. */
module Features {
  import opened Bytes
  import opened Options

  /** The type under which a feature is registered. */
  type FeatureType = string

  /** A callback given to RequireFeatures, and what it depends on. Whether it returns an error may differ from one run
      of it to the next. */
  datatype Callback = Callback(id: nat, deps: seq<FeatureType>)

  /** `resolve` can run the callback. */
  predicate Ready(cb: Callback, features: seq<FeatureType>) {
    forall i :: 0 <= i < |cb.deps| ==> cb.deps[i] in features
  }

  /** The waiting callbacks, in their order. */
  function Waiting(cbs: seq<Callback>, features: seq<FeatureType>): seq<Callback> {
    if cbs == [] then [] else (if Ready(cbs[0], features) then [] else [cbs[0]]) + Waiting(cbs[1..], features)
  }

  function Resolved(cbs: seq<Callback>, features: seq<FeatureType>): seq<Callback> {
    if cbs == [] then [] else (if Ready(cbs[0], features) then [cbs[0]] else []) + Resolved(cbs[1..], features)
  }

  /** Some callback that can run returns an error this time; `failing` holds the positions of those that would. */
  predicate SomeFails(cbs: seq<Callback>, features: seq<FeatureType>, failing: set<nat>) {
    exists i :: 0 <= i < |cbs| && Ready(cbs[i], features) && i in failing
  }

  /** The callbacks run from position `i` to the first error, that one included. */
  function RunFrom(cbs: seq<Callback>, features: seq<FeatureType>, failing: set<nat>, i: nat): seq<Callback>
    requires i <= |cbs|
    decreases |cbs| - i
  {
    if i == |cbs| then []
    else if !Ready(cbs[i], features) then RunFrom(cbs, features, failing, i + 1)
    else [cbs[i]] + if i in failing then [] else RunFrom(cbs, features, failing, i + 1)
  }

  /** The registered features, the unresolved callbacks (None for a nil slice) and every callback run so far. */
  datatype State = State(features: seq<FeatureType>, pending: Option<seq<Callback>>, calls: seq<Callback>) {

    function Pending(): seq<Callback> {
      if pending.None? then [] else pending.value
    }

    /** The list holds exactly callbacks that must wait, and is nil when there are none. */
    predicate Exact() {
      && (pending.Some? ==> pending.value != [])
      && NoneReady(Pending(), features)
    }

    function Require(cb: Callback): State {
      if Ready(cb, features) then this.(calls := calls + [cb])
      else this.(pending := Some(Pending() + [cb]))
    }

    /** AddFeature before the instance runs. */
    function Add(f: FeatureType, failing: set<nat>): State {
      var fs := features + [f];
      var waiting := Waiting(Pending(), fs);
      if SomeFails(Pending(), fs, failing) then State(fs, pending, calls + RunFrom(Pending(), fs, failing, 0))
      else State(fs, if waiting == [] then None else Some(waiting), calls + Resolved(Pending(), fs))
    }
  }

  /** An Add carries the positions of the pending callbacks that return an error if this call runs them. */
  datatype Event = Add(feature: FeatureType, failing: set<nat>) | Require(callback: Callback)

  function Step(s: State, ev: Event): State {
    match ev
    case Add(f, failing) => s.Add(f, failing)
    case Require(cb) => s.Require(cb)
  }

  function Run(evs: seq<Event>): State {
    if evs == [] then State([], None, []) else Step(Run(evs[..|evs| - 1]), evs[|evs| - 1])
  }

  /** All callbacks required so far, in order. */
  function Required(evs: seq<Event>): seq<Callback> {
    if evs == [] then []
    else
      var before := Required(evs[..|evs| - 1]);
      if evs[|evs| - 1].Require? then before + [evs[|evs| - 1].callback] else before
  }

  /** No AddFeature of the run made a callback runnable that returned an error. */
  predicate NoAddFails(evs: seq<Event>) {
    evs == [] ||
    (var before, ev := evs[..|evs| - 1], evs[|evs| - 1];
     && NoAddFails(before)
     && (ev.Add? ==> !SomeFails(Run(before).Pending(), Run(before).features + [ev.feature], ev.failing)))
  }

  // --- filtering ---

  predicate NoneReady(cbs: seq<Callback>, fs: seq<FeatureType>) {
    forall i :: 0 <= i < |cbs| ==> !Ready(cbs[i], fs)
  }

  predicate AllReady(cbs: seq<Callback>, fs: seq<FeatureType>) {
    forall i :: 0 <= i < |cbs| ==> Ready(cbs[i], fs)
  }

  lemma {:induction false} WaitingWaits(cbs: seq<Callback>, fs: seq<FeatureType>)
    ensures NoneReady(Waiting(cbs, fs), fs) && AllReady(Resolved(cbs, fs), fs)
    decreases |cbs|
  {
    if cbs != [] {
      WaitingWaits(cbs[1..], fs);
      if Ready(cbs[0], fs) {
        assert Waiting(cbs, fs) == Waiting(cbs[1..], fs);
      } else {
        assert Resolved(cbs, fs) == Resolved(cbs[1..], fs);
      }
    }
  }

  lemma {:induction false} WaitingPartitions(cbs: seq<Callback>, fs: seq<FeatureType>)
    ensures multiset(Waiting(cbs, fs)) + multiset(Resolved(cbs, fs)) == multiset(cbs)
    decreases |cbs|
  {
    if cbs != [] {
      WaitingPartitions(cbs[1..], fs);
      assert cbs == [cbs[0]] + cbs[1..];
    }
  }

  lemma {:induction false} WaitingConcat(a: seq<Callback>, b: seq<Callback>, fs: seq<FeatureType>)
    ensures Waiting(a + b, fs) == Waiting(a, fs) + Waiting(b, fs)
    decreases |a|
  {
    if a == [] {
      assert a + b == b;
    } else {
      WaitingConcat(a[1..], b, fs);
      assert (a + b)[0] == a[0] && (a + b)[1..] == a[1..] + b;
      if Ready(a[0], fs) {
        assert Waiting(a, fs) == Waiting(a[1..], fs);
      } else {
        Assoc([a[0]], Waiting(a[1..], fs), Waiting(b, fs));
      }
    }
  }

  /** Features only ever help: waiting for more features can be decided on those that waited for fewer. */
  lemma {:induction false} WaitingMore(cbs: seq<Callback>, fs: seq<FeatureType>, f: FeatureType)
    ensures Waiting(Waiting(cbs, fs), fs + [f]) == Waiting(cbs, fs + [f])
    decreases |cbs|
  {
    if cbs != [] {
      WaitingMore(cbs[1..], fs, f);
      if Ready(cbs[0], fs) {
        assert Ready(cbs[0], fs + [f]);
        assert Waiting(cbs, fs) == Waiting(cbs[1..], fs);
      } else {
        assert Waiting(cbs, fs)[1..] == Waiting(cbs[1..], fs);
      }
    }
  }

  // --- exactness of one call ---

  /** AddFeature keeps the pending list exact if and only if no callback that it makes runnable returns an error. */
  lemma AddExactly(s: State, f: FeatureType, failing: set<nat>)
    requires s.Exact()
    ensures s.Add(f, failing).Exact() <==> !SomeFails(s.Pending(), s.features + [f], failing)
  {
    WaitingWaits(s.Pending(), s.features + [f]);
  }

  lemma RequireKeepsExact(s: State, cb: Callback)
    requires s.Exact()
    ensures s.Require(cb).Exact()
  {
    assert forall i :: 0 <= i < |s.Pending() + [cb]| ==>
      (s.Pending() + [cb])[i] == if i < |s.Pending()| then s.Pending()[i] else cb;
  }

  // --- whole runs ---

  predicate Accounted(s: State, required: seq<Callback>) {
    && s.Exact()
    && s.Pending() == Waiting(required, s.features)
    && multiset(s.calls) + multiset(s.Pending()) == multiset(required)
  }

  lemma AccountedAdd(s: State, required: seq<Callback>, f: FeatureType, failing: set<nat>)
    requires Accounted(s, required) && !SomeFails(s.Pending(), s.features + [f], failing)
    ensures Accounted(s.Add(f, failing), required)
  {
    var fs := s.features + [f];
    AddExactly(s, f, failing);
    WaitingMore(required, s.features, f);
    WaitingPartitions(s.Pending(), fs);
    assert multiset(s.calls + Resolved(s.Pending(), fs)) == multiset(s.calls) + multiset(Resolved(s.Pending(), fs));
  }

  lemma AccountedRequire(s: State, required: seq<Callback>, cb: Callback)
    requires Accounted(s, required)
    ensures Accounted(s.Require(cb), required + [cb])
  {
    RequireKeepsExact(s, cb);
    WaitingSnoc(required, cb, s.features);
    AddOne(required, cb);
    AddOne(s.calls, cb);
    AddOne(s.Pending(), cb);
  }

  lemma WaitingSnoc(cbs: seq<Callback>, cb: Callback, fs: seq<FeatureType>)
    ensures Waiting(cbs + [cb], fs) == if Ready(cb, fs) then Waiting(cbs, fs) else Waiting(cbs, fs) + [cb]
  {
    WaitingConcat(cbs, [cb], fs);
    assert [cb][1..] == [];
  }

  lemma AddOne(cbs: seq<Callback>, cb: Callback)
    ensures multiset(cbs + [cb]) == multiset(cbs) + multiset{cb}
  {
  }

  /** Some callback has run although it is still pending, or more often than it was required. */
  predicate Excess(s: State, required: seq<Callback>) {
    |s.calls| + |s.Pending()| > |required|
  }

  lemma {:induction false} ErrorRuns(cbs: seq<Callback>, fs: seq<FeatureType>, failing: set<nat>, i: nat, k: nat)
    requires i <= k < |cbs| && Ready(cbs[k], fs)
    ensures RunFrom(cbs, fs, failing, i) != []
    decreases k - i
  {
    if !Ready(cbs[i], fs) {
      ErrorRuns(cbs, fs, failing, i + 1, k);
    }
  }

  /** A failing AddFeature runs callbacks and keeps them pending; nothing takes the excess back. */
  lemma ExcessStep(s: State, ev: Event, required: seq<Callback>)
    requires
      || Excess(s, required)
      || (&& |s.calls| + |s.Pending()| == |required| && ev.Add?
          && SomeFails(s.Pending(), s.features + [ev.feature], ev.failing))
    ensures Excess(Step(s, ev), if ev.Require? then required + [ev.callback] else required)
  {
    if ev.Add? {
      var fs := s.features + [ev.feature];
      if SomeFails(s.Pending(), fs, ev.failing) {
        var k :| 0 <= k < |s.Pending()| && Ready(s.Pending()[k], fs) && k in ev.failing;
        ErrorRuns(s.Pending(), fs, ev.failing, 0, k);
      } else {
        WaitingPartitions(s.Pending(), fs);
        SameSize(Waiting(s.Pending(), fs), Resolved(s.Pending(), fs), s.Pending());
      }
    }
  }

  lemma SameSize(a: seq<Callback>, b: seq<Callback>, c: seq<Callback>)
    requires multiset(a) + multiset(b) == multiset(c)
    ensures |a| + |b| == |c|
  {
    assert |multiset(a)| == |a| && |multiset(b)| == |b| && |multiset(c)| == |c|;
    assert |multiset(a) + multiset(b)| == |a| + |b|;
  }

  /** Without a failing AddFeature every callback is accounted for; after the first one there is an excess for good. */
  lemma {:induction false} AccountedOrExcess(evs: seq<Event>)
    ensures NoAddFails(evs) ==> Accounted(Run(evs), Required(evs))
    ensures !NoAddFails(evs) ==> Excess(Run(evs), Required(evs))
    decreases |evs|
  {
    if evs != [] {
      var before, ev := evs[..|evs| - 1], evs[|evs| - 1];
      var s, required := Run(before), Required(before);
      AccountedOrExcess(before);
      if NoAddFails(evs) {
        match ev {
          case Add(f, failing) => AccountedAdd(s, required, f, failing);
          case Require(cb) => AccountedRequire(s, required, cb);
        }
      } else {
        if NoAddFails(before) {
          SameSize(s.calls, s.Pending(), required);
        }
        ExcessStep(s, ev, required);
      }
    }
  }

  /** For any order of registrations before the start: the pending list is exactly the callbacks with a missing
      dependency, in the order in which they were required, and every callback has either run exactly once or is
      pending, if and only if no AddFeature met a runnable callback that returned an error. */
  lemma EveryCallbackAccounted(evs: seq<Event>)
    ensures Accounted(Run(evs), Required(evs)) <==> NoAddFails(evs)
  {
    AccountedOrExcess(evs);
    if Accounted(Run(evs), Required(evs)) {
      SameSize(Run(evs).calls, Run(evs).Pending(), Required(evs));
    }
  }

  /** In particular callbacks that return no error when AddFeature runs them are always accounted for. */
  lemma {:induction false} ErrorFreeIsEnough(evs: seq<Event>)
    requires forall i :: 0 <= i < |evs| && evs[i].Add? ==> evs[i].failing == {}
    ensures NoAddFails(evs)
    decreases |evs|
  {
    if evs != [] {
      ErrorFreeIsEnough(evs[..|evs| - 1]);
    }
  }

  /** Some AddFeature of the run registered the feature. */
  predicate Added(evs: seq<Event>, f: FeatureType) {
    exists i :: 0 <= i < |evs| && evs[i].Add? && evs[i].feature == f
  }

  lemma {:induction false} FeaturesAdded(evs: seq<Event>, f: FeatureType)
    ensures f in Run(evs).features <==> Added(evs, f)
    decreases |evs|
  {
    if evs != [] {
      var n := |evs| - 1;
      var before := evs[..n];
      FeaturesAdded(before, f);
      assert forall i :: 0 <= i < n ==> evs[i] == before[i];
    }
  }

  lemma ReadyExactly(evs: seq<Event>, cb: Callback)
    ensures Ready(cb, Run(evs).features) <==> forall f :: f in cb.deps ==> Added(evs, f)
  {
    forall f ensures f in Run(evs).features <==> Added(evs, f) {
      FeaturesAdded(evs, f);
    }
    assert forall i :: 0 <= i < |cb.deps| ==> cb.deps[i] in cb.deps;
  }

  /** A callback required once has run once if everything it depends on was added, and not at all otherwise. */
  lemma RunsExactlyOnce(evs: seq<Event>, cb: Callback)
    requires NoAddFails(evs) && multiset(Required(evs))[cb] == 1
    ensures multiset(Run(evs).calls)[cb] == if forall f :: f in cb.deps ==> Added(evs, f) then 1 else 0
  {
    EveryCallbackAccounted(evs);
    ReadyExactly(evs, cb);
    var s := Run(evs);
    WaitingWaits(Required(evs), s.features);
    WaitingPartitions(Required(evs), s.features);
    if Ready(cb, s.features) {
      assert cb !in Waiting(Required(evs), s.features);
    } else {
      assert cb !in Resolved(Required(evs), s.features);
    }
  }

  /** The callbacks that the last event ran. */
  function NewCalls(evs: seq<Event>): seq<Callback>
    requires evs != [] && |Run(evs[..|evs| - 1]).calls| <= |Run(evs).calls|
  {
    Run(evs).calls[|Run(evs[..|evs| - 1]).calls|..]
  }

  /** A callback runs at the moment its last dependency arrives: at once when it is required, or with the feature
      that was still missing. */
  lemma RunsWhenLastDependencyArrives(evs: seq<Event>)
    requires evs != [] && NoAddFails(evs)
    ensures |Run(evs[..|evs| - 1]).calls| <= |Run(evs).calls|
    ensures
      forall i :: 0 <= i < |NewCalls(evs)| ==>
        && Ready(NewCalls(evs)[i], Run(evs).features)
        && (evs[|evs| - 1].Require? ==> NewCalls(evs) == [evs[|evs| - 1].callback])
        && (evs[|evs| - 1].Add? ==> !Ready(NewCalls(evs)[i], Run(evs[..|evs| - 1]).features))
  {
    var before := evs[..|evs| - 1];
    EveryCallbackAccounted(before);
    var s := Run(before);
    if evs[|evs| - 1].Add? {
      var fs := s.features + [evs[|evs| - 1].feature];
      var r := Resolved(s.Pending(), fs);
      assert NewCalls(evs) == r;
      WaitingWaits(s.Pending(), fs);
      forall i | 0 <= i < |r| ensures !Ready(r[i], s.features) {
        ResolvedFrom(s.Pending(), fs, i);
      }
    }
  }

  lemma {:induction false} ResolvedFrom(cbs: seq<Callback>, fs: seq<FeatureType>, i: nat)
    requires i < |Resolved(cbs, fs)|
    ensures exists k :: 0 <= k < |cbs| && Resolved(cbs, fs)[i] == cbs[k]
    decreases |cbs|
  {
    var skip := if Ready(cbs[0], fs) then 1 else 0;
    if i >= skip {
      ResolvedFrom(cbs[1..], fs, i - skip);
      var k :| 0 <= k < |cbs[1..]| && Resolved(cbs[1..], fs)[i - skip] == cbs[1..][k];
      assert cbs[k + 1] == cbs[1..][k];
    }
  }

  /** An error does break it: a callback that ran before the failing one stays in the list and runs again with the next
      feature, even if nothing fails then. */
  lemma FailingCallbackRepeatsOthers(f: FeatureType, g: FeatureType)
    ensures
      var good, bad := Callback(0, [f]), Callback(1, [f]);
      Run([Require(good), Require(bad), Add(f, {1}), Add(g, {})]) == State([f, g], None, [good, bad, good, bad])
  {
    var good, bad := Callback(0, [f]), Callback(1, [f]);
    var e1, e2, e3, e4 := Require(good), Require(bad), Add(f, {1}), Add(g, {});
    TwoRequired(good, bad);
    RunNext([e1, e2], e3, [e1, e2, e3]);
    RunNext([e1, e2, e3], e4, [e1, e2, e3, e4]);
    FailThenSucceed(State([], Some([good, bad]), []), f, g, good, bad);
  }

  lemma RunNext(evs: seq<Event>, ev: Event, all: seq<Event>)
    requires all == evs + [ev]
    ensures Run(all) == Step(Run(evs), ev)
  {
    assert all[..|evs|] == evs;
  }

  lemma FailThenSucceed(s: State, f: FeatureType, g: FeatureType, good: Callback, bad: Callback)
    requires s == State([], Some([good, bad]), []) && good.deps == bad.deps == [f]
    ensures s.Add(f, {1}).Add(g, {}) == State([f, g], None, [good, bad, good, bad])
  {
    assert [] + [f] == [f] && [f] + [g] == [f, g];
    assert f in [f] && f in [f, g];
    AddFails(s, f, good, bad);
    AddSucceeds(s.Add(f, {1}), g, good, bad);
    assert [good, bad] + [good, bad] == [good, bad, good, bad];
  }

  lemma TwoRequired(good: Callback, bad: Callback)
    requires good.deps != [] && bad.deps != []
    ensures Run([Require(good), Require(bad)]) == State([], Some([good, bad]), [])
  {
    var e1, e2 := Require(good), Require(bad);
    assert [e1][..0] == [] && [e1, e2][..1] == [e1];
    assert !Ready(good, []) by { assert good.deps[0] !in []; }
    assert !Ready(bad, []) by { assert bad.deps[0] !in []; }
    assert [] + [good] == [good] && [good] + [bad] == [good, bad];
    assert Run([e1]) == State([], Some([good]), []);
  }

  /** The second of two callbacks fails: both run, and both stay. */
  lemma AddFails(s: State, f: FeatureType, good: Callback, bad: Callback)
    requires s.pending == Some([good, bad]) && Ready(good, s.features + [f]) && Ready(bad, s.features + [f])
    ensures s.Add(f, {1}) == State(s.features + [f], s.pending, s.calls + [good, bad])
  {
    var fs, cbs := s.features + [f], [good, bad];
    assert SomeFails(cbs, fs, {1}) by { assert cbs[1] == bad; }
    assert RunFrom(cbs, fs, {1}, 1) == [bad] + [];
    assert RunFrom(cbs, fs, {1}, 0) == [good] + [bad];
  }

  /** Neither fails: both run, and both are resolved. */
  lemma AddSucceeds(s: State, f: FeatureType, good: Callback, bad: Callback)
    requires s.pending == Some([good, bad]) && Ready(good, s.features + [f]) && Ready(bad, s.features + [f])
    ensures s.Add(f, {}) == State(s.features + [f], None, s.calls + [good, bad])
  {
    var fs, cbs := s.features + [f], [good, bad];
    assert cbs[1..] == [bad] && [bad][1..] == [];
    assert Resolved([bad], fs) == [bad] + [] && Waiting([bad], fs) == [];
    assert Resolved(cbs, fs) == [good] + [bad] && Waiting(cbs, fs) == [];
  }

  // --- the instance as an object ---

  class Instance {
    var features: seq<FeatureType>
    var featureResolutions: Option<seq<Callback>>
    var running: bool
    /** The callbacks run so far, which is how their effects are observed. */
    var calls: seq<Callback>

    function View(): State
      reads this
    {
      State(features, featureResolutions, calls)
    }

    constructor ()
      ensures View() == Run([]) && !running
    {
      features, featureResolutions, running, calls := [], None, false, [];
    }

    /** `resolve`: runs the callback if everything it depends on is registered; `fails` is what it then returns. */
    method Resolve(r: Callback, fails: bool) returns (finished: bool, err: bool)
      modifies this`calls
      ensures finished == Ready(r, features) && err == (finished && fails)
      ensures calls == if finished then old(calls) + [r] else old(calls)
    {
      for i := 0 to |r.deps|
        invariant forall j :: 0 <= j < i ==> r.deps[j] in features
      {
        if r.deps[i] !in features {
          return false, false;
        }
      }
      calls := calls + [r];
      return true, fails;
    }

    method RequireFeatures(callback: Callback, fails: bool) returns (err: bool)
      modifies this`calls, this`featureResolutions
      ensures View() == old(View()).Require(callback)
      ensures err == (Ready(callback, features) && fails)
    {
      var finished;
      finished, err := Resolve(callback, fails);
      if finished {
        return;
      }
      featureResolutions := Some((if featureResolutions.None? then [] else featureResolutions.value) + [callback]);
      err := false;
    }

    /** The loop of AddFeature; the callbacks at the positions `failing` return an error if they run. */
    method ResolvePending(rs: seq<Callback>, failing: set<nat>) returns (pending: seq<Callback>, err: bool)
      modifies this`calls
      ensures err == SomeFails(rs, features, failing)
      ensures err ==> calls == old(calls) + RunFrom(rs, features, failing, 0)
      ensures !err ==> calls == old(calls) + Resolved(rs, features) && pending == Waiting(rs, features)
    {
      pending := [];
      var i := 0;
      assert rs[0..] == rs;
      while i < |rs|
        invariant 0 <= i <= |rs|
        invariant forall j :: 0 <= j < i && Ready(rs[j], features) ==> j !in failing
        invariant Progress(rs, features, failing, i, old(calls), calls, pending)
      {
        StepPending(rs, features, failing, i, old(calls), calls, pending);
        var finished;
        finished, err := Resolve(rs[i], i in failing);
        if finished && err {
          return;
        }
        if !finished {
          pending := pending + [rs[i]];
        }
        i := i + 1;
      }
      err := false;
      assert rs[i..] == [];
      assert calls + [] == calls && pending + [] == pending;
    }

    method AddFeature(feature: FeatureType, failing: set<nat>) returns (err: bool)
      modifies this`features, this`calls, this`featureResolutions
      ensures running ==> View() == old(View()).(features := old(features) + [feature]) && !err
      ensures !running ==> View() == old(View()).Add(feature, failing)
      ensures !running ==> err == SomeFails(old(View()).Pending(), features, failing)
    {
      features := features + [feature];
      err := false;
      if running || featureResolutions.None? {
        assert calls + [] == calls;
        return;
      }
      var rs := featureResolutions.value;
      var pending;
      pending, err := ResolvePending(rs, failing);
      if err {
        return;
      }
      WaitingSame(rs, features);
      if |pending| == 0 {
        featureResolutions := None;
      } else if |pending| < |rs| {
        featureResolutions := Some(pending);
      }
    }
  }

  /** The state of the loop of AddFeature before position `i`: what has run and what waits, with the rest of the list
      still to come. */
  predicate Progress(rs: seq<Callback>, fs: seq<FeatureType>, failing: set<nat>, i: nat,
                     start: seq<Callback>, calls: seq<Callback>, pending: seq<Callback>)
    requires i <= |rs|
  {
    && calls + RunFrom(rs, fs, failing, i) == start + RunFrom(rs, fs, failing, 0)
    && calls + Resolved(rs[i..], fs) == start + Resolved(rs, fs)
    && pending + Waiting(rs[i..], fs) == Waiting(rs, fs)
  }

  /** One iteration of the loop: the callback runs and goes on, runs and stops, or waits. */
  lemma StepPending(rs: seq<Callback>, fs: seq<FeatureType>, failing: set<nat>, i: nat,
                    start: seq<Callback>, calls: seq<Callback>, pending: seq<Callback>)
    requires i < |rs| && Progress(rs, fs, failing, i, start, calls, pending)
    ensures
      if !Ready(rs[i], fs) then Progress(rs, fs, failing, i + 1, start, calls, pending + [rs[i]])
      else if i in failing then calls + [rs[i]] == start + RunFrom(rs, fs, failing, 0)
      else Progress(rs, fs, failing, i + 1, start, calls + [rs[i]], pending)
  {
    var rest := rs[i + 1..];
    assert rs[i..][0] == rs[i] && rs[i..][1..] == rest;
    if !Ready(rs[i], fs) {
      assert Resolved(rs[i..], fs) == Resolved(rest, fs);
      Assoc(pending, [rs[i]], Waiting(rest, fs));
    } else if i in failing {
      assert RunFrom(rs, fs, failing, i) == [rs[i]] + [] == [rs[i]];
    } else {
      assert Waiting(rs[i..], fs) == Waiting(rest, fs);
      Assoc(calls, [rs[i]], Resolved(rest, fs));
      Assoc(calls, [rs[i]], RunFrom(rs, fs, failing, i + 1));
    }
  }

  lemma {:induction false} WaitingSame(cbs: seq<Callback>, fs: seq<FeatureType>)
    ensures |Waiting(cbs, fs)| <= |cbs|
    ensures |Waiting(cbs, fs)| == |cbs| ==> Waiting(cbs, fs) == cbs
    decreases |cbs|
  {
    if cbs != [] {
      WaitingSame(cbs[1..], fs);
    }
  }
}
