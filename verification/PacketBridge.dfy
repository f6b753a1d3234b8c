/** The packet bridge: sessions with a generation number, and pumps that may outlive their session. Start and Stop are
    called by one host; the pumps interleave with it in any way. */
module PacketBridge {

  /** A pump goroutine: between frames, between counting a frame in and counting it out, back from its echo loop,
      behind its send on the done channel, or over. */
  datatype Pump = Reading | Writing(length: nat) | Ended | Sent | Over

  /** The host is outside of Stop, or in Stop waiting for the done channel of the session it found. */
  datatype Host = Outside | Waiting(session: nat)

  datatype Counters = Counters(framesIn: nat, framesOut: nat, bytesIn: nat, bytesOut: nat)

  datatype Code = OK | InvalidArgument | InternalError

  /** The fields of the bridge. `socket` is 0 for nil, otherwise the generation that installed it. */
  datatype Bridge = Bridge(socket: nat, running: bool, generation: nat, counters: Counters, lastCode: Code)

  /** The pump of generation `g` is `pumps[g - 1]`. */
  datatype State = State(bridge: Bridge, pumps: seq<Pump>, host: Host)

  const INIT := State(Bridge(0, false, 0, Counters(0, 0, 0, 0), OK), [], Outside)

  datatype Event =
    | BadSocket                    // Start with a descriptor that is no packet socket
    | Start                        // Start with a good one
    | Stop                         // Stop up to the wait
    | StopDone                     // Stop behind the wait
    | Count(g: nat, length: nat)   // the pump has read a frame
    | Written(g: nat)              // the pump has written it back
    | Quit(g: nat)                 // the echo loop returns: end of stream, error or cancellation
    | Send(g: nat)                 // the pump closes the socket and sends on done
    | Exit(g: nat, failed: bool)   // the pump's last locked section

  predicate PumpIn(s: State, g: nat, p: Pump) {
    0 < g <= |s.pumps| && s.pumps[g - 1] == p
  }

  function Advance(s: State, g: nat, p: Pump): State
    requires 0 < g <= |s.pumps|
  {
    s.(pumps := s.pumps[g - 1 := p])
  }

  /** The session is cleared from the bridge. */
  function Cleared(b: Bridge, code: Code): Bridge {
    b.(socket := 0, running := false, lastCode := code)
  }

  /** One step; a step that cannot happen leaves the state as it is. */
  function Step(s: State, ev: Event): State {
    var b := s.bridge;
    match ev
    case BadSocket => if s.host == Outside then s.(bridge := b.(lastCode := InvalidArgument)) else s
    case Start =>
      if s.host != Outside || b.socket != 0 || b.running then s
      else
        var g := b.generation + 1;
        State(Bridge(g, true, g, Counters(0, 0, 0, 0), OK), s.pumps + [Reading], s.host)
    case Stop =>
      if s.host != Outside then s
      else if b.socket == 0 then s.(bridge := b.(running := false, lastCode := OK))
      else s.(host := Waiting(b.socket))
    case StopDone =>
      if s.host.Waiting? && (PumpIn(s, s.host.session, Sent) || PumpIn(s, s.host.session, Over))
      then s.(bridge := Cleared(b, OK), host := Outside) else s
    case Count(g, n) =>
      if PumpIn(s, g, Reading)
      then Advance(s, g, Writing(n)).(bridge := b.(counters :=
             b.counters.(framesIn := b.counters.framesIn + 1, bytesIn := b.counters.bytesIn + n)))
      else s
    case Written(g) =>
      if 0 < g <= |s.pumps| && s.pumps[g - 1].Writing? then
        var n := s.pumps[g - 1].length;
        Advance(s, g, Reading).(bridge := b.(counters :=
          b.counters.(framesOut := b.counters.framesOut + 1, bytesOut := b.counters.bytesOut + n)))
      else s
    case Quit(g) =>
      if 0 < g <= |s.pumps| && (s.pumps[g - 1].Reading? || s.pumps[g - 1].Writing?) then Advance(s, g, Ended) else s
    case Send(g) => if PumpIn(s, g, Ended) then Advance(s, g, Sent) else s
    case Exit(g, failed) =>
      if !PumpIn(s, g, Sent) then s
      else if b.generation != g then Advance(s, g, Over)
      else Advance(s, g, Over).(bridge := Cleared(b, if failed then InternalError else b.lastCode))
  }

  function Run(evs: seq<Event>): State {
    if evs == [] then INIT else Step(Run(evs[..|evs| - 1]), evs[|evs| - 1])
  }

  predicate Finished(p: Pump) {
    p.Sent? || p.Over?
  }

  /** The counters of the current session against its pump. */
  predicate CountersFit(c: Counters, p: Pump) {
    match p
    case Reading => c.framesIn == c.framesOut && c.bytesIn == c.bytesOut
    case Writing(n) => c.framesIn == c.framesOut + 1 && c.bytesIn == c.bytesOut + n
    case _ => c.framesOut <= c.framesIn <= c.framesOut + 1 && c.bytesOut <= c.bytesIn
  }

  predicate Inv(s: State) {
    var b := s.bridge;
    && b.generation == |s.pumps|
    && (b.running <==> b.socket != 0)
    && (b.socket != 0 ==> b.socket == b.generation)
    && (forall i :: 0 <= i < b.generation - 1 ==> Finished(s.pumps[i]))
    && (b.socket == 0 && b.generation > 0 ==> Finished(s.pumps[b.generation - 1]))
    && (s.host.Waiting? ==> 0 < s.host.session == b.generation)
    && (b.generation > 0 ==> CountersFit(b.counters, s.pumps[b.generation - 1]))
    && (b.generation == 0 ==> b.counters == Counters(0, 0, 0, 0))
  }

  lemma HostKeepsInv(s: State, ev: Event)
    requires Inv(s) && PumpOf(ev) == 0
    ensures Inv(Step(s, ev))
  {
  }

  lemma PumpKeepsInv(s: State, ev: Event)
    requires Inv(s) && 0 < PumpOf(ev) <= |s.pumps|
    ensures Inv(Step(s, ev))
  {
    var i := PumpOf(ev) - 1;
    var s' := Step(s, ev);
    assert |s'.pumps| == |s.pumps| && forall j :: 0 <= j < |s.pumps| && j != i ==> s'.pumps[j] == s.pumps[j];
    if i < s.bridge.generation - 1 {
      assert Finished(s.pumps[i]);
    }
  }

  lemma StepKeepsInv(s: State, ev: Event)
    requires Inv(s)
    ensures Inv(Step(s, ev))
  {
    if 0 < PumpOf(ev) <= |s.pumps| {
      PumpKeepsInv(s, ev);
    } else if PumpOf(ev) == 0 {
      HostKeepsInv(s, ev);
    }
  }

  lemma {:induction false} RunInv(evs: seq<Event>)
    ensures Inv(Run(evs))
    decreases |evs|
  {
    if evs != [] {
      RunInv(evs[..|evs| - 1]);
      StepKeepsInv(Run(evs[..|evs| - 1]), evs[|evs| - 1]);
    }
  }

  /** In every run the bridge is running exactly when a socket is installed, that socket belongs to the current
      generation, and the counters of the session never drift apart by more than the frame in flight. */
  lemma SessionInvariant(evs: seq<Event>)
    ensures
      var b := Run(evs).bridge;
      && (b.running <==> b.socket != 0)
      && (b.running ==> b.socket == b.generation)
      && b.counters.framesOut <= b.counters.framesIn <= b.counters.framesOut + 1
      && b.counters.bytesOut <= b.counters.bytesIn
  {
    RunInv(evs);
  }

  /** The generation whose pump makes the step, 0 for a step of the host. */
  function PumpOf(ev: Event): nat {
    match ev
    case Count(g, _) => g
    case Written(g) => g
    case Quit(g) => g
    case Send(g) => g
    case Exit(g, _) => g
    case _ => 0
  }

  /** A pump of an old generation never changes a field of the bridge, although counting is not guarded by the
      generation number. */
  lemma OldPumpIsHarmless(evs: seq<Event>, ev: Event)
    requires 0 < PumpOf(ev) < Run(evs).bridge.generation
    ensures Step(Run(evs), ev).bridge == Run(evs).bridge
  {
    RunInv(evs);
    assert Finished(Run(evs).pumps[PumpOf(ev) - 1]);
  }

  /** The pump of session `g`, the current one, is over, and the bridge is idle with the code it left. */
  predicate Reported(s: State, g: nat, code: Code) {
    s.bridge.generation == g && PumpIn(s, g, Over) && !s.bridge.running && s.bridge.lastCode == code
  }

  lemma ReportedBy(s: State, g: nat, failed: bool)
    requires Inv(s) && PumpIn(s, g, Sent) && s.bridge.generation == g
    ensures Reported(Step(s, Exit(g, failed)), g, if failed then InternalError else s.bridge.lastCode)
  {
  }

  lemma ReportedStep(s: State, ev: Event, g: nat, code: Code)
    requires Inv(s) && Reported(s, g, code) && PumpOf(ev) > 0
    ensures Reported(Step(s, ev), g, code)
  {
  }

  /** When the pump of the current session ends, an error is reported as such and otherwise the code stays; either way
      the bridge is idle then, and until the host's next call nothing changes that. */
  lemma {:induction false} EndIsReported(evs: seq<Event>, k: nat)
    requires k < |evs| && evs[k].Exit? && PumpIn(Run(evs[..k]), evs[k].g, Sent)
    requires evs[k].g == Run(evs[..k]).bridge.generation
    requires forall i :: k < i < |evs| ==> PumpOf(evs[i]) > 0
    ensures Reported(Run(evs), evs[k].g, if evs[k].failed then InternalError else Run(evs[..k]).bridge.lastCode)
    decreases |evs|
  {
    var n := |evs| - 1;
    var s, g, failed := Run(evs[..k]), evs[k].g, evs[k].failed;
    if k == n {
      RunInv(evs[..k]);
      ReportedBy(s, g, failed);
    } else {
      assert evs[..n][..k] == evs[..k];
      EndIsReported(evs[..n], k);
      ReportedNext(evs, g, if failed then InternalError else s.bridge.lastCode);
    }
  }

  lemma ReportedNext(evs: seq<Event>, g: nat, code: Code)
    requires evs != [] && Reported(Run(evs[..|evs| - 1]), g, code) && PumpOf(evs[|evs| - 1]) > 0
    ensures Reported(Run(evs), g, code)
  {
    var s, ev := Run(evs[..|evs| - 1]), evs[|evs| - 1];
    RunInv(evs[..|evs| - 1]);
    ReportedStep(s, ev, g, code);
    assert Run(evs) == Step(s, ev);
  }

  lemma QuietStep(s: State, ev: Event)
    requires Inv(s) && !s.bridge.running && !ev.Start?
    ensures !Step(s, ev).bridge.running && Step(s, ev).bridge.counters == s.bridge.counters
  {
    var i := PumpOf(ev) - 1;
    if 0 <= i < |s.pumps| {
      assert Finished(s.pumps[i]);
    }
  }

  /** Whenever the bridge is idle its pumps have at most their final section left: no counter changes and nothing is
      running until the next Start. */
  lemma {:induction false} QuietUntilStart(evs: seq<Event>, k: nat)
    requires k <= |evs| && !Run(evs[..k]).bridge.running
    requires forall i :: k <= i < |evs| ==> !evs[i].Start?
    ensures !Run(evs).bridge.running && Run(evs).bridge.counters == Run(evs[..k]).bridge.counters
    decreases |evs|
  {
    if k == |evs| {
      assert evs[..k] == evs;
    } else {
      var n := |evs| - 1;
      assert evs[..n][..k] == evs[..k];
      QuietUntilStart(evs[..n], k);
      QuietNext(evs);
    }
  }

  lemma QuietNext(evs: seq<Event>)
    requires evs != [] && !Run(evs[..|evs| - 1]).bridge.running && !evs[|evs| - 1].Start?
    ensures !Run(evs).bridge.running && Run(evs).bridge.counters == Run(evs[..|evs| - 1]).bridge.counters
  {
    var s, ev := Run(evs[..|evs| - 1]), evs[|evs| - 1];
    RunInv(evs[..|evs| - 1]);
    QuietStep(s, ev);
    assert Run(evs) == Step(s, ev);
  }
}
