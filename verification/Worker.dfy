/** The worker's lifecycle and the supervisor that drives it.

    Start and drain calls do not overlap; any awaited step may end, raise or be cancelled. */
module Worker {
  import opened Prelude

  datatype WorkerState =
    | Configuring | Preflighting | Hydrating | Starting | Validating | Ready | Draining | Failed | Stopped

  function Transitions(s: WorkerState): set<WorkerState> {
    match s
    case Configuring => {Preflighting, Failed}
    case Preflighting => {Hydrating, Failed}
    case Hydrating => {Starting, Failed}
    case Starting => {Validating, Failed}
    case Validating => {Ready, Failed}
    case Ready => {Draining, Failed}
    case Draining => {Stopped, Failed}
    case Failed => {Stopped}
    case Stopped => {}
  }

  const INVALID_TRANSITION: string := "AppError"

  /** How an awaited step ends. */
  datatype Outcome = Done | Raises(code: string) | Interrupted

  /** `inventory` is None when the caller names the required nodes and models itself. */
  datatype Steps = Steps(
    configure: Outcome, preflight: Outcome, hydrate: Outcome, inventory: Option<Outcome>,
    launch: Outcome, health: Outcome)
  {
    predicate AllDone() {
      configure.Done? && preflight.Done? && hydrate.Done? && inventory.GetOr(Done).Done? && launch.Done? && health.Done?
    }
  }

  datatype Ending = Returned | Raised(code: string) | Cancelled

  /** `moves` counts lifecycle transitions, `launches` the calls of the process runner. */
  datatype View = View(state: WorkerState, code: Option<string>, process: bool, launches: nat, moves: nat)

  const FRESH: View := View(Configuring, None, false, 0, 0)

  function Move(v: View, target: WorkerState): Option<View> {
    if target in Transitions(v.state) then Some(v.(state := target, moves := v.moves + 1)) else None
  }

  // -------------------------------------------------------------- start-up

  const PHASES: seq<WorkerState> := [Preflighting, Hydrating, Starting, Validating, Ready]

  /** The step that precedes the k-th transition of a start. */
  function StepOutcome(s: Steps, k: nat): Outcome {
    match k
    case 0 => s.configure
    case 1 => s.preflight
    case 2 => if s.hydrate.Done? then s.inventory.GetOr(Done) else s.hydrate
    case 3 => s.launch
    case _ => s.health
  }

  /** A start call from its k-th step on, up to the first step that does not end well. */
  function StartFrom(v: View, s: Steps, k: nat): (View, Ending)
    requires k <= |PHASES|
    decreases |PHASES| - k
  {
    if k == |PHASES| then (v, Returned) else
    var outcome := StepOutcome(s, k);
    var w := if k == 3 then v.(launches := v.launches + 1, process := v.process || outcome.Done?) else v;
    match outcome
    case Interrupted => (w, Cancelled)
    case Raises(c) => (w, Raised(c))
    case Done =>
      match Move(w, PHASES[k])
      case None => (w, Raised(INVALID_TRANSITION))
      case Some(x) => StartFrom(x, s, k + 1)
  }

  lemma StartFromOnce(v: View, s: Steps, k: nat)
    requires k < |PHASES|
    ensures var o := StepOutcome(s, k);
      var w := if k == 3 then v.(launches := v.launches + 1, process := v.process || o.Done?) else v;
      StartFrom(v, s, k) == if !o.Done? then (w, Broken(o))
                            else if Move(w, PHASES[k]).None? then (w, Raised(INVALID_TRANSITION))
                            else StartFrom(Move(w, PHASES[k]).value, s, k + 1)
  {
  }

  lemma StartFromEnd(v: View, s: Steps)
    ensures StartFrom(v, s, |PHASES|) == (v, Returned)
  {
  }

  /** Recording a failure; raises when no failure can be recorded any more. */
  function AfterFail(v: View, c: string): (View, Ending) {
    if v.state == Failed then (v.(code := Some(c)), Returned)
    else match Move(v, Failed)
      case None => (v, Raised(INVALID_TRANSITION))
      case Some(w) => (w.(code := Some(c)), Returned)
  }

  function AfterStart(v: View, s: Steps): (View, Ending) {
    var (w, ending) := StartFrom(v, s, 0);
    if !ending.Raised? then (w, ending)
    else
      var (x, failing) := AfterFail(w, ending.code);
      (x, if failing.Raised? then failing else ending)
  }

  function AfterDrain(v: View, terminate: Outcome): (View, Ending) {
    var w := if v.state == Ready then v.(state := Draining, moves := v.moves + 1) else v;
    if w.process && terminate.Interrupted? then (w, Cancelled)
    else if w.process && terminate.Raises? then (w, Raised(terminate.code))
    else if w.state in {Draining, Failed} then (w.(state := Stopped, moves := w.moves + 1), Returned)
    else (w, Returned)
  }

  class WorkerLifecycle {
    var state: WorkerState
    var failureCode: Option<string>
    ghost var moves: nat

    constructor ()
      ensures state == Configuring && failureCode == None && moves == 0
    {
      state, failureCode, moves := Configuring, None, 0;
    }

    /** Advance through one legal edge, or raise and change nothing. */
    method Transition(target: WorkerState) returns (ending: Ending)
      modifies this
      ensures failureCode == old(failureCode)
      ensures if target in Transitions(old(state))
              then ending == Returned && state == target && moves == old(moves) + 1
              else ending == Raised(INVALID_TRANSITION) && state == old(state) && moves == old(moves)
    {
      if target !in Transitions(state) { return Raised(INVALID_TRANSITION); }
      state, moves := target, moves + 1;
      return Returned;
    }

    method Fail(code: string) returns (ending: Ending)
      modifies this
      ensures forall process, launches ::
                AfterFail(View(old(state), old(failureCode), process, launches, old(moves)), code)
                == (View(state, failureCode, process, launches, moves), ending)
    {
      if state != Failed {
        ending := Transition(Failed);
        if ending.Raised? { return; }
      }
      failureCode := Some(code);
      return Returned;
    }
  }

  class WorkerSupervisor {
    const lifecycle: WorkerLifecycle
    var process: bool
    ghost var launches: nat

    constructor (lifecycle: WorkerLifecycle)
      requires lifecycle.state == Configuring && lifecycle.failureCode == None && lifecycle.moves == 0
      ensures this.lifecycle == lifecycle && Now() == FRESH
    {
      this.lifecycle := lifecycle;
      process, launches := false, 0;
    }

    ghost function Now(): View
      reads this, lifecycle
    {
      View(lifecycle.state, lifecycle.failureCode, process, launches, lifecycle.moves)
    }

    method LaunchProcess(outcome: Outcome)
      modifies this
      ensures launches == old(launches) + 1 && process == (old(process) || outcome.Done?)
    {
      launches := launches + 1;
      if outcome.Done? { process := true; }
    }

    /** The guarded body of a start: what runs before the exception handler. */
    method TryStart(s: Steps) returns (ending: Ending)
      modifies this, lifecycle
      ensures (Now(), ending) == StartFrom(old(Now()), s, 0)
    {
      hide StartFrom;
      ghost var all := StartFrom(Now(), s, 0);
      StartFromOnce(Now(), s, 0);
      if !s.configure.Done? { return Broken(s.configure); }
      ending := lifecycle.Transition(Preflighting);
      if ending.Raised? { return; }
      assert all == StartFrom(Now(), s, 1);
      StartFromOnce(Now(), s, 1);
      if !s.preflight.Done? { return Broken(s.preflight); }
      ending := lifecycle.Transition(Hydrating);
      if ending.Raised? { return; }
      assert all == StartFrom(Now(), s, 2);
      StartFromOnce(Now(), s, 2);
      if !s.hydrate.Done? { return Broken(s.hydrate); }
      if s.inventory.Some? && !s.inventory.value.Done? { return Broken(s.inventory.value); }
      ending := lifecycle.Transition(Starting);
      if ending.Raised? { return; }
      assert all == StartFrom(Now(), s, 3);
      StartFromOnce(Now(), s, 3);
      LaunchProcess(s.launch);
      if !s.launch.Done? { return Broken(s.launch); }
      ending := lifecycle.Transition(Validating);
      if ending.Raised? { return; }
      assert all == StartFrom(Now(), s, 4);
      StartFromOnce(Now(), s, 4);
      if !s.health.Done? { return Broken(s.health); }
      ending := lifecycle.Transition(Ready);
      if ending.Raised? { return; }
      StartFromEnd(Now(), s);
    }

    /** Any exception is recorded as the failure and raised again; a cancellation is not caught. */
    method Start(s: Steps) returns (ending: Ending)
      modifies this, lifecycle
      ensures (Now(), ending) == AfterStart(old(Now()), s)
    {
      ending := TryStart(s);
      if ending.Raised? {
        var failing := lifecycle.Fail(ending.code);
        if failing.Raised? { return failing; }
      }
    }

    /** Drop readiness, then terminate the child within a bound. */
    method Drain(terminate: Outcome) returns (ending: Ending)
      modifies this, lifecycle
      ensures (Now(), ending) == AfterDrain(old(Now()), terminate)
    {
      if lifecycle.state == Ready { ending := lifecycle.Transition(Draining); }
      if process && !terminate.Done? { return Broken(terminate); }
      if lifecycle.state in {Draining, Failed} { ending := lifecycle.Transition(Stopped); }
      return Returned;
    }
  }

  function Broken(o: Outcome): Ending
    requires !o.Done?
  {
    match o
    case Raises(c) => Raised(c)
    case Interrupted => Cancelled
  }

  /** The serving side's gate: start unless ready, then report readiness. */
  class ServerlessDeployment {
    const supervisor: WorkerSupervisor

    constructor (supervisor: WorkerSupervisor)
      ensures this.supervisor == supervisor
    {
      this.supervisor := supervisor;
    }

    method EnsureStarted(s: Steps) returns (ending: Ending, ready: bool)
      modifies supervisor, supervisor.lifecycle
      ensures (supervisor.Now(), ending) == AfterEnsure(old(supervisor.Now()), s)
      ensures ready == (ending.Returned? && supervisor.lifecycle.state == Ready)
    {
      ending := Returned;
      if supervisor.lifecycle.state != Ready {
        ending := supervisor.Start(s);
      }
      ready := ending.Returned? && supervisor.lifecycle.state == Ready;
    }
  }

  function AfterEnsure(v: View, s: Steps): (View, Ending) {
    if v.state == Ready then (v, Returned) else AfterStart(v, s)
  }

  // ------------------------------------------------------------------- runs

  datatype Call = Start(s: Steps) | Drain(terminate: Outcome) | EnsureStarted(s: Steps)

  function Apply(v: View, c: Call): (View, Ending) {
    match c
    case Start(s) => AfterStart(v, s)
    case Drain(o) => AfterDrain(v, o)
    case EnsureStarted(s) => AfterEnsure(v, s)
  }

  function AfterCalls(calls: seq<Call>): View {
    if calls == [] then FRESH
    else Apply(AfterCalls(calls[..|calls| - 1]), calls[|calls| - 1]).0
  }

  function Rank(s: WorkerState): nat {
    match s
    case Configuring => 0
    case Preflighting => 1
    case Hydrating => 2
    case Starting => 3
    case Validating => 4
    case Ready => 5
    case Draining => 6
    case Failed => 7
    case Stopped => 8
  }

  /** A launch belongs to the state STARTING, which is entered once. */
  ghost predicate Sound(v: View) {
    && v.moves <= Rank(v.state)
    && v.launches <= (if Rank(v.state) < Rank(Starting) then 0 else 1)
    && (v.process ==> v.launches == 1)
    && (v.state in {Validating, Ready, Draining} ==> v.process)
  }

  /** One step of a start, for a worker in the state the step expects. */
  lemma StartFromStep(v: View, s: Steps, k: nat)
    requires k < |PHASES| && Rank(v.state) == k
    ensures var w := if k == 3 then v.(launches := v.launches + 1, process := v.process || StepOutcome(s, k).Done?) else v;
      && (StepOutcome(s, k).Done? ==>
            StartFrom(v, s, k) == StartFrom(w.(state := PHASES[k], moves := v.moves + 1), s, k + 1)
            && Rank(PHASES[k]) == k + 1)
      && (!StepOutcome(s, k).Done? ==> StartFrom(v, s, k) == (w, Broken(StepOutcome(s, k))))
  {
    hide StepOutcome, StartFrom;
    StartFromOnce(v, s, k);
  }

  /** From its k-th step on, a start that finds the state that step expects reaches READY exactly
      when every remaining step ends well; it moves one phase a step and launches once. */
  lemma {:induction false} StartFromLaw(v: View, s: Steps, k: nat)
    requires k <= |PHASES| && Sound(v) && Rank(v.state) == k
    requires k > 3 ==> v.process && v.launches == 1
    requires k <= 3 ==> v.launches == 0
    ensures var (w, ending) := StartFrom(v, s, k);
      && Sound(w) && k <= Rank(w.state) <= Rank(Ready) && (w.moves - v.moves == Rank(w.state) - k)
      && (ending.Returned? <==> w.state == Ready)
      && (ending.Returned? <==> forall j | k <= j < |PHASES| :: StepOutcome(s, j).Done?)
      && w.code == v.code
    decreases |PHASES| - k
  {
    hide StartFrom, StepOutcome, Transitions;
    if k < |PHASES| {
      StartFromStep(v, s, k);
      if StepOutcome(s, k).Done? {
        var w := if k == 3 then v.(launches := v.launches + 1, process := true) else v;
        StartFromLaw(w.(state := PHASES[k], moves := w.moves + 1), s, k + 1);
      }
    } else {
      StartFromEnd(v, s);
    }
  }

  /** A start call gets through exactly when it finds a worker that never moved and every step
      ends well; any other leaves the worker unready, but for one interrupted before it began. */
  lemma StartLaw(v: View, s: Steps)
    requires Sound(v)
    ensures var (w, ending) := AfterStart(v, s);
      && Sound(w) && Rank(w.state) >= Rank(v.state)
      && (ending.Returned? <==> v.state == Configuring && s.AllDone())
      && (ending.Returned? ==> w.state == Ready && w.launches == 1)
      && (w.state == Ready <==> ending.Returned? || (v.state == Ready && s.configure.Interrupted?))
      && (w.state == Configuring <==> v.state == Configuring && s.configure.Interrupted?)
  {
    hide StartFrom;
    StartFromOnce(v, s, 0);
    if v.state == Configuring {
      StartFromLaw(v, s, 0);
      AllStepsDone(s);
      if s.configure.Done? { StartFromLaw(v.(state := Preflighting, moves := v.moves + 1), s, 1); }
    }
  }

  lemma AllStepsDone(s: Steps)
    ensures s.AllDone() <==> forall j | 0 <= j < |PHASES| :: StepOutcome(s, j).Done?
  {
    if forall j | 0 <= j < |PHASES| :: StepOutcome(s, j).Done? {
      assert StepOutcome(s, 0).Done? && StepOutcome(s, 1).Done? && StepOutcome(s, 2).Done?
             && StepOutcome(s, 3).Done? && StepOutcome(s, 4).Done?;
    }
  }

  lemma CallLaw(v: View, c: Call)
    requires Sound(v)
    ensures Sound(Apply(v, c).0) && Rank(Apply(v, c).0.state) >= Rank(v.state)
  {
    match c
    case Start(s) => StartLaw(v, s);
    case Drain(_) =>
    case EnsureStarted(s) => StartLaw(v, s);
  }

  lemma {:induction false} RunSound(calls: seq<Call>)
    ensures Sound(AfterCalls(calls))
  {
    if calls == [] {
    } else {
      RunSound(calls[..|calls| - 1]);
      CallLaw(AfterCalls(calls[..|calls| - 1]), calls[|calls| - 1]);
    }
  }

  /** Over any run: at most one launch and at most eight transitions, and later calls never
      lower the phase, so a failed or stopped worker never serves again. */
  lemma {:induction false} RunsOnlyForward(calls: seq<Call>, more: seq<Call>)
    ensures var v, w := AfterCalls(calls), AfterCalls(calls + more);
      && w.launches <= 1 && w.moves <= 8
      && Rank(w.state) >= Rank(v.state)
      && (v.state in {Failed, Stopped} ==> w.state in {Failed, Stopped})
      && (w.process ==> w.launches == 1)
  {
    hide Sound, Apply, Rank;
    RunSound(calls + more);
    SoundBounds(AfterCalls(calls + more));
    if more == [] {
      assert calls + more == calls;
    } else {
      var n := |more| - 1;
      RunsOnlyForward(calls, more[..n]);
      assert (calls + more)[..|calls + more| - 1] == calls + more[..n];
      RunSound(calls + more[..n]);
      CallLaw(AfterCalls(calls + more[..n]), more[n]);
    }
    RankEnds(AfterCalls(calls).state, AfterCalls(calls + more).state);
  }

  lemma SoundBounds(v: View)
    requires Sound(v)
    ensures v.launches <= 1 && v.moves <= 8 && (v.process ==> v.launches == 1)
  {
  }

  lemma RankEnds(a: WorkerState, b: WorkerState)
    requires Rank(b) >= Rank(a)
    ensures a in {Failed, Stopped} ==> b in {Failed, Stopped}
  {
  }

  /** Eight transitions do happen: a full start, a drain whose termination fails, a start
      refused in DRAINING, and a second drain. */
  lemma EightTransitionsHappen(s: Steps, calls: seq<Call>)
    requires s.AllDone()
    requires calls == [Start(s), Drain(Raises("TimeoutError")), Start(s), Drain(Done)]
    ensures AfterCalls(calls).moves == 8 && AfterCalls(calls).state == Stopped
  {
    StartLaw(FRESH, s);
    StartFromLaw(FRESH, s, 0);
    assert AfterCalls([]) == FRESH;
    assert calls[..1] == [Start(s)] && calls[..1][..0] == [];
    assert calls[..2][..1] == calls[..1] && calls[..3][..2] == calls[..2];
    var one := AfterCalls(calls[..1]);
    assert one.state == Ready && one.moves == 5;
    var two := AfterCalls(calls[..2]);
    assert two.state == Draining && two.moves == 6;
    var three := AfterCalls(calls[..3]);
    assert three.state == Failed && three.moves == 7;
  }

  // -------------------------------------------------------------- readiness

  /** A call that leaves a worker that has not moved yet as it is. */
  predicate IdleBefore(c: Call) {
    c.Drain? || c.s.configure.Interrupted?
  }

  /** A call that leaves a ready worker ready. */
  predicate IdleAfter(c: Call) {
    c.EnsureStarted? || (c.Start? && c.s.configure.Interrupted?)
  }

  predicate FullStart(c: Call) {
    !c.Drain? && c.s.AllDone()
  }

  /** How one call makes, keeps or ends readiness. */
  lemma ReadinessStep(v: View, c: Call)
    requires Sound(v)
    ensures Apply(v, c).0.state == Configuring <==> v.state == Configuring && IdleBefore(c)
    ensures Apply(v, c).0.state == Ready
            <==> (v.state == Ready && IdleAfter(c)) || (v.state == Configuring && FullStart(c))
  {
    hide Sound, AfterStart, Steps.AllDone;
    if !c.Drain? { StartLaw(v, c.s); }
  }

  lemma {:induction false} UntouchedExactly(calls: seq<Call>)
    ensures AfterCalls(calls).state == Configuring <==> forall j | 0 <= j < |calls| :: IdleBefore(calls[j])
  {
    hide Apply, Sound, IdleBefore;
    if calls == [] {
    } else {
      var n := |calls| - 1;
      var v := AfterCalls(calls[..n]);
      UntouchedExactly(calls[..n]);
      RunSound(calls[..n]);
      ReadinessStep(v, calls[n]);
      assert (forall j | 0 <= j < |calls| :: IdleBefore(calls[j]))
             <==> (forall j | 0 <= j < n :: IdleBefore(calls[..n][j])) && IdleBefore(calls[n]);
    }
  }

  ghost predicate MadeReadyAt(calls: seq<Call>, i: nat) {
    && i < |calls| && FullStart(calls[i])
    && (forall j | 0 <= j < i :: IdleBefore(calls[j]))
    && (forall j | i < j < |calls| :: IdleAfter(calls[j]))
  }

  /** The worker is ready exactly when one start call found it untouched and did configure,
      preflight, hydrate, inventory, launch and health check in order, and nothing since then
      drained it or tried to start it over. */
  lemma {:induction false} ReadyExactlyAfterOneFullStart(calls: seq<Call>)
    ensures AfterCalls(calls).state == Ready <==> exists i: nat :: MadeReadyAt(calls, i)
  {
    hide Apply, Sound, IdleBefore, IdleAfter, FullStart;
    if calls == [] {
    } else {
      var n := |calls| - 1;
      var front, c := calls[..n], calls[n];
      var v := AfterCalls(front);
      ReadyExactlyAfterOneFullStart(front);
      UntouchedExactly(front);
      RunSound(front);
      ReadinessStep(v, c);
      if v.state == Ready && IdleAfter(c) {
        var i: nat :| MadeReadyAt(front, i);
        assert MadeReadyAt(calls, i);
      }
      if v.state == Configuring && FullStart(c) {
        assert MadeReadyAt(calls, n);
      }
      if i: nat :| MadeReadyAt(calls, i) {
        if i < n { assert MadeReadyAt(front, i); }
      }
    }
  }

  /** Draining takes readiness away first, whatever termination then does. */
  lemma DrainDropsReadiness(v: View, terminate: Outcome)
    requires Sound(v)
    ensures var (w, ending) := AfterDrain(v, terminate);
      && w.state != Ready
      && (v.state == Ready ==> w.state == (if terminate.Done? then Stopped else Draining))
      && (ending.Returned? && v.state in {Ready, Draining, Failed} ==> w.state == Stopped)
  {
  }

  // ---------------------------------------------------------- recorded failures

  /** The first step of a start that does not end well, and how it ends. */
  function FirstBroken(s: Steps): Option<(nat, Outcome)> {
    if !s.configure.Done? then Some((0, s.configure))
    else if !s.preflight.Done? then Some((1, s.preflight))
    else if !s.hydrate.Done? then Some((2, s.hydrate))
    else if s.inventory.Some? && !s.inventory.value.Done? then Some((2, s.inventory.value))
    else if !s.launch.Done? then Some((3, s.launch))
    else if !s.health.Done? then Some((4, s.health))
    else None
  }

  /** Where an interrupted start leaves a worker, by the step it was interrupted in. */
  function LeftIn(k: nat): WorkerState {
    match k
    case 0 => Configuring
    case 1 => Preflighting
    case 2 => Hydrating
    case 3 => Starting
    case _ => Validating
  }

  /** A start of an untouched worker, told by its first broken step: one that raises leaves the
      worker failed with that step's code, which is raised again; an interrupted one leaves it
      where it was, and no code. The process runs only behind a launch that ended well. */
  lemma StartTells(v: View, s: Steps)
    requires Sound(v) && v.state == Configuring
    ensures var (w, ending) := AfterStart(v, s);
      match FirstBroken(s)
      case None => ending == Returned && w.state == Ready && w.code == v.code && w.launches == 1 && w.process
      case Some((k, Raises(c))) =>
        && ending == Raised(c) && w.state == Failed && w.code == Some(c)
        && w.launches == (if k >= 3 then 1 else 0) && w.process == (k == 4)
      case Some((k, Interrupted)) =>
        && ending == Cancelled && w.state == LeftIn(k) && w.code == v.code
        && w.launches == (if k >= 3 then 1 else 0) && w.process == (k == 4)
      case Some((_, Done)) => false
  {
    hide StartFrom;
    StartFromOnce(v, s, 0);
    var v1 := v.(state := Preflighting, moves := v.moves + 1);
    var v2 := v1.(state := WorkerState.Hydrating, moves := v1.moves + 1);
    var v3 := v2.(state := WorkerState.Starting, moves := v2.moves + 1);
    var v4 := v3.(state := WorkerState.Validating, moves := v3.moves + 1, launches := v3.launches + 1, process := true);
    StartFromOnce(v1, s, 1);
    StartFromOnce(v2, s, 2);
    StartFromOnce(v3, s, 3);
    StartFromOnce(v4, s, 4);
    StartFromEnd(v4.(state := Ready, moves := v4.moves + 1), s);
  }

  /** A start of a worker that has moved: interrupted before it begins it changes nothing, else it
      fails the worker, unless that has stopped, with the code of the configuration or of the
      transition that is not allowed. */
  lemma LateStartTells(v: View, s: Steps)
    requires v.state != Configuring
    ensures var (w, ending) := AfterStart(v, s);
      var c := if s.configure.Raises? then s.configure.code else "AppError";
      if s.configure.Interrupted? then w == v && ending == Cancelled
      else if v.state == Stopped then w == v && ending == Raised("AppError")
      else ending == Raised(c) && w.state == Failed && w.code == Some(c) && w.process == v.process && w.launches == v.launches
  {
    StartFromOnce(v, s, 0);
  }
}
