/** The agent service's lifecycle: concurrent Start and Stop calls, and the goroutines of every
    generation they launch, interleaved one atomic step at a time. */
module AgentLifecycle {
  import opened Counting
  import opened Options

  // ---------- One generation: what a Start that found nothing running launches ----------

  datatype Work = Idle | Running | Returned | Done

  /** How far the Start call has come since it released the mutex. */
  datatype Launch = Locked | RunnerAdded | RunnerUp | DispatcherAdded | DispatcherUp | Complete {
    function Rank(): nat {
      match this
      case Locked => 0
      case RunnerAdded => 1
      case RunnerUp => 2
      case DispatcherAdded => 3
      case DispatcherUp => 4
      case Complete => 5
    }
  }

  datatype Closer = Absent | Waiting | Woken | Closed

  datatype Generation = Generation(
    launch: Launch,
    runner: Work,
    dispatcher: Work,
    wg: int,            // the wait group's counter
    closer: Closer,
    closes: nat,        // how often the exit channel was closed
    cancelled: bool
  )

  const FRESH := Generation(Locked, Idle, Idle, 0, Absent, 0, false)

  datatype Own =
    | AddRunner | GoRunner | AddDispatcher | GoDispatcher | GoCloser   // the rest of Start
    | RunnerReturns | RunnerDone | DispatcherReturns | DispatcherDone  // the two workers
    | Wake | Close                                                     // the closer

  predicate CanOwn(dispatching: bool, g: Generation, o: Own) {
    match o
    case AddRunner => g.launch.Locked?
    case GoRunner => g.launch.RunnerAdded?
    case AddDispatcher => dispatching && g.launch.RunnerUp?
    case GoDispatcher => g.launch.DispatcherAdded?
    case GoCloser => g.launch == if dispatching then DispatcherUp else RunnerUp
    case RunnerReturns => g.runner.Running?
    case RunnerDone => g.runner.Returned?
    case DispatcherReturns => g.dispatcher.Running?
    case DispatcherDone => g.dispatcher.Returned?
    case Wake => g.closer.Waiting? && g.wg == 0
    case Close => g.closer.Woken?
  }

  function DoOwn(g: Generation, o: Own): Generation {
    match o
    case AddRunner => g.(launch := RunnerAdded, wg := g.wg + 1)
    case GoRunner => g.(launch := RunnerUp, runner := Running)
    case AddDispatcher => g.(launch := DispatcherAdded, wg := g.wg + 1)
    case GoDispatcher => g.(launch := DispatcherUp, dispatcher := Running)
    case GoCloser => g.(launch := Complete, closer := Waiting)
    case RunnerReturns => g.(runner := Returned)
    case RunnerDone => g.(runner := Done, wg := g.wg - 1)
    case DispatcherReturns => g.(dispatcher := Returned)
    case DispatcherDone => g.(dispatcher := Done, wg := g.wg - 1)
    case Wake => g.(closer := Woken)
    case Close => g.(closer := Closed, closes := g.closes + 1)
  }

  predicate BothReturned(dispatching: bool, g: Generation) {
    g.runner.Done? && (dispatching ==> g.dispatcher.Done?)
  }

  /** The wait group counts the workers announced and not yet done, and the exit channel is closed
      at most once, after both have returned. */
  predicate Consistent(dispatching: bool, g: Generation) {
    && g.wg == (if g.launch.Rank() >= 1 && !g.runner.Done? then 1 else 0) +
               (if dispatching && g.launch.Rank() >= 3 && !g.dispatcher.Done? then 1 else 0)
    && (g.runner.Idle? <==> g.launch.Rank() < 2)
    && (g.dispatcher.Idle? <==> !dispatching || g.launch.Rank() < 4)
    && (!dispatching ==> !g.launch.DispatcherAdded? && !g.launch.DispatcherUp?)
    && (g.closer.Absent? <==> !g.launch.Complete?)
    && (g.closer.Woken? || g.closer.Closed? ==> BothReturned(dispatching, g))
    && g.closes == (if g.closer.Closed? then 1 else 0)
  }

  /** Steps the generation still has to take until its exit channel is closed. */
  function Remaining(dispatching: bool, g: Generation): nat {
    (if dispatching || g.launch.Rank() >= 3 then 5 - g.launch.Rank() else 3 - g.launch.Rank()) +
    Left(g.runner) + (if dispatching then Left(g.dispatcher) else 0) +
    match g.closer case Absent => 2 case Waiting => 2 case Woken => 1 case Closed => 0
  }

  function Left(w: Work): nat {
    match w case Idle => 2 case Running => 2 case Returned => 1 case Done => 0
  }

  function Total(dispatching: bool): nat { if dispatching then 11 else 7 }

  lemma OwnStep(dispatching: bool, g: Generation, o: Own)
    requires Consistent(dispatching, g) && CanOwn(dispatching, g, o)
    ensures Consistent(dispatching, DoOwn(g, o))
    ensures Remaining(dispatching, DoOwn(g, o)) == Remaining(dispatching, g) - 1
    ensures DoOwn(g, o).cancelled == g.cancelled
    ensures g.closes <= DoOwn(g, o).closes
  {}

  /** Until its exit channel is closed a generation is never stuck: one of its own steps can be taken. */
  lemma NeverStuck(dispatching: bool, g: Generation)
    requires Consistent(dispatching, g)
    ensures g.closes == 1 <==> Remaining(dispatching, g) == 0
    ensures g.closes == 0 ==> exists o :: CanOwn(dispatching, g, o)
  {
    if g.closes == 0 {
      var o :=
        match g.launch
        case Locked => AddRunner
        case RunnerAdded => GoRunner
        case RunnerUp => if dispatching then AddDispatcher else GoCloser
        case DispatcherAdded => GoDispatcher
        case DispatcherUp => GoCloser
        case Complete =>
          if g.runner.Running? then RunnerReturns
          else if g.runner.Returned? then RunnerDone
          else if dispatching && g.dispatcher.Running? then DispatcherReturns
          else if dispatching && g.dispatcher.Returned? then DispatcherDone
          else if g.closer.Waiting? then Wake
          else Close;
      assert CanOwn(dispatching, g, o);
    }
  }

  // ---------- The service ----------

  datatype StopPhase = Captured | Signalled | Clean | TimedOut

  /** A Stop that found something running: the cancel and the channel it took, and how far it is. */
  datatype StopCall = StopCall(cancel: nat, exit: nat, phase: StopPhase)

  datatype State = State(
    generations: seq<Generation>,
    cancel: Option<nat>,    // whose cancel function the service holds
    exit: Option<nat>,      // whose exit channel it holds
    stops: seq<StopCall>
  )

  const INITIAL := State([], None, None, [])

  datatype Step =
    | Start                    // the locked section of Start
    | Work(g: nat, o: Own)     // a step outside the lock, by Start or a goroutine of generation g
    | Stop                     // the locked section of Stop
    | Cancel(t: nat)           // Stop t calls the cancel function it took
    | SeeExit(t: nat)          // Stop t finds its channel closed and returns nil
    | TimeOut(t: nat)          // Stop t returns the deadline error

  predicate Enabled(dispatching: bool, s: State, step: Step) {
    match step
    case Start => true
    case Stop => true
    case Work(g, o) => g < |s.generations| && CanOwn(dispatching, s.generations[g], o)
    case Cancel(t) => t < |s.stops| && s.stops[t].phase.Captured? && s.stops[t].cancel < |s.generations|
    case SeeExit(t) =>
      t < |s.stops| && s.stops[t].phase.Signalled? &&
      s.stops[t].exit < |s.generations| && s.generations[s.stops[t].exit].closes > 0
    case TimeOut(t) => t < |s.stops| && s.stops[t].phase.Signalled?
  }

  function Do(dispatching: bool, s: State, step: Step): State
    requires Enabled(dispatching, s, step)
  {
    match step
    case Start =>
      if s.cancel.Some? then s
      else
        s.(generations := s.generations + [FRESH],
           cancel := Some(|s.generations|), exit := Some(|s.generations|))
    case Work(g, o) => s.(generations := s.generations[g := DoOwn(s.generations[g], o)])
    case Stop =>
      s.(cancel := None, exit := None,
         stops := if s.cancel.None? || s.exit.None? then s.stops
                  else s.stops + [StopCall(s.cancel.value, s.exit.value, Captured)])
    case Cancel(t) =>
      var g := s.stops[t].cancel;
      s.(generations := s.generations[g := s.generations[g].(cancelled := true)], stops := Moved(s.stops, t, Signalled))
    case SeeExit(t) => s.(stops := Moved(s.stops, t, Clean))
    case TimeOut(t) => s.(stops := Moved(s.stops, t, TimedOut))
  }

  function Moved(stops: seq<StopCall>, t: nat, phase: StopPhase): seq<StopCall>
    requires t < |stops|
  {
    stops[t := stops[t].(phase := phase)]
  }

  // ---------- Counting ----------

  function Took(g: nat): StopCall -> bool { (c: StopCall) => c.cancel == g }

  function Holds(g: nat): StopCall -> bool { (c: StopCall) => c.cancel == g && c.phase.Captured? }

  function MidStop(): StopCall -> bool { (c: StopCall) => c.phase.Captured? }

  function Uncancelled(): Generation -> bool { (g: Generation) => !g.cancelled }

  /** Stops that took generation g's cancel and have not called it yet. */
  function Holders(s: State, g: nat): nat { Count(s.stops, Holds(g)) }

  /** All Stops that ever took generation g. */
  function Takers(s: State, g: nat): nat { Count(s.stops, Took(g)) }

  function Live(s: State): nat { Count(s.generations, Uncancelled()) }

  /** Stops between releasing the mutex and calling the cancel they took. */
  function InFlight(s: State): nat { Count(s.stops, MidStop()) }

  // ---------- What every run keeps ----------

  /** A generation is stored, or held by one Stop about to cancel it, or cancelled: exactly one of
      the three; and no second Stop ever takes it. */
  predicate Placed(s: State, g: nat)
    requires g < |s.generations|
  {
    && Unit(s.cancel == Some(g)) + Holders(s, g) + Unit(s.generations[g].cancelled) == 1
    && Unit(s.cancel == Some(g)) + Takers(s, g) == 1
  }

  predicate StopOk(s: State, c: StopCall) {
    && c.cancel == c.exit < |s.generations|
    && (!c.phase.Captured? ==> s.generations[c.cancel].cancelled)
    && (c.phase.Clean? ==> s.generations[c.cancel].closes == 1)
  }

  ghost predicate Safe(dispatching: bool, s: State) {
    && s.cancel == s.exit
    && (s.cancel.Some? ==> s.cancel.value < |s.generations|)
    && (forall g :: 0 <= g < |s.generations| ==> Consistent(dispatching, s.generations[g]))
    && (forall c :: c in s.stops ==> StopOk(s, c))
    && (forall g :: 0 <= g < |s.generations| ==> Placed(s, g))
    && Live(s) == Unit(s.cancel.Some?) + InFlight(s)
  }

  lemma StartCounts(s: State)
    requires forall c :: c in s.stops ==> c.cancel < |s.generations|
    ensures Count(s.generations + [FRESH], Uncancelled()) == Live(s) + 1
    ensures Count(s.stops, Holds(|s.generations|)) == 0 && Count(s.stops, Took(|s.generations|)) == 0
  {
    CountAppend(s.generations, FRESH, Uncancelled());
    CountNone(s.stops, Holds(|s.generations|));
    CountNone(s.stops, Took(|s.generations|));
  }

  /** A new generation is stored; the others stay where they are. */
  lemma StartPlaces(dispatching: bool, s: State, g: nat)
    requires s.cancel.None? && g <= |s.generations| && (g < |s.generations| ==> Placed(s, g))
    requires forall c :: c in s.stops ==> c.cancel < |s.generations|
    ensures Placed(Do(dispatching, s, Start), g)
  {
    StartCounts(s);
    hide Count;
  }

  lemma StartKeepsSafe(dispatching: bool, s: State)
    requires Safe(dispatching, s)
    ensures Safe(dispatching, Do(dispatching, s, Start))
  {
    if s.cancel.None? {
      var n, s' := |s.generations|, Do(dispatching, s, Start);
      forall c | c in s.stops ensures StopOk(s, c) && StopOk(s', c) && c.cancel < n {}
      hide StopOk;
      StartCounts(s);
      forall g | 0 <= g < n + 1 ensures Placed(s', g) { StartPlaces(dispatching, s, g); }
      FreshIsConsistent(dispatching);
      hide Count, Placed, Consistent;
    }
  }

  lemma FreshIsConsistent(dispatching: bool)
    ensures Consistent(dispatching, FRESH)
  {}

  lemma WorkKeepsSafe(dispatching: bool, s: State, g: nat, o: Own)
    requires Safe(dispatching, s) && Enabled(dispatching, s, Work(g, o))
    ensures Safe(dispatching, Do(dispatching, s, Work(g, o)))
  {
    OwnStep(dispatching, s.generations[g], o);
    CountUpdate(s.generations, g, DoOwn(s.generations[g], o), Uncancelled());
    var s' := Do(dispatching, s, Work(g, o));
    hide DoOwn, CanOwn, Consistent, Remaining, Count;
    forall k | 0 <= k < |s'.generations| ensures Placed(s', k) {
      assert Placed(s, k);
    }
    hide Placed, InFlight, Live;
    forall c | c in s'.stops ensures StopOk(s', c) {
      assert StopOk(s, c);
      assert Consistent(dispatching, s'.generations[c.cancel]);
      ClosesOnce(dispatching, s'.generations[c.cancel]);
    }
  }

  lemma ClosesOnce(dispatching: bool, g: Generation)
    requires Consistent(dispatching, g)
    ensures g.closes <= 1
  {}

  /** The Stop that takes the stored generation becomes its one holder. */
  lemma StopPlaces(dispatching: bool, s: State, g: nat)
    requires s.cancel == s.exit && s.cancel.Some? && g < |s.generations| && Placed(s, g)
    ensures Placed(Do(dispatching, s, Stop), g)
  {
    var call := StopCall(s.cancel.value, s.exit.value, Captured);
    CountAppend(s.stops, call, Holds(g));
    CountAppend(s.stops, call, Took(g));
    hide Count;
  }

  lemma StopCounts(s: State, call: StopCall)
    requires call.phase.Captured?
    ensures var s' := s.(cancel := None, exit := None, stops := s.stops + [call]);
      InFlight(s') == InFlight(s) + 1 && Live(s') == Live(s)
  {
    CountAppend(s.stops, call, MidStop());
  }

  lemma StopKeepsSafe(dispatching: bool, s: State)
    requires Safe(dispatching, s)
    ensures Safe(dispatching, Do(dispatching, s, Stop))
  {
    if s.cancel.Some? {
      var s', call := Do(dispatching, s, Stop), StopCall(s.cancel.value, s.exit.value, Captured);
      StopCounts(s, call);
      forall g | 0 <= g < |s.generations| ensures Placed(s', g) { StopPlaces(dispatching, s, g); }
      hide Count, Consistent, Placed, Live, InFlight;
      forall c | c in s'.stops ensures StopOk(s', c) {
        assert c == call || StopOk(s, c);
      }
    }
  }

  /** The counts after one Stop moves to another phase. */
  lemma MoveCounts(s: State, t: nat, phase: StopPhase, g: nat)
    requires t < |s.stops| && !phase.Captured?
    ensures Count(Moved(s.stops, t, phase), Took(g)) == Takers(s, g)
    ensures Count(Moved(s.stops, t, phase), Holds(g)) == Holders(s, g) - Unit(Holds(g)(s.stops[t]))
    ensures Count(Moved(s.stops, t, phase), MidStop()) == InFlight(s) - Unit(s.stops[t].phase.Captured?)
  {
    var moved := s.stops[t].(phase := phase);
    CountUpdate(s.stops, t, moved, Took(g));
    CountUpdate(s.stops, t, moved, Holds(g));
    CountUpdate(s.stops, t, moved, MidStop());
  }

  lemma CancelKeepsConsistent(dispatching: bool, g: Generation)
    requires Consistent(dispatching, g)
    ensures Consistent(dispatching, g.(cancelled := true))
  {}

  /** Cancelling moves the generation from its holder to the cancelled. */
  lemma CancelPlaces(dispatching: bool, s: State, t: nat, k: nat)
    requires Safe(dispatching, s) && Enabled(dispatching, s, Cancel(t)) && k < |s.generations|
    ensures Placed(Do(dispatching, s, Cancel(t)), k)
  {
    var g := s.stops[t].cancel;
    CountMember(s.stops, t, Holds(g));
    MoveCounts(s, t, Signalled, k);
    assert Placed(s, k) && Placed(s, g);
    hide Count, Consistent, StopOk;
  }

  lemma CancelCounts(dispatching: bool, s: State, t: nat)
    requires Safe(dispatching, s) && Enabled(dispatching, s, Cancel(t))
    ensures var s' := Do(dispatching, s, Cancel(t));
      Live(s') == Live(s) - 1 && InFlight(s') == InFlight(s) - 1
  {
    var g := s.stops[t].cancel;
    CountMember(s.stops, t, Holds(g));
    assert Placed(s, g);
    CountUpdate(s.generations, g, s.generations[g].(cancelled := true), Uncancelled());
    MoveCounts(s, t, Signalled, g);
    hide Count, Consistent, StopOk;
  }

  lemma CancelKeepsSafe(dispatching: bool, s: State, t: nat)
    requires Safe(dispatching, s) && Enabled(dispatching, s, Cancel(t))
    ensures Safe(dispatching, Do(dispatching, s, Cancel(t)))
  {
    var s', g := Do(dispatching, s, Cancel(t)), s.stops[t].cancel;
    CancelCounts(dispatching, s, t);
    CancelKeepsConsistent(dispatching, s.generations[g]);
    forall k | 0 <= k < |s.generations| ensures Placed(s', k) { CancelPlaces(dispatching, s, t, k); }
    hide Count, Consistent, Placed, Live, InFlight;
    assert StopOk(s, s.stops[t]);
    forall c | c in s'.stops ensures StopOk(s', c) {
      assert c == s.stops[t].(phase := Signalled) || c in s.stops;
    }
  }

  lemma EndKeepsSafe(dispatching: bool, s: State, t: nat, step: Step)
    requires step == SeeExit(t) || step == TimeOut(t)
    requires Safe(dispatching, s) && Enabled(dispatching, s, step)
    ensures Safe(dispatching, Do(dispatching, s, step))
  {
    var s' := Do(dispatching, s, step);
    var phase := if step.SeeExit? then Clean else TimedOut;
    MoveCounts(s, t, phase, 0);
    hide Count;
    forall k | 0 <= k < |s.generations| ensures Placed(s', k) {
      assert Placed(s, k);
      MoveCounts(s, t, phase, k);
    }
    assert StopOk(s, s.stops[t]);
    ClosesOnce(dispatching, s.generations[s.stops[t].cancel]);
    forall c | c in s'.stops ensures StopOk(s', c) {
      assert c == s.stops[t].(phase := phase) || c in s.stops;
    }
  }

  lemma StepKeepsSafe(dispatching: bool, s: State, step: Step)
    requires Safe(dispatching, s) && Enabled(dispatching, s, step)
    ensures Safe(dispatching, Do(dispatching, s, step))
  {
    hide Safe, Do, Enabled;
    match step
    case Start => StartKeepsSafe(dispatching, s);
    case Work(g, o) => WorkKeepsSafe(dispatching, s, g, o);
    case Stop => StopKeepsSafe(dispatching, s);
    case Cancel(t) => CancelKeepsSafe(dispatching, s, t);
    case SeeExit(t) => EndKeepsSafe(dispatching, s, t, step);
    case TimeOut(t) => EndKeepsSafe(dispatching, s, t, step);
  }

  // ---------- Runs ----------

  predicate Possible(dispatching: bool, steps: seq<Step>)
    decreases |steps|, 0
  {
    steps == [] ||
    (var n := |steps| - 1;
     Possible(dispatching, steps[..n]) && Enabled(dispatching, After(dispatching, steps[..n]), steps[n]))
  }

  function After(dispatching: bool, steps: seq<Step>): State
    requires Possible(dispatching, steps)
    decreases |steps|, 1
  {
    if steps == [] then INITIAL
    else Do(dispatching, After(dispatching, steps[..|steps| - 1]), steps[|steps| - 1])
  }

  lemma {:induction false} RunsAreSafe(dispatching: bool, steps: seq<Step>)
    requires Possible(dispatching, steps)
    ensures Safe(dispatching, After(dispatching, steps))
  {
    if steps == [] {
    } else {
      var before := steps[..|steps| - 1];
      RunsAreSafe(dispatching, before);
      StepKeepsSafe(dispatching, After(dispatching, before), steps[|steps| - 1]);
    }
  }

  /** Whatever Starts, Stops and early returns are interleaved: every generation is stored, held by
      exactly one Stop that has yet to cancel it, or cancelled; no exit channel is closed twice or
      before both workers returned; and a Stop that took a generation and returns nil does so only
      after both returned. */
  lemma LifecycleSafety(dispatching: bool, steps: seq<Step>, g: nat)
    requires Possible(dispatching, steps)
    requires g < |After(dispatching, steps).generations|
    ensures var s, x := After(dispatching, steps), After(dispatching, steps).generations[g];
      && Unit(s.cancel == Some(g)) + Holders(s, g) + Unit(x.cancelled) == 1
      && Takers(s, g) <= 1
      && x.closes <= 1
      && (x.closes == 1 ==> BothReturned(dispatching, x))
      && (forall t :: 0 <= t < |s.stops| && s.stops[t].cancel == g && s.stops[t].phase.Clean? ==>
            s.stops[t].exit == g && BothReturned(dispatching, x) && x.cancelled)
  {
    RunsAreSafe(dispatching, steps);
    var s := After(dispatching, steps);
    assert Placed(s, g);
    assert Consistent(dispatching, s.generations[g]);
    forall t | 0 <= t < |s.stops| && s.stops[t].cancel == g && s.stops[t].phase.Clean?
      ensures s.stops[t].exit == g && s.generations[g].closes == 1 && s.generations[g].cancelled
    {
      assert StopOk(s, s.stops[t]);
    }
  }

  /** The generations not yet told to stop are the stored one and those whose Stop sits between
      releasing the mutex and cancelling: two overlap exactly when these make two. */
  lemma OverlapsExactly(dispatching: bool, steps: seq<Step>)
    requires Possible(dispatching, steps)
    ensures var s := After(dispatching, steps);
      Live(s) == Unit(s.cancel.Some?) + InFlight(s)
  {
    RunsAreSafe(dispatching, steps);
  }

  lemma Extend(dispatching: bool, steps: seq<Step>, step: Step)
    requires Possible(dispatching, steps) && Enabled(dispatching, After(dispatching, steps), step)
    ensures Possible(dispatching, steps + [step])
    ensures After(dispatching, steps + [step]) == Do(dispatching, After(dispatching, steps), step)
  {
    assert (steps + [step])[..|steps|] == steps;
  }

  /** So a restart can run two collection engines side by side, neither told to stop. */
  lemma RestartCanOverlap() returns (steps: seq<Step>)
    ensures Possible(false, steps)
    ensures var s := After(false, steps);
      |s.generations| == 2 && forall g :: g in s.generations ==> g.runner.Running? && !g.cancelled
  {
    var up := FRESH.(launch := RunnerUp, runner := Running, wg := 1);
    steps := [];
    Extend(false, steps, Start);
    steps := steps + [Start];
    Extend(false, steps, Work(0, AddRunner));
    steps := steps + [Work(0, AddRunner)];
    Extend(false, steps, Work(0, GoRunner));
    steps := steps + [Work(0, GoRunner)];
    Extend(false, steps, Stop);
    steps := steps + [Stop];
    assert After(false, steps) == State([up], None, None, [StopCall(0, 0, Captured)]);
    Extend(false, steps, Start);
    steps := steps + [Start];
    Extend(false, steps, Work(1, AddRunner));
    steps := steps + [Work(1, AddRunner)];
    Extend(false, steps, Work(1, GoRunner));
    steps := steps + [Work(1, GoRunner)];
    assert After(false, steps).generations == [up, up];
  }

  // ---------- Every exit channel is closed by a fixed number of steps ----------

  function IsOwn(g: nat): Step -> bool { (step: Step) => step.Work? && step.g == g }

  /** How many of its own steps a generation has behind it. */
  function Progress(dispatching: bool, s: State, g: nat): int {
    if g < |s.generations| then Total(dispatching) - Remaining(dispatching, s.generations[g]) else 0
  }

  lemma StepProgress(dispatching: bool, s: State, step: Step, g: nat)
    requires Safe(dispatching, s) && Enabled(dispatching, s, step)
    ensures Progress(dispatching, Do(dispatching, s, step), g) == Progress(dispatching, s, g) + Unit(IsOwn(g)(step))
  {
    hide Placed, StopOk, Count, Live, InFlight;
    match step
    case Work(k, o) => OwnStep(dispatching, s.generations[k], o);
    case _ => hide Consistent;
  }

  /** Each generation's own steps, counted along the run. */
  lemma {:induction false} StepsAreCounted(dispatching: bool, steps: seq<Step>, g: nat)
    requires Possible(dispatching, steps)
    ensures Count(steps, IsOwn(g)) == Progress(dispatching, After(dispatching, steps), g)
  {
    hide Do, Enabled, Progress, Safe;
    if steps == [] {
      NoProgress(dispatching, g);
    } else {
      var before := steps[..|steps| - 1];
      StepsAreCounted(dispatching, before, g);
      RunsAreSafe(dispatching, before);
      StepProgress(dispatching, After(dispatching, before), steps[|steps| - 1], g);
    }
  }

  lemma NoProgress(dispatching: bool, g: nat)
    ensures Progress(dispatching, INITIAL, g) == 0
  {}

  /** The exit channel of a generation is closed exactly when 11 of its own steps (7 without a
      dispatcher) have been taken, and until then one can be: nothing but a worker that never
      returns delays it. */
  lemma ClosedAfterExactly(dispatching: bool, steps: seq<Step>, g: nat)
    requires Possible(dispatching, steps)
    requires g < |After(dispatching, steps).generations|
    ensures var s := After(dispatching, steps);
      && Count(steps, IsOwn(g)) <= Total(dispatching)
      && (s.generations[g].closes == 1 <==> Count(steps, IsOwn(g)) == Total(dispatching))
      && (s.generations[g].closes == 0 ==> exists o :: Enabled(dispatching, s, Work(g, o)))
  {
    RunsAreSafe(dispatching, steps);
    StepsAreCounted(dispatching, steps, g);
    var s := After(dispatching, steps);
    NeverStuck(dispatching, s.generations[g]);
    if s.generations[g].closes == 0 {
      var o :| CanOwn(dispatching, s.generations[g], o);
      assert Enabled(dispatching, s, Work(g, o));
    }
  }
}
