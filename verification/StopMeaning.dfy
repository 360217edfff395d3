/** What a nil from Stop tells its caller about the workers of every generation launched so far. */
module StopMeaning {
  import opened Counting
  import opened Options
  import opened AgentLifecycle

  /** Every generation launched so far has both its workers behind it. */
  predicate AllReturned(dispatching: bool, s: State) {
    forall g :: g in s.generations ==> BothReturned(dispatching, g)
  }

  /** What has become of the Stops that took a generation, in the order in which they took them, and
      whether a generation is stored. */
  datatype View = View(stored: bool, phases: seq<StopPhase>) {
    predicate Settled() {
      !stored && forall i :: 0 <= i < |phases| ==> phases[i].Clean?
    }
  }

  function ViewOf(s: State): View {
    View(s.cancel.Some?, seq(|s.stops|, i requires 0 <= i < |s.stops| => s.stops[i].phase))
  }

  /** The run ends with a Stop returning nil: the t-th of those that took a generation, or one that
      found nothing stored. */
  predicate EndsInNil(dispatching: bool, steps: seq<Step>, who: Option<nat>)
    requires Possible(dispatching, steps)
  {
    steps != [] &&
    var before, last := After(dispatching, steps[..|steps| - 1]), steps[|steps| - 1];
    match who
    case None => last.Stop? && (before.cancel.None? || before.exit.None?)
    case Some(t) => last == SeeExit(t)
  }

  /** Outcomes with which that Stop can return nil at all. */
  predicate Fits(v: View, who: Option<nat>) {
    match who
    case None => !v.stored
    case Some(t) => t < |v.phases| && v.phases[t].Clean?
  }

  /** In every run with these outcomes the nil means that all workers have returned. */
  ghost predicate NilTells(dispatching: bool, v: View, who: Option<nat>) {
    forall steps: seq<Step> | Possible(dispatching, steps) ::
      EndsInNil(dispatching, steps, who) && ViewOf(After(dispatching, steps)) == v ==>
        AllReturned(dispatching, After(dispatching, steps))
  }

  // ---------- Settled outcomes suffice ----------

  lemma {:induction false} CountWitness<T>(s: seq<T>, p: T -> bool) returns (i: nat)
    requires Count(s, p) >= 1
    ensures i < |s| && p(s[i])
  {
    if p(s[|s| - 1]) {
      i := |s| - 1;
    } else {
      i := CountWitness(s[..|s| - 1], p);
    }
  }

  lemma SettledMeansReturned(dispatching: bool, s: State)
    requires Safe(dispatching, s) && ViewOf(s).Settled()
    ensures AllReturned(dispatching, s)
  {
    forall k | 0 <= k < |s.generations| ensures BothReturned(dispatching, s.generations[k]) {
      assert Placed(s, k);
      var t := CountWitness(s.stops, Took(k));
      assert ViewOf(s).phases[t].Clean?;
      assert StopOk(s, s.stops[t]);
      assert Consistent(dispatching, s.generations[k]);
    }
  }

  // ---------- Any other outcome allows a run with a worker left ----------

  const UP := FRESH.(launch := RunnerUp, runner := Running, wg := 1)

  lemma Launch(dispatching: bool, steps: seq<Step>) returns (longer: seq<Step>)
    requires Possible(dispatching, steps) && After(dispatching, steps).cancel.None?
    ensures Possible(dispatching, longer)
    ensures var s := After(dispatching, steps); var n := |s.generations|;
      After(dispatching, longer) == s.(generations := s.generations + [UP], cancel := Some(n), exit := Some(n))
  {
    hide Possible, After;
    var s := After(dispatching, steps);
    var n := |s.generations|;
    Extend(dispatching, steps, Start);
    longer := steps + [Start];
    Extend(dispatching, longer, Work(n, AddRunner));
    longer := longer + [Work(n, AddRunner)];
    Extend(dispatching, longer, Work(n, GoRunner));
    longer := longer + [Work(n, GoRunner)];
    assert After(dispatching, longer).generations == s.generations + [UP];
  }

  /** A generation is launched and taken by a Stop. */
  lemma LaunchAndTake(dispatching: bool, steps: seq<Step>) returns (longer: seq<Step>)
    requires Possible(dispatching, steps) && After(dispatching, steps).cancel.None?
    ensures Possible(dispatching, longer)
    ensures var s := After(dispatching, steps); var n := |s.generations|;
      After(dispatching, longer) ==
      State(s.generations + [UP], None, None, s.stops + [StopCall(n, n, Captured)])
  {
    hide Possible, After;
    longer := Launch(dispatching, steps);
    Extend(dispatching, longer, Stop);
    longer := longer + [Stop];
  }

  /** Steps of its own close the exit channel of any generation. */
  lemma {:induction false} CloseOut(dispatching: bool, steps: seq<Step>, g: nat) returns (longer: seq<Step>)
    requires Possible(dispatching, steps) && g < |After(dispatching, steps).generations|
    ensures Possible(dispatching, longer)
    ensures var s, s' := After(dispatching, steps), After(dispatching, longer);
      |s'.generations| == |s.generations| && s'.generations[g].closes == 1
      && s' == s.(generations := s.generations[g := s'.generations[g]])
    decreases Remaining(dispatching, After(dispatching, steps).generations[g])
  {
    var s := After(dispatching, steps);
    RunsAreSafe(dispatching, steps);
    var x := s.generations[g];
    assert Consistent(dispatching, x);
    hide Safe, Possible, After, Consistent, CanOwn, Remaining;
    NeverStuck(dispatching, x);
    ClosesOnce(dispatching, x);
    longer := steps;
    if x.closes == 0 {
      var o :| CanOwn(dispatching, x, o);
      OwnStep(dispatching, x, o);
      Extend(dispatching, steps, Work(g, o));
      longer := CloseOut(dispatching, steps + [Work(g, o)], g);
    }
  }

  /** How far the run is to bring the i-th Stop before its end: the one that is to return nil last is
      kept waiting. */
  function Target(phases: seq<StopPhase>, who: Option<nat>, i: nat): StopPhase
    requires i < |phases|
  {
    if who == Some(i) then Signalled else phases[i]
  }

  /** The first `n` generations were taken by one Stop each; those whose Stop is to end cleanly are
      over, the runners of the others run. */
  ghost predicate Built(s: State, phases: seq<StopPhase>, who: Option<nat>, n: nat)
    requires n <= |phases|
  {
    && s.cancel == None && s.exit == None && |s.generations| == |s.stops| == n
    && forall i :: 0 <= i < n ==>
         && s.stops[i] == StopCall(i, i, Target(phases, who, i))
         && if phases[i].Clean? then s.generations[i].closes == 1 else s.generations[i].runner.Running?
  }

  /** `s'` continues `s` after its k-th Stop has gone on, alone, to `phase`. */
  ghost predicate Driven(s: State, s': State, k: nat, phase: StopPhase, clean: bool) {
    && |s.generations| == |s'.generations| == |s.stops| == |s'.stops| == k + 1
    && s'.cancel == s.cancel && s'.exit == s.exit
    && s'.generations[..k] == s.generations[..k] && s'.stops[..k] == s.stops[..k]
    && s'.stops[k] == StopCall(k, k, phase)
    && if clean then s'.generations[k].closes == 1 else s'.generations[k].runner.Running?
  }

  lemma Drive(dispatching: bool, steps: seq<Step>, k: nat, phase: StopPhase, wait: bool) returns (longer: seq<Step>)
    requires Possible(dispatching, steps) && (wait ==> phase.Clean?)
    requires var s := After(dispatching, steps);
      |s.generations| == |s.stops| == k + 1 && s.generations[k] == UP && s.stops[k] == StopCall(k, k, Captured)
    ensures Possible(dispatching, longer)
    ensures Driven(After(dispatching, steps), After(dispatching, longer), k,
                   if wait then Signalled else phase, phase.Clean?)
  {
    hide Possible, After;
    longer := steps;
    if !phase.Captured? {
      Extend(dispatching, longer, Cancel(k));
      longer := longer + [Cancel(k)];
      if phase.TimedOut? {
        Extend(dispatching, longer, TimeOut(k));
        longer := longer + [TimeOut(k)];
      } else if phase.Clean? {
        longer := CloseOut(dispatching, longer, k);
        if !wait {
          Extend(dispatching, longer, SeeExit(k));
          longer := longer + [SeeExit(k)];
        }
      }
    }
  }

  lemma {:induction false} Build(dispatching: bool, phases: seq<StopPhase>, who: Option<nat>, n: nat)
    returns (steps: seq<Step>)
    requires n <= |phases| && (who.Some? && who.value < |phases| ==> phases[who.value].Clean?)
    ensures Possible(dispatching, steps) && Built(After(dispatching, steps), phases, who, n)
  {
    if n == 0 {
      steps := [];
    } else {
      var k := n - 1;
      steps := Build(dispatching, phases, who, k);
      hide Possible, After, Built;
      var s := After(dispatching, steps);
      BuiltSize(s, phases, who, k);
      steps := LaunchAndTake(dispatching, steps);
      var taken := After(dispatching, steps);
      steps := Drive(dispatching, steps, k, phases[k], who == Some(k));
      OneMoreBuilt(s, taken, After(dispatching, steps), phases, who, k);
    }
  }

  lemma BuiltSize(s: State, phases: seq<StopPhase>, who: Option<nat>, n: nat)
    requires n <= |phases| && Built(s, phases, who, n)
    ensures s.cancel == None && s.exit == None && |s.generations| == |s.stops| == n
  {}

  lemma OneMoreBuilt(s: State, taken: State, s': State, phases: seq<StopPhase>, who: Option<nat>, k: nat)
    requires k < |phases| && Built(s, phases, who, k)
    requires taken == State(s.generations + [UP], None, None, s.stops + [StopCall(k, k, Captured)])
    requires Driven(taken, s', k, Target(phases, who, k), phases[k].Clean?)
    ensures Built(s', phases, who, k + 1)
  {
    forall i | 0 <= i < k ensures s'.generations[i] == s.generations[i] && s'.stops[i] == s.stops[i] {
      assert s'.generations[i] == s'.generations[..k][i] && s'.stops[i] == s'.stops[..k][i];
      assert taken.generations[..k][i] == s.generations[i] && taken.stops[..k][i] == s.stops[i];
    }
  }

  /** A run with the given outcomes at the end of which a worker has not returned. */
  lemma Unsettled(dispatching: bool, v: View, who: Option<nat>) returns (steps: seq<Step>)
    requires Fits(v, who) && !v.Settled()
    ensures Possible(dispatching, steps) && EndsInNil(dispatching, steps, who)
    ensures ViewOf(After(dispatching, steps)) == v && !AllReturned(dispatching, After(dispatching, steps))
  {
    var n := |v.phases|;
    steps := Build(dispatching, v.phases, who, n);
    hide Possible, After;
    var s := After(dispatching, steps);
    if v.stored { steps := Launch(dispatching, steps); }
    var mid := After(dispatching, steps);
    StillRunning(dispatching, v, who, s, mid);
    var last := if who.None? then Stop else SeeExit(who.value);
    Extend(dispatching, steps, last);
    assert (steps + [last])[..|steps|] == steps;
    steps := steps + [last];
    assert After(dispatching, steps).generations == mid.generations;
  }

  lemma StillRunning(dispatching: bool, v: View, who: Option<nat>, s: State, mid: State)
    requires Fits(v, who) && !v.Settled() && Built(s, v.phases, who, |v.phases|)
    requires if v.stored then mid.generations == s.generations + [UP] else mid == s
    ensures !AllReturned(dispatching, mid)
  {
    if v.stored {
      assert UP in mid.generations;
    } else {
      var i :| 0 <= i < |v.phases| && !v.phases[i].Clean?;
      assert s.generations[i] in mid.generations;
    }
  }

  // ---------- Main result ----------

  /** For given outcomes a nil from Stop means in every run that the workers of all generations
      launched before have returned if and only if nothing is stored and every Stop that took a
      generation has itself returned nil. */
  lemma NilTellsExactly(dispatching: bool, v: View, who: Option<nat>)
    requires Fits(v, who)
    ensures NilTells(dispatching, v, who) <==> v.Settled()
  {
    if v.Settled() {
      forall steps: seq<Step> | Possible(dispatching, steps)
        ensures ViewOf(After(dispatching, steps)) == v ==> AllReturned(dispatching, After(dispatching, steps))
      {
        RunsAreSafe(dispatching, steps);
        if ViewOf(After(dispatching, steps)) == v { SettledMeansReturned(dispatching, After(dispatching, steps)); }
      }
    } else {
      var steps := Unsettled(dispatching, v, who);
    }
  }

  /** The shortest case: one Stop has yet to cancel when the next one finds nothing to stop. */
  lemma SecondStop(dispatching: bool) returns (steps: seq<Step>)
    ensures Possible(dispatching, steps) && EndsInNil(dispatching, steps, None)
    ensures ViewOf(After(dispatching, steps)) == View(false, [Captured])
    ensures !AllReturned(dispatching, After(dispatching, steps))
  {
    assert !View(false, [Captured]).Settled() by { assert ![Captured][0].Clean?; }
    steps := Unsettled(dispatching, View(false, [Captured]), None);
  }

  /** Having taken a generation is not enough: the Stop of a restarted service returns nil while the
      first engine runs on, not even cancelled yet. */
  lemma RestartedStop(dispatching: bool) returns (steps: seq<Step>)
    ensures Possible(dispatching, steps) && EndsInNil(dispatching, steps, Some(1))
    ensures ViewOf(After(dispatching, steps)) == View(false, [Captured, Clean])
    ensures !AllReturned(dispatching, After(dispatching, steps))
  {
    assert !View(false, [Captured, Clean]).Settled() by { assert ![Captured, Clean][0].Clean?; }
    steps := Unsettled(dispatching, View(false, [Captured, Clean]), Some(1));
  }
}
