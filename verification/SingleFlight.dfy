/** The hardware scan's single flight: one flag under a mutex, startup calls that run the scan
    directly, and triggers (ticker or retry timer) that hand it to a goroutine. */
module SingleFlight {
  import opened Counting

  datatype Pc =
    | Entered      // about to read the flag, under the lock
    | Rechecking   // read it clear, about to set it, under the lock again
    | Scanning
    | Unwinding    // the scan's own deferred clear is next, if it set the flag
    | Leaving      // the goroutine's deferred clear is next
    | Ended

  /** One execution of the scan: in a goroutine that a trigger started after setting the flag, or
      called directly by Run at startup. `took` tells whether the execution set the flag itself. */
  datatype Scan = Scan(triggered: bool, took: bool, pc: Pc) {
    predicate Owns() {
      (triggered && !pc.Ended?) || (took && (pc.Scanning? || pc.Unwinding?))
    }
    predicate Intrudes() { pc.Scanning? && !Owns() }
  }

  datatype State = State(flag: bool, scans: seq<Scan>, timers: nat)

  const INITIAL := State(false, [], 0)

  datatype Step =
    | BeginRun                          // a Run makes its startup call
    | Tick                              // a trigger from the ticker
    | Retry                             // a trigger from a retry timer
    | Expire                            // a retry timer that finds its context cancelled
    | Read(t: nat)
    | Recheck(t: nat)
    | Finish(t: nat, retry: bool)       // the collection is over; a failed one may schedule a retry
    | ClearInner(t: nat)
    | ClearOuter(t: nat)

  predicate At(s: State, t: nat, pc: Pc) { t < |s.scans| && s.scans[t].pc == pc }

  predicate Enabled(s: State, step: Step) {
    match step
    case BeginRun => true
    case Tick => true
    case Retry => s.timers > 0
    case Expire => s.timers > 0
    case Read(t) => At(s, t, Entered)
    case Recheck(t) => At(s, t, Rechecking)
    case Finish(t, _) => At(s, t, Scanning)
    case ClearInner(t) => At(s, t, Unwinding)
    case ClearOuter(t) => At(s, t, Leaving)
  }

  function Trigger(s: State): State {
    if s.flag then s else s.(flag := true, scans := s.scans + [Scan(true, false, Entered)])
  }

  function Moved(s: State, t: nat, pc: Pc): State
    requires t < |s.scans|
  {
    s.(scans := s.scans[t := s.scans[t].(pc := pc)])
  }

  function Do(s: State, step: Step): State
    requires Enabled(s, step)
  {
    match step
    case BeginRun => s.(scans := s.scans + [Scan(false, false, Entered)])
    case Tick => Trigger(s)
    case Retry => Trigger(s.(timers := s.timers - 1))
    case Expire => s.(timers := s.timers - 1)
    case Read(t) => Moved(s, t, if s.flag then Scanning else Rechecking)
    case Recheck(t) =>
      if s.flag then Moved(s, t, if s.scans[t].triggered then Leaving else Ended)
      else s.(flag := true, scans := s.scans[t := s.scans[t].(took := true, pc := Scanning)])
    case Finish(t, retry) =>
      var pc := if s.scans[t].took then Unwinding else if s.scans[t].triggered then Leaving else Ended;
      Moved(s, t, pc).(timers := s.timers + Unit(retry))
    case ClearInner(t) => Moved(s, t, if s.scans[t].triggered then Leaving else Ended).(flag := false)
    case ClearOuter(t) => Moved(s, t, Ended).(flag := false)
  }

  // ---------- The flag has exactly one owner ----------

  function Owning(): Scan -> bool { (x: Scan) => x.Owns() }

  function Intruding(): Scan -> bool { (x: Scan) => x.Intrudes() }

  function Active(): Scan -> bool { (x: Scan) => x.pc.Scanning? }

  function OwnerScanning(): Scan -> bool { (x: Scan) => x.pc.Scanning? && x.Owns() }

  predicate ScanOk(x: Scan) {
    && (x.triggered ==> !x.took && !x.pc.Rechecking? && !x.pc.Unwinding?)
    && (x.took ==> x.pc.Scanning? || x.pc.Unwinding? || x.pc.Ended?)
    && (x.pc.Unwinding? ==> x.took)
    && (x.pc.Leaving? ==> x.triggered)
  }

  /** The flag is set exactly while one execution owns it. */
  ghost predicate OneOwner(s: State) {
    && Count(s.scans, Owning()) == Unit(s.flag)
    && forall x :: x in s.scans ==> ScanOk(x)
  }

  lemma TriggerKeepsOneOwner(s: State)
    requires OneOwner(s)
    ensures OneOwner(Trigger(s))
  {
    CountAppend(s.scans, Scan(true, false, Entered), Owning());
    hide Count;
  }

  lemma StepKeepsOneOwner(s: State, step: Step)
    requires OneOwner(s) && Enabled(s, step)
    ensures OneOwner(Do(s, step))
  {
    if step.BeginRun? {
      CountAppend(s.scans, Scan(false, false, Entered), Owning());
    } else if step.Tick? {
      TriggerKeepsOneOwner(s);
    } else if step.Retry? {
      TriggerKeepsOneOwner(s.(timers := s.timers - 1));
    } else if !step.Expire? {
      var s', x := Do(s, step), s.scans[step.t];
      CountUpdate(s.scans, step.t, s'.scans[step.t], Owning());
      assert ScanOk(x);
      if x.Owns() { CountMember(s.scans, step.t, Owning()); }
      assert ScanOk(s'.scans[step.t]);
      forall y | y in s'.scans ensures ScanOk(y) {
        assert y == s'.scans[step.t] || y in s.scans;
      }
    }
  }

  // ---------- Runs ----------

  predicate Possible(steps: seq<Step>)
    decreases |steps|, 0
  {
    steps == [] ||
    (var n := |steps| - 1; Possible(steps[..n]) && Enabled(After(steps[..n]), steps[n]))
  }

  function After(steps: seq<Step>): State
    requires Possible(steps)
    decreases |steps|, 1
  {
    if steps == [] then INITIAL else Do(After(steps[..|steps| - 1]), steps[|steps| - 1])
  }

  lemma {:induction false} RunsKeepOneOwner(steps: seq<Step>)
    requires Possible(steps)
    ensures OneOwner(After(steps))
  {
    if steps == [] {
    } else {
      var before := steps[..|steps| - 1];
      RunsKeepOneOwner(before);
      StepKeepsOneOwner(After(before), steps[|steps| - 1]);
    }
  }

  /** In every reachable state: the flag is set exactly while one execution owns it, and the scans
      under way are the owner's, if it has come so far, and those of the intruders. */
  lemma ActiveExactly(steps: seq<Step>)
    requires Possible(steps)
    ensures var s := After(steps);
      && Count(s.scans, Owning()) == Unit(s.flag)
      && Count(s.scans, Active()) == Count(s.scans, OwnerScanning()) + Count(s.scans, Intruding())
      && Count(s.scans, OwnerScanning()) <= Unit(s.flag)
  {
    RunsKeepOneOwner(steps);
    var s := After(steps);
    CountSplit(s.scans, Active(), OwnerScanning(), Intruding());
    CountAtMost(s.scans, OwnerScanning(), Owning());
  }

  function Scheduled(): Step -> bool { (step: Step) => step.Finish? && step.retry }

  function Fired(): Step -> bool { (step: Step) => step.Retry? || step.Expire? }

  /** Every retry timer was set by a scan that failed, and goes off once: as many are pending as were set
      and have not gone off. */
  lemma {:induction false} TimersExactly(steps: seq<Step>)
    requires Possible(steps)
    ensures After(steps).timers + Count(steps, Fired()) == Count(steps, Scheduled())
  {
    if steps == [] {
    } else {
      var before, last := steps[..|steps| - 1], steps[|steps| - 1];
      TimersExactly(before);
      assert steps == before + [last];
      CountAppend(before, last, Fired());
      CountAppend(before, last, Scheduled());
    }
  }

  /** A startup call finds the flag set and scans all the same. */
  predicate Intrusion(s: State, step: Step) {
    step.Read? && At(s, step.t, Entered) && !s.scans[step.t].triggered && s.flag
  }

  predicate Undisturbed(steps: seq<Step>)
    requires Possible(steps)
    decreases |steps|
  {
    steps == [] ||
    (var n := |steps| - 1; Undisturbed(steps[..n]) && !Intrusion(After(steps[..n]), steps[n]))
  }

  lemma StepAddsNoIntruder(s: State, step: Step)
    requires OneOwner(s) && Enabled(s, step) && !Intrusion(s, step)
    requires Count(s.scans, Intruding()) == 0
    ensures Count(Do(s, step).scans, Intruding()) == 0
  {
    hide Count;
    if step.BeginRun? {
      CountAppend(s.scans, Scan(false, false, Entered), Intruding());
    } else if step.Tick? || step.Retry? {
      CountAppend(s.scans, Scan(true, false, Entered), Intruding());
    } else if !step.Expire? {
      assert ScanOk(s.scans[step.t]);
      CountUpdate(s.scans, step.t, Do(s, step).scans[step.t], Intruding());
    }
  }

  lemma {:induction false} NoIntruders(steps: seq<Step>)
    requires Possible(steps) && Undisturbed(steps)
    ensures Count(After(steps).scans, Intruding()) == 0
  {
    if steps == [] {
    } else {
      var before := steps[..|steps| - 1];
      NoIntruders(before);
      RunsKeepOneOwner(before);
      StepAddsNoIntruder(After(before), steps[|steps| - 1]);
    }
  }

  /** Single flight holds whenever no startup call found the flag set. */
  lemma SingleFlightUndisturbed(steps: seq<Step>)
    requires Possible(steps) && Undisturbed(steps)
    ensures Count(After(steps).scans, Active()) <= 1
  {
    ActiveExactly(steps);
    NoIntruders(steps);
  }

  /** The first startup call that finds the flag set makes a second active scan exactly if the
      flag's owner is scanning just then; otherwise it is the only one. */
  lemma FirstIntrusion(steps: seq<Step>, step: Step)
    requires Possible(steps) && Undisturbed(steps)
    requires Enabled(After(steps), step) && Intrusion(After(steps), step)
    ensures var s := After(steps);
      Count(Do(s, step).scans, Active()) == if Count(s.scans, OwnerScanning()) == 1 then 2 else 1
  {
    var s := After(steps);
    ActiveExactly(steps);
    NoIntruders(steps);
    CountUpdate(s.scans, step.t, s.scans[step.t].(pc := Scanning), Active());
  }

  // ---------- One Run, many Runs ----------

  /** The steps of a single Run: its startup call comes first, and it listens to its ticker only
      after that call has returned. */
  predicate OneRun(steps: seq<Step>)
    requires Possible(steps)
    decreases |steps|
  {
    steps == [] ||
    (var n := |steps| - 1;
     && OneRun(steps[..n])
     && (steps[n].BeginRun? <==> n == 0)
     && (steps[n].Tick? ==> After(steps[..n]).scans != [] && After(steps[..n]).scans[0].pc.Ended?))
  }

  /** Until the startup call starts scanning, nothing else in the Run touches the flag. */
  predicate StartupAlone(s: State) {
    && s.scans != [] && !s.scans[0].triggered
    && (forall i :: 0 < i < |s.scans| ==> s.scans[i].triggered)
    && (s.scans[0].pc.Entered? || s.scans[0].pc.Rechecking? ==> |s.scans| == 1 && !s.flag && s.timers == 0)
  }

  lemma {:induction false} OneRunIsUndisturbed(steps: seq<Step>)
    requires Possible(steps) && OneRun(steps) && steps != []
    ensures Undisturbed(steps) && StartupAlone(After(steps))
  {
    var before, step := steps[..|steps| - 1], steps[|steps| - 1];
    if before == [] {
      assert After(before) == INITIAL;
    } else {
      OneRunIsUndisturbed(before);
      RunsKeepOneOwner(before);
      var s := After(before);
      assert ScanOk(s.scans[0]);
      if s.scans[0].pc.Entered? || s.scans[0].pc.Rechecking? {
        assert s.scans == [s.scans[0]];
      }
    }
  }

  /** Within one Run, whatever the ticker, the timers and failing collections do, at most one
      hardware scan is active. */
  lemma SingleFlightInOneRun(steps: seq<Step>)
    requires Possible(steps) && OneRun(steps)
    ensures Count(After(steps).scans, Active()) <= 1
  {
    if steps != [] { OneRunIsUndisturbed(steps); }
    SingleFlightUndisturbed(steps);
  }

  lemma {:induction false} TriggersAreUndisturbed(steps: seq<Step>)
    requires Possible(steps) && forall step :: step in steps ==> !step.BeginRun?
    ensures Undisturbed(steps)
    ensures forall x :: x in After(steps).scans ==> x.triggered
  {
    if steps == [] {
    } else {
      TriggersAreUndisturbed(steps[..|steps| - 1]);
    }
  }

  /** The software, security, process and network scans only ever start through triggers, so they
      stay single however many Runs there are. */
  lemma SingleFlightOfTriggers(steps: seq<Step>)
    requires Possible(steps) && forall step :: step in steps ==> !step.BeginRun?
    ensures Count(After(steps).scans, Active()) <= 1
  {
    TriggersAreUndisturbed(steps);
    SingleFlightUndisturbed(steps);
  }

  lemma Extend(steps: seq<Step>, step: Step)
    requires Possible(steps) && Enabled(After(steps), step)
    ensures Possible(steps + [step]) && After(steps + [step]) == Do(After(steps), step)
  {
    assert (steps + [step])[..|steps|] == steps;
  }

  /** A second Run that starts during a scan of the first scans at the same time. */
  lemma TwoRunsCanCollide() returns (steps: seq<Step>)
    ensures Possible(steps)
    ensures After(steps).scans == [Scan(false, true, Scanning), Scan(false, false, Scanning)]
  {
    steps := [];
    Extend(steps, BeginRun);
    steps := steps + [BeginRun];
    Extend(steps, Read(0));
    steps := steps + [Read(0)];
    Extend(steps, Recheck(0));
    steps := steps + [Recheck(0)];
    assert After(steps) == State(true, [Scan(false, true, Scanning)], 0);
    Extend(steps, BeginRun);
    steps := steps + [BeginRun];
    Extend(steps, Read(1));
    steps := steps + [Read(1)];
  }
}
