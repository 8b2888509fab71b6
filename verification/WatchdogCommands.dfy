/** Which commands a scan that runs to its end issues, container by container. */
module WatchdogCommands {
  import opened Order
  import opened WatchdogText
  import opened WatchdogPolicy
  import opened WatchdogScan
  import opened WatchdogTrack

  predicate CommandFor(step: Step, x: string) {
    (step.RestartCommand? && step.name == x) || (step.NotifyCommand? && step.name == x)
  }

  /** The commands issued for `x`, in order. */
  function Issued(steps: seq<Step>, x: string): seq<Step> {
    if steps == [] then [] else
      Issued(steps[..|steps| - 1], x) + (if CommandFor(steps[|steps| - 1], x) then [steps[|steps| - 1]] else [])
  }

  /** What `Decide` and the command's result call for. */
  function Expected(p: Plan, cfg: Config, env: Env, now: int, x: string): seq<Step> {
    match p.action
    case Exhausted => if p.notify then [NotifyCommand(x, true, env.notifyOk(x))] else []
    case Restart => [RestartCommand(x, env.restartOk(x))] + Notices(p.state, cfg, env, now, x)
    case _ => []
  }

  /** The notice after a restart command: a calm one when it succeeded, else an urgent one
      unless the cooldown holds it back. */
  function Notices(s: State, cfg: Config, env: Env, now: int, x: string): seq<Step> {
    if env.restartOk(x) then [NotifyCommand(x, false, env.notifyOk(x))]
    else if now - s.lastAlert >= cfg.cooldown then [NotifyCommand(x, true, env.notifyOk(x))]
    else []
  }

  lemma EmitIssues(run: Run, step: Step, x: string)
    ensures Issued(Emit(run, step).steps, x) == Issued(run.steps, x) + (if CommandFor(step, x) then [step] else [])
  {
    assert (run.steps + [step])[..|run.steps|] == run.steps;
  }

  lemma {:induction false} BesideIssues(a: Run, b: Run, x: string)
    requires Beside(a, b, x)
    ensures Issued(b.steps, x) == Issued(a.steps, x)
  {
    SuffixIssues(a.steps, b.steps, x);
  }

  lemma {:induction false} SuffixIssues(before: seq<Step>, steps: seq<Step>, x: string)
    requires |before| <= |steps| && steps[..|before|] == before
    requires forall i :: |before| <= i < |steps| ==> !About(steps[i], x)
    ensures Issued(steps, x) == Issued(before, x)
    decreases |steps|
  {
    if |before| == |steps| {
      assert steps == before;
    } else {
      var less := steps[..|steps| - 1];
      assert less[..|before|] == before;
      SuffixIssues(before, less, x);
      assert !About(steps[|steps| - 1], x);
    }
  }

  lemma PublishIssues(run: Run, env: Env, x: string)
    ensures Issued(Publish(run, env).steps, x) == Issued(run.steps, x)
    ensures Issued(Fail(run, env).steps, x) == Issued(run.steps, x)
  {
    hide Publish;
    PublishBeside(run, env, x);
    BesideIssues(run, Publish(run, env), x);
  }

  lemma SaveIssues(run: Run, env: Env, s: State, x: string)
    ensures Issued(Save(run, env, x, s).steps, x) == Issued(run.steps, x)
  {
    hide Publish, Issued;
    var a := run.(writes := run.writes + 1);
    EmitIssues(a, WriteState(x, s), x);
    PublishIssues(a, env, x);
  }

  lemma NotifyIssues(run: Run, env: Env, urgent: bool, x: string)
    ensures var out := Notify(run, env, x, urgent);
            !out.stopped ==> Issued(out.steps, x) == Issued(run.steps, x) + [NotifyCommand(x, urgent, env.notifyOk(x))]
  {
    hide Publish, Issued;
    var a := run.(r := run.r.(notifications := run.r.notifications + 1));
    PublishIssues(a, env, x);
    var b := Publish(a, env);
    if !b.stopped {
      EmitIssues(b, NotifyCommand(x, urgent, env.notifyOk(x)), x);
      var c := Emit(b, NotifyCommand(x, urgent, env.notifyOk(x)));
      PublishIssues(if env.notifyOk(x) then c else c.(r := c.r.(notificationFailures := c.r.notificationFailures + 1)), env, x);
    }
  }

  lemma ReportIssues(run: Run, cfg: Config, env: Env, now: int, x: string)
    requires x in run.r.containers
    ensures var out := Report(run, cfg, env, now, x);
            !out.stopped ==> Issued(out.steps, x) == Issued(run.steps, x) + Notices(run.r.containers[x].state, cfg, env, now, x)
  {
    hide Save, Notify, Issued;
    var c := run.r.containers[x];
    if env.restartOk(x) {
      NotifyIssues(run, env, false, x);
    } else if now - c.state.lastAlert >= cfg.cooldown {
      var stamped := c.(state := c.state.(lastAlert := now));
      var a := run.(r := SetContainer(run.r, x, stamped));
      SaveIssues(a, env, stamped.state, x);
      NotifyIssues(Save(a, env, x, stamped.state), env, true, x);
    }
  }

  lemma TryRestartIssues(run: Run, cfg: Config, env: Env, now: int, x: string, p: Plan)
    requires x in run.r.containers && p.action == Restart && run.r.containers[x].state == p.state
    ensures var out := TryRestart(run, cfg, env, now, x);
            !out.stopped ==> Issued(out.steps, x) == Issued(run.steps, x) + Expected(p, cfg, env, now, x)
  {
    hide Publish, Save, Report, Issued;
    var i := Intend(run, x);
    var a := Publish(i, env);
    PublishIssues(i, env, x);
    if !a.stopped {
      var b := Command(a, env, now, x);
      EmitIssues(a, RestartCommand(x, env.restartOk(x)), x);
      var c := Save(b, env, x, b.r.containers[x].state);
      SaveIssues(b, env, b.r.containers[x].state, x);
      if !c.stopped {
        var d := Publish(c, env);
        PublishIssues(c, env, x);
        if !d.stopped {
          ReportIssues(d, cfg, env, now, x);
          assert d.r.containers[x].state.lastAlert == p.state.lastAlert;
        }
      }
    }
  }

  lemma HandleOneIssues(run: Run, cfg: Config, env: Env, now: int, p: Plan, save: bool, x: string)
    requires x in run.r.containers && run.r.containers[x].state == p.state
    ensures var out := HandleOne(run, cfg, env, now, x, p, save);
            !out.stopped ==> Issued(out.steps, x) == Issued(run.steps, x) + Expected(p, cfg, env, now, x)
  {
    hide Save, Notify, TryRestart, Issued;
    SaveIssues(run, env, run.r.containers[x].state, x);
    var a := if save then Save(run, env, x, run.r.containers[x].state) else run;
    if !a.stopped {
      match p.action
      case Exhausted => NotifyIssues(a, env, true, x);
      case Restart => TryRestartIssues(a, cfg, env, now, x, p);
      case _ =>
    }
  }

  lemma {:induction false} HandleAllIssues(run: Run, cfg: Config, env: Env, now: int, names: seq<string>,
                                          states: map<string, StateFile>, rows: map<string, Observation>, x: string)
    requires NoDup(names) && x in names && forall n :: n in names ==> n in rows && n in run.r.containers
    requires run.r.containers[x].state == PlanFor(states, rows, cfg, now, x).state
    ensures var out := HandleAll(run, cfg, env, now, names, states, rows);
            !out.stopped ==> Issued(out.steps, x) == Issued(run.steps, x) + Expected(PlanFor(states, rows, cfg, now, x), cfg, env, now, x)
    decreases |names|
  {
    hide HandleOne, Issued, Beside, Expected, Decide, EligibleUnhealthy, StateIn;
    if !run.stopped {
      var n := names[0];
      var p, save := PlanFor(states, rows, cfg, now, n), n in states || EligibleUnhealthy(rows[n]);
      var a := HandleOne(run, cfg, env, now, n, p, save);
      if n == x {
        HandleOneIssues(run, cfg, env, now, p, save, x);
        HandleAllBeside(a, cfg, env, now, names[1..], states, rows, x);
        BesideIssues(a, HandleAll(a, cfg, env, now, names[1..], states, rows), x);
      } else {
        HandleOneBeside(run, cfg, env, now, n, p, save, x);
        BesideIssues(run, a, x);
        BesideContainer(run, a, x);
        if !a.stopped { HandleAllIssues(a, cfg, env, now, names[1..], states, rows, x); }
      }
    }
  }

  lemma {:induction false} CollectIssues(run: Run, env: Env, files: seq<string>, rows: map<string, Observation>, x: string)
    ensures Issued(Collect(run, env, files, rows).steps, x) == Issued(run.steps, x)
    decreases |files|
  {
    hide Publish, Issued, NamePattern;
    if !run.stopped && files != [] {
      var n := files[0];
      EmitIssues(run, RemoveState(n), x);
      PublishIssues(run, env, x);
      var a := if !NamePattern(n) || n in rows then run else if env.removeOk(n) then Emit(run, RemoveState(n)) else Fail(run, env);
      CollectIssues(a, env, files[1..], rows, x);
    }
  }

  /** A scan that reports success issued, for each container, exactly the commands its plan and
      the restart's result call for, in that order, and none for absent containers. */
  lemma SuccessfulScanCommands(cfg: Config, disk: Disk, env: Env, now: int, x: string)
    requires !Scan(cfg, disk, env, now).stopped
    ensures Validate(disk, env).Some?
    ensures var rows := Validate(disk, env).value;
            Issued(Scan(cfg, disk, env, now).steps, x) ==
              if x in rows then Expected(PlanFor(disk.states, rows, cfg, now, x), cfg, env, now, x) else []
  {
    hide Validate, Publish, HandleAll, Collect, Observed, OrderedKeys, Issued, LoadLedger, Expected, PlanFor, Sorted, Beside;
    var rows := Validate(disk, env).value;
    var names := OrderedKeys(rows);
    var idle := Run(disk, LoadLedger(disk).value.(lastRun := now, success := false, dockerReadOK := false), [], 0, false);
    var start := Emit(idle, Begin(now));
    assert Issued(start.steps, x) == [] by { EmitIssues(idle, Begin(now), x); NothingIssued(x); }
    EmitIssues(start, Accept(rows), x);
    var a := Emit(start, Accept(rows));
    var a' := a.(r := a.r.(dockerReadOK := true, containers := Observed(a.r, disk.states, rows, cfg, now)));
    PublishIssues(a', env, x);
    var b := Publish(a', env);
    ObservedStates(a.r, disk.states, rows, cfg, now);
    var c := HandleAll(b, cfg, env, now, names, disk.states, rows);
    if x in rows {
      HandleAllIssues(b, cfg, env, now, names, disk.states, rows, x);
    } else {
      HandleAllBeside(b, cfg, env, now, names, disk.states, rows, x);
      BesideIssues(b, c, x);
    }
    CollectIssues(c, env, env.list(c.disk.states.Keys), rows, x);
    var d := Collect(c, env, env.list(c.disk.states.Keys), rows);
    PublishIssues(d.(r := d.r.(success := true)), env, x);
  }

  lemma NothingIssued(x: string)
    ensures Issued([], x) == []
  {}

  /** When a plan restarts, waits, or reports an exhausted budget. */
  lemma DecideExactly(s: State, unhealthy: bool, now: int, cfg: Config)
    ensures var p := Decide(s, unhealthy, now, cfg);
            var left := if s.restarts > 0 && now - s.lastRestart >= DAY then 0 else s.restarts;
            && (p.action == Restart <==> unhealthy && s.consecutive + 1 >= cfg.threshold && left < cfg.budget)
            && (p.action == Exhausted <==> unhealthy && s.consecutive + 1 >= cfg.threshold && left >= cfg.budget)
            && (p.action == Wait <==> unhealthy && s.consecutive + 1 < cfg.threshold)
            && (p.notify <==> p.action == Exhausted && now - s.lastAlert >= cfg.cooldown)
            && p.state == State(if unhealthy then s.consecutive + 1 else 0, left, s.lastRestart,
                                if !unhealthy then 0 else if p.notify then now else s.lastAlert)
  {}

  // ---------- exactly when a container is restarted ----------

  predicate IsRestart(step: Step, x: string) { step.RestartCommand? && step.name == x }

  predicate RestartsIn(steps: seq<Step>, x: string) { exists i :: 0 <= i < |steps| && IsRestart(steps[i], x) }

  lemma {:induction false} RestartsAreIssued(steps: seq<Step>, x: string)
    ensures RestartsIn(steps, x) <==> RestartsIn(Issued(steps, x), x)
  {
    if steps != [] {
      var less, last := steps[..|steps| - 1], steps[|steps| - 1];
      RestartsAreIssued(less, x);
      RestartsAppend(less, last, x);
      RestartsAppend(Issued(less, x), last, x);
      assert less + [last] == steps;
      assert CommandFor(last, x) ==> Issued(steps, x) == Issued(less, x) + [last];
      assert !CommandFor(last, x) ==> Issued(steps, x) == Issued(less, x);
    }
  }

  lemma RestartsAppend(steps: seq<Step>, step: Step, x: string)
    ensures RestartsIn(steps + [step], x) <==> RestartsIn(steps, x) || IsRestart(step, x)
  {
    assert (steps + [step])[|steps|] == step;
    forall i | 0 <= i < |steps| ensures (steps + [step])[i] == steps[i] {}
  }

  lemma ExpectedRestart(p: Plan, cfg: Config, env: Env, now: int, x: string)
    ensures RestartsIn(Expected(p, cfg, env, now, x), x) <==> p.action == Restart
  {
    if p.action == Restart { assert IsRestart(Expected(p, cfg, env, now, x)[0], x); }
  }

  /** After any run, killed anywhere, a scan that reports success restarts a container exactly
      when it is present and unhealthy, this makes its streak of saved unhealthy scans reach the
      threshold, and the restarts recorded in a chain without a day's gap up to now are fewer
      than the budget. */
  lemma RestartsExactly(disk: Disk, attempts: seq<Attempt>, cfg: Config, env: Env, now: int, x: string)
    requires ValidConfig(cfg) && x !in disk.states && Orderly(World(disk, NEW), attempts, cfg, x)
    requires var w := Play(World(disk, NEW), attempts, x);
             w.track.time <= now && !Scan(cfg, w.disk, env, now).stopped
    ensures var w := Play(World(disk, NEW), attempts, x);
            && Validate(w.disk, env).Some?
            && var rows := Validate(w.disk, env).value;
               RestartsIn(Scan(cfg, w.disk, env, now).steps, x) <==>
                 && x in rows && EligibleUnhealthy(rows[x])
                 && w.track.streak + 1 >= cfg.threshold
                 && InForce(w.track.recorded, now) < cfg.budget
  {
    hide Play, Orderly, Scan, Validate, Issued, Expected, EligibleUnhealthy, Window, Accounted, Urgency, FileMatches, RestartsIn, StateAccepted, StateIn;
    RunsKeepPolicy(disk, attempts, cfg, x);
    var w := Play(World(disk, NEW), attempts, x);
    SuccessfulScanCommands(cfg, w.disk, env, now, x);
    var rows := Validate(w.disk, env).value;
    RestartsAreIssued(Scan(cfg, w.disk, env, now).steps, x);
    assert !RestartsIn([], x) by { NoRestarts(x); }
    if x in rows {
      ValidateAccepts(w.disk, env, x);
      AcceptedFile(w.track, w.disk, x);
      var s, unhealthy := Held(w.track), EligibleUnhealthy(rows[x]);
      ExpectedRestart(Decide(s, unhealthy, now, cfg), cfg, env, now, x);
      DecideExactly(s, unhealthy, now, cfg);
      CountedInForce(w.track.recorded, s, now) by { assert Counted(w.track.recorded, s, w.track.time); }
    }
  }

  lemma NoRestarts(x: string)
    ensures !RestartsIn([], x)
  {}
}
