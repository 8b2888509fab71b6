/** What a scan reports: that it failed, whatever made it fail, and after a success what it saw of
    every container and how often it acted. */
module WatchdogReport {
  import opened Text
  import opened Order
  import opened WatchdogText
  import opened WatchdogPolicy
  import opened WatchdogScan
  import opened WatchdogTrack

  // ---------- a scan that stops says so ----------

  /** Ledger and metrics are those in memory. */
  predicate Published(run: Run) { run.disk.ledger == Stored(run.r) && run.disk.metrics == Some(run.r) }

  /** The last write that was tried worked, if any was. */
  predicate LastWriteWorked(run: Run, env: Env) { run.writes == 0 || env.writeOk(run.writes - 1) }

  predicate Unsuccessful(run: Run, now: int) { run.r.lastRun == now && !run.r.success }

  /** The scan of `now` has not succeeded so far; if it has stopped, this is published, unless the
      publishing itself failed. */
  predicate FailureReported(run: Run, env: Env, now: int) {
    if run.stopped then LastWriteWorked(run, env) ==> Published(run) && Unsuccessful(run, now) else Unsuccessful(run, now)
  }

  /** Going on from a run that has not stopped keeps this. */
  predicate Reports(run: Run, out: Run, env: Env, now: int) {
    !run.stopped && FailureReported(run, env, now) ==> FailureReported(out, env, now)
  }

  lemma PublishReports(run: Run, env: Env, now: int)
    ensures Reports(run, Publish(run, env), env, now) && Reports(run, Fail(run, env), env, now)
  {}

  lemma SaveReports(run: Run, env: Env, n: string, s: State, now: int)
    ensures Reports(run, Save(run, env, n, s), env, now)
  {
    hide Publish, Fail;
    var a := run.(writes := run.writes + 1);
    PublishReports(a, env, now);
  }

  lemma NotifyReports(run: Run, env: Env, n: string, urgent: bool, now: int)
    ensures Reports(run, Notify(run, env, n, urgent), env, now)
  {
    hide Publish;
    var a := run.(r := run.r.(notifications := run.r.notifications + 1));
    PublishReports(a, env, now);
    var b := Publish(a, env);
    if !b.stopped {
      var c := Emit(b, NotifyCommand(n, urgent, env.notifyOk(n)));
      PublishReports(if env.notifyOk(n) then c else c.(r := c.r.(notificationFailures := c.r.notificationFailures + 1)), env, now);
    }
  }

  lemma ReportReports(run: Run, cfg: Config, env: Env, now: int, n: string)
    requires n in run.r.containers
    ensures Reports(run, Report(run, cfg, env, now, n), env, now)
  {
    hide Save, Notify, Published;
    var c := run.r.containers[n];
    NotifyReports(run, env, n, false, now);
    var stamped := c.(state := c.state.(lastAlert := now));
    var a := run.(r := SetContainer(run.r, n, stamped));
    SaveReports(a, env, n, stamped.state, now);
    NotifyReports(Save(a, env, n, stamped.state), env, n, true, now);
  }

  lemma TryRestartReports(run: Run, cfg: Config, env: Env, now: int, n: string)
    requires n in run.r.containers
    ensures Reports(run, TryRestart(run, cfg, env, now, n), env, now)
  {
    hide Publish, Save, Report, Published;
    var i := Intend(run, n);
    PublishReports(i, env, now);
    var a := Publish(i, env);
    if !a.stopped {
      var b := Command(a, env, now, n);
      SaveReports(b, env, n, b.r.containers[n].state, now);
      var c := Save(b, env, n, b.r.containers[n].state);
      if !c.stopped {
        PublishReports(c, env, now);
        if !Publish(c, env).stopped { ReportReports(Publish(c, env), cfg, env, now, n); }
      }
    }
  }

  lemma HandleOneReports(run: Run, cfg: Config, env: Env, now: int, n: string, p: Plan, save: bool)
    requires n in run.r.containers
    ensures Reports(run, HandleOne(run, cfg, env, now, n, p, save), env, now)
  {
    hide Save, Notify, TryRestart, Published;
    SaveReports(run, env, n, run.r.containers[n].state, now);
    var a := if save then Save(run, env, n, run.r.containers[n].state) else run;
    if !a.stopped {
      NotifyReports(a, env, n, true, now);
      TryRestartReports(a, cfg, env, now, n);
    }
  }

  lemma {:induction false} HandleAllReports(run: Run, cfg: Config, env: Env, now: int, names: seq<string>,
                                           states: map<string, StateFile>, rows: map<string, Observation>)
    requires FailureReported(run, env, now) && forall n :: n in names ==> n in rows && n in run.r.containers
    ensures FailureReported(HandleAll(run, cfg, env, now, names, states, rows), env, now)
    decreases |names|
  {
    hide HandleOne, FailureReported, PlanFor, EligibleUnhealthy;
    if !run.stopped && names != [] {
      var n := names[0];
      var p, save := PlanFor(states, rows, cfg, now, n), n in states || EligibleUnhealthy(rows[n]);
      HandleOneReports(run, cfg, env, now, n, p, save);
      HandleAllReports(HandleOne(run, cfg, env, now, n, p, save), cfg, env, now, names[1..], states, rows);
    }
  }

  lemma {:induction false} CollectReports(run: Run, env: Env, files: seq<string>, rows: map<string, Observation>, now: int)
    requires FailureReported(run, env, now)
    ensures FailureReported(Collect(run, env, files, rows), env, now)
    decreases |files|
  {
    hide Publish, Fail, NamePattern, Published;
    if !run.stopped && files != [] {
      var n := files[0];
      PublishReports(run, env, now);
      CollectReports(if !NamePattern(n) || n in rows then run else if env.removeOk(n) then Emit(run, RemoveState(n)) else Fail(run, env),
                     env, files[1..], rows, now);
    }
  }

  /** When a scan begins at all: the policy and the clock are positive, the ledger is absent or
      decodes with a positive clock and well-formed names, and the log opens. */
  predicate Begins(cfg: Config, disk: Disk, env: Env, now: int) {
    && cfg.threshold >= 1 && cfg.budget >= 1 && cfg.cooldown >= 1 && now >= 1 && env.logOpens
    && (disk.ledger.NoLedger? ||
        (disk.ledger.Stored? && disk.ledger.ledger.lastRun >= 1 && forall n :: n in disk.ledger.ledger.containers ==> NamePattern(n)))
  }

  /** A scan that does not begin does nothing and fails. A scan that stops after it began, for
      whatever reason, leaves in ledger and metrics that the scan of `now` did not succeed, unless
      the write of one of the two was what failed. */
  lemma FailureIsReported(cfg: Config, disk: Disk, env: Env, now: int)
    ensures var out := Scan(cfg, disk, env, now);
            && (!Begins(cfg, disk, env, now) ==> out.stopped && out.steps == [] && out.disk == disk)
            && (Begins(cfg, disk, env, now) && out.stopped && LastWriteWorked(out, env) ==>
                  out.disk.ledger == Stored(out.r) && out.disk.metrics == Some(out.r) && out.r.lastRun == now && !out.r.success)
  {
    hide Validate, Fail, Act, NamePattern;
    if Begins(cfg, disk, env, now) {
      var start := Emit(Run(disk, LoadLedger(disk).value.(lastRun := now, success := false, dockerReadOK := false), [], 0, false), Begin(now));
      var rows := Validate(disk, env);
      if rows.None? {
        PublishReports(start, env, now);
      } else {
        ActReports(start, cfg, env, now, rows.value);
      }
    }
  }

  lemma ActReports(run: Run, cfg: Config, env: Env, now: int, rows: map<string, Observation>)
    requires !run.stopped && FailureReported(run, env, now)
    ensures var out := Act(run, cfg, env, now, rows); out.stopped ==> FailureReported(out, env, now)
  {
    hide Publish, Fail, HandleAll, Collect, Observed, OrderedKeys, Published, KeysInOrder;
    var states := run.disk.states;
    var a := Emit(run, Accept(rows));
    var a' := a.(r := a.r.(dockerReadOK := true, containers := Observed(a.r, states, rows, cfg, now)));
    PublishReports(a', env, now);
    var b := Publish(a', env);
    if !b.stopped {
      ObservedStates(a.r, states, rows, cfg, now);
      OrderedAreKeys(rows);
      HandleAllReports(b, cfg, env, now, OrderedKeys(rows), states, rows);
      var c := HandleAll(b, cfg, env, now, OrderedKeys(rows), states, rows);
      if !c.stopped {
        PublishReports(c, env, now);
        CollectReports(c, env, env.list(c.disk.states.Keys), rows, now);
        var d := Collect(c, env, env.list(c.disk.states.Keys), rows);
        if !d.stopped { LastPublish(d.(r := d.r.(success := true)), env); }
      }
    }
  }

  lemma OrderedAreKeys(rows: map<string, Observation>)
    ensures forall n :: n in OrderedKeys(rows) ==> n in rows
  {}

  lemma LastPublish(run: Run, env: Env)
    ensures Publish(run, env).stopped && !run.stopped ==> !LastWriteWorked(Publish(run, env), env)
  {}

  /** A scan that is refused publishes the ledger as it was, with the clock of this scan and both
      marks cleared. */
  lemma RefusedScanReports(cfg: Config, disk: Disk, env: Env, now: int)
    requires Begins(cfg, disk, env, now) && Validate(disk, env).None? && (forall k :: env.writeOk(k))
    ensures var before := if disk.ledger.Stored? then disk.ledger.ledger else Ledger(0, false, false, 0, 0, 0, 0, 0, map[]);
            var after := before.(lastRun := now, success := false, dockerReadOK := false);
            Scan(cfg, disk, env, now).disk == disk.(ledger := Stored(after), metrics := Some(after))
  {
    hide Validate, NamePattern;
  }

  /** The next two writes, of ledger and metrics, work. */
  predicate CanPublish(run: Run, env: Env) { env.writeOk(run.writes) && env.writeOk(run.writes + 1) }

  /** The run went on by publishing ledger and metrics, and stopped. */
  predicate StoppedReporting(run: Run, out: Run) {
    out.stopped && out.steps == run.steps + [WriteLedger(run.r), WriteMetrics(run.r)] && Published(out) && out.disk.states == run.disk.states
  }

  /** A state file that cannot be written, or not be removed, ends the scan with a report. */
  lemma FailedFileIsReported(run: Run, env: Env, n: string, s: State, files: seq<string>, rows: map<string, Observation>)
    ensures !env.writeOk(run.writes) && CanPublish(run.(writes := run.writes + 1), env) ==> StoppedReporting(run, Save(run, env, n, s))
    ensures !run.stopped && files != [] && NamePattern(files[0]) && files[0] !in rows && !env.removeOk(files[0]) && CanPublish(run, env) ==>
              StoppedReporting(run, Collect(run, env, files, rows))
  {
    hide NamePattern;
    var one := [WriteLedger(run.r)];
    assert run.steps + one + [WriteMetrics(run.r)] == run.steps + [WriteLedger(run.r), WriteMetrics(run.r)];
  }

  // ---------- what a successful scan counts ----------

  datatype Tally = Tally(attempts: int, restarts: int, failures: int, notices: int, unheard: int)

  function Plus(a: Tally, b: Tally): Tally {
    Tally(a.attempts + b.attempts, a.restarts + b.restarts, a.failures + b.failures, a.notices + b.notices, a.unheard + b.unheard)
  }

  /** What one step is counted as. */
  function TallyOf(step: Step): Tally {
    match step
    case RestartCommand(_, ok) => if ok then Tally(1, 1, 0, 0, 0) else Tally(1, 0, 1, 0, 0)
    case NotifyCommand(_, _, ok) => if ok then Tally(0, 0, 0, 1, 0) else Tally(0, 0, 0, 1, 1)
    case _ => Tally(0, 0, 0, 0, 0)
  }

  function TallyOfAll(steps: seq<Step>): Tally {
    if steps == [] then Tally(0, 0, 0, 0, 0) else Plus(TallyOfAll(steps[..|steps| - 1]), TallyOf(steps[|steps| - 1]))
  }

  function CountersOf(r: Ledger): Tally { Tally(r.attempts, r.restarts, r.failures, r.notifications, r.notificationFailures) }

  /** The counters in memory are `base` and the commands so far. */
  ghost predicate Balanced(run: Run, base: Tally) { CountersOf(run.r) == Plus(base, TallyOfAll(run.steps)) }

  ghost predicate Balances(out: Run, base: Tally) { !out.stopped ==> Balanced(out, base) }

  lemma EmitTallies(run: Run, step: Step)
    ensures TallyOfAll(Emit(run, step).steps) == Plus(TallyOfAll(run.steps), TallyOf(step))
  {
    hide TallyOfAll;
    TallyLast(run.steps, step);
  }

  lemma PublishBalances(run: Run, env: Env, base: Tally)
    requires Balanced(run, base)
    ensures Balances(Publish(run, env), base)
  {
    hide TallyOfAll;
    var a := run.(writes := run.writes + 1);
    EmitTallies(a, WriteLedger(run.r));
    var b := Emit(a, WriteLedger(run.r));
    EmitTallies(b.(writes := b.writes + 1), WriteMetrics(b.r));
  }

  lemma SaveBalances(run: Run, env: Env, n: string, s: State, base: Tally)
    requires Balanced(run, base)
    ensures Balances(Save(run, env, n, s), base)
  {
    hide TallyOfAll, Fail;
    EmitTallies(run.(writes := run.writes + 1), WriteState(n, s));
  }

  lemma NotifyBalances(run: Run, env: Env, n: string, urgent: bool, base: Tally)
    requires Balanced(run, base)
    ensures Balances(Notify(run, env, n, urgent), base)
  {
    hide TallyOfAll, Publish;
    var ahead := base.(notices := base.notices + 1);
    var a := run.(r := run.r.(notifications := run.r.notifications + 1));
    PublishBalances(a, env, ahead);
    var b := Publish(a, env);
    if !b.stopped {
      EmitTallies(b, NotifyCommand(n, urgent, env.notifyOk(n)));
      var c := Emit(b, NotifyCommand(n, urgent, env.notifyOk(n)));
      PublishBalances(if env.notifyOk(n) then c else c.(r := c.r.(notificationFailures := c.r.notificationFailures + 1)), env, base);
    }
  }

  lemma ReportBalances(run: Run, cfg: Config, env: Env, now: int, n: string, base: Tally)
    requires n in run.r.containers && Balanced(run, base)
    ensures Balances(Report(run, cfg, env, now, n), base)
  {
    hide TallyOfAll, Save, Notify;
    var c := run.r.containers[n];
    if env.restartOk(n) {
      NotifyBalances(run, env, n, false, base);
    } else if now - c.state.lastAlert >= cfg.cooldown {
      var stamped := c.(state := c.state.(lastAlert := now));
      var a := run.(r := SetContainer(run.r, n, stamped));
      SaveBalances(a, env, n, stamped.state, base);
      var b := Save(a, env, n, stamped.state);
      if !b.stopped { NotifyBalances(b, env, n, true, base); }
    }
  }

  lemma TryRestartBalances(run: Run, cfg: Config, env: Env, now: int, n: string, base: Tally)
    requires n in run.r.containers && Balanced(run, base)
    ensures Balances(TryRestart(run, cfg, env, now, n), base)
  {
    hide TallyOfAll, Publish, Save, Report;
    var i := Intend(run, n);
    PublishBalances(i, env, base.(attempts := base.attempts + 1));
    var a := Publish(i, env);
    if !a.stopped {
      EmitTallies(a, RestartCommand(n, env.restartOk(n)));
      var b := Command(a, env, now, n);
      SaveBalances(b, env, n, b.r.containers[n].state, base);
      var c := Save(b, env, n, b.r.containers[n].state);
      if !c.stopped {
        PublishBalances(c, env, base);
        if !Publish(c, env).stopped { ReportBalances(Publish(c, env), cfg, env, now, n, base); }
      }
    }
  }

  lemma HandleOneBalances(run: Run, cfg: Config, env: Env, now: int, n: string, p: Plan, save: bool, base: Tally)
    requires n in run.r.containers && Balanced(run, base)
    ensures Balances(HandleOne(run, cfg, env, now, n, p, save), base)
  {
    hide TallyOfAll, Save, Notify, TryRestart;
    SaveBalances(run, env, n, run.r.containers[n].state, base);
    var a := if save then Save(run, env, n, run.r.containers[n].state) else run;
    if !a.stopped {
      NotifyBalances(a, env, n, true, base);
      TryRestartBalances(a, cfg, env, now, n, base);
    }
  }

  lemma {:induction false} HandleAllBalances(run: Run, cfg: Config, env: Env, now: int, names: seq<string>,
                                            states: map<string, StateFile>, rows: map<string, Observation>, base: Tally)
    requires Balances(run, base) && forall n :: n in names ==> n in rows && n in run.r.containers
    ensures Balances(HandleAll(run, cfg, env, now, names, states, rows), base)
    decreases |names|
  {
    hide HandleOne, Balanced, PlanFor, EligibleUnhealthy;
    if !run.stopped && names != [] {
      var n := names[0];
      var p, save := PlanFor(states, rows, cfg, now, n), n in states || EligibleUnhealthy(rows[n]);
      HandleOneBalances(run, cfg, env, now, n, p, save, base);
      HandleAllBalances(HandleOne(run, cfg, env, now, n, p, save), cfg, env, now, names[1..], states, rows, base);
    }
  }

  lemma {:induction false} CollectBalances(run: Run, env: Env, files: seq<string>, rows: map<string, Observation>, base: Tally)
    requires Balances(run, base)
    ensures Balances(Collect(run, env, files, rows), base)
    decreases |files|
  {
    hide TallyOfAll, Publish, NamePattern;
    if !run.stopped && files != [] {
      var n := files[0];
      EmitTallies(run, RemoveState(n));
      CollectBalances(if !NamePattern(n) || n in rows then run else if env.removeOk(n) then Emit(run, RemoveState(n)) else Fail(run, env),
                      env, files[1..], rows, base);
    }
  }

  // ---------- what a successful scan says of a container ----------

  /** What the first pass makes of a container, in the words of its row. */
  function Seen(ledger: Ledger, p: Plan, o: Observation, n: string): Container {
    Container(p.state,
              o.health == "unhealthy" && (o.state == "running" || o.state == "paused" || o.state == "restarting"),
              !(o.state == "running" && o.health == "healthy") && n in ledger.containers && ledger.containers[n].restartFailed)
  }

  /** What the second pass leaves: a restart that succeeded ends the streak and is counted, one that
      failed stays flagged and stamps the alert once the cooldown is over. */
  function Left(c: Container, p: Plan, cfg: Config, restartOk: bool, now: int): Container {
    if p.action != Restart then c
    else if restartOk then Container(State(0, c.state.restarts + 1, now, c.state.lastAlert), c.unhealthy, false)
    else if now - c.state.lastAlert >= cfg.cooldown then Container(State(c.state.consecutive, c.state.restarts, c.state.lastRestart, now), c.unhealthy, true)
    else Container(c.state, c.unhealthy, true)
  }

  function Final(ledger: Ledger, p: Plan, o: Observation, cfg: Config, env: Env, now: int, n: string): Container {
    Left(Seen(ledger, p, o, n), p, cfg, env.restartOk(n), now)
  }

  lemma KeepsContainers(run: Run, env: Env, n: string, s: State, urgent: bool)
    ensures Publish(run, env).r == run.r && Save(run, env, n, s).r == run.r
    ensures Notify(run, env, n, urgent).r.containers == run.r.containers
  {}

  lemma ReportLeaves(run: Run, cfg: Config, env: Env, now: int, n: string)
    requires n in run.r.containers
    ensures var out, c := Report(run, cfg, env, now, n), run.r.containers[n];
            var stamped := !env.restartOk(n) && now - c.state.lastAlert >= cfg.cooldown;
            !out.stopped ==> out.r.containers[n] == if stamped then c.(state := c.state.(lastAlert := now)) else c
  {
    hide Save, Notify;
    var c := run.r.containers[n];
    var stamped := c.(state := c.state.(lastAlert := now));
    var a := run.(r := SetContainer(run.r, n, stamped));
    KeepsContainers(run, env, n, c.state, false);
    KeepsContainers(a, env, n, stamped.state, true);
    KeepsContainers(Save(a, env, n, stamped.state), env, n, stamped.state, true);
  }

  lemma TryRestartLeaves(run: Run, cfg: Config, env: Env, now: int, n: string, p: Plan)
    requires n in run.r.containers && p.action == Restart
    ensures var out := TryRestart(run, cfg, env, now, n);
            !out.stopped ==> out.r.containers[n] == Left(run.r.containers[n], p, cfg, env.restartOk(n), now)
  {
    hide Publish, Save, Notify, Report;
    var c := run.r.containers[n];
    var i := Intend(run, n);
    KeepsContainers(i, env, n, c.state, true);
    var b := Command(Publish(i, env), env, now, n);
    KeepsContainers(b, env, n, b.r.containers[n].state, true);
    var d := Save(b, env, n, b.r.containers[n].state);
    KeepsContainers(d, env, n, c.state, true);
    ReportLeaves(Publish(d, env), cfg, env, now, n);
  }

  lemma HandleOneLeaves(run: Run, cfg: Config, env: Env, now: int, n: string, p: Plan, save: bool)
    requires n in run.r.containers
    ensures var out := HandleOne(run, cfg, env, now, n, p, save);
            !out.stopped ==> out.r.containers[n] == Left(run.r.containers[n], p, cfg, env.restartOk(n), now)
  {
    hide Save, Notify, TryRestart;
    var c := run.r.containers[n];
    KeepsContainers(run, env, n, c.state, true);
    var a := if save then Save(run, env, n, c.state) else run;
    KeepsContainers(a, env, n, c.state, true);
    if !a.stopped && p.action == Restart { TryRestartLeaves(a, cfg, env, now, n, p); }
  }

  lemma {:induction false} HandleAllLeaves(run: Run, cfg: Config, env: Env, now: int, names: seq<string>,
                                          states: map<string, StateFile>, rows: map<string, Observation>, x: string)
    requires NoDup(names) && x in names && forall n :: n in names ==> n in rows && n in run.r.containers
    ensures var out := HandleAll(run, cfg, env, now, names, states, rows);
            var c := Left(run.r.containers[x], PlanFor(states, rows, cfg, now, x), cfg, env.restartOk(x), now);
            !out.stopped ==> x in out.r.containers && out.r.containers[x] == c
    decreases |names|
  {
    hide HandleOne, Left, Beside, Decide, EligibleUnhealthy, StateIn;
    if !run.stopped {
      var n := names[0];
      var p, save := PlanFor(states, rows, cfg, now, n), n in states || EligibleUnhealthy(rows[n]);
      var a := HandleOne(run, cfg, env, now, n, p, save);
      if n == x {
        HandleOneLeaves(run, cfg, env, now, x, p, save);
        HandleAllBeside(a, cfg, env, now, names[1..], states, rows, x);
        BesideContainer(a, HandleAll(a, cfg, env, now, names[1..], states, rows), x);
      } else {
        HandleOneBeside(run, cfg, env, now, n, p, save, x);
        BesideContainer(run, a, x);
        if !a.stopped { HandleAllLeaves(a, cfg, env, now, names[1..], states, rows, x); }
      }
    }
  }

  lemma {:induction false} CollectKeepsLedger(run: Run, env: Env, files: seq<string>, rows: map<string, Observation>)
    ensures Collect(run, env, files, rows).r == run.r
    decreases |files|
  {
    hide NamePattern, Publish;
    if !run.stopped && files != [] {
      var n := files[0];
      CollectKeepsLedger(if !NamePattern(n) || n in rows then run else if env.removeOk(n) then Emit(run, RemoveState(n)) else Fail(run, env),
                         env, files[1..], rows);
    }
  }

  /** The ledger of a scan that reports success: its clock and both marks, every counter raised by
      exactly the commands that were issued and their results, and for every container the state,
      the mark for being unhealthy and the mark for a failed restart. */
  lemma SuccessfulLedger(cfg: Config, disk: Disk, env: Env, now: int)
    requires !Scan(cfg, disk, env, now).stopped
    ensures LoadLedger(disk).Some? && Validate(disk, env).Some?
    ensures var out, rows, before := Scan(cfg, disk, env, now), Validate(disk, env).value, LoadLedger(disk).value;
            && out.r.lastRun == now && out.r.success && out.r.dockerReadOK
            && CountersOf(out.r) == Plus(CountersOf(before), TallyOfAll(out.steps))
            && forall n :: n in rows ==>
                 n in out.r.containers && out.r.containers[n] == Final(before, PlanFor(disk.states, rows, cfg, now, n), rows[n], cfg, env, now, n)
  {
    hide Validate, Publish, HandleAll, Collect, OrderedKeys, LoadLedger, TallyOfAll, Balanced, PlanFor, Left, Sorted;
    var rows, before := Validate(disk, env).value, LoadLedger(disk).value;
    var base := CountersOf(before);
    var idle := Run(disk, before.(lastRun := now, success := false, dockerReadOK := false), [], 0, false);
    var start := Emit(idle, Begin(now));
    var a := Emit(start, Accept(rows));
    var a' := a.(r := a.r.(dockerReadOK := true, containers := Observed(a.r, disk.states, rows, cfg, now)));
    StartBalances(a', now, rows, base);
    PublishBalances(a', env, base);
    var b := Publish(a', env);
    KeepsContainers(a', env, "", ZERO, false);
    ObservedStates(a.r, disk.states, rows, cfg, now);
    OrderedAreKeys(rows);
    HandleAllBalances(b, cfg, env, now, OrderedKeys(rows), disk.states, rows, base);
    HandleAllMarks(b, cfg, env, now, OrderedKeys(rows), disk.states, rows);
    var c := HandleAll(b, cfg, env, now, OrderedKeys(rows), disk.states, rows);
    forall n | n in rows ensures n in c.r.containers &&
        c.r.containers[n] == Final(before, PlanFor(disk.states, rows, cfg, now, n), rows[n], cfg, env, now, n)
    {
      HandleAllLeaves(b, cfg, env, now, OrderedKeys(rows), disk.states, rows, n);
    }
    CollectBalances(c, env, env.list(c.disk.states.Keys), rows, base);
    CollectKeepsLedger(c, env, env.list(c.disk.states.Keys), rows);
    var d := Collect(c, env, env.list(c.disk.states.Keys), rows);
    var e := d.(r := d.r.(success := true));
    SuccessBalances(d, e, base);
    PublishBalances(e, env, base);
    KeepsContainers(e, env, "", ZERO, false);
    assert Scan(cfg, disk, env, now) == Publish(e, env);
    BalanceMeans(Publish(e, env), base);
  }

  lemma BalanceMeans(run: Run, base: Tally)
    requires Balanced(run, base)
    ensures CountersOf(run.r) == Plus(base, TallyOfAll(run.steps))
  {}

  lemma SuccessBalances(d: Run, e: Run, base: Tally)
    requires Balanced(d, base) && e == d.(r := d.r.(success := true))
    ensures Balanced(e, base)
  {}

  lemma StartBalances(a: Run, now: int, rows: map<string, Observation>, base: Tally)
    requires a.steps == [Begin(now)] + [Accept(rows)] && CountersOf(a.r) == base
    ensures Balanced(a, base)
  {
    hide TallyOfAll;
    FirstTwo(now, rows);
  }

  lemma FirstTwo(now: int, rows: map<string, Observation>)
    ensures TallyOfAll([Begin(now)] + [Accept(rows)]) == Tally(0, 0, 0, 0, 0)
  {
    hide *;
    BeginTallied(now);
    TallyLast([Begin(now)], Accept(rows));
    AcceptTallied(rows);
  }

  lemma BeginTallied(now: int)
    ensures TallyOfAll([Begin(now)]) == Tally(0, 0, 0, 0, 0)
  {
    assert [Begin(now)][..0] == [];
  }

  lemma AcceptTallied(rows: map<string, Observation>)
    ensures forall a :: Plus(a, TallyOf(Accept(rows))) == a
  {}

  lemma TallyLast(steps: seq<Step>, step: Step)
    ensures TallyOfAll(steps + [step]) == Plus(TallyOfAll(steps), TallyOf(step))
  {
    assert (steps + [step])[..|steps|] == steps;
  }

  /** The second pass leaves the clock and the marks of the scan alone. */
  lemma {:induction false} HandleAllMarks(run: Run, cfg: Config, env: Env, now: int, names: seq<string>,
                                         states: map<string, StateFile>, rows: map<string, Observation>)
    requires forall n :: n in names ==> n in rows && n in run.r.containers
    ensures SameMarks(run.r, HandleAll(run, cfg, env, now, names, states, rows).r)
    decreases |names|
  {
    hide HandleOne, PlanFor, EligibleUnhealthy;
    if !run.stopped && names != [] {
      var n := names[0];
      var p, save := PlanFor(states, rows, cfg, now, n), n in states || EligibleUnhealthy(rows[n]);
      HandleOneMarks(run, cfg, env, now, n, p, save);
      HandleAllMarks(HandleOne(run, cfg, env, now, n, p, save), cfg, env, now, names[1..], states, rows);
    }
  }

  predicate SameMarks(a: Ledger, b: Ledger) { a.lastRun == b.lastRun && a.success == b.success && a.dockerReadOK == b.dockerReadOK }

  lemma NotifyMarks(run: Run, env: Env, n: string, urgent: bool)
    ensures SameMarks(run.r, Notify(run, env, n, urgent).r)
  {
    hide Publish;
  }

  lemma ReportMarks(run: Run, cfg: Config, env: Env, now: int, n: string)
    requires n in run.r.containers
    ensures SameMarks(run.r, Report(run, cfg, env, now, n).r)
  {
    hide Save, Notify;
    var c := run.r.containers[n];
    var stamped := c.(state := c.state.(lastAlert := now));
    var a := run.(r := SetContainer(run.r, n, stamped));
    NotifyMarks(run, env, n, false);
    NotifyMarks(Save(a, env, n, stamped.state), env, n, true);
  }

  lemma TryRestartMarks(run: Run, cfg: Config, env: Env, now: int, n: string)
    requires n in run.r.containers
    ensures SameMarks(run.r, TryRestart(run, cfg, env, now, n).r)
  {
    hide Publish, Save, Report;
    var b := Command(Publish(Intend(run, n), env), env, now, n);
    ReportMarks(Publish(Save(b, env, n, b.r.containers[n].state), env), cfg, env, now, n);
  }

  lemma HandleOneMarks(run: Run, cfg: Config, env: Env, now: int, n: string, p: Plan, save: bool)
    requires n in run.r.containers
    ensures SameMarks(run.r, HandleOne(run, cfg, env, now, n, p, save).r)
  {
    hide Save, Notify, TryRestart;
    var a := if save then Save(run, env, n, run.r.containers[n].state) else run;
    NotifyMarks(a, env, n, true);
    TryRestartMarks(a, cfg, env, now, n);
  }

  // ---------- what a success needs ----------

  /** Every write so far worked. */
  predicate AllWritten(run: Run, env: Env) { forall k :: 0 <= k < run.writes ==> env.writeOk(k) }

  predicate Writes(run: Run, out: Run, env: Env) { !out.stopped && AllWritten(run, env) ==> AllWritten(out, env) }

  lemma PublishWrites(run: Run, env: Env)
    ensures Writes(run, Publish(run, env), env)
  {}

  lemma SaveWrites(run: Run, env: Env, n: string, s: State)
    ensures Writes(run, Save(run, env, n, s), env)
  {
    hide Publish;
  }

  lemma NotifyWrites(run: Run, env: Env, n: string, urgent: bool)
    ensures Writes(run, Notify(run, env, n, urgent), env)
  {
    hide Publish;
    var a := run.(r := run.r.(notifications := run.r.notifications + 1));
    PublishWrites(a, env);
    var b := Emit(Publish(a, env), NotifyCommand(n, urgent, env.notifyOk(n)));
    PublishWrites(if env.notifyOk(n) then b else b.(r := b.r.(notificationFailures := b.r.notificationFailures + 1)), env);
  }

  lemma ReportWrites(run: Run, cfg: Config, env: Env, now: int, n: string)
    requires n in run.r.containers
    ensures Writes(run, Report(run, cfg, env, now, n), env)
  {
    hide Save, Notify, AllWritten;
    var c := run.r.containers[n];
    var stamped := c.(state := c.state.(lastAlert := now));
    var a := run.(r := SetContainer(run.r, n, stamped));
    NotifyWrites(run, env, n, false);
    SaveWrites(a, env, n, stamped.state);
    NotifyWrites(Save(a, env, n, stamped.state), env, n, true);
    SameWrites(run, a, env);
  }

  lemma SameWrites(run: Run, other: Run, env: Env)
    requires other.writes == run.writes
    ensures AllWritten(run, env) == AllWritten(other, env)
  {}

  lemma TryRestartWrites(run: Run, cfg: Config, env: Env, now: int, n: string)
    requires n in run.r.containers
    ensures Writes(run, TryRestart(run, cfg, env, now, n), env)
  {
    hide Publish, Save, Report, AllWritten;
    var i := Intend(run, n);
    SameWrites(run, i, env);
    PublishWrites(i, env);
    var a := Publish(i, env);
    var b := Command(a, env, now, n);
    SameWrites(a, b, env);
    SaveWrites(b, env, n, b.r.containers[n].state);
    var c := Save(b, env, n, b.r.containers[n].state);
    PublishWrites(c, env);
    ReportWrites(Publish(c, env), cfg, env, now, n);
  }

  lemma {:induction false} HandleAllWrites(run: Run, cfg: Config, env: Env, now: int, names: seq<string>,
                                          states: map<string, StateFile>, rows: map<string, Observation>)
    requires forall n :: n in names ==> n in rows && n in run.r.containers
    ensures Writes(run, HandleAll(run, cfg, env, now, names, states, rows), env)
    decreases |names|
  {
    hide Save, Notify, TryRestart, PlanFor, EligibleUnhealthy, AllWritten;
    if !run.stopped && names != [] {
      var n := names[0];
      var p, save := PlanFor(states, rows, cfg, now, n), n in states || EligibleUnhealthy(rows[n]);
      SaveWrites(run, env, n, run.r.containers[n].state);
      var a := if save then Save(run, env, n, run.r.containers[n].state) else run;
      NotifyWrites(a, env, n, true);
      TryRestartWrites(a, cfg, env, now, n);
      HandleAllWrites(HandleOne(run, cfg, env, now, n, p, save), cfg, env, now, names[1..], states, rows);
      StaysStopped(HandleOne(run, cfg, env, now, n, p, save), cfg, env, now, names[1..], states, rows);
    }
  }

  lemma StaysStopped(run: Run, cfg: Config, env: Env, now: int, names: seq<string>, states: map<string, StateFile>, rows: map<string, Observation>)
    requires forall n :: n in names ==> n in rows && n in run.r.containers
    ensures run.stopped ==> HandleAll(run, cfg, env, now, names, states, rows) == run
  {}

  lemma {:induction false} CollectWrites(run: Run, env: Env, files: seq<string>, rows: map<string, Observation>)
    ensures Writes(run, Collect(run, env, files, rows), env)
    ensures !Collect(run, env, files, rows).stopped ==> !run.stopped
    ensures !Collect(run, env, files, rows).stopped ==> forall n :: n in files && NamePattern(n) && n !in rows ==> env.removeOk(n)
    decreases |files|
  {
    hide NamePattern, Fail, AllWritten;
    if !run.stopped && files != [] {
      var n := files[0];
      var a := if !NamePattern(n) || n in rows then run else if env.removeOk(n) then Emit(run, RemoveState(n)) else Fail(run, env);
      SameWrites(run, Emit(run, RemoveState(n)), env);
      CollectWrites(a, env, files[1..], rows);
      assert files == [n] + files[1..];
    }
  }

  /** A scan reports success only if it could begin, both listings were accepted, every write
      worked, and the state directory could be listed. */
  lemma SuccessNeedsAll(cfg: Config, disk: Disk, env: Env, now: int)
    requires !Scan(cfg, disk, env, now).stopped
    ensures Begins(cfg, disk, env, now) && Validate(disk, env).Some? && env.globOk
    ensures forall k :: 0 <= k < Scan(cfg, disk, env, now).writes ==> env.writeOk(k)
  {
    hide Validate, Publish, HandleAll, Collect, Observed, OrderedKeys, LoadLedger, Sorted, AllWritten;
    FailureIsReported(cfg, disk, env, now);
    var rows, before := Validate(disk, env).value, LoadLedger(disk).value;
    var idle := Run(disk, before.(lastRun := now, success := false, dockerReadOK := false), [], 0, false);
    var a := Emit(Emit(idle, Begin(now)), Accept(rows));
    var a' := a.(r := a.r.(dockerReadOK := true, containers := Observed(a.r, disk.states, rows, cfg, now)));
    PublishWrites(a', env);
    var b := Publish(a', env);
    KeepsContainers(a', env, "", ZERO, false);
    ObservedStates(a.r, disk.states, rows, cfg, now);
    OrderedAreKeys(rows);
    HandleAllWrites(b, cfg, env, now, OrderedKeys(rows), disk.states, rows);
    var c := HandleAll(b, cfg, env, now, OrderedKeys(rows), disk.states, rows);
    CollectWrites(c, env, env.list(c.disk.states.Keys), rows);
    var d := Collect(c, env, env.list(c.disk.states.Keys), rows);
    var e := d.(r := d.r.(success := true));
    SameWrites(d, e, env);
    PublishWrites(e, env);
    NoWrites(a', env);
    AllMeans(Publish(e, env), env);
  }

  lemma NoWrites(run: Run, env: Env)
    requires run.writes == 0
    ensures AllWritten(run, env)
  {}

  lemma AllMeans(run: Run, env: Env)
    requires AllWritten(run, env)
    ensures forall k :: 0 <= k < run.writes ==> env.writeOk(k)
  {}
}
