/** The counter ledger over every run of scans, each killed after any of its steps. */
module WatchdogLedger {
  import opened Text
  import opened Order
  import opened WatchdogText
  import opened WatchdogPolicy
  import opened WatchdogScan

  datatype Counts = Counts(attempts: nat, restarts: nat, failures: nat, notifications: nat, notificationFailures: nat)

  function CountsOf(f: LedgerFile): Counts {
    match f
    case Stored(l) => Counts(l.attempts, l.restarts, l.failures, l.notifications, l.notificationFailures)
    case _ => Counts(0, 0, 0, 0, 0)
  }

  predicate AtLeast(a: Counts, b: Counts) {
    && a.attempts >= b.attempts && a.restarts >= b.restarts && a.failures >= b.failures
    && a.notifications >= b.notifications && a.notificationFailures >= b.notificationFailures
  }

  predicate Flagged(f: LedgerFile, n: string) {
    f.Stored? && n in f.ledger.containers && f.ledger.containers[n].restartFailed
  }

  /** An onlooker's notes on the steps so far. `ok` and `failed` count the restart commands
      issued; `open` says that the last ledger write of this scan raised the attempt counter,
      `interrupted` counts the earlier scans that ended so; `owed` are the containers restarted
      and not yet excused: by the ledger write after a successful restart, by being seen running
      and healthy, or by being absent, in an accepted inventory. `told` counts the notices issued,
      `unheard` those whose command failed. */
  datatype Watch = Watch(
    disk: Disk, base: Counts, ok: nat, failed: nat, interrupted: nat, open: bool,
    owed: set<string>, succeeded: Option<string>, told: nat, unheard: nat, regressed: bool)

  function Start(disk: Disk): Watch {
    Watch(disk, CountsOf(disk.ledger), 0, 0, 0, false, {}, None, 0, 0, false)
  }

  function Observe(w: Watch, step: Step): Watch {
    var v := w.(disk := Apply(w.disk, step));
    match step
    case Begin(now) => v.(interrupted := v.interrupted + (if v.open then 1 else 0), open := false, succeeded := None)
    case Accept(rows) => v.(owed := set n | n in v.owed && n in rows && !Ready(rows[n]))
    case WriteLedger(l) =>
      v.(open := l.attempts > CountsOf(w.disk.ledger).attempts,
         owed := if v.succeeded.Some? then v.owed - {v.succeeded.value} else v.owed,
         succeeded := None,
         regressed := v.regressed || !AtLeast(CountsOf(Stored(l)), CountsOf(w.disk.ledger)))
    case RestartCommand(n, ok) =>
      v.(owed := v.owed + {n}, ok := v.ok + (if ok then 1 else 0), failed := v.failed + (if ok then 0 else 1),
         succeeded := if ok then Some(n) else None)
    case NotifyCommand(_, _, ok) => v.(told := v.told + 1, unheard := v.unheard + (if ok then 0 else 1))
    case _ => v
  }

  function Fold(w: Watch, steps: seq<Step>): Watch {
    if steps == [] then w else Observe(Fold(w, steps[..|steps| - 1]), steps[|steps| - 1])
  }

  /** What holds after every step of every run. */
  ghost predicate Inv(w: Watch) {
    var c := CountsOf(w.disk.ledger);
    && c.attempts - w.base.attempts ==
       (c.restarts - w.base.restarts) + (c.failures - w.base.failures) + w.interrupted + (if w.open then 1 else 0)
    && 0 <= c.restarts - w.base.restarts <= w.ok
    && 0 <= c.failures - w.base.failures <= w.failed
    && w.ok + w.failed <= c.attempts - w.base.attempts
    && w.told <= c.notifications - w.base.notifications
    && 0 <= c.notificationFailures - w.base.notificationFailures <= w.unheard
    && (forall n :: n in w.owed ==> Flagged(w.disk.ledger, n))
    && !w.regressed
  }

  // ---------- memory against disk, between the steps ----------

  predicate Kept(w: Watch, r: Ledger, except: Option<string>) {
    forall n :: n in w.owed && except != Some(n) ==> Flagged(Stored(r), n)
  }

  predicate NoticesAhead(w: Watch, r: Ledger) {
    var c := CountsOf(w.disk.ledger);
    && r.notifications >= c.notifications && r.notificationFailures >= c.notificationFailures
    && r.notificationFailures - w.base.notificationFailures <= w.unheard
  }

  /** Nothing about restarts is in memory only. */
  ghost predicate Settled(w: Watch, r: Ledger) {
    var c := CountsOf(w.disk.ledger);
    && Inv(w) && !w.open && w.succeeded == None && Kept(w, r, None) && NoticesAhead(w, r)
    && r.attempts == c.attempts && r.restarts == c.restarts && r.failures == c.failures
  }

  /** The intention to restart `n` is on disk, the command not yet issued. */
  ghost predicate Opened(w: Watch, r: Ledger, n: string) {
    var c := CountsOf(w.disk.ledger);
    && Inv(w) && w.open && w.succeeded == None && Kept(w, r, None) && NoticesAhead(w, r)
    && r.attempts == c.attempts && r.restarts == c.restarts && r.failures == c.failures
    && w.ok + w.failed < c.attempts - w.base.attempts
    && Flagged(w.disk.ledger, n) && Flagged(Stored(r), n)
  }

  /** The command was issued; its result is in memory only. */
  ghost predicate Answered(w: Watch, r: Ledger) {
    var c := CountsOf(w.disk.ledger);
    && Inv(w) && w.open && Kept(w, r, w.succeeded) && NoticesAhead(w, r)
    && r.attempts == c.attempts && r.restarts >= c.restarts && r.failures >= c.failures
    && r.restarts + r.failures == c.restarts + c.failures + 1
    && r.restarts - w.base.restarts <= w.ok && r.failures - w.base.failures <= w.failed
  }

  lemma SettledPublish(w: Watch, r: Ledger)
    requires Settled(w, r)
    ensures Settled(Observe(w, WriteLedger(r)), r)
  {}

  lemma SettledIntend(w: Watch, r: Ledger, n: string)
    requires Settled(w, r) && n in r.containers
    ensures var a := SetContainer(r.(attempts := r.attempts + 1), n, r.containers[n].(restartFailed := true));
            Opened(Observe(w, WriteLedger(a)), a, n)
  {}

  lemma OpenedCommand(w: Watch, run: Run, env: Env, now: int, n: string)
    requires Opened(w, run.r, n)
    ensures Answered(Observe(w, RestartCommand(n, env.restartOk(n))), Command(run, env, now, n).r)
  {
    var v := Observe(w, RestartCommand(n, env.restartOk(n)));
    assert forall m :: m in v.owed ==> m == n || m in w.owed;
  }

  lemma AnsweredPublish(w: Watch, r: Ledger)
    requires Answered(w, r)
    ensures Settled(Observe(w, WriteLedger(r)), r)
  {}

  // ---------- the walk over one scan ----------

  ghost predicate Safe(w: Watch, steps: seq<Step>) {
    Inv(Fold(w, steps)) && (steps == [] || Safe(w, steps[..|steps| - 1]))
  }

  lemma {:induction false} SafeCut(w: Watch, steps: seq<Step>, k: nat)
    requires Safe(w, steps) && k <= |steps|
    ensures Safe(w, steps[..k])
    decreases |steps|
  {
    if k < |steps| {
      SafeCut(w, steps[..|steps| - 1], k);
      assert steps[..|steps| - 1][..k] == steps[..k];
    } else {
      assert steps[..k] == steps;
    }
  }

  ghost predicate Tracks(w0: Watch, run: Run) {
    Safe(w0, run.steps) && Fold(w0, run.steps).disk == run.disk
  }

  ghost function Notes(w0: Watch, run: Run): Watch { Fold(w0, run.steps) }

  lemma ObserveApplies(w: Watch, step: Step)
    ensures Observe(w, step).disk == Apply(w.disk, step)
  {
    hide Apply, AtLeast, Ready;
  }

  lemma EmitTracks(w0: Watch, run: Run, step: Step)
    requires Tracks(w0, run) && Inv(Observe(Notes(w0, run), step))
    ensures Tracks(w0, Emit(run, step)) && Notes(w0, Emit(run, step)) == Observe(Notes(w0, run), step)
  {
    hide Inv, Observe, Apply;
    ObserveApplies(Notes(w0, run), step);
    assert (run.steps + [step])[..|run.steps|] == run.steps;
  }

  lemma PublishTracks(w0: Watch, run: Run, env: Env)
    requires Tracks(w0, run) && Inv(Observe(Notes(w0, run), WriteLedger(run.r)))
    ensures Tracks(w0, Publish(run, env))
    ensures !Publish(run, env).stopped ==>
              Notes(w0, Publish(run, env)) == Observe(Observe(Notes(w0, run), WriteLedger(run.r)), WriteMetrics(run.r))
  {
    hide Fold, Safe;
    if env.writeOk(run.writes) {
      var a := run.(writes := run.writes + 1);
      EmitTracks(w0, a, WriteLedger(run.r));
      var b := Emit(a, WriteLedger(run.r));
      EmitTracks(w0, b.(writes := b.writes + 1), WriteMetrics(run.r));
    }
  }

  lemma SaveTracks(w0: Watch, run: Run, env: Env, n: string, s: State)
    requires Tracks(w0, run) && Inv(Notes(w0, run)) && Inv(Observe(Notes(w0, run), WriteLedger(run.r)))
    ensures Tracks(w0, Save(run, env, n, s))
    ensures !Save(run, env, n, s).stopped ==> Notes(w0, Save(run, env, n, s)) == Observe(Notes(w0, run), WriteState(n, s))
  {
    hide Fold, Safe, Publish;
    var a := run.(writes := run.writes + 1);
    if env.writeOk(run.writes) {
      EmitTracks(w0, a, WriteState(n, s));
    } else {
      PublishTracks(w0, a, env);
    }
  }

  lemma PublishSettles(w0: Watch, run: Run, env: Env)
    requires Tracks(w0, run) && Settled(Notes(w0, run), run.r)
    ensures var out := Publish(run, env); Tracks(w0, out) && (!out.stopped ==> Settled(Notes(w0, out), out.r))
  {
    hide Fold, Safe, Publish;
    SettledPublish(Notes(w0, run), run.r);
    PublishTracks(w0, run, env);
  }

  lemma MoreNotices(w: Watch, r: Ledger, more: Ledger)
    requires Settled(w, r) && more == r.(notifications := more.notifications, notificationFailures := more.notificationFailures)
    requires more.notifications >= r.notifications && more.notificationFailures >= r.notificationFailures
    requires more.notificationFailures == r.notificationFailures || more.notificationFailures - w.base.notificationFailures <= w.unheard
    ensures Settled(w, more)
  {}

  lemma NotifyTracks(w0: Watch, run: Run, env: Env, n: string, urgent: bool)
    requires Tracks(w0, run) && Settled(Notes(w0, run), run.r)
    ensures var out := Notify(run, env, n, urgent); Tracks(w0, out) && (!out.stopped ==> Settled(Notes(w0, out), out.r))
  {
    hide Fold, Safe, Publish, Settled, Tracks;
    var a := run.(r := run.r.(notifications := run.r.notifications + 1));
    MoreNotices(Notes(w0, run), run.r, a.r);
    SameTracks(w0, run, a);
    AnnounceTracks(w0, run, a, env);
    var b := Publish(a, env);
    if !b.stopped {
      NotifyCommandTracks(w0, b, n, urgent, env.notifyOk(n));
      var c := Emit(b, NotifyCommand(n, urgent, env.notifyOk(n)));
      var d := if env.notifyOk(n) then c else c.(r := c.r.(notificationFailures := c.r.notificationFailures + 1));
      MoreNotices(Notes(w0, c), c.r, d.r);
      SameTracks(w0, c, d);
      PublishSettles(w0, d, env);
    }
  }

  /** A notice is announced on disk before it is issued. */
  ghost predicate Announced(w: Watch) { w.told < CountsOf(w.disk.ledger).notifications - w.base.notifications }

  lemma AnnounceTracks(w0: Watch, run: Run, a: Run, env: Env)
    requires Tracks(w0, run) && Settled(Notes(w0, run), run.r)
    requires Tracks(w0, a) && Notes(w0, a) == Notes(w0, run) && Settled(Notes(w0, a), a.r) && a.r.notifications == run.r.notifications + 1
    ensures var b := Publish(a, env);
            Tracks(w0, b) && b.r == a.r && (!b.stopped ==> Settled(Notes(w0, b), b.r) && Announced(Notes(w0, b)))
  {
    hide Fold, Safe, Publish;
    PublishSettles(w0, a, env);
    SettledPublish(Notes(w0, a), a.r);
    PublishTracks(w0, a, env);
  }

  lemma SameTracks(w0: Watch, run: Run, other: Run)
    requires Tracks(w0, run) && other.steps == run.steps && other.disk == run.disk
    ensures Tracks(w0, other) && Notes(w0, other) == Notes(w0, run)
  {}

  lemma NotifyCommandTracks(w0: Watch, run: Run, n: string, urgent: bool, ok: bool)
    requires Tracks(w0, run) && Settled(Notes(w0, run), run.r) && Announced(Notes(w0, run))
    ensures var out := Emit(run, NotifyCommand(n, urgent, ok));
            && Tracks(w0, out) && Settled(Notes(w0, out), out.r) && Notes(w0, out).base == Notes(w0, run).base
            && out.r.notificationFailures + (if ok then 0 else 1) - Notes(w0, out).base.notificationFailures <= Notes(w0, out).unheard
  {
    hide Fold, Safe;
    EmitTracks(w0, run, NotifyCommand(n, urgent, ok));
  }

  lemma ReportTracks(w0: Watch, run: Run, cfg: Config, env: Env, now: int, n: string)
    requires n in run.r.containers && Tracks(w0, run) && Settled(Notes(w0, run), run.r)
    ensures var out := Report(run, cfg, env, now, n); Tracks(w0, out) && (!out.stopped ==> Settled(Notes(w0, out), out.r))
  {
    hide Fold, Safe, Publish, Save, Notify;
    var c := run.r.containers[n];
    if env.restartOk(n) {
      NotifyTracks(w0, run, env, n, false);
    } else if now - c.state.lastAlert >= cfg.cooldown {
      var stamped := c.(state := c.state.(lastAlert := now));
      var a := run.(r := SetContainer(run.r, n, stamped));
      SettledPublish(Notes(w0, a), a.r);
      SaveTracks(w0, a, env, n, stamped.state);
      var b := Save(a, env, n, stamped.state);
      if !b.stopped { NotifyTracks(w0, b, env, n, true); }
    }
  }

  lemma TryRestartTracks(w0: Watch, run: Run, cfg: Config, env: Env, now: int, n: string)
    requires n in run.r.containers && Tracks(w0, run) && Settled(Notes(w0, run), run.r)
    ensures var out := TryRestart(run, cfg, env, now, n); Tracks(w0, out) && (!out.stopped ==> Settled(Notes(w0, out), out.r))
  {
    hide Fold, Safe, Publish, Save, Notify, Report;
    var i := Intend(run, n);
    SettledIntend(Notes(w0, run), run.r, n);
    PublishTracks(w0, i, env);
    var a := Publish(i, env);
    if !a.stopped {
      assert Opened(Notes(w0, a), a.r, n);
      OpenedCommand(Notes(w0, a), a, env, now, n);
      EmitTracks(w0, a, RestartCommand(n, env.restartOk(n)));
      var b := Command(a, env, now, n);
      assert Answered(Notes(w0, b), b.r);
      FinishRestart(w0, b, cfg, env, now, n);
    }
  }

  lemma FinishRestart(w0: Watch, b: Run, cfg: Config, env: Env, now: int, n: string)
    requires n in b.r.containers && Tracks(w0, b) && Answered(Notes(w0, b), b.r)
    ensures var c := Save(b, env, n, b.r.containers[n].state);
            var d := Publish(c, env);
            var out := if c.stopped then c else if d.stopped then d else Report(d, cfg, env, now, n);
            Tracks(w0, out) && (!out.stopped ==> Settled(Notes(w0, out), out.r))
  {
    hide Fold, Safe, Publish, Save, Notify, Report;
    AnsweredPublish(Notes(w0, b), b.r);
    SaveTracks(w0, b, env, n, b.r.containers[n].state);
    var c := Save(b, env, n, b.r.containers[n].state);
    if !c.stopped {
      assert Answered(Notes(w0, c), c.r);
      AnsweredPublish(Notes(w0, c), c.r);
      PublishTracks(w0, c, env);
      var d := Publish(c, env);
      if !d.stopped { ReportTracks(w0, d, cfg, env, now, n); }
    }
  }

  lemma HandleOneTracks(w0: Watch, run: Run, cfg: Config, env: Env, now: int, n: string, p: Plan, save: bool)
    requires n in run.r.containers && Tracks(w0, run) && Settled(Notes(w0, run), run.r)
    ensures var out := HandleOne(run, cfg, env, now, n, p, save); Tracks(w0, out) && (!out.stopped ==> Settled(Notes(w0, out), out.r))
  {
    hide Fold, Safe, Publish, Save, Notify, TryRestart;
    SettledPublish(Notes(w0, run), run.r);
    SaveTracks(w0, run, env, n, run.r.containers[n].state);
    var a := if save then Save(run, env, n, run.r.containers[n].state) else run;
    if !a.stopped {
      match p.action
      case Exhausted => if p.notify { NotifyTracks(w0, a, env, n, true); }
      case Restart => TryRestartTracks(w0, a, cfg, env, now, n);
      case _ =>
    }
  }

  lemma {:induction false} HandleAllTracks(w0: Watch, run: Run, cfg: Config, env: Env, now: int, names: seq<string>,
                                          states: map<string, StateFile>, rows: map<string, Observation>)
    requires forall n :: n in names ==> n in rows && n in run.r.containers
    requires Tracks(w0, run) && (!run.stopped ==> Settled(Notes(w0, run), run.r))
    ensures var out := HandleAll(run, cfg, env, now, names, states, rows); Tracks(w0, out) && (!out.stopped ==> Settled(Notes(w0, out), out.r))
    decreases |names|
  {
    hide Fold, Safe, HandleOne, PlanFor, EligibleUnhealthy, Settled, Tracks;
    if !run.stopped && names != [] {
      var n := names[0];
      var p, save := PlanFor(states, rows, cfg, now, n), n in states || EligibleUnhealthy(rows[n]);
      HandleOneTracks(w0, run, cfg, env, now, n, p, save);
      HandleAllTracks(w0, HandleOne(run, cfg, env, now, n, p, save), cfg, env, now, names[1..], states, rows);
    }
  }

  lemma {:induction false} CollectTracks(w0: Watch, run: Run, env: Env, files: seq<string>, rows: map<string, Observation>)
    requires Tracks(w0, run) && (!run.stopped ==> Settled(Notes(w0, run), run.r))
    ensures var out := Collect(run, env, files, rows); Tracks(w0, out) && (!out.stopped ==> Settled(Notes(w0, out), out.r))
    decreases |files|
  {
    hide Fold, Safe, Publish, NamePattern;
    if !run.stopped && files != [] {
      var n := files[0];
      if !NamePattern(n) || n in rows {
        CollectTracks(w0, run, env, files[1..], rows);
      } else if env.removeOk(n) {
        EmitTracks(w0, run, RemoveState(n));
        CollectTracks(w0, Emit(run, RemoveState(n)), env, files[1..], rows);
      } else {
        PublishSettles(w0, run, env);
        CollectTracks(w0, Fail(run, env), env, files[1..], rows);
      }
    }
  }

  /** A container absent from the accepted rows, or seen running and healthy, is excused;
      every other one keeps its flag. */
  lemma ObservedKeeps(w: Watch, run: Run, cfg: Config, now: int, rows: map<string, Observation>)
    requires Settled(w, run.r)
    ensures Settled(Observe(w, Accept(rows)),
                    run.r.(dockerReadOK := true, containers := Observed(run.r, run.disk.states, rows, cfg, now)))
  {
    hide PlanFor, Ready, EligibleUnhealthy;
  }

  lemma ActTracks(w0: Watch, run: Run, cfg: Config, env: Env, now: int, rows: map<string, Observation>)
    requires !run.stopped && Tracks(w0, run) && Settled(Notes(w0, run), run.r)
    ensures Tracks(w0, Act(run, cfg, env, now, rows))
  {
    hide Fold, Safe, Publish, HandleAll, Collect, Observed, OrderedKeys;
    var states := run.disk.states;
    EmitTracks(w0, run, Accept(rows));
    ObservedKeeps(Notes(w0, run), run, cfg, now, rows);
    var a := Emit(run, Accept(rows));
    var a' := a.(r := a.r.(dockerReadOK := true, containers := Observed(a.r, states, rows, cfg, now)));
    PublishSettles(w0, a', env);
    var b := Publish(a', env);
    if !b.stopped {
      assert b.r.containers.Keys == rows.Keys by { ObservedStates(a.r, states, rows, cfg, now); }
      HandleAllTracks(w0, b, cfg, env, now, OrderedKeys(rows), states, rows);
      var c := HandleAll(b, cfg, env, now, OrderedKeys(rows), states, rows);
      if !c.stopped { FinishTracks(w0, c, env, rows); }
    }
  }

  lemma FinishTracks(w0: Watch, c: Run, env: Env, rows: map<string, Observation>)
    requires !c.stopped && Tracks(w0, c) && Settled(Notes(w0, c), c.r)
    ensures Tracks(w0, Fail(c, env))
    ensures var d := Collect(c, env, env.list(c.disk.states.Keys), rows);
            Tracks(w0, d) && (!d.stopped ==> Tracks(w0, Publish(d.(r := d.r.(success := true)), env)))
  {
    hide Fold, Safe, Publish, Collect;
    PublishSettles(w0, c, env);
    CollectTracks(w0, c, env, env.list(c.disk.states.Keys), rows);
    var d := Collect(c, env, env.list(c.disk.states.Keys), rows);
    if !d.stopped {
      var e := d.(r := d.r.(success := true));
      PublishSettles(w0, e, env);
    }
  }

  lemma BeginSettles(w: Watch, now: int)
    requires Inv(w) && LoadLedger(w.disk).Some?
    ensures Settled(Observe(w, Begin(now)), LoadLedger(w.disk).value.(lastRun := now, success := false, dockerReadOK := false))
  {
    hide ValidLedger;
  }

  /** Every step of every scan keeps the invariant. */
  lemma ScanTracks(w0: Watch, cfg: Config, env: Env, now: int)
    requires Inv(w0)
    ensures Tracks(w0, Scan(cfg, w0.disk, env, now))
  {
    hide Validate, Publish, Act, LoadLedger;
    assert Fold(w0, []) == w0 && Safe(w0, []);
    if ValidConfig(cfg) && now >= 1 && LoadLedger(w0.disk).Some? && env.logOpens {
      hide Fold, Safe;
      var r := LoadLedger(w0.disk).value.(lastRun := now, success := false, dockerReadOK := false);
      var idle := Run(w0.disk, r, [], 0, false);
      BeginSettles(w0, now);
      EmitTracks(w0, idle, Begin(now));
      var start := Emit(idle, Begin(now));
      var rows := Validate(w0.disk, env);
      if rows.None? {
        PublishSettles(w0, start, env);
      } else {
        ActTracks(w0, start, cfg, env, now, rows.value);
      }
    }
  }

  // ---------- every run ----------

  ghost function Play(w: Watch, attempts: seq<Attempt>): Watch {
    if attempts == [] then w else
      var before := Play(w, attempts[..|attempts| - 1]);
      Fold(before, Done(before.disk, attempts[|attempts| - 1]))
  }

  /** Whenever and wherever its scans are killed, a run that began on any disk keeps: attempts
      count every command issued, and exceed the recorded results by exactly the interrupted
      attempts; notification attempts count every notice issued; a container restarted and not
      excused since is flagged as failed on the disk; no counter ever went down. */
  lemma {:induction false} RunsKeepLedger(disk: Disk, attempts: seq<Attempt>)
    ensures Inv(Play(Start(disk), attempts))
  {
    if attempts != [] {
      RunsKeepLedger(disk, attempts[..|attempts| - 1]);
      var before := Play(Start(disk), attempts[..|attempts| - 1]);
      var a := attempts[|attempts| - 1];
      ScanTracks(before, a.cfg, a.env, a.now);
      var steps := Scan(a.cfg, before.disk, a.env, a.now).steps;
      if a.cut <= |steps| { SafeCut(before, steps, a.cut); }
    }
  }

  lemma {:induction false} FoldGrows(w: Watch, steps: seq<Step>, k: nat)
    requires !Fold(w, steps).regressed && k <= |steps|
    ensures AtLeast(CountsOf(Fold(w, steps).disk.ledger), CountsOf(Fold(w, steps[..k]).disk.ledger))
    ensures !Fold(w, steps[..k]).regressed
    decreases |steps|
  {
    if k < |steps| {
      FoldGrows(w, steps[..|steps| - 1], k);
      assert steps[..|steps| - 1][..k] == steps[..k];
    } else {
      assert steps[..k] == steps;
    }
  }

  /** No counter on the disk is ever lower than it was at any earlier moment of the run. */
  lemma {:induction false} CountersNeverDecrease(disk: Disk, attempts: seq<Attempt>, k: nat)
    requires k <= |attempts|
    ensures AtLeast(CountsOf(Play(Start(disk), attempts).disk.ledger), CountsOf(Play(Start(disk), attempts[..k]).disk.ledger))
    decreases |attempts|
  {
    if k < |attempts| {
      var less := attempts[..|attempts| - 1];
      CountersNeverDecrease(disk, less, k);
      assert less[..k] == attempts[..k];
      RunsKeepLedger(disk, attempts);
      var before := Play(Start(disk), less);
      var steps := Done(before.disk, attempts[|attempts| - 1]);
      FoldGrows(before, steps, 0);
      assert steps[..0] == [];
    } else {
      assert attempts[..k] == attempts;
    }
  }
}
