/** One container over every run of scans, each killed after any of its steps: its restart
    budget, its unhealthy streak and its urgent notices. */
module WatchdogTrack {
  import opened Text
  import opened Order
  import opened WatchdogText
  import opened WatchdogPolicy
  import opened WatchdogScan

  /** An onlooker's notes on container `x` since its state file last came into being.
      `streak` counts the unhealthy scans saved in a row since the last healthy scan or
      successful restart was saved; `commandedAt` has the streak at every restart command;
      `recorded` has the times of the successful restarts whose result was saved, `lost` of
      those whose scan ended before that, `succeeded` of both; `urgents` has the urgent notices
      since the last healthy scan was saved. */
  datatype Track = Track(
    file: Option<State>, time: int, unhealthy: bool, saved: bool,
    streak: nat, commandedAt: seq<nat>,
    succeeded: seq<int>, recorded: seq<int>, lost: seq<int>, pending: bool,
    urgents: seq<int>)

  const NEW := Track(None, 0, false, false, 0, [], [], [], [], false, [])

  function Observe(t: Track, step: Step, x: string): Track {
    match step
    case Begin(now) =>
      t.(time := now, saved := false, pending := false, lost := if t.pending then t.lost + [t.time] else t.lost)
    case Accept(rows) => t.(unhealthy := x in rows && EligibleUnhealthy(rows[x]))
    case WriteState(n, s) =>
      if n != x then t
      else if !t.saved then
        if t.unhealthy then t.(file := Some(s), saved := true, streak := t.streak + 1)
        else t.(file := Some(s), saved := true, streak := 0, urgents := [])
      else if t.pending then t.(file := Some(s), streak := 0, recorded := t.recorded + [t.time], pending := false)
      else t.(file := Some(s))
    case RemoveState(n) =>
      if n != x then t
      else t.(file := None, streak := 0, succeeded := [], recorded := [], lost := [], pending := false, urgents := [], commandedAt := [])
    case RestartCommand(n, ok) =>
      if n != x then t
      else
        var u := t.(commandedAt := t.commandedAt + [t.streak]);
        if ok then u.(succeeded := t.succeeded + [t.time], pending := true) else u
    case NotifyCommand(n, urgent, ok) =>
      if n == x && urgent then t.(urgents := t.urgents + [t.time]) else t
    case _ => t
  }

  function Fold(t: Track, steps: seq<Step>, x: string): Track {
    if steps == [] then t else Observe(Fold(t, steps[..|steps| - 1], x), steps[|steps| - 1], x)
  }

  function Held(t: Track): State { if t.file.Some? then t.file.value else ZERO }

  function PendingIn(t: Track, from: int): nat { if t.pending && from <= t.time < from + DAY then 1 else 0 }

  ghost predicate Spaced(times: seq<int>, gap: int) {
    forall i, j :: 0 <= i < j < |times| ==> times[j] - times[i] >= gap
  }

  /** Every successful restart is recorded, lost or pending. */
  ghost predicate Accounted(t: Track) {
    forall from :: CountIn(t.succeeded, from) == CountIn(t.recorded, from) + CountIn(t.lost, from) + PendingIn(t, from)
  }

  ghost predicate Urgency(t: Track, cfg: Config) {
    Spaced(t.urgents, cfg.cooldown) && (t.urgents != [] ==> UpTo(t.urgents, Held(t).lastAlert))
  }

  ghost predicate Inv(t: Track, cfg: Config) {
    && Held(t).consecutive == t.streak
    && Window(t.recorded, Held(t), t.time, cfg.budget)
    && Counted(t.recorded, Held(t), t.time)
    && Accounted(t)
    && Urgency(t, cfg)
    && (forall i :: 0 <= i < |t.commandedAt| ==> t.commandedAt[i] >= cfg.threshold)
  }

  // ---------- the stages of one container's turn ----------

  /** Before the turn: nothing saved in this scan. */
  ghost predicate Waiting(t: Track, cfg: Config) { Inv(t, cfg) && !t.saved && !t.pending }

  /** After the first save, with the state `Decide` planned. */
  ghost predicate Planned(t: Track, cfg: Config, p: Plan) {
    && Inv(t, cfg) && t.saved && !t.pending && t.file == Some(p.state)
    && (p.action == Restart ==> p.state.restarts < cfg.budget && p.state.consecutive >= cfg.threshold && Aged(p.state, t.time))
    && (p.action == Exhausted && p.notify ==> p.state.lastAlert == t.time && Spaced(t.urgents + [t.time], cfg.cooldown))
  }

  lemma SpacedSnoc(times: seq<int>, t: int, limit: int, gap: int)
    requires Spaced(times, gap) && UpTo(times, limit) && t - limit >= gap
    ensures Spaced(times + [t], gap)
  {}

  lemma BeginKeeps(t: Track, now: int, cfg: Config, x: string)
    requires Inv(t, cfg) && t.time <= now
    ensures Waiting(Observe(t, Begin(now), x), cfg)
  {
    var u := Observe(t, Begin(now), x);
    forall from ensures CountIn(u.succeeded, from) == CountIn(u.recorded, from) + CountIn(u.lost, from) + PendingIn(u, from) {
      CountSnoc(t.lost, t.time, from);
    }
  }

  lemma FirstSave(t: Track, cfg: Config, x: string)
    requires Waiting(t, cfg) && cfg.cooldown >= 1
    ensures var p := Decide(Held(t), t.unhealthy, t.time, cfg);
            Planned(Observe(t, WriteState(x, p.state), x), cfg, p)
  {
    var s := Held(t);
    var p := Decide(s, t.unhealthy, t.time, cfg);
    WindowDecide(t.recorded, s, t.time, t.time, t.unhealthy, cfg);
    CountedDecide(t.recorded, s, t.time, t.time, t.unhealthy, cfg);
    if p.action == Exhausted && p.notify {
      assert p.state.lastAlert == t.time && t.time - s.lastAlert >= cfg.cooldown;
      if t.urgents != [] { SpacedSnoc(t.urgents, t.time, s.lastAlert, cfg.cooldown); }
    }
    var u := Observe(t, WriteState(x, p.state), x);
    assert Accounted(u) by { assert u.succeeded == t.succeeded && u.recorded == t.recorded && u.lost == t.lost; }
  }

  lemma UrgentNotice(t: Track, cfg: Config, x: string, ok: bool)
    requires Inv(t, cfg) && Spaced(t.urgents + [t.time], cfg.cooldown) && Held(t).lastAlert >= t.time
    requires cfg.cooldown >= 1
    ensures Inv(Observe(t, NotifyCommand(x, true, ok), x), cfg)
  {
    var u := Observe(t, NotifyCommand(x, true, ok), x);
    assert forall i :: 0 <= i < |t.urgents| ==> u.urgents[|t.urgents|] - u.urgents[i] >= cfg.cooldown;
    assert Accounted(u) by { assert forall from :: PendingIn(u, from) == PendingIn(t, from); }
  }

  lemma CommandKeeps(t: Track, cfg: Config, x: string, ok: bool)
    requires Inv(t, cfg) && !t.pending && Held(t).consecutive >= cfg.threshold
    ensures Inv(Observe(t, RestartCommand(x, ok), x), cfg)
  {
    hide Window, Counted;
    var u := Observe(t, RestartCommand(x, ok), x);
    forall from ensures CountIn(u.succeeded, from) == CountIn(u.recorded, from) + CountIn(u.lost, from) + PendingIn(u, from) {
      CountSnoc(t.succeeded, t.time, from);
    }
  }

  /** Saving the result of a successful restart. */
  lemma RecordKeeps(t: Track, cfg: Config, x: string)
    requires Inv(t, cfg) && t.saved && t.pending && Held(t).restarts < cfg.budget && Aged(Held(t), t.time)
    ensures var u := Observe(t, WriteState(x, Restarted(Held(t), t.time)), x); Inv(u, cfg) && !u.pending
  {
    var u := Observe(t, WriteState(x, Restarted(Held(t), t.time)), x);
    WindowRestart(t.recorded, Held(t), t.time, cfg.budget);
    CountedRestart(t.recorded, Held(t), t.time);
    forall from ensures CountIn(u.succeeded, from) == CountIn(u.recorded, from) + CountIn(u.lost, from) + PendingIn(u, from) {
      CountSnoc(t.recorded, t.time, from);
    }
  }

  /** Saving the alert stamp after a failed restart. */
  lemma StampKeeps(t: Track, cfg: Config, x: string)
    requires Inv(t, cfg) && t.saved && !t.pending && t.time - Held(t).lastAlert >= cfg.cooldown && cfg.cooldown >= 1
    ensures var u := Observe(t, WriteState(x, Held(t).(lastAlert := t.time)), x);
            Inv(u, cfg) && Spaced(u.urgents + [u.time], cfg.cooldown)
  {
    var u := Observe(t, WriteState(x, Held(t).(lastAlert := t.time)), x);
    if t.urgents != [] { SpacedSnoc(t.urgents, t.time, Held(t).lastAlert, cfg.cooldown); }
    assert Accounted(u);
    assert Window(u.recorded, Held(u), u.time, cfg.budget);
  }

  // ---------- steps that are not about x ----------

  predicate About(step: Step, x: string) {
    match step
    case Begin(_) => true
    case Accept(_) => true
    case WriteState(n, _) => n == x
    case RemoveState(n) => n == x
    case RestartCommand(n, _) => n == x
    case NotifyCommand(n, _, _) => n == x
    case _ => false
  }

  /** `b` continues `a` without a step about `x`. */
  ghost predicate Beside(a: Run, b: Run, x: string) {
    && |a.steps| <= |b.steps| && b.steps[..|a.steps|] == a.steps
    && (forall i :: |a.steps| <= i < |b.steps| ==> !About(b.steps[i], x))
    && (x in a.disk.states <==> x in b.disk.states)
    && (x in a.disk.states ==> a.disk.states[x] == b.disk.states[x])
    && (x in a.r.containers ==> x in b.r.containers && a.r.containers[x] == b.r.containers[x])
  }

  lemma BesideTrans(a: Run, b: Run, c: Run, x: string)
    requires Beside(a, b, x) && Beside(b, c, x)
    ensures Beside(a, c, x)
  {
    assert c.steps[..|a.steps|] == c.steps[..|b.steps|][..|a.steps|];
    forall i | |a.steps| <= i < |c.steps| ensures !About(c.steps[i], x) {
      if i < |b.steps| { assert c.steps[i] == c.steps[..|b.steps|][i]; }
    }
  }

  lemma EmitBeside(run: Run, step: Step, x: string)
    requires !About(step, x)
    ensures Beside(run, Emit(run, step), x)
  {}

  lemma PublishBeside(run: Run, env: Env, x: string)
    ensures Beside(run, Publish(run, env), x) && Beside(run, Fail(run, env), x)
  {}

  lemma SaveBeside(run: Run, env: Env, n: string, s: State, x: string)
    requires n != x
    ensures Beside(run, Save(run, env, n, s), x)
  {
    hide Publish;
    PublishBeside(run.(writes := run.writes + 1), env, x);
  }

  lemma NotifyBeside(run: Run, env: Env, n: string, urgent: bool, x: string)
    requires n != x
    ensures Beside(run, Notify(run, env, n, urgent), x)
  {
    hide Publish, Beside;
    var a := run.(r := run.r.(notifications := run.r.notifications + 1));
    var b := Publish(a, env);
    PublishBeside(a, env, x);
    assert Beside(run, b, x) by { ReshapeBeside(run, a, b, x); }
    if !b.stopped {
      var c := Emit(b, NotifyCommand(n, urgent, env.notifyOk(n)));
      var d := if env.notifyOk(n) then c else c.(r := c.r.(notificationFailures := c.r.notificationFailures + 1));
      EmitBeside(b, NotifyCommand(n, urgent, env.notifyOk(n)), x);
      PublishBeside(d, env, x);
      ReshapeBeside(c, d, Publish(d, env), x);
      BesideTrans(run, b, c, x);
      BesideTrans(run, c, Publish(d, env), x);
    }
  }

  lemma ReshapeBeside(a: Run, a': Run, b: Run, x: string)
    requires Beside(a', b, x) && a'.steps == a.steps && a'.disk == a.disk
    requires x in a.r.containers ==> x in a'.r.containers && a'.r.containers[x] == a.r.containers[x]
    ensures Beside(a, b, x)
  {}

  lemma ReportBeside(run: Run, cfg: Config, env: Env, now: int, n: string, x: string)
    requires n in run.r.containers && n != x
    ensures Beside(run, Report(run, cfg, env, now, n), x)
  {
    hide Save, Notify, Beside;
    var c := run.r.containers[n];
    if env.restartOk(n) {
      NotifyBeside(run, env, n, false, x);
    } else if now - c.state.lastAlert >= cfg.cooldown {
      var a := run.(r := SetContainer(run.r, n, c.(state := c.state.(lastAlert := now))));
      var b := Save(a, env, n, c.state.(lastAlert := now));
      SaveBeside(a, env, n, c.state.(lastAlert := now), x);
      ReshapeBeside(run, a, b, x);
      if !b.stopped {
        NotifyBeside(b, env, n, true, x);
        BesideTrans(run, b, Notify(b, env, n, true), x);
      }
    } else {
      SelfBeside(run, x);
    }
  }

  lemma SelfBeside(run: Run, x: string)
    ensures Beside(run, run, x)
  {}

  lemma CommandBeside(run: Run, env: Env, now: int, n: string, x: string)
    requires n in run.r.containers && n != x
    ensures Beside(run, Command(run, env, now, n), x)
  {}

  lemma TryRestartBeside(run: Run, cfg: Config, env: Env, now: int, n: string, x: string)
    requires n in run.r.containers && n != x
    ensures Beside(run, TryRestart(run, cfg, env, now, n), x)
  {
    hide Publish, Save, Report, Beside, Command;
    var i := Intend(run, n);
    var a := Publish(i, env);
    PublishBeside(i, env, x);
    ReshapeBeside(run, i, a, x);
    if !a.stopped {
      var b := Command(a, env, now, n);
      var c := Save(b, env, n, b.r.containers[n].state);
      CommandBeside(a, env, now, n, x);
      SaveBeside(b, env, n, b.r.containers[n].state, x);
      BesideTrans(run, a, b, x);
      BesideTrans(run, b, c, x);
      if !c.stopped {
        var d := Publish(c, env);
        PublishBeside(c, env, x);
        BesideTrans(run, c, d, x);
        if !d.stopped {
          ReportBeside(d, cfg, env, now, n, x);
          BesideTrans(run, d, Report(d, cfg, env, now, n), x);
        }
      }
    }
  }

  lemma HandleOneBeside(run: Run, cfg: Config, env: Env, now: int, n: string, p: Plan, save: bool, x: string)
    requires n in run.r.containers && n != x
    ensures Beside(run, HandleOne(run, cfg, env, now, n, p, save), x)
  {
    hide Save, Notify, TryRestart, Beside;
    SelfBeside(run, x);
    SaveBeside(run, env, n, run.r.containers[n].state, x);
    var a := if save then Save(run, env, n, run.r.containers[n].state) else run;
    if !a.stopped {
      match p.action
      case Exhausted => if p.notify {
        NotifyBeside(a, env, n, true, x);
        BesideTrans(run, a, Notify(a, env, n, true), x);
      }
      case Restart =>
        TryRestartBeside(a, cfg, env, now, n, x);
        BesideTrans(run, a, TryRestart(a, cfg, env, now, n), x);
      case _ =>
    }
  }

  lemma {:induction false} HandleAllBeside(run: Run, cfg: Config, env: Env, now: int, names: seq<string>,
                                          states: map<string, StateFile>, rows: map<string, Observation>, x: string)
    requires forall n :: n in names ==> n in rows && n in run.r.containers && n != x
    ensures Beside(run, HandleAll(run, cfg, env, now, names, states, rows), x)
    decreases |names|
  {
    hide HandleOne, Beside, PlanFor, EligibleUnhealthy;
    SelfBeside(run, x);
    if !run.stopped && names != [] {
      var n := names[0];
      var p, save := PlanFor(states, rows, cfg, now, n), n in states || EligibleUnhealthy(rows[n]);
      var a := HandleOne(run, cfg, env, now, n, p, save);
      HandleOneBeside(run, cfg, env, now, n, p, save, x);
      HandleAllBeside(a, cfg, env, now, names[1..], states, rows, x);
      BesideTrans(run, a, HandleAll(a, cfg, env, now, names[1..], states, rows), x);
    }
  }

  // ---------- the walk over one scan ----------

  ghost predicate Safe(t: Track, steps: seq<Step>, cfg: Config, x: string) {
    Inv(Fold(t, steps, x), cfg) && (steps == [] || Safe(t, steps[..|steps| - 1], cfg, x))
  }

  lemma {:induction false} SafeCut(t: Track, steps: seq<Step>, cfg: Config, x: string, k: nat)
    requires Safe(t, steps, cfg, x) && k <= |steps|
    ensures Safe(t, steps[..k], cfg, x)
    decreases |steps|
  {
    if k < |steps| {
      SafeCut(t, steps[..|steps| - 1], cfg, x, k);
      assert steps[..|steps| - 1][..k] == steps[..k];
    } else {
      assert steps[..k] == steps;
    }
  }

  /** The state file of `x` is what the notes say was saved last. */
  predicate FileMatches(t: Track, disk: Disk, x: string) {
    && (t.file.None? <==> x !in disk.states)
    && (t.file.Some? ==> disk.states[x] == Content(Bytes(t.file.value)))
  }

  ghost predicate Tracks(t0: Track, run: Run, cfg: Config, x: string) {
    Safe(t0, run.steps, cfg, x) && FileMatches(Fold(t0, run.steps, x), run.disk, x)
  }

  ghost function Notes(t0: Track, run: Run, x: string): Track { Fold(t0, run.steps, x) }

  lemma EmitTracks(t0: Track, run: Run, step: Step, cfg: Config, x: string)
    requires Tracks(t0, run, cfg, x) && Inv(Observe(Notes(t0, run, x), step, x), cfg)
    ensures Tracks(t0, Emit(run, step), cfg, x) && Notes(t0, Emit(run, step), x) == Observe(Notes(t0, run, x), step, x)
  {
    hide Inv, Observe, Bytes, FileMatches;
    assert (run.steps + [step])[..|run.steps|] == run.steps;
    StepMatches(Notes(t0, run, x), run.disk, step, x);
  }

  lemma {:induction false} FoldBeside(t: Track, old_: seq<Step>, steps: seq<Step>, cfg: Config, x: string)
    requires |old_| <= |steps| && steps[..|old_|] == old_ && Safe(t, old_, cfg, x)
    requires forall i :: |old_| <= i < |steps| ==> !About(steps[i], x)
    ensures Fold(t, steps, x) == Fold(t, old_, x) && Safe(t, steps, cfg, x)
    decreases |steps|
  {
    if |old_| == |steps| {
      assert steps == old_;
    } else {
      var less := steps[..|steps| - 1];
      assert less[..|old_|] == old_;
      FoldBeside(t, old_, less, cfg, x);
      assert !About(steps[|steps| - 1], x);
    }
  }

  lemma BesideTracks(t0: Track, a: Run, b: Run, cfg: Config, x: string)
    requires Tracks(t0, a, cfg, x) && Beside(a, b, x)
    ensures Tracks(t0, b, cfg, x) && Notes(t0, b, x) == Notes(t0, a, x)
  {
    FoldBeside(t0, a.steps, b.steps, cfg, x);
  }

  lemma PublishTracks(t0: Track, run: Run, env: Env, cfg: Config, x: string)
    requires Tracks(t0, run, cfg, x)
    ensures Tracks(t0, Publish(run, env), cfg, x) && Notes(t0, Publish(run, env), x) == Notes(t0, run, x)
  {
    hide Publish;
    PublishBeside(run, env, x);
    BesideTracks(t0, run, Publish(run, env), cfg, x);
  }

  lemma SaveTracks(t0: Track, run: Run, env: Env, s: State, cfg: Config, x: string)
    requires Tracks(t0, run, cfg, x) && Inv(Observe(Notes(t0, run, x), WriteState(x, s), x), cfg)
    ensures var out := Save(run, env, x, s);
            Tracks(t0, out, cfg, x) && (!out.stopped ==> Notes(t0, out, x) == Observe(Notes(t0, run, x), WriteState(x, s), x))
  {
    hide Publish, Fold, Safe, Inv;
    var a := run.(writes := run.writes + 1);
    if env.writeOk(run.writes) {
      EmitTracks(t0, a, WriteState(x, s), cfg, x);
    } else {
      PublishTracks(t0, a, env, cfg, x);
    }
  }

  lemma NotifyTracks(t0: Track, run: Run, env: Env, urgent: bool, cfg: Config, x: string)
    requires Tracks(t0, run, cfg, x)
    requires Inv(Observe(Notes(t0, run, x), NotifyCommand(x, urgent, env.notifyOk(x)), x), cfg)
    ensures Tracks(t0, Notify(run, env, x, urgent), cfg, x)
  {
    hide Publish, Fold, Safe, Inv;
    var a := run.(r := run.r.(notifications := run.r.notifications + 1));
    PublishTracks(t0, a, env, cfg, x);
    var b := Publish(a, env);
    if !b.stopped {
      EmitTracks(t0, b, NotifyCommand(x, urgent, env.notifyOk(x)), cfg, x);
      var c := Emit(b, NotifyCommand(x, urgent, env.notifyOk(x)));
      PublishTracks(t0, if env.notifyOk(x) then c else c.(r := c.r.(notificationFailures := c.r.notificationFailures + 1)), env, cfg, x);
    }
  }

  lemma CalmNotice(t: Track, cfg: Config, x: string, ok: bool)
    requires Inv(t, cfg)
    ensures Observe(t, NotifyCommand(x, false, ok), x) == t
  {}

  lemma ReportTracks(t0: Track, run: Run, cfg: Config, env: Env, now: int, x: string)
    requires ValidConfig(cfg) && x in run.r.containers && Tracks(t0, run, cfg, x)
    requires var t := Notes(t0, run, x);
             Inv(t, cfg) && t.saved && !t.pending && t.time == now && t.file == Some(run.r.containers[x].state)
    ensures Tracks(t0, Report(run, cfg, env, now, x), cfg, x)
  {
    hide Save, Notify, Fold, Safe, Inv, Spaced;
    var t, c := Notes(t0, run, x), run.r.containers[x];
    if env.restartOk(x) {
      CalmNotice(t, cfg, x, env.notifyOk(x));
      NotifyTracks(t0, run, env, false, cfg, x);
    } else if now - c.state.lastAlert >= cfg.cooldown {
      var stamped := c.(state := c.state.(lastAlert := now));
      var a := run.(r := SetContainer(run.r, x, stamped));
      StampKeeps(t, cfg, x);
      SaveTracks(t0, a, env, stamped.state, cfg, x);
      var b := Save(a, env, x, stamped.state);
      if !b.stopped {
        UrgentNotice(Notes(t0, b, x), cfg, x, env.notifyOk(x));
        NotifyTracks(t0, b, env, true, cfg, x);
      }
    }
  }

  lemma TryRestartTracks(t0: Track, run: Run, cfg: Config, env: Env, now: int, x: string)
    requires ValidConfig(cfg) && x in run.r.containers && Tracks(t0, run, cfg, x)
    requires var t, s := Notes(t0, run, x), run.r.containers[x].state;
             Inv(t, cfg) && t.saved && !t.pending && t.time == now && t.file == Some(s)
             && s.restarts < cfg.budget && s.consecutive >= cfg.threshold && Aged(s, now)
    ensures Tracks(t0, TryRestart(run, cfg, env, now, x), cfg, x)
  {
    hide Publish, Save, Report, Fold, Safe, Inv;
    var i := Intend(run, x);
    PublishTracks(t0, i, env, cfg, x);
    var a := Publish(i, env);
    if !a.stopped {
      var t := Notes(t0, a, x);
      CommandKeeps(t, cfg, x, env.restartOk(x));
      EmitTracks(t0, a, RestartCommand(x, env.restartOk(x)), cfg, x);
      var b := Command(a, env, now, x);
      var u := Notes(t0, b, x);
      assert u == Observe(t, RestartCommand(x, env.restartOk(x)), x);
      var s := b.r.containers[x].state;
      if env.restartOk(x) {
        RecordKeeps(u, cfg, x);
      } else {
        assert Observe(u, WriteState(x, s), x) == u;
      }
      SaveTracks(t0, b, env, s, cfg, x);
      var c := Save(b, env, x, s);
      if !c.stopped {
        PublishTracks(t0, c, env, cfg, x);
        if !Publish(c, env).stopped { ReportTracks(t0, Publish(c, env), cfg, env, now, x); }
      }
    }
  }

  lemma HandleOneTracks(t0: Track, run: Run, cfg: Config, env: Env, now: int, p: Plan, save: bool, x: string)
    requires ValidConfig(cfg) && x in run.r.containers && Tracks(t0, run, cfg, x) && run.r.containers[x].state == p.state
    requires var t := Notes(t0, run, x);
             Waiting(t, cfg) && t.time == now && p == Decide(Held(t), t.unhealthy, now, cfg)
             && save == (t.file.Some? || t.unhealthy)
    ensures Tracks(t0, HandleOne(run, cfg, env, now, x, p, save), cfg, x)
  {
    hide Save, Notify, TryRestart, Fold, Safe, Inv, Spaced;
    var t := Notes(t0, run, x);
    if save {
      FirstSave(t, cfg, x);
      SaveTracks(t0, run, env, p.state, cfg, x);
      var a := Save(run, env, x, p.state);
      if !a.stopped {
        match p.action
        case Exhausted => if p.notify {
          UrgentNotice(Notes(t0, a, x), cfg, x, env.notifyOk(x));
          NotifyTracks(t0, a, env, true, cfg, x);
        }
        case Restart => TryRestartTracks(t0, a, cfg, env, now, x);
        case _ =>
      }
    }
  }

  lemma {:induction false} HandleAllTracks(t0: Track, run: Run, cfg: Config, env: Env, now: int, names: seq<string>,
                                          states: map<string, StateFile>, rows: map<string, Observation>, x: string)
    requires ValidConfig(cfg) && !run.stopped && Tracks(t0, run, cfg, x) && NoDup(names) && x in names
    requires forall n :: n in names ==> n in rows && n in run.r.containers
    requires run.r.containers[x].state == PlanFor(states, rows, cfg, now, x).state
    requires var t := Notes(t0, run, x);
             Waiting(t, cfg) && t.time == now && t.unhealthy == EligibleUnhealthy(rows[x])
             && Held(t) == StateIn(states, x) && (t.file.Some? <==> x in states)
    ensures Tracks(t0, HandleAll(run, cfg, env, now, names, states, rows), cfg, x)
    decreases |names|
  {
    hide HandleOne, Fold, Safe, Inv, Decide, EligibleUnhealthy, StateIn, Beside;
    var n := names[0];
    var p, save := PlanFor(states, rows, cfg, now, n), n in states || EligibleUnhealthy(rows[n]);
    var a := HandleOne(run, cfg, env, now, n, p, save);
    if n == x {
      HandleOneTracks(t0, run, cfg, env, now, p, save, x);
      HandleAllBeside(a, cfg, env, now, names[1..], states, rows, x);
      BesideTracks(t0, a, HandleAll(a, cfg, env, now, names[1..], states, rows), cfg, x);
    } else {
      HandleOneBeside(run, cfg, env, now, n, p, save, x);
      BesideTracks(t0, run, a, cfg, x);
      if !a.stopped {
        assert run.r.containers[x] == a.r.containers[x] by { BesideContainer(run, a, x); }
        HandleAllTracks(t0, a, cfg, env, now, names[1..], states, rows, x);
      }
    }
  }

  lemma BesideContainer(a: Run, b: Run, x: string)
    requires Beside(a, b, x) && x in a.r.containers
    ensures x in b.r.containers && a.r.containers[x] == b.r.containers[x]
  {}

  lemma RemovalKeeps(t: Track, cfg: Config, x: string)
    requires Inv(t, cfg) && ValidConfig(cfg)
    ensures Inv(Observe(t, RemoveState(x), x), cfg)
  {}

  lemma {:induction false} CollectTracks(t0: Track, run: Run, env: Env, files: seq<string>, rows: map<string, Observation>, cfg: Config, x: string)
    requires ValidConfig(cfg) && Tracks(t0, run, cfg, x)
    ensures Tracks(t0, Collect(run, env, files, rows), cfg, x)
    decreases |files|
  {
    hide Publish, Fold, Inv, NamePattern;
    if !run.stopped && files != [] {
      var n := files[0];
      if !NamePattern(n) || n in rows {
        CollectTracks(t0, run, env, files[1..], rows, cfg, x);
      } else if env.removeOk(n) {
        if n == x { RemovalKeeps(Notes(t0, run, x), cfg, x); }
        EmitTracks(t0, run, RemoveState(n), cfg, x);
        CollectTracks(t0, Emit(run, RemoveState(n)), env, files[1..], rows, cfg, x);
      } else {
        PublishTracks(t0, run, env, cfg, x);
        CollectTracks(t0, Fail(run, env), env, files[1..], rows, cfg, x);
      }
    }
  }

  lemma AcceptedFile(t: Track, disk: Disk, x: string)
    requires FileMatches(t, disk, x) && StateAccepted(disk.states, x)
    ensures Held(t) == StateIn(disk.states, x)
  {
    if t.file.Some? { ParseBytes(t.file.value); }
  }

  lemma ActTracks(t0: Track, run: Run, cfg: Config, env: Env, now: int, rows: map<string, Observation>, x: string)
    requires ValidConfig(cfg) && !run.stopped && Tracks(t0, run, cfg, x) && (x in rows ==> StateAccepted(run.disk.states, x))
    requires Waiting(Notes(t0, run, x), cfg) && Notes(t0, run, x).time == now
    ensures Tracks(t0, Act(run, cfg, env, now, rows), cfg, x)
  {
    hide Publish, HandleAll, Collect, Observed, OrderedKeys, Fold, Safe, Sorted, StateAccepted, StateIn;
    var states, names := run.disk.states, OrderedKeys(rows);
    EmitTracks(t0, run, Accept(rows), cfg, x);
    var a := Emit(run, Accept(rows));
    var a' := a.(r := a.r.(dockerReadOK := true, containers := Observed(a.r, states, rows, cfg, now)));
    PublishTracks(t0, a', env, cfg, x);
    var b := Publish(a', env);
    if !b.stopped {
      ObservedStates(a.r, states, rows, cfg, now);
      if x in rows {
        AcceptedFile(Notes(t0, run, x), run.disk, x);
        HandleAllTracks(t0, b, cfg, env, now, names, states, rows, x);
      } else {
        HandleAllBeside(b, cfg, env, now, names, states, rows, x);
        BesideTracks(t0, b, HandleAll(b, cfg, env, now, names, states, rows), cfg, x);
      }
      FinishTracks(t0, HandleAll(b, cfg, env, now, names, states, rows), env, rows, cfg, x);
    }
  }

  lemma FinishTracks(t0: Track, c: Run, env: Env, rows: map<string, Observation>, cfg: Config, x: string)
    requires ValidConfig(cfg) && Tracks(t0, c, cfg, x)
    ensures Tracks(t0, Fail(c, env), cfg, x)
    ensures var d := Collect(c, env, env.list(c.disk.states.Keys), rows);
            Tracks(t0, d, cfg, x) && Tracks(t0, Publish(d.(r := d.r.(success := true)), env), cfg, x)
  {
    hide Publish, Collect, Fold, Safe;
    PublishTracks(t0, c, env, cfg, x);
    CollectTracks(t0, c, env, env.list(c.disk.states.Keys), rows, cfg, x);
    var d := Collect(c, env, env.list(c.disk.states.Keys), rows);
    PublishTracks(t0, d.(r := d.r.(success := true)), env, cfg, x);
  }

  lemma ScanTracks(t0: Track, disk: Disk, cfg: Config, env: Env, now: int, x: string)
    requires Inv(t0, cfg) && FileMatches(t0, disk, x) && t0.time <= now
    ensures Tracks(t0, Scan(cfg, disk, env, now), cfg, x)
  {
    hide Validate, Publish, Act, LoadLedger, Inv;
    assert Fold(t0, [], x) == t0 && Safe(t0, [], cfg, x);
    if ValidConfig(cfg) && now >= 1 && LoadLedger(disk).Some? && env.logOpens {
      var idle := Run(disk, LoadLedger(disk).value.(lastRun := now, success := false, dockerReadOK := false), [], 0, false);
      BeginKeeps(t0, now, cfg, x);
      EmitTracks(t0, idle, Begin(now), cfg, x);
      var start := Emit(idle, Begin(now));
      var rows := Validate(disk, env);
      if rows.None? {
        PublishTracks(t0, start, env, cfg, x);
      } else {
        ValidateAccepts(disk, env, x);
        ActTracks(t0, start, cfg, env, now, rows.value, x);
      }
    }
  }

  lemma ValidateAccepts(disk: Disk, env: Env, x: string)
    requires Validate(disk, env).Some?
    ensures x in Validate(disk, env).value ==> StateAccepted(disk.states, x)
  {}

  // ---------- every run ----------

  lemma StepMatches(t: Track, disk: Disk, step: Step, x: string)
    requires FileMatches(t, disk, x)
    ensures FileMatches(Observe(t, step, x), Apply(disk, step), x)
  {
    hide Bytes;
  }

  lemma {:induction false} FoldMatches(t: Track, disk: Disk, steps: seq<Step>, x: string)
    requires FileMatches(t, disk, x)
    ensures FileMatches(Fold(t, steps, x), DiskAfter(disk, steps), x)
  {
    hide FileMatches, Observe, Apply;
    if steps != [] {
      FoldMatches(t, disk, steps[..|steps| - 1], x);
      StepMatches(Fold(t, steps[..|steps| - 1], x), DiskAfter(disk, steps[..|steps| - 1]), steps[|steps| - 1], x);
    }
  }

  datatype World = World(disk: Disk, track: Track)

  ghost function Play(w: World, attempts: seq<Attempt>, x: string): World {
    if attempts == [] then w else
      var before := Play(w, attempts[..|attempts| - 1], x);
      var steps := Done(before.disk, attempts[|attempts| - 1]);
      World(DiskAfter(before.disk, steps), Fold(before.track, steps, x))
  }

  /** One policy throughout, and no scan's clock is behind the last scan that began. */
  ghost predicate Orderly(w: World, attempts: seq<Attempt>, cfg: Config, x: string) {
    forall k :: 0 <= k < |attempts| ==> attempts[k].cfg == cfg && Play(w, attempts[..k], x).track.time <= attempts[k].now
  }

  /** Whenever and wherever the scans are killed, for a container that began without a state
      file: its saved streak is the streak, every day of recorded restarts is within the budget,
      urgent notices of a streak are spaced by the cooldown with the stamp saved, and every
      restart command came at a streak of at least the threshold. */
  lemma {:induction false} RunsKeepPolicy(disk: Disk, attempts: seq<Attempt>, cfg: Config, x: string)
    requires ValidConfig(cfg) && x !in disk.states && Orderly(World(disk, NEW), attempts, cfg, x)
    ensures var w := Play(World(disk, NEW), attempts, x); Inv(w.track, cfg) && FileMatches(w.track, w.disk, x)
  {
    if attempts != [] {
      var less := attempts[..|attempts| - 1];
      forall k | 0 <= k < |less| ensures Play(World(disk, NEW), less[..k], x).track.time <= less[k].now {
        assert less[..k] == attempts[..k];
      }
      RunsKeepPolicy(disk, less, cfg, x);
      var before, a := Play(World(disk, NEW), less, x), attempts[|attempts| - 1];
      ScanTracks(before.track, before.disk, cfg, a.env, a.now, x);
      var steps := Scan(cfg, before.disk, a.env, a.now).steps;
      if a.cut <= |steps| { SafeCut(before.track, steps, cfg, x, a.cut); }
      FoldMatches(before.track, before.disk, Done(before.disk, a), x);
    }
  }

  /** The restart budget: in any half-open day, the successful restarts of a container number
      at most `budget`, plus those whose scan was killed before the result was saved. */
  lemma BudgetPerDay(disk: Disk, attempts: seq<Attempt>, cfg: Config, x: string, from: int)
    requires ValidConfig(cfg) && x !in disk.states && Orderly(World(disk, NEW), attempts, cfg, x)
    ensures var t := Play(World(disk, NEW), attempts, x).track;
            CountIn(t.succeeded, from) <= cfg.budget + CountIn(t.lost, from) + PendingIn(t, from)
    ensures var t := Play(World(disk, NEW), attempts, x).track;
            t.lost == [] && !t.pending ==> CountIn(t.succeeded, from) <= cfg.budget
  {
    RunsKeepPolicy(disk, attempts, cfg, x);
  }
}
