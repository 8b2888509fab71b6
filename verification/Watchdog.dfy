/** The scan as the program runs it: fields updated in place, loops over the inventories,
    early returns. Each method is proved equal to its counterpart in `WatchdogScan`. */
module Watchdog {
  import opened Text
  import opened Order
  import opened WatchdogText
  import opened WatchdogPolicy
  import opened WatchdogScan

  class Scanner {
    var states: map<string, StateFile>
    var ledgerFile: LedgerFile
    var metrics: Option<Ledger>
    var r: Ledger
    var writes: nat
    ghost var steps: seq<Step>

    constructor (disk: Disk)
      ensures OnDisk() == disk
    {
      states, ledgerFile, metrics := disk.states, disk.ledger, disk.metrics;
      r, writes, steps := EMPTY_LEDGER, 0, [];
    }

    ghost function OnDisk(): Disk
      reads this
    {
      Disk(states, ledgerFile, metrics)
    }

    ghost function Snap(stopped: bool): Run
      reads this
    {
      Run(OnDisk(), r, steps, writes, stopped)
    }

    method Publish(env: Env) returns (err: bool)
      modifies this
      ensures Snap(err) == WatchdogScan.Publish(old(Snap(false)), env)
    {
      var ok := env.writeOk(writes);
      writes := writes + 1;
      if !ok { return true; }
      ledgerFile, steps := Stored(r), steps + [WriteLedger(r)];
      ok := env.writeOk(writes);
      writes := writes + 1;
      if !ok { return true; }
      metrics, steps := Some(r), steps + [WriteMetrics(r)];
      return false;
    }

    method Fail(env: Env)
      modifies this
      ensures Snap(true) == WatchdogScan.Fail(old(Snap(false)), env)
    {
      var _ := Publish(env);
    }

    method Save(env: Env, n: string, s: State) returns (err: bool)
      modifies this
      ensures Snap(err) == WatchdogScan.Save(old(Snap(false)), env, n, s)
    {
      var ok := env.writeOk(writes);
      writes := writes + 1;
      if !ok {
        Fail(env);
        return true;
      }
      states, steps := states[n := Content(Bytes(s))], steps + [WriteState(n, s)];
      return false;
    }

    method Notify(env: Env, n: string, urgent: bool) returns (err: bool)
      modifies this
      ensures Snap(err) == WatchdogScan.Notify(old(Snap(false)), env, n, urgent)
    {
      hide WatchdogScan.Publish;
      r := r.(notifications := r.notifications + 1);
      err := Publish(env);
      if err { return; }
      steps := steps + [NotifyCommand(n, urgent, env.notifyOk(n))];
      if !env.notifyOk(n) {
        r := r.(notificationFailures := r.notificationFailures + 1);
      }
      err := Publish(env);
    }

    method Report(cfg: Config, env: Env, now: int, n: string) returns (err: bool)
      requires n in r.containers
      modifies this
      ensures Snap(err) == WatchdogScan.Report(old(Snap(false)), cfg, env, now, n)
    {
      hide WatchdogScan.Notify, WatchdogScan.Save;
      var c := r.containers[n];
      if env.restartOk(n) {
        err := Notify(env, n, false);
      } else if now - c.state.lastAlert >= cfg.cooldown {
        c := c.(state := c.state.(lastAlert := now));
        r := r.(containers := r.containers[n := c]);
        err := Save(env, n, c.state);
        if err { return; }
        err := Notify(env, n, true);
      } else {
        err := false;
      }
    }

    /** `docker restart`, and the counters and the container's state after it. */
    method Command(env: Env, now: int, n: string)
      requires n in r.containers
      modifies this
      ensures Snap(false) == WatchdogScan.Command(old(Snap(false)), env, now, n)
    {
      steps := steps + [RestartCommand(n, env.restartOk(n))];
      if env.restartOk(n) {
        var c := r.containers[n];
        c := c.(state := c.state.(consecutive := 0, restarts := c.state.restarts + 1, lastRestart := now), restartFailed := false);
        r := r.(restarts := r.restarts + 1, containers := r.containers[n := c]);
      } else {
        r := r.(failures := r.failures + 1);
      }
    }

    method TryRestart(cfg: Config, env: Env, now: int, n: string) returns (err: bool)
      requires n in r.containers
      modifies this
      ensures Snap(err) == WatchdogScan.TryRestart(old(Snap(false)), cfg, env, now, n)
    {
      hide WatchdogScan.Publish, WatchdogScan.Save, WatchdogScan.Report, WatchdogScan.Command;
      r := r.(attempts := r.attempts + 1, containers := r.containers[n := r.containers[n].(restartFailed := true)]);
      err := Publish(env);
      if err { return; }
      Command(env, now, n);
      err := Save(env, n, r.containers[n].state);
      if err { return; }
      err := Publish(env);
      if err { return; }
      err := Report(cfg, env, now, n);
    }

    method HandleOne(cfg: Config, env: Env, now: int, n: string, p: Plan, save: bool) returns (err: bool)
      requires n in r.containers
      modifies this
      ensures Snap(err) == WatchdogScan.HandleOne(old(Snap(false)), cfg, env, now, n, p, save)
    {
      hide WatchdogScan.Notify, WatchdogScan.Save, WatchdogScan.TryRestart;
      err := false;
      if save {
        err := Save(env, n, r.containers[n].state);
        if err { return; }
      }
      match p.action {
        case Exhausted => if p.notify { err := Notify(env, n, true); }
        case Restart => err := TryRestart(cfg, env, now, n);
        case _ =>
      }
    }

    /** The garbage collection of the state files of absent containers. */
    method Collect(env: Env, rows: map<string, Observation>) returns (err: bool)
      modifies this
      ensures Snap(err) == WatchdogScan.Collect(old(Snap(false)), env, env.list(old(states).Keys), rows)
    {
      hide WatchdogScan.Fail, NamePattern;
      var files := env.list(states.Keys);
      ghost var start := Snap(false);
      for i := 0 to |files|
        invariant WatchdogScan.Collect(start, env, files, rows) == WatchdogScan.Collect(Snap(false), env, files[i..], rows)
      {
        var n := files[i];
        assert files[i..][1..] == files[i + 1..];
        if NamePattern(n) && n !in rows {
          if !env.removeOk(n) {
            Fail(env);
            return true;
          }
          states, steps := states - {n}, steps + [RemoveState(n)];
        }
      }
      return false;
    }

    /** The checks before the scan may act; `None` is the failure return. */
    method Check(env: Env) returns (names: seq<string>, rows: Option<map<string, Observation>>, held: map<string, State>)
      ensures rows == Validate(OnDisk(), env)
      ensures rows.Some? ==> names == OrderedKeys(rows.value)
      ensures rows.Some? ==> Holds(held, states, rows.value)
    {
      hide Names, Inventory, ParseState, EligibleUnhealthy, Sorted;
      names, held := [], map[];
      if env.unhealthy.None? { return names, None, held; }
      if env.all.None? { return names, None, held; }
      var unhealthy := ReadNames(env.unhealthy.value);
      if unhealthy.None? { return names, None, held; }
      var all, inventory := ReadInventory(env.all.value);
      if inventory.None? { return names, None, held; }
      var observations := inventory.value;
      var bad: set<string> := {};
      for i := 0 to |unhealthy.value|
        invariant forall k :: 0 <= k < i ==> unhealthy.value[k] in observations && EligibleUnhealthy(observations[unhealthy.value[k]])
        invariant forall n :: n in bad <==> n in unhealthy.value[..i]
      {
        var n := unhealthy.value[i];
        if n !in observations || !EligibleUnhealthy(observations[n]) { return all, None, held; }
        bad := bad + {n};
        assert unhealthy.value[..i + 1] == unhealthy.value[..i] + [n];
      }
      assert unhealthy.value[..|unhealthy.value|] == unhealthy.value;
      for i := 0 to |all|
        invariant forall k :: 0 <= k < i ==> EligibleUnhealthy(observations[all[k]]) == (all[k] in bad)
      {
        if EligibleUnhealthy(observations[all[i]]) != (all[i] in bad) { return all, None, held; }
      }
      for i := 0 to |all|
        invariant forall k :: 0 <= k < i ==> StateAccepted(states, all[k])
        invariant forall k :: 0 <= k < i ==> (all[k] in held <==> all[k] in states)
        invariant forall n :: n in held ==> n in states && held[n] == StateIn(states, n)
      {
        if all[i] in states {
          if states[all[i]].Blocked? { return all, None, held; }
          var s := ReadState(states[all[i]].text);
          if s.None? { return all, None, held; }
          held := held[all[i] := s.value];
        }
      }
      KeysInOrderUnique(all, OrderedKeys(observations), observations);
      return all, Some(observations), held;
    }

    method Execute(cfg: Config, env: Env, now: int) returns (err: bool)
      modifies this
      ensures var out := Scan(cfg, old(OnDisk()), env, now);
              OnDisk() == out.disk && steps == out.steps && err == out.stopped
    {
      hide Validate, WatchdogScan.Fail, Act, ValidLedger;
      steps, writes, r := [], 0, EMPTY_LEDGER;
      if !ValidConfig(cfg) || now < 1 { return true; }
      match ledgerFile {
        case BadLedger => return true;
        case NoLedger =>
        case Stored(l) =>
          if !ValidLedger(l) { return true; }
          r := l;
      }
      r := r.(lastRun := now, success := false, dockerReadOK := false);
      if !env.logOpens { return true; }
      steps := [Begin(now)];
      ghost var before := old(OnDisk());
      assert Snap(false) == Emit(Run(before, LoadLedger(before).value.(lastRun := now, success := false, dockerReadOK := false), [], 0, false), Begin(now));
      var names, rows, held := Check(env);
      if rows.None? {
        Fail(env);
        return true;
      }
      err := Proceed(cfg, env, now, names, rows.value, held);
    }

    /** The first pass: what every container looks like before anything is done. */
    method Observe(cfg: Config, now: int, names: seq<string>, rows: map<string, Observation>, held: map<string, State>) returns (observed: map<string, Container>)
      requires KeysInOrder(names, rows) && Holds(held, states, rows)
      ensures observed == Observed(r, states, rows, cfg, now)
    {
      hide Decide, EligibleUnhealthy, Ready, StateIn, Sorted;
      observed := map[];
      for i := 0 to |names|
        invariant forall k :: 0 <= k < i ==> names[k] in observed
        invariant forall n :: n in observed ==> n in rows && observed[n] == Observed(r, states, rows, cfg, now)[n]
      {
        var n := names[i];
        assert n in rows;
        var p := Decide(if n in held then held[n] else ZERO, EligibleUnhealthy(rows[n]), now, cfg);
        observed := observed[n := Container(p.state, EligibleUnhealthy(rows[n]),
                                            !Ready(rows[n]) && n in r.containers && r.containers[n].restartFailed)];
      }
      assert forall n :: n in rows ==> n in names;
    }

    /** The second pass: save, restart and notify, container by container. */
    method HandleAll(cfg: Config, env: Env, now: int, names: seq<string>, rows: map<string, Observation>, held: map<string, State>) returns (err: bool)
      requires KeysInOrder(names, rows) && Holds(held, states, rows) && r.containers.Keys == rows.Keys
      modifies this
      ensures Snap(err) == WatchdogScan.HandleAll(old(Snap(false)), cfg, env, now, names, old(states), rows)
    {
      hide WatchdogScan.HandleOne, Decide, EligibleUnhealthy, StateIn, Sorted, NoDup;
      ghost var start, files := Snap(false), states;
      for i := 0 to |names|
        invariant r.containers.Keys == rows.Keys
        invariant WatchdogScan.HandleAll(start, cfg, env, now, names, files, rows) ==
                  WatchdogScan.HandleAll(Snap(false), cfg, env, now, names[i..], files, rows)
      {
        var n := names[i];
        assert n in rows;
        assert names[i..][0] == n && names[i..][1..] == names[i + 1..];
        var p := Decide(if n in held then held[n] else ZERO, EligibleUnhealthy(rows[n]), now, cfg);
        assert p == PlanFor(files, rows, cfg, now, n);
        err := HandleOne(cfg, env, now, n, p, n in held || EligibleUnhealthy(rows[n]));
        if err { return; }
      }
      err := false;
    }

    method Proceed(cfg: Config, env: Env, now: int, names: seq<string>, rows: map<string, Observation>, held: map<string, State>) returns (err: bool)
      requires names == OrderedKeys(rows) && Holds(held, states, rows)
      modifies this
      ensures Snap(err) == Act(old(Snap(false)), cfg, env, now, rows)
    {
      hide WatchdogScan.Publish, WatchdogScan.HandleAll, WatchdogScan.Collect, WatchdogScan.Fail, Observed, OrderedKeys, KeysInOrder;
      steps := steps + [Accept(rows)];
      var observed := Observe(cfg, now, names, rows, held);
      r := r.(dockerReadOK := true, containers := observed);
      assert r.containers.Keys == rows.Keys by { ObservedStates(old(r), states, rows, cfg, now); }
      err := Publish(env);
      if err { return; }
      assert states == old(states);
      err := HandleAll(cfg, env, now, names, rows, held);
      if err { return; }
      if !env.globOk {
        Fail(env);
        return true;
      }
      err := Collect(env, rows);
      if err { return; }
      r := r.(success := true);
      err := Publish(env);
    }
  }

  /** `held` has the parsed state of exactly the present containers with a state file. */
  ghost predicate Holds(held: map<string, State>, states: map<string, StateFile>, rows: map<string, Observation>) {
    forall n :: n in rows ==> (n in held <==> n in states) && (if n in held then held[n] else ZERO) == StateIn(states, n)
  }
}
