/** What one whole scan leaves behind: when it refuses to act, and when it reports success. */
module WatchdogOutcome {
  import opened Text
  import opened Order
  import opened WatchdogText
  import opened WatchdogPolicy
  import opened WatchdogScan
  import WatchdogLedger

  // ---------- refusal ----------

  /** A scan passes validation exactly when both listings parse, the filtered listing is, as a
      set, the eligible unhealthy part of the full one, and every present container's state
      file is absent or valid. */
  lemma ValidationExact(disk: Disk, env: Env)
    ensures Validate(disk, env).Some? <==>
              && env.unhealthy.Some? && env.all.Some?
              && Names(env.unhealthy.value).Some? && Inventory(env.all.value).Some?
              && var rows := Inventory(env.all.value).value;
                 && (set n | n in Names(env.unhealthy.value).value) == (set n | n in rows && EligibleUnhealthy(rows[n]))
                 && forall n :: n in rows && n in disk.states ==> disk.states[n].Content? && ParseState(disk.states[n].text).Some?
    ensures Validate(disk, env).Some? ==> Validate(disk, env) == Inventory(env.all.value)
  {
    hide Names, Inventory, EligibleUnhealthy, ParseState;
    if env.unhealthy.Some? && env.all.Some? && Names(env.unhealthy.value).Some? && Inventory(env.all.value).Some? {
      var u, rows := Names(env.unhealthy.value).value, Inventory(env.all.value).value;
      var listed := set n | n in u;
      var eligible := set n | n in rows && EligibleUnhealthy(rows[n]);
      if listed == eligible {
        forall n ensures n in u ==> n in rows && EligibleUnhealthy(rows[n]) { assert n in listed <==> n in eligible; }
        forall n ensures n in rows ==> EligibleUnhealthy(rows[n]) == (n in u) { assert n in listed <==> n in eligible; }
      } else {
        var n :| (n in listed) != (n in eligible);
        assert n in u <==> n in listed;
      }
    }
  }

  predicate Reporting(step: Step) { step.Begin? || step.WriteLedger? || step.WriteMetrics? }

  /** A scan that does not pass validation writes and removes no state file, restarts and
      notifies nobody, fails, and keeps the containers and the counters of the ledger. */
  lemma RefusedScanTouchesNothing(cfg: Config, disk: Disk, env: Env, now: int)
    requires Validate(disk, env).None?
    ensures var out := Scan(cfg, disk, env, now);
            && out.stopped && out.disk.states == disk.states
            && (forall i :: 0 <= i < |out.steps| ==> Reporting(out.steps[i]))
            && WatchdogLedger.CountsOf(out.disk.ledger) == WatchdogLedger.CountsOf(disk.ledger)
            && (out.disk.ledger == disk.ledger ||
                (out.disk.ledger.Stored? && !out.disk.ledger.ledger.success && !out.disk.ledger.ledger.dockerReadOK
                 && out.disk.ledger.ledger.containers == (if disk.ledger.Stored? then disk.ledger.ledger.containers else map[])))
  {
    hide Validate, ValidLedger;
  }

  // ---------- success ----------

  /** The state file of `n` is the text of what the ledger in memory holds for it. */
  predicate InStep(run: Run, n: string) {
    && n in run.disk.states && n in run.r.containers
    && run.disk.states[n] == Content(Bytes(run.r.containers[n].state))
  }

  /** From `a` to `b` only the state file and the ledger entry of `n` may differ. */
  predicate OnlyFor(a: Run, b: Run, n: string) {
    && a.disk.states.Keys + {n} == b.disk.states.Keys + {n}
    && (forall m :: m in a.disk.states && m != n ==> m in b.disk.states && b.disk.states[m] == a.disk.states[m])
    && a.r.containers.Keys == b.r.containers.Keys
    && (forall m :: m in a.r.containers && m != n ==> m in b.r.containers && b.r.containers[m] == a.r.containers[m])
  }

  lemma SaveInStep(run: Run, env: Env, n: string)
    requires n in run.r.containers
    ensures var out := Save(run, env, n, run.r.containers[n].state);
            !out.stopped ==> InStep(out, n) && OnlyFor(run, out, n) && out.r == run.r
  {
    hide Bytes;
  }

  lemma NotifyKeepsFiles(run: Run, env: Env, n: string, urgent: bool)
    ensures Notify(run, env, n, urgent).disk.states == run.disk.states
  {
    hide Publish;
  }

  lemma TryRestartInStep(run: Run, cfg: Config, env: Env, now: int, n: string)
    requires n in run.r.containers && InStep(run, n)
    ensures var out := TryRestart(run, cfg, env, now, n); !out.stopped ==> InStep(out, n) && OnlyFor(run, out, n)
  {
    hide Publish, Save, Notify, Bytes;
    var a := Publish(Intend(run, n), env);
    if !a.stopped {
      var b := Command(a, env, now, n);
      SaveInStep(b, env, n);
      var c := Save(b, env, n, b.r.containers[n].state);
      if !c.stopped {
        var d := Publish(c, env);
        if !d.stopped {
          assert InStep(d, n) && OnlyFor(run, d, n);
          ReportInStep(d, cfg, env, now, n);
        }
      }
    }
  }

  lemma ReportInStep(run: Run, cfg: Config, env: Env, now: int, n: string)
    requires n in run.r.containers && InStep(run, n)
    ensures var out := Report(run, cfg, env, now, n); !out.stopped ==> InStep(out, n) && OnlyFor(run, out, n)
  {
    hide Publish, Save, Notify, Bytes;
    var c := run.r.containers[n];
    if env.restartOk(n) {
      NotifyKeepsFiles(run, env, n, false);
    } else if now - c.state.lastAlert >= cfg.cooldown {
      var a := run.(r := SetContainer(run.r, n, c.(state := c.state.(lastAlert := now))));
      SaveInStep(a, env, n);
      NotifyKeepsFiles(Save(a, env, n, a.r.containers[n].state), env, n, true);
    }
  }

  lemma HandleOneInStep(run: Run, cfg: Config, env: Env, now: int, n: string, p: Plan, save: bool)
    requires n in run.r.containers && (save || p.action == Nothing)
    ensures var out := HandleOne(run, cfg, env, now, n, p, save);
            !out.stopped ==> (if save then InStep(out, n) && OnlyFor(run, out, n) else out == run)
  {
    hide Save, Notify, TryRestart, Bytes;
    if save {
      SaveInStep(run, env, n);
      var a := Save(run, env, n, run.r.containers[n].state);
      if !a.stopped {
        match p.action
        case Exhausted => NotifyKeepsFiles(a, env, n, true);
        case Restart => TryRestartInStep(a, cfg, env, now, n);
        case _ =>
      }
    }
  }

  predicate Saves(states: map<string, StateFile>, rows: map<string, Observation>, n: string) {
    n in rows && (n in states || EligibleUnhealthy(rows[n]))
  }

  /** After the second pass: the files of `names` that the scan keeps are in step, all other
      files and ledger entries are as they were. */
  ghost predicate PassDone(a: Run, b: Run, names: seq<string>, states: map<string, StateFile>, rows: map<string, Observation>) {
    && (forall n :: n in names && Saves(states, rows, n) ==> InStep(b, n))
    && (forall m :: m !in names || !Saves(states, rows, m) ==> SameFor(a, b, m))
    && a.r.containers.Keys == b.r.containers.Keys
  }

  predicate SameFor(a: Run, b: Run, m: string) {
    && (m in a.disk.states <==> m in b.disk.states)
    && (m in a.disk.states ==> a.disk.states[m] == b.disk.states[m])
    && (m in a.r.containers <==> m in b.r.containers)
    && (m in a.r.containers ==> a.r.containers[m] == b.r.containers[m])
  }

  lemma {:induction false} HandleAllInStep(run: Run, cfg: Config, env: Env, now: int, names: seq<string>,
                                          states: map<string, StateFile>, rows: map<string, Observation>)
    requires !run.stopped && NoDup(names) && forall n :: n in names ==> n in rows && n in run.r.containers
    ensures var out := HandleAll(run, cfg, env, now, names, states, rows); !out.stopped ==> PassDone(run, out, names, states, rows)
    decreases |names|
  {
    hide HandleOne, Bytes, EligibleUnhealthy, StateIn;
    if names != [] {
      var n := names[0];
      var p, save := PlanFor(states, rows, cfg, now, n), n in states || EligibleUnhealthy(rows[n]);
      assert save || p.action == Nothing;
      var a := HandleOne(run, cfg, env, now, n, p, save);
      HandleOneInStep(run, cfg, env, now, n, p, save);
      if !a.stopped {
        HandleAllInStep(a, cfg, env, now, names[1..], states, rows);
        var out := HandleAll(a, cfg, env, now, names[1..], states, rows);
        if !out.stopped { PassOne(run, a, out, names, states, rows); }
      }
    }
  }

  lemma PassOne(run: Run, a: Run, out: Run, names: seq<string>, states: map<string, StateFile>, rows: map<string, Observation>)
    requires names != [] && NoDup(names) && names[0] in rows
    requires if Saves(states, rows, names[0]) then InStep(a, names[0]) && OnlyFor(run, a, names[0]) else a == run
    requires PassDone(a, out, names[1..], states, rows)
    ensures PassDone(run, out, names, states, rows)
  {
    hide Bytes, Saves;
    var n := names[0];
    assert n !in names[1..];
    assert SameFor(a, out, n);
    forall m | m !in names || !Saves(states, rows, m) ensures SameFor(run, out, m) {
      assert SameFor(a, out, m);
      assert m == n ==> !Saves(states, rows, n);
      assert SameFor(run, a, m);
    }
    forall m | m in names && Saves(states, rows, m) ensures InStep(out, m) {
      if m != n { assert m in names[1..]; }
    }
  }

  lemma {:induction false} CollectRemoves(run: Run, env: Env, files: seq<string>, rows: map<string, Observation>)
    requires !run.stopped
    ensures var out := Collect(run, env, files, rows);
            !out.stopped ==>
              && out.r == run.r
              && out.disk.states == map n | n in run.disk.states && !(n in files && NamePattern(n) && n !in rows) :: run.disk.states[n]
    decreases |files|
  {
    hide NamePattern, Publish;
    if files != [] {
      var n := files[0];
      if !NamePattern(n) || n in rows {
        CollectRemoves(run, env, files[1..], rows);
      } else if env.removeOk(n) {
        CollectRemoves(Emit(run, RemoveState(n)), env, files[1..], rows);
      }
    }
  }

  /** When a scan reports success, the well-named state files are exactly those of present
      containers that already had one or were unhealthy, each is the text of the state the
      ledger holds for it, the metrics are those of the same ledger, and every other file in
      the directory is untouched. */
  lemma SuccessfulScan(cfg: Config, disk: Disk, env: Env, now: int)
    requires Honest(env) && !Scan(cfg, disk, env, now).stopped
    ensures Validate(disk, env).Some?
    ensures var out, rows := Scan(cfg, disk, env, now), Validate(disk, env).value;
            && out.disk.ledger == Stored(out.r) && out.disk.metrics == Some(out.r) && out.r.success && out.r.containers.Keys == rows.Keys
            && (forall n :: NamePattern(n) ==> (n in out.disk.states <==> Saves(disk.states, rows, n)))
            && (forall n :: Saves(disk.states, rows, n) ==> InStep(out, n))
            && (forall n :: n in disk.states && !NamePattern(n) ==> n in out.disk.states && out.disk.states[n] == disk.states[n])
  {
    hide Validate, Publish, HandleAll, Collect, Observed, OrderedKeys, Bytes, Saves, NamePattern, LoadLedger, Sorted;
    var rows := Validate(disk, env).value;
    var r := LoadLedger(disk).value.(lastRun := now, success := false, dockerReadOK := false);
    var start := Emit(Run(disk, r, [], 0, false), Begin(now));
    var a := Emit(start, Accept(rows));
    var a' := a.(r := a.r.(dockerReadOK := true, containers := Observed(a.r, disk.states, rows, cfg, now)));
    ObservedStates(a.r, disk.states, rows, cfg, now);
    var b := Publish(a', env);
    var names := OrderedKeys(rows);
    HandleAllInStep(b, cfg, env, now, names, disk.states, rows);
    var c := HandleAll(b, cfg, env, now, names, disk.states, rows);
    CollectRemoves(c, env, env.list(c.disk.states.Keys), rows);
    var d := Collect(c, env, env.list(c.disk.states.Keys), rows);
    SuccessFiles(disk.states, b, c, d, names, rows);
    PublishStores(d.(r := d.r.(success := true)), env);
  }

  lemma PublishStores(run: Run, env: Env)
    ensures var out := Publish(run, env); !out.stopped ==> out.disk.ledger == Stored(run.r) && out.disk.metrics == Some(run.r)
  {}

  lemma SuccessFiles(states: map<string, StateFile>, b: Run, c: Run, d: Run, names: seq<string>, rows: map<string, Observation>)
    requires b.disk.states == states && KeysInOrder(names, rows) && PassDone(b, c, names, states, rows) && d.r == c.r
    requires d.disk.states == map n | n in c.disk.states && !(NamePattern(n) && n !in rows) :: c.disk.states[n]
    requires forall n :: n in rows ==> NamePattern(n)
    ensures forall n :: NamePattern(n) ==> (n in d.disk.states <==> Saves(states, rows, n))
    ensures forall n :: Saves(states, rows, n) ==> InStep(d, n)
    ensures forall n :: n in states && !NamePattern(n) ==> n in d.disk.states && d.disk.states[n] == states[n]
  {
    hide NamePattern, Bytes, Sorted, EligibleUnhealthy;
    forall n ensures Saves(states, rows, n) ==> n in names && InStep(c, n) {}
    forall n ensures !Saves(states, rows, n) ==> SameFor(b, c, n) {}
  }

  /** Every kept file of a successful scan parses back to the ledger's state for it exactly
      when that state is within 0 and 2^53; otherwise the next scan refuses it. */
  lemma SuccessfulFilesParse(cfg: Config, disk: Disk, env: Env, now: int, n: string)
    requires Honest(env) && !Scan(cfg, disk, env, now).stopped && n in Scan(cfg, disk, env, now).r.containers
    ensures var out := Scan(cfg, disk, env, now);
            var s := out.r.containers[n].state;
            n in out.disk.states ==>
              && out.disk.states[n].Content?
              && ParseState(out.disk.states[n].text) == if InRange(s) then Some(s) else None
  {
    hide Scan, Validate, NamePattern, ParseState, Bytes, EligibleUnhealthy;
    SuccessfulScan(cfg, disk, env, now);
    ParseBytes(Scan(cfg, disk, env, now).r.containers[n].state);
  }
}
