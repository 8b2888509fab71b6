/** One watchdog scan over an explicit disk: what it writes and commands, in order.
    A scan that is killed stops after some prefix of these steps. */
module WatchdogScan {
  import opened Text
  import opened Order
  import opened WatchdogText
  import opened WatchdogPolicy

  datatype Container = Container(state: State, unhealthy: bool, restartFailed: bool)

  datatype Ledger = Ledger(
    lastRun: int, success: bool, dockerReadOK: bool,
    attempts: nat, restarts: nat, failures: nat, notifications: nat, notificationFailures: nat,
    containers: map<string, Container>)

  const EMPTY_LEDGER := Ledger(0, false, false, 0, 0, 0, 0, 0, map[])

  /** A state file: its text, or something that cannot be read as a regular file of at most 1 MiB. */
  datatype StateFile = Content(text: string) | Blocked

  /** The counter ledger: absent, unreadable or undecodable, or decoded. */
  datatype LedgerFile = NoLedger | BadLedger | Stored(ledger: Ledger)

  datatype Disk = Disk(states: map<string, StateFile>, ledger: LedgerFile, metrics: Option<Ledger>)

  /** What the outside world answers during one scan. */
  datatype Env = Env(
    logOpens: bool,
    unhealthy: Option<string>, all: Option<string>,
    restartOk: string -> bool, notifyOk: string -> bool,
    writeOk: nat -> bool, removeOk: string -> bool,
    globOk: bool, list: set<string> -> seq<string>)

  /** The directory listing names every state file once, in whatever order. */
  ghost predicate Honest(env: Env) {
    forall s: set<string> :: NoDup(env.list(s)) && forall n :: n in env.list(s) <==> n in s
  }

  datatype Step =
    | Begin(now: int)
    | Accept(rows: map<string, Observation>)
    | WriteState(name: string, state: State)
    | WriteLedger(ledger: Ledger)
    | WriteMetrics(ledger: Ledger)
    | RemoveState(name: string)
    | RestartCommand(name: string, ok: bool)
    | NotifyCommand(name: string, urgent: bool, ok: bool)

  function Apply(disk: Disk, step: Step): Disk {
    match step
    case WriteState(n, s) => disk.(states := disk.states[n := Content(Bytes(s))])
    case WriteLedger(l) => disk.(ledger := Stored(l))
    case WriteMetrics(l) => disk.(metrics := Some(l))
    case RemoveState(n) => disk.(states := disk.states - {n})
    case _ => disk
  }

  /** The disk after some steps. */
  function DiskAfter(disk: Disk, steps: seq<Step>): Disk {
    if steps == [] then disk else Apply(DiskAfter(disk, steps[..|steps| - 1]), steps[|steps| - 1])
  }

  /** A scan in progress: the disk, the counters in memory, what was done so far, how many
      writes were tried, and whether the scan has returned with an error. */
  datatype Run = Run(disk: Disk, r: Ledger, steps: seq<Step>, writes: nat, stopped: bool)

  function Emit(run: Run, step: Step): Run {
    run.(disk := Apply(run.disk, step), steps := run.steps + [step])
  }

  // ---------- the local operations of a scan ----------

  function Publish(run: Run, env: Env): (out: Run)
    ensures out.r == run.r && out.disk.states == run.disk.states
  {
    if !env.writeOk(run.writes) then run.(writes := run.writes + 1, stopped := true) else
      var a := Emit(run.(writes := run.writes + 1), WriteLedger(run.r));
      if !env.writeOk(a.writes) then a.(writes := a.writes + 1, stopped := true)
      else Emit(a.(writes := a.writes + 1), WriteMetrics(a.r))
  }

  function Fail(run: Run, env: Env): (out: Run)
    ensures out.r == run.r && out.stopped
  {
    Publish(run, env).(stopped := true)
  }

  /** `saveLegacy`, and the failure report when the write fails. */
  function Save(run: Run, env: Env, n: string, s: State): (out: Run)
    ensures out.r == run.r
  {
    var a := run.(writes := run.writes + 1);
    if env.writeOk(run.writes) then Emit(a, WriteState(n, s)) else Fail(a, env)
  }

  function Notify(run: Run, env: Env, n: string, urgent: bool): (out: Run)
    ensures out.r.containers == run.r.containers
  {
    var a := Publish(run.(r := run.r.(notifications := run.r.notifications + 1)), env);
    if a.stopped then a else
      var b := Emit(a, NotifyCommand(n, urgent, env.notifyOk(n)));
      Publish(if env.notifyOk(n) then b else b.(r := b.r.(notificationFailures := b.r.notificationFailures + 1)), env)
  }

  function SetContainer(r: Ledger, n: string, c: Container): Ledger {
    r.(containers := r.containers[n := c])
  }

  function Intend(run: Run, n: string): (out: Run)
    requires n in run.r.containers
    ensures out.r.containers.Keys == run.r.containers.Keys
  {
    run.(r := SetContainer(run.r.(attempts := run.r.attempts + 1), n, run.r.containers[n].(restartFailed := true)))
  }

  /** The restart command and what it leaves in memory. */
  function Command(run: Run, env: Env, now: int, n: string): (out: Run)
    requires n in run.r.containers
    ensures out.r.containers.Keys == run.r.containers.Keys
  {
    var c := run.r.containers[n];
    var a := Emit(run, RestartCommand(n, env.restartOk(n)));
    if env.restartOk(n)
    then a.(r := SetContainer(a.r.(restarts := a.r.restarts + 1), n, c.(state := Restarted(c.state, now), restartFailed := false)))
    else a.(r := a.r.(failures := a.r.failures + 1))
  }

  function Report(run: Run, cfg: Config, env: Env, now: int, n: string): (out: Run)
    requires n in run.r.containers
    ensures out.r.containers.Keys == run.r.containers.Keys
  {
    var c := run.r.containers[n];
    if env.restartOk(n) then Notify(run, env, n, false)
    else if now - c.state.lastAlert >= cfg.cooldown then
      var stamped := c.(state := c.state.(lastAlert := now));
      var a := Save(run.(r := SetContainer(run.r, n, stamped)), env, n, stamped.state);
      if a.stopped then a else Notify(a, env, n, true)
    else run
  }

  function TryRestart(run: Run, cfg: Config, env: Env, now: int, n: string): (out: Run)
    requires n in run.r.containers
    ensures out.r.containers.Keys == run.r.containers.Keys
  {
    var a := Publish(Intend(run, n), env);
    if a.stopped then a else
      var b := Command(a, env, now, n);
      var c := Save(b, env, n, b.r.containers[n].state);
      if c.stopped then c else
        var d := Publish(c, env);
        if d.stopped then d else Report(d, cfg, env, now, n)
  }

  /** The second pass over one container; `p` is what `Decide` said of it. */
  function HandleOne(run: Run, cfg: Config, env: Env, now: int, n: string, p: Plan, save: bool): (out: Run)
    requires n in run.r.containers
    ensures out.r.containers.Keys == run.r.containers.Keys
  {
    var a := if save then Save(run, env, n, run.r.containers[n].state) else run;
    if a.stopped then a
    else match p.action
      case Exhausted => if p.notify then Notify(a, env, n, true) else a
      case Restart => TryRestart(a, cfg, env, now, n)
      case _ => a
  }

  /** The state a scan starts from for one container: its file, or zeros. */
  function StateIn(states: map<string, StateFile>, n: string): State {
    if n in states && states[n].Content? && ParseState(states[n].text).Some? then ParseState(states[n].text).value else ZERO
  }

  function PlanFor(states: map<string, StateFile>, rows: map<string, Observation>, cfg: Config, now: int, n: string): Plan
    requires n in rows
  {
    Decide(StateIn(states, n), EligibleUnhealthy(rows[n]), now, cfg)
  }

  /** The second pass; `states` are the files as they were before it. */
  function HandleAll(run: Run, cfg: Config, env: Env, now: int, names: seq<string>,
                     states: map<string, StateFile>, rows: map<string, Observation>): Run
    requires forall n :: n in names ==> n in rows && n in run.r.containers
    decreases |names|
  {
    if run.stopped || names == [] then run else
      var n := names[0];
      var a := HandleOne(run, cfg, env, now, n, PlanFor(states, rows, cfg, now, n), n in states || EligibleUnhealthy(rows[n]));
      HandleAll(a, cfg, env, now, names[1..], states, rows)
  }

  function Collect(run: Run, env: Env, files: seq<string>, rows: map<string, Observation>): Run
    decreases |files|
  {
    if run.stopped || files == [] then run else
      var n := files[0];
      var a :=
        if !NamePattern(n) || n in rows then run
        else if env.removeOk(n) then Emit(run, RemoveState(n))
        else Fail(run, env);
      Collect(a, env, files[1..], rows)
  }

  // ---------- the scan ----------

  predicate ValidLedger(l: Ledger) {
    l.lastRun >= 1 && forall n :: n in l.containers ==> NamePattern(n)
  }

  predicate StateAccepted(states: map<string, StateFile>, n: string) {
    n in states ==> states[n].Content? && ParseState(states[n].text).Some?
  }

  /** Both listings parse, they agree on who is unhealthy, and every present container's
      state file is absent or valid. */
  ghost function Validate(disk: Disk, env: Env): (rows: Option<map<string, Observation>>)
    ensures rows.Some? ==> forall n :: n in rows.value ==> NamePattern(n)
  {
    if env.unhealthy.None? || env.all.None? then None else
      var u, a := Names(env.unhealthy.value), Inventory(env.all.value);
      if u.None? || a.None? then None
      else if exists n :: n in u.value && (n !in a.value || !EligibleUnhealthy(a.value[n])) then None
      else if exists n :: n in a.value && EligibleUnhealthy(a.value[n]) != (n in u.value) then None
      else if exists n :: n in a.value && !StateAccepted(disk.states, n) then None
      else a
  }

  function Observed(ledger: Ledger, states: map<string, StateFile>, rows: map<string, Observation>, cfg: Config, now: int): map<string, Container> {
    map n | n in rows ::
      Container(PlanFor(states, rows, cfg, now, n).state, EligibleUnhealthy(rows[n]),
                !Ready(rows[n]) && n in ledger.containers && ledger.containers[n].restartFailed)
  }

  lemma ObservedStates(ledger: Ledger, states: map<string, StateFile>, rows: map<string, Observation>, cfg: Config, now: int)
    ensures Observed(ledger, states, rows, cfg, now).Keys == rows.Keys
    ensures forall n :: n in rows ==> Observed(ledger, states, rows, cfg, now)[n].state == PlanFor(states, rows, cfg, now, n).state
  {}

  /** The memory of a scan that starts from `disk`: refused when the ledger is unusable. */
  function LoadLedger(disk: Disk): Option<Ledger> {
    match disk.ledger
    case NoLedger => Some(EMPTY_LEDGER)
    case BadLedger => None
    case Stored(l) => if ValidLedger(l) then Some(l) else None
  }

  /** The part of a scan after both inventories and all state files were accepted. */
  ghost function Act(run: Run, cfg: Config, env: Env, now: int, rows: map<string, Observation>): Run {
    var states := run.disk.states;
    var a := Emit(run, Accept(rows));
    var b := Publish(a.(r := a.r.(dockerReadOK := true, containers := Observed(a.r, states, rows, cfg, now))), env);
    if b.stopped then b else
      var c := HandleAll(b, cfg, env, now, OrderedKeys(rows), states, rows);
      if c.stopped then c
      else if !env.globOk then Fail(c, env) else
        var d := Collect(c, env, env.list(c.disk.states.Keys), rows);
        if d.stopped then d else Publish(d.(r := d.r.(success := true)), env)
  }

  ghost function Scan(cfg: Config, disk: Disk, env: Env, now: int): Run {
    var idle := Run(disk, EMPTY_LEDGER, [], 0, true);
    if !ValidConfig(cfg) || now < 1 || LoadLedger(disk).None? || !env.logOpens then idle else
      var start := Emit(Run(disk, LoadLedger(disk).value.(lastRun := now, success := false, dockerReadOK := false), [], 0, false), Begin(now));
      var rows := Validate(disk, env);
      if rows.None? then Fail(start, env) else Act(start, cfg, env, now, rows.value)
  }

  // ---------- runs ----------

  /** One scan of a run; it is killed after `cut` steps, or runs to its end. */
  datatype Attempt = Attempt(cfg: Config, env: Env, now: int, cut: nat)

  ghost function Done(disk: Disk, a: Attempt): seq<Step> {
    var steps := Scan(a.cfg, disk, a.env, a.now).steps;
    if a.cut <= |steps| then steps[..a.cut] else steps
  }
}
