/** The recovery of one export: stop the worker, unmount, mount, restart the worker, with every
    external command free to fail or to raise. */
module NfsRecovery {

  datatype Action = Nothing | Mount | Recover

  datatype Command = PrintWorker | StopWorker | RestartWorker | Unmount | ForceUnmount | ListMounts | MakeDir | MountNfs

  /** What a command comes to: an exit code (with, where they matter, whether the error text says
      the service was not found, and which targets a listing shows as mounted), or an exception. */
  datatype Reply = Exit(code: int, notFound: bool, mounted: set<string>) | Raised

  predicate Succeeded(r: Reply) { r.Exit? && r.code == 0 }

  /** Each command is issued at most once in a recovery. */
  datatype Env = Env(userResolves: bool, plistPresent: bool, answer: Command -> Reply)

  datatype Event = Event(command: Command, reply: Reply)

  datatype Outcome = Done(ok: bool) | Exception

  datatype Result = Result(trace: seq<Event>, outcome: Outcome)

  function Issue(env: Env, c: Command): Event { Event(c, env.answer(c)) }

  function Prepend(events: seq<Event>, r: Result): Result { Result(events + r.trace, r.outcome) }

  // ---------- the mount half ----------

  function MountSteps(target: string, env: Env): Result {
    var l, d, m := Issue(env, ListMounts), Issue(env, MakeDir), Issue(env, MountNfs);
    if l.reply.Raised? then Result([l], Exception)
    else if l.reply.code != 0 || target in l.reply.mounted then Result([l], Done(false))
    else if d.reply.Raised? then Result([l, d], Exception)
    else if d.reply.code != 0 then Result([l, d], Done(false))
    else if m.reply.Raised? then Result([l, d, m], Exception)
    else Result([l, d, m], Done(m.reply.code == 0))
  }

  function RecoverySteps(target: string, action: Action, env: Env): Result {
    if action != Recover then MountSteps(target, env) else
      var u, f := Issue(env, Unmount), Issue(env, ForceUnmount);
      if u.reply.Raised? then Result([u], Exception)
      else if u.reply.code == 0 then Prepend([u], MountSteps(target, env))
      else if f.reply.Raised? then Result([u, f], Exception)
      else if f.reply.code != 0 then Result([u, f], Done(false))
      else Prepend([u, f], MountSteps(target, env))
  }

  /** The whole recovery, with the worker stopped around it when the main share is recovered. */
  function WorkerSteps(isMain: bool, target: string, action: Action, env: Env): Result {
    if !(isMain && action == Recover) then RecoverySteps(target, action, env)
    else if !env.userResolves then Result([], Done(false))
    else
      var p, s := Issue(env, PrintWorker), Issue(env, StopWorker);
      if p.reply.Raised? then Result([p], Exception)
      else if p.reply.code != 0 then
        if p.reply.notFound then Prepend([p], RecoverySteps(target, action, env)) else Result([p], Done(false))
      else if !env.plistPresent then Result([p], Done(false))
      else if s.reply.Raised? then Result([p, s], Exception)
      else if s.reply.code != 0 then Result([p, s], Done(false))
      else
        var r, b := RecoverySteps(target, action, env), Issue(env, RestartWorker);
        Result([p, s] + r.trace + [b],
               if r.outcome.Exception? || b.reply.Raised? then Exception else Done(r.outcome.ok && b.reply.code == 0))
  }

  /** The recovery as the program runs it, command by command. */
  class Recoverer {
    const env: Env
    ghost var trace: seq<Event>

    constructor (env: Env)
      ensures this.env == env && trace == []
    {
      this.env, trace := env, [];
    }

    method Run(c: Command) returns (r: Reply)
      modifies this
      ensures r == env.answer(c) && trace == old(trace) + [Issue(env, c)]
    {
      r := env.answer(c);
      trace := trace + [Event(c, r)];
    }

    method Recover(target: string, action: Action) returns (out: Outcome)
      modifies this
      ensures var r := RecoverySteps(target, action, env); trace == old(trace) + r.trace && out == r.outcome
    {
      if action == Action.Recover {
        var unmount := Run(Unmount);
        if unmount.Raised? { return Exception; }
        if unmount.code != 0 {
          unmount := Run(ForceUnmount);
          if unmount.Raised? { return Exception; }
        }
        if unmount.code != 0 { return Done(false); }
      }
      out := MountHalf(target);
    }

    method MountHalf(target: string) returns (out: Outcome)
      modifies this
      ensures var r := MountSteps(target, env); trace == old(trace) + r.trace && out == r.outcome
    {
      var sources := Run(ListMounts);
      if sources.Raised? { return Exception; }
      if sources.code != 0 || target in sources.mounted { return Done(false); }
      var mkdir := Run(MakeDir);
      if mkdir.Raised? { return Exception; }
      if mkdir.code != 0 { return Done(false); }
      var result := Run(MountNfs);
      if result.Raised? { return Exception; }
      return Done(result.code == 0);
    }

    method RecoverWithWorker(isMain: bool, target: string, action: Action) returns (out: Outcome)
      modifies this
      ensures var r := WorkerSteps(isMain, target, action, env); trace == old(trace) + r.trace && out == r.outcome
    {
      hide RecoverySteps;
      var stopped := false;
      if isMain && action == Action.Recover {
        if !env.userResolves { return Done(false); }
        var loaded := Run(PrintWorker);
        if loaded.Raised? { return Exception; }
        if loaded.code == 0 {
          if !env.plistPresent { return Done(false); }
          var stop := Run(StopWorker);
          if stop.Raised? { return Exception; }
          if stop.code != 0 { return Done(false); }
          stopped := true;
        } else if !loaded.notFound {
          return Done(false);
        }
      }
      var recovered := Recover(target, action);
      if !stopped { return recovered; }
      // the `finally` block: also after an exception
      var resumed := Run(RestartWorker);
      if resumed.Raised? || recovered.Exception? { return Exception; }
      return Done(recovered.ok && resumed.code == 0);
    }
  }

  // ---------- the protocol, for every outcome of the commands ----------

  predicate Unmounts(e: Event) { e.command == Unmount || e.command == ForceUnmount }

  /** The worker was found absent, or its stop succeeded. */
  predicate WorkerOut(e: Event) {
    || (e.command == PrintWorker && e.reply.Exit? && e.reply.code != 0 && e.reply.notFound)
    || (e.command == StopWorker && Succeeded(e.reply))
  }

  predicate ClearListing(e: Event, target: string) {
    e.command == ListMounts && Succeeded(e.reply) && target !in e.reply.mounted
  }

  ghost predicate Precedes(trace: seq<Event>, i: int, before: Event -> bool) {
    0 <= i < |trace| && exists j :: 0 <= j < i && before(trace[j])
  }

  ghost predicate Follows(trace: seq<Event>, i: int, c: Command) {
    0 <= i < |trace| && exists j :: i < j < |trace| && trace[j].command == c
  }

  predicate MountCommand(c: Command) { c in {Unmount, ForceUnmount, ListMounts, MakeDir, MountNfs} }

  lemma MountHalfProtocol(target: string, env: Env)
    ensures var r := MountSteps(target, env);
            && (forall i :: 0 <= i < |r.trace| ==> MountCommand(r.trace[i].command) && !Unmounts(r.trace[i]))
            && (forall i :: 0 <= i < |r.trace| && r.trace[i].command == MountNfs ==> i > 0 && ClearListing(r.trace[0], target))
            && (r.outcome == Done(true) ==> |r.trace| == 3 && r.trace[2].command == MountNfs && Succeeded(r.trace[2].reply))
  {}

  ghost predicate MountProtocol(r: Result, target: string) {
    && (forall i :: 0 <= i < |r.trace| ==> MountCommand(r.trace[i].command))
    && (forall i :: 0 <= i < |r.trace| && r.trace[i].command == MountNfs ==> Precedes(r.trace, i, e => ClearListing(e, target)))
    && (r.outcome == Done(true) ==> exists i :: 0 <= i < |r.trace| && r.trace[i].command == MountNfs && Succeeded(r.trace[i].reply))
  }

  lemma AfterUnmount(before: seq<Event>, target: string, env: Env)
    requires forall i :: 0 <= i < |before| ==> Unmounts(before[i])
    ensures MountProtocol(Prepend(before, MountSteps(target, env)), target)
  {
    hide MountSteps;
    MountHalfProtocol(target, env);
    var m := MountSteps(target, env);
    var t, k := before + m.trace, |before|;
    assert forall i :: 0 <= i < |m.trace| ==> t[k + i] == m.trace[i];
    forall i | 0 <= i < |t| ensures MountCommand(t[i].command) {
      if i < k { assert t[i] == before[i] && Unmounts(before[i]); } else { assert t[i] == m.trace[i - k]; }
    }
    forall i | 0 <= i < |t| && t[i].command == MountNfs ensures Precedes(t, i, e => ClearListing(e, target)) {
      assert i >= k by { assert i < k ==> Unmounts(t[i]); }
      assert t[i] == m.trace[i - k] && t[k] == m.trace[0];
    }
    if m.outcome == Done(true) { assert t[k + 2] == m.trace[2]; }
  }

  lemma RecoverMountProtocol(target: string, action: Action, env: Env)
    ensures MountProtocol(RecoverySteps(target, action, env), target)
    ensures action != Recover ==> forall e :: e in RecoverySteps(target, action, env).trace ==> !Unmounts(e)
  {
    hide MountSteps, MountProtocol, MountCommand;
    var u, f := Issue(env, Unmount), Issue(env, ForceUnmount);
    if action == Recover {
      AfterUnmount([u], target, env);
      AfterUnmount([u, f], target, env);
      BareUnmounts([u], target);
      BareUnmounts([u, f], target);
    } else {
      AfterUnmount([], target, env);
      MountHalfProtocol(target, env);
      assert [] + MountSteps(target, env).trace == MountSteps(target, env).trace;
    }
  }

  lemma BareUnmounts(trace: seq<Event>, target: string)
    requires forall i :: 0 <= i < |trace| ==> Unmounts(trace[i])
    ensures MountProtocol(Result(trace, Exception), target) && MountProtocol(Result(trace, Done(false)), target)
  {}

  /** For every outcome of the external commands, in a recovery of the main share: no unmount
      unless the worker was found absent or its stop succeeded; a successful stop is followed by
      a restart command; the mount command runs only after a successful listing without the
      target; and success means that the mount command succeeded. */
  lemma WorkerProtocol(target: string, env: Env)
    ensures var r := WorkerSteps(true, target, Recover, env);
            && (forall i :: 0 <= i < |r.trace| && Unmounts(r.trace[i]) ==> Precedes(r.trace, i, WorkerOut))
            && (forall i :: 0 <= i < |r.trace| && r.trace[i].command == StopWorker && Succeeded(r.trace[i].reply) ==> Follows(r.trace, i, RestartWorker))
            && (forall i :: 0 <= i < |r.trace| && r.trace[i].command == MountNfs ==> Precedes(r.trace, i, e => ClearListing(e, target)))
            && (r.outcome == Done(true) ==> exists i :: 0 <= i < |r.trace| && r.trace[i].command == MountNfs && Succeeded(r.trace[i].reply))
  {
    hide RecoverySteps;
    RecoverMountProtocol(target, Recover, env);
    var r, m := WorkerSteps(true, target, Recover, env), RecoverySteps(target, Recover, env);
    var p, s, b := Issue(env, PrintWorker), Issue(env, StopWorker), Issue(env, RestartWorker);
    if r.trace == [p] + m.trace && WorkerOut(p) {
      WrapProtocol([p], m.trace, [], target);
      assert r.trace == [p] + m.trace + [];
    } else if r.trace == [p, s] + m.trace + [b] && WorkerOut(s) {
      WrapProtocol([p, s], m.trace, [b], target);
      var n := |r.trace| - 1;
      assert r.trace[n] == b;
      forall i | 0 <= i < |r.trace| && r.trace[i].command == StopWorker ensures Follows(r.trace, i, RestartWorker) {
        assert i < n;
      }
    }
  }

  /** Commands around a mount recovery keep what it guarantees. */
  lemma WrapProtocol(before: seq<Event>, inner: seq<Event>, after: seq<Event>, target: string)
    requires before != [] && WorkerOut(before[|before| - 1])
    requires forall i :: 0 <= i < |before| ==> !MountCommand(before[i].command)
    requires forall i :: 0 <= i < |after| ==> !MountCommand(after[i].command) && !Unmounts(after[i])
    requires forall i :: 0 <= i < |inner| ==> MountCommand(inner[i].command)
    requires forall i :: 0 <= i < |inner| && inner[i].command == MountNfs ==> Precedes(inner, i, e => ClearListing(e, target))
    ensures var t := before + inner + after;
            && (forall i :: 0 <= i < |t| && Unmounts(t[i]) ==> Precedes(t, i, WorkerOut))
            && (forall i :: 0 <= i < |t| && t[i].command == MountNfs ==> Precedes(t, i, e => ClearListing(e, target)))
            && (forall i :: 0 <= i < |inner| && inner[i].command == MountNfs && Succeeded(inner[i].reply) ==> t[|before| + i] == inner[i])
            && t[|before| - 1] == before[|before| - 1]
  {
    var t, k := before + inner + after, |before|;
    forall i | 0 <= i < |t| && Unmounts(t[i]) ensures Precedes(t, i, WorkerOut) {
      assert WorkerOut(t[k - 1]);
      assert i >= k;
    }
    forall i | 0 <= i < |t| && t[i].command == MountNfs ensures Precedes(t, i, e => ClearListing(e, target)) {
      assert k <= i < k + |inner| && t[i] == inner[i - k];
      var j :| 0 <= j < i - k && ClearListing(inner[j], target);
      assert t[k + j] == inner[j];
    }
  }

  // ---------- the worker's loaded state ----------

  /** What launchd does: a stop that succeeds unloads the worker, a restart that succeeds loads
      it; after a failed or interrupted one it may be either (`loadedAfter`). */
  function LoadedAfter(loaded: bool, trace: seq<Event>, loadedAfter: Command -> bool): bool {
    if trace == [] then loaded else
      var before, e := LoadedAfter(loaded, trace[..|trace| - 1], loadedAfter), trace[|trace| - 1];
      if e.command == StopWorker then (if Succeeded(e.reply) then false else loadedAfter(StopWorker))
      else if e.command == RestartWorker then (if Succeeded(e.reply) then true else loadedAfter(RestartWorker))
      else before
  }

  /** `launchctl print` succeeds only for a loaded worker and reports it missing only otherwise. */
  predicate HonestPrint(env: Env, loaded: bool) {
    var r := env.answer(PrintWorker);
    r.Exit? ==> (r.code == 0 ==> loaded) && (r.code != 0 && r.notFound ==> !loaded)
  }

  lemma {:induction false} MountCommandsKeepWorker(loaded: bool, before: seq<Event>, inner: seq<Event>, loadedAfter: Command -> bool)
    requires forall i :: 0 <= i < |inner| ==> MountCommand(inner[i].command)
    ensures LoadedAfter(loaded, before + inner, loadedAfter) == LoadedAfter(loaded, before, loadedAfter)
  {
    if inner == [] {
      assert before + inner == before;
    } else {
      var less := inner[..|inner| - 1];
      assert (before + inner)[..|before + inner| - 1] == before + less;
      MountCommandsKeepWorker(loaded, before, less, loadedAfter);
    }
  }

  /** A true result means that the worker is loaded exactly if it was before; and the worker is
      left unloaded by a recovery that stopped it only when the restart command failed. */
  lemma WorkerLoadedAsBefore(isMain: bool, target: string, action: Action, env: Env, loaded: bool, loadedAfter: Command -> bool)
    requires HonestPrint(env, loaded)
    ensures var r := WorkerSteps(isMain, target, action, env);
            && (r.outcome == Done(true) ==> LoadedAfter(loaded, r.trace, loadedAfter) == loaded)
            && (Succeeded(env.answer(RestartWorker)) && r.trace != [] && r.trace[|r.trace| - 1].command == RestartWorker ==> LoadedAfter(loaded, r.trace, loadedAfter))
  {
    hide RecoverySteps, LoadedAfter, MountCommand;
    var m := RecoverySteps(target, action, env);
    var p, s, b := Issue(env, PrintWorker), Issue(env, StopWorker), Issue(env, RestartWorker);
    RecoveryKeepsWorker(target, action, env, loaded, [], loadedAfter);
    RecoveryKeepsWorker(target, action, env, loaded, [p], loadedAfter);
    assert [] + m.trace == m.trace;
    PrintKeepsWorker(loaded, p, loadedAfter);
    RestartDecides(loaded, [p, s] + m.trace, b, loadedAfter);
  }

  lemma RecoveryKeepsWorker(target: string, action: Action, env: Env, loaded: bool, before: seq<Event>, loadedAfter: Command -> bool)
    ensures var t := RecoverySteps(target, action, env).trace;
            && LoadedAfter(loaded, before + t, loadedAfter) == LoadedAfter(loaded, before, loadedAfter)
            && (t != [] ==> t[|t| - 1].command != RestartWorker)
  {
    hide RecoverySteps, LoadedAfter;
    RecoverMountProtocol(target, action, env);
    var t := RecoverySteps(target, action, env).trace;
    MountCommandsKeepWorker(loaded, before, t, loadedAfter);
    assert t != [] ==> MountCommand(t[|t| - 1].command);
  }

  lemma PrintKeepsWorker(loaded: bool, p: Event, loadedAfter: Command -> bool)
    requires p.command == PrintWorker
    ensures LoadedAfter(loaded, [], loadedAfter) == loaded == LoadedAfter(loaded, [p], loadedAfter)
  {
    assert [p][..0] == [];
  }

  lemma RestartDecides(loaded: bool, before: seq<Event>, b: Event, loadedAfter: Command -> bool)
    requires b.command == RestartWorker
    ensures LoadedAfter(loaded, before + [b], loadedAfter) == (if Succeeded(b.reply) then true else loadedAfter(RestartWorker))
  {
    assert (before + [b])[..|before|] == before;
  }

  // ---------- exactly which commands are issued ----------

  predicate Has(trace: seq<Event>, c: Command) { exists i :: 0 <= i < |trace| && trace[i].command == c }

  /** The order in which commands come, if they come. */
  function Rank(c: Command): nat {
    match c
    case PrintWorker => 0
    case StopWorker => 1
    case Unmount => 2
    case ForceUnmount => 3
    case ListMounts => 4
    case MakeDir => 5
    case MountNfs => 6
    case RestartWorker => 7
  }

  /** In order, without repeats, each with its answer. */
  predicate InOrder(trace: seq<Event>, env: Env) {
    && (forall i :: 0 <= i < |trace| ==> trace[i].reply == env.answer(trace[i].command))
    && (forall i, j :: 0 <= i < j < |trace| ==> Rank(trace[i].command) < Rank(trace[j].command))
  }

  predicate Fails(env: Env, c: Command) { env.answer(c).Exit? && env.answer(c).code != 0 }

  /** The worker is stopped around the recovery. */
  predicate Stops(isMain: bool, action: Action, env: Env) {
    isMain && action == Recover && env.userResolves && Answers(env, PrintWorker) && env.plistPresent && Answers(env, StopWorker)
  }

  /** The worker is not in the way. */
  predicate Free(isMain: bool, action: Action, env: Env) {
    || !(isMain && action == Recover)
    || Stops(isMain, action, env)
    || (env.userResolves && Fails(env, PrintWorker) && env.answer(PrintWorker).notFound)
  }

  /** The mount listing is asked for. */
  predicate Lists(isMain: bool, action: Action, env: Env) {
    Free(isMain, action, env) && (action == Recover ==> Answers(env, Unmount) || (Fails(env, Unmount) && Answers(env, ForceUnmount)))
  }

  /** When each command is issued: a forced unmount only after one that failed, a mount only after
      a clear listing and with the directory made, a restart after every stop. */
  predicate Issues(c: Command, isMain: bool, target: string, action: Action, env: Env) {
    match c
    case PrintWorker => isMain && action == Recover && env.userResolves
    case StopWorker => isMain && action == Recover && env.userResolves && Answers(env, PrintWorker) && env.plistPresent
    case RestartWorker => Stops(isMain, action, env)
    case Unmount => action == Recover && Free(isMain, action, env)
    case ForceUnmount => action == Recover && Free(isMain, action, env) && Fails(env, Unmount)
    case ListMounts => Lists(isMain, action, env)
    case MakeDir => Lists(isMain, action, env) && Answers(env, ListMounts) && target !in env.answer(ListMounts).mounted
    case MountNfs => Lists(isMain, action, env) && Answers(env, ListMounts) && target !in env.answer(ListMounts).mounted && Answers(env, MakeDir)
  }

  /** The mount half: the listing, then the directory, then the mount. */
  lemma MountIssues(target: string, env: Env)
    ensures var t := MountSteps(target, env).trace;
            InOrder(t, env) && forall c :: Has(t, c) <==> Issues(c, false, target, Mount, env)
  {
    var t := MountSteps(target, env).trace;
    assert t[0].command == ListMounts;
    assert |t| > 1 ==> t[1].command == MakeDir;
    assert |t| > 2 ==> t[2].command == MountNfs;
    forall c ensures Has(t, c) <==> (c == ListMounts || (|t| > 1 && c == MakeDir) || (|t| > 2 && c == MountNfs)) {}
  }

  lemma RecoveryIssues(target: string, action: Action, env: Env)
    ensures var t := RecoverySteps(target, action, env).trace;
            InOrder(t, env) && forall c :: Has(t, c) <==> Issues(c, false, target, action, env)
  {
    hide MountSteps, InOrder, Has;
    var m := MountSteps(target, env).trace;
    MountIssues(target, env);
    if action == Recover {
      var u, f := Issue(env, Unmount), Issue(env, ForceUnmount);
      Singles(env);
      Unmounting(env);
      HasConcat([u], m);
      HasConcat([u, f], m);
      InOrderConcat([u], m, env);
      InOrderConcat([u, f], m, env);
    }
  }

  lemma Unmounting(env: Env)
    ensures var two := [Issue(env, Unmount), Issue(env, ForceUnmount)];
            InOrder(two, env) && forall c :: Has(two, c) <==> c == Unmount || c == ForceUnmount
  {
    var two := [Issue(env, Unmount), Issue(env, ForceUnmount)];
    assert two[0].command == Unmount && two[1].command == ForceUnmount;
  }

  lemma HasConcat(a: seq<Event>, b: seq<Event>)
    ensures forall c :: Has(a + b, c) <==> Has(a, c) || Has(b, c)
  {
    var t := a + b;
    forall i | 0 <= i < |a| ensures t[i] == a[i] {}
    forall i | 0 <= i < |b| ensures t[|a| + i] == b[i] {}
    forall c | Has(t, c) ensures Has(a, c) || Has(b, c) {
      var i :| 0 <= i < |t| && t[i].command == c;
      assert if i < |a| then t[i] == a[i] else t[i] == b[i - |a|];
    }
  }

  lemma InOrderConcat(a: seq<Event>, b: seq<Event>, env: Env)
    requires InOrder(a, env) && InOrder(b, env) && forall x, y :: Has(a, x) && Has(b, y) ==> Rank(x) < Rank(y)
    ensures InOrder(a + b, env)
  {
    var t := a + b;
    assert forall i :: 0 <= i < |a| ==> t[i] == a[i] && Has(a, a[i].command);
    forall i | 0 <= i < |b| ensures t[|a| + i] == b[i] && Has(b, b[i].command) {}
    forall i | |a| <= i < |t| ensures t[i] == b[i - |a|] && Has(b, t[i].command) {}
  }

  /** Every command of a recovery is issued exactly when it is called for, in a fixed order and
      once; so the whole course is determined. An exception comes out exactly if a command that is
      issued raises one. */
  lemma IssuedExactly(isMain: bool, target: string, action: Action, env: Env)
    ensures var r := WorkerSteps(isMain, target, action, env);
            && InOrder(r.trace, env)
            && (forall c :: Has(r.trace, c) <==> Issues(c, isMain, target, action, env))
            && (r.outcome.Exception? <==> exists c :: Issues(c, isMain, target, action, env) && env.answer(c).Raised?)
  {
    hide RecoverySteps, InOrder, Has;
    var r, m := WorkerSteps(isMain, target, action, env), RecoverySteps(target, action, env);
    RecoveryIssues(target, action, env);
    RecoveryRaises(target, action, env);
    var p, s, b := Issue(env, PrintWorker), Issue(env, StopWorker), Issue(env, RestartWorker);
    Singles(env);
    TwoFirst(env);
    if isMain && action == Recover && r.trace == [p] + m.trace {
      HasConcat([p], m.trace);
      InOrderConcat([p], m.trace, env);
    } else if isMain && action == Recover && r.trace == [p, s] + m.trace + [b] {
      HasConcat([p, s], m.trace);
      HasConcat([p, s] + m.trace, [b]);
      InOrderConcat([p, s], m.trace, env);
      InOrderConcat([p, s] + m.trace, [b], env);
    }
  }

  lemma RecoveryRaises(target: string, action: Action, env: Env)
    ensures RecoverySteps(target, action, env).outcome.Exception? <==> exists c :: Issues(c, false, target, action, env) && env.answer(c).Raised?
  {}

  lemma Singles(env: Env)
    ensures !exists c :: Has([], c)
    ensures InOrder([], env)
    ensures forall a, c :: Has([Issue(env, a)], c) <==> a == c
    ensures forall a :: InOrder([Issue(env, a)], env)
  {
    forall a, c ensures Has([Issue(env, a)], c) <==> a == c { assert [Issue(env, a)][0].command == a; }
  }

  lemma TwoFirst(env: Env)
    ensures var two := [Issue(env, PrintWorker), Issue(env, StopWorker)];
            InOrder(two, env) && forall c :: Has(two, c) <==> c == PrintWorker || c == StopWorker
  {
    var two := [Issue(env, PrintWorker), Issue(env, StopWorker)];
    assert two[0].command == PrintWorker && two[1].command == StopWorker;
  }

  // ---------- when a recovery succeeds ----------

  predicate Answers(env: Env, c: Command) { Succeeded(env.answer(c)) }

  predicate NoException(env: Env, c: Command) { env.answer(c).Exit? }

  /** A mount attempt succeeds exactly when the listing is clear and both commands succeed. */
  predicate MountWorks(target: string, env: Env) {
    Answers(env, ListMounts) && target !in env.answer(ListMounts).mounted && Answers(env, MakeDir) && Answers(env, MountNfs)
  }

  /** One of the two unmount commands works. */
  predicate UnmountWorks(env: Env) { Answers(env, Unmount) || (NoException(env, Unmount) && Answers(env, ForceUnmount)) }

  /** The worker is out of the way: absent, or stopped with the means to restart it. */
  predicate WorkerStops(env: Env) {
    && env.userResolves && NoException(env, PrintWorker)
    && if env.answer(PrintWorker).code == 0 then env.plistPresent && Answers(env, StopWorker) && Answers(env, RestartWorker)
       else env.answer(PrintWorker).notFound
  }

  /** A recovery reports success exactly when every command on its way succeeds. */
  lemma SucceedsExactly(isMain: bool, target: string, action: Action, env: Env)
    ensures WorkerSteps(isMain, target, action, env).outcome == Done(true) <==>
              MountWorks(target, env) && (action == Recover ==> UnmountWorks(env)) && (isMain && action == Recover ==> WorkerStops(env))
  {}
}
