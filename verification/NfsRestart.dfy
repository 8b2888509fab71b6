/** The restart of the worker as a bounded child process: when it is really started. */
module NfsRestart {
  import opened NfsRecovery
  import Children = NfsChildren

  /** What the commands are about: the worker's launchd domain, and the export. */
  datatype Names = Names(domain: string, source: string, target: string)

  const PLIST := "/Users/operator/Library/LaunchAgents/io.tdarr.node.plist"
  const MOUNT_OPTIONS := "rw,nolock,noowners,resvport,soft,timeo=30,intr,noac,vers=3"

  /** The argument list that each command is run with. */
  function Arguments(c: Command, names: Names): seq<string> {
    match c
    case PrintWorker => ["/bin/launchctl", "print", names.domain + "/io.tdarr.node"]
    case StopWorker => ["/bin/launchctl", "bootout", names.domain + "/io.tdarr.node"]
    case RestartWorker => ["/bin/launchctl", "bootstrap", names.domain, PLIST]
    case Unmount => ["/sbin/umount", "-f", names.target]
    case ForceUnmount => ["/usr/sbin/diskutil", "unmount", "force", names.target]
    case ListMounts => ["/sbin/mount"]
    case MakeDir => ["/bin/mkdir", "-p", names.target]
    case MountNfs => ["/sbin/mount_nfs", "-o", MOUNT_OPTIONS, names.source, names.target]
  }

  /** Nothing else is run as the restart is. */
  lemma OnlyTheRestart(c: Command, names: Names)
    requires c != RestartWorker
    ensures Arguments(c, names) != Arguments(RestartWorker, names)
  {
    assert Arguments(RestartWorker, names)[0] == "/bin/launchctl";
    assert c == ForceUnmount ==> Arguments(c, names)[0] == "/usr/sbin/diskutil" && "/bin/launchctl"[1] != "/usr/sbin/diskutil"[1];
    assert c != ForceUnmount ==> |Arguments(c, names)| != |Arguments(RestartWorker, names)|;
  }

  /** The restart comes last in a recovery, and once. */
  lemma RestartIsLast(isMain: bool, target: string, action: Action, env: Env, i: int)
    requires var t := WorkerSteps(isMain, target, action, env).trace; 0 <= i < |t| - 1
    ensures WorkerSteps(isMain, target, action, env).trace[i].command != RestartWorker
  {
    hide RecoverySteps;
    RecoverMountProtocol(target, action, env);
    var t, m := WorkerSteps(isMain, target, action, env).trace, RecoverySteps(target, action, env).trace;
    assert forall k :: 0 <= k < |m| ==> MountCommand(m[k].command);
  }

  /** The children that were started or ended during the commands before the last of a recovery. */
  ghost predicate During(calls: seq<Children.Event>, trace: seq<Event>, names: Names) {
    forall k :: 0 <= k < |calls| && calls[k].Call? ==>
      exists i :: 0 <= i < |trace| - 1 && calls[k].command == Arguments(trace[i].command, names)
  }

  predicate Refused(env: Env) { env.answer(RestartWorker).Exit? && env.answer(RestartWorker).code == Children.TIMEOUT }

  /** The restart command is really started exactly when no restart of an earlier recovery is still
      alive; else it is refused with the time-out code, and so the recovery does not succeed. */
  lemma RestartStartsExactly(history: seq<Children.Event>, calls: seq<Children.Event>, names: Names,
                             target: string, env: Env, fate: Children.Fate, pid: nat)
    requires Children.FreshPids(history + calls)
    requires var t := WorkerSteps(true, target, Recover, env).trace;
             t != [] && t[|t| - 1].command == RestartWorker && During(calls, t, names)
    ensures var before, w := Children.Play(history), Children.Play(history + calls);
            var restart := Arguments(RestartWorker, names);
            && (Children.Starts(w, restart) <==>
                  !exists p :: p in before.alive && before.alive[p] == restart && p in w.alive && w.alive[p] == restart)
            && (!Children.Starts(w, restart) ==>
                  && Children.Run(w, restart, fate, pid).1 == Children.TIMEOUT && Children.Run(w, restart, fate, pid).0.alive == w.alive
                  && (Refused(env) ==> WorkerSteps(true, target, Recover, env).outcome != Done(true)))
  {
    hide WorkerSteps, Arguments, Children.FreshPids, Children.Play;
    var t, restart := WorkerSteps(true, target, Recover, env).trace, Arguments(RestartWorker, names);
    forall k | 0 <= k < |calls| && calls[k].Call? ensures calls[k].command != restart {
      var i :| 0 <= i < |t| - 1 && calls[k].command == Arguments(t[i].command, names);
      RestartIsLast(true, target, Recover, env, i);
      OnlyTheRestart(t[i].command, names);
    }
    Children.OneChildPerOperation(history + calls, restart, fate, pid);
    Children.OthersLeaveAlive(history, calls, restart);
    RefusedRestartFails(target, env);
  }

  lemma RefusedRestartFails(target: string, env: Env)
    requires var t := WorkerSteps(true, target, Recover, env).trace; t != [] && t[|t| - 1].command == RestartWorker
    ensures Refused(env) ==> WorkerSteps(true, target, Recover, env).outcome != Done(true)
  {
    hide RecoverySteps;
    RecoverMountProtocol(target, Recover, env);
    var m := RecoverySteps(target, Recover, env).trace;
    assert forall k :: 0 <= k < |m| ==> MountCommand(m[k].command);
  }
}
