/** Running bounded child processes: a child that survives its kill is remembered, and the same
    operation is not started again while it lives. */
module NfsChildren {

  type Command = seq<string>

  /** What becomes of a started operation. */
  datatype Fate = NotStarted | Finished(code: int) | Killed | SurvivesKill

  const TIMEOUT := 124
  const NOT_STARTED := 127

  /** The table of blocked children, and the children alive in the kernel. */
  datatype World = World(pending: map<Command, nat>, alive: map<nat, Command>)

  function Reaped(pending: map<Command, nat>, alive: map<nat, Command>): map<Command, nat> {
    map c | c in pending && pending[c] in alive :: pending[c]
  }

  /** One call; a started child gets the process number `pid`. */
  function Run(w: World, command: Command, fate: Fate, pid: nat): (World, int) {
    var pending := Reaped(w.pending, w.alive);
    if command in pending then (World(pending, w.alive), TIMEOUT)
    else match fate
      case NotStarted => (World(pending, w.alive), NOT_STARTED)
      case Finished(code) => (World(pending, w.alive), code)
      case Killed => (World(pending, w.alive), TIMEOUT)
      case SurvivesKill => (World(pending[command := pid], w.alive[pid := command]), TIMEOUT)
  }

  /** The call starts a child. */
  predicate Starts(w: World, command: Command) { command !in Reaped(w.pending, w.alive) }

  class Runner {
    var pending: map<Command, nat>

    constructor ()
      ensures pending == map[]
    {
      pending := map[];
    }

    /** `alive` answers the polls. */
    method Call(command: Command, fate: Fate, pid: nat, alive: map<nat, Command>) returns (code: int)
      modifies this
      ensures var (w, c) := Run(World(old(pending), alive), command, fate, pid); pending == w.pending && code == c
    {
      var all := pending.Keys;
      while all != {}
        invariant all <= pending.Keys <= old(pending).Keys
        invariant forall c :: c in pending ==> pending[c] == old(pending)[c]
        invariant forall c :: c in old(pending) && c !in all ==> (c in pending <==> old(pending)[c] in alive)
        decreases |all|
      {
        var c :| c in all;
        if pending[c] !in alive { pending := pending - {c}; }
        all := all - {c};
      }
      assert pending == Reaped(old(pending), alive);
      if command in pending { return TIMEOUT; }
      match fate {
        case NotStarted => return NOT_STARTED;
        case Finished(n) => return n;
        case Killed => return TIMEOUT;
        case SurvivesKill =>
          pending := pending[command := pid];
          return TIMEOUT;
      }
    }
  }

  // ---------- every history ----------

  datatype Event = Call(command: Command, fate: Fate, pid: nat) | Exit(pid: nat)

  function After(w: World, e: Event): World {
    match e
    case Call(command, fate, pid) => Run(w, command, fate, pid).0
    case Exit(pid) => w.(alive := w.alive - {pid})
  }

  function Play(events: seq<Event>): World {
    if events == [] then World(map[], map[]) else After(Play(events[..|events| - 1]), events[|events| - 1])
  }

  /** The kernel gives a new child a number no living child has. */
  ghost predicate FreshPids(events: seq<Event>) {
    forall k :: 0 <= k < |events| && events[k].Call? ==> events[k].pid !in Play(events[..k]).alive
  }

  /** Every living child is the remembered one of its operation, and of no other. */
  ghost predicate Remembered(w: World) {
    && (forall p :: p in w.alive ==> w.alive[p] in w.pending && w.pending[w.alive[p]] == p)
    && (forall c :: c in w.pending && w.pending[c] in w.alive ==> w.alive[w.pending[c]] == c)
  }

  lemma {:induction false} AllRemembered(events: seq<Event>)
    requires FreshPids(events)
    ensures Remembered(Play(events))
  {
    if events != [] {
      var less := events[..|events| - 1];
      forall k | 0 <= k < |less| && less[k].Call? ensures less[k].pid !in Play(less[..k]).alive {
        assert less[..k] == events[..k];
      }
      AllRemembered(less);
      assert events[..|events| - 1] == less;
    }
  }

  /** Over any history of calls and exits, no two living children run the same operation, and the
      next call is refused, without starting anything, exactly when such a child lives. */
  lemma OneChildPerOperation(events: seq<Event>, command: Command, fate: Fate, pid: nat)
    requires FreshPids(events)
    ensures var w := Play(events);
            && (forall p, q :: p in w.alive && q in w.alive && w.alive[p] == w.alive[q] ==> p == q)
            && (command in Reaped(w.pending, w.alive) <==> exists p :: p in w.alive && w.alive[p] == command)
            && (command in Reaped(w.pending, w.alive) ==> Run(w, command, fate, pid) == (World(Reaped(w.pending, w.alive), w.alive), TIMEOUT))
  {
    AllRemembered(events);
  }

  /** Calls of other operations start no child of this one. */
  lemma {:induction false} OthersLeaveAlive(history: seq<Event>, calls: seq<Event>, command: Command)
    requires forall k :: 0 <= k < |calls| && calls[k].Call? ==> calls[k].command != command
    ensures var before, w := Play(history), Play(history + calls);
            forall p :: p in w.alive && w.alive[p] == command ==> p in before.alive && before.alive[p] == command
    decreases |calls|
  {
    hide After;
    if calls == [] {
      assert history + calls == history;
    } else {
      var n := |calls| - 1;
      var less, all := calls[..n], history + calls;
      assert all[..|all| - 1] == history + less && all[|all| - 1] == calls[n];
      OthersLeaveAlive(history, less, command);
      OneLeavesAlive(Play(history + less), calls[n], command);
    }
  }

  lemma OneLeavesAlive(w: World, e: Event, command: Command)
    requires e.Call? ==> e.command != command
    ensures forall p :: p in After(w, e).alive && After(w, e).alive[p] == command ==> p in w.alive && w.alive[p] == command
  {}

  /** The exit code of a call: 124 for one that is refused or had to be killed, 127 for one that did
      not start, and else that of the child. Only a child that survives its kill is remembered. */
  lemma CallExactly(w: World, command: Command, fate: Fate, pid: nat)
    ensures var (next, code) := Run(w, command, fate, pid);
            && code == (if !Starts(w, command) then 124 else match fate
                        case NotStarted => 127
                        case Finished(c) => c
                        case _ => 124)
            && (forall c :: c in next.pending <==>
                  (c in w.pending && w.pending[c] in w.alive) || (c == command && Starts(w, command) && fate.SurvivesKill?))
  {}
}
