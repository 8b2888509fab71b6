/** The restart policy of the container watchdog, and what its one counter and one
    timestamp guarantee about every 24-hour window. */
module WatchdogPolicy {
  import opened WatchdogText

  const DAY := 86400

  datatype Config = Config(threshold: int, budget: int, cooldown: int)

  predicate ValidConfig(cfg: Config) { cfg.threshold >= 1 && cfg.budget >= 1 && cfg.cooldown >= 1 }

  datatype Action = Nothing | Wait | Restart | Exhausted

  datatype Plan = Plan(state: State, action: Action, notify: bool)

  function Decide(s: State, unhealthy: bool, now: int, cfg: Config): Plan {
    var cleared := if unhealthy then s else s.(consecutive := 0, lastAlert := 0);
    var aged := if cleared.restarts > 0 && now - cleared.lastRestart >= DAY then cleared.(restarts := 0) else cleared;
    if !unhealthy then Plan(aged, Nothing, false) else
      var counted := aged.(consecutive := aged.consecutive + 1);
      if counted.consecutive < cfg.threshold then Plan(counted, Wait, false)
      else if counted.restarts < cfg.budget then Plan(counted, Restart, false)
      else if now - counted.lastAlert >= cfg.cooldown then Plan(counted.(lastAlert := now), Exhausted, true)
      else Plan(counted, Exhausted, false)
  }

  /** The state saved after a restart command succeeded. */
  function Restarted(s: State, now: int): State {
    s.(consecutive := 0, restarts := s.restarts + 1, lastRestart := now)
  }

  /** How many of `times` fall into the half-open day that starts at `from`. */
  function CountIn(times: seq<int>, from: int): nat {
    if times == [] then 0
    else CountIn(times[..|times| - 1], from) + (if from <= times[|times| - 1] < from + DAY then 1 else 0)
  }

  lemma CountSnoc(times: seq<int>, t: int, from: int)
    ensures CountIn(times + [t], from) == CountIn(times, from) + (if from <= t < from + DAY then 1 else 0)
  {
    assert (times + [t])[..|times|] == times;
  }

  ghost predicate UpTo(times: seq<int>, limit: int) { forall i :: 0 <= i < |times| ==> times[i] <= limit }

  lemma {:induction false} CountNone(times: seq<int>, from: int)
    requires UpTo(times, from - 1)
    ensures CountIn(times, from) == 0
  {
    if times != [] { CountNone(times[..|times| - 1], from); }
  }

  function Last(times: seq<int>): int
    requires times != []
  {
    times[|times| - 1]
  }

  ghost predicate AtMost(times: seq<int>, bound: int) { forall from :: CountIn(times, from) <= bound }

  /** The saved counter bounds every day that reaches the last restart. */
  ghost predicate Bounds(times: seq<int>, s: State, now: int) {
    || (s.restarts == 0 && (times == [] || now >= Last(times) + DAY))
    || (times != [] && forall from :: Last(times) < from + DAY ==> CountIn(times, from) <= s.restarts)
  }

  /** What one state file knows about the restarts recorded in it. */
  ghost predicate Window(times: seq<int>, s: State, now: int, budget: int) {
    && UpTo(times, now)
    && (times != [] ==> UpTo(times, Last(times)) && s.lastRestart == Last(times))
    && 0 <= s.restarts <= budget
    && AtMost(times, budget)
    && Bounds(times, s, now)
  }

  lemma WindowDecide(times: seq<int>, s: State, before: int, now: int, unhealthy: bool, cfg: Config)
    requires Window(times, s, before, cfg.budget) && before <= now
    ensures Window(times, Decide(s, unhealthy, now, cfg).state, now, cfg.budget)
  {}

  /** A restart within the budget keeps every day within the budget. */
  lemma WindowRestart(times: seq<int>, s: State, now: int, budget: int)
    requires Window(times, s, now, budget) && s.restarts < budget
    ensures Window(times + [now], Restarted(s, now), now, budget)
  {
    var after := times + [now];
    assert Last(after) == now;
    forall from ensures CountIn(after, from) <= budget && (now < from + DAY ==> CountIn(after, from) <= s.restarts + 1) {
      CountSnoc(times, now, from);
      if now < from + DAY {
        if now < from {
          CountNone(times, from);
        } else if s.restarts == 0 && (times == [] || now >= Last(times) + DAY) {
          CountNone(times, from);
        }
      }
    }
  }

  // ---------- what the counter counts ----------

  /** The restarts at the end of `times` that follow each other within a day. */
  function Chain(times: seq<int>): nat {
    if times == [] then 0
    else if |times| == 1 || Last(times) - times[|times| - 2] >= DAY then 1
    else 1 + Chain(times[..|times| - 1])
  }

  predicate Expired(times: seq<int>, now: int) { times == [] || now - Last(times) >= DAY }

  /** The restarts that count against the budget at `now`. */
  function InForce(times: seq<int>, now: int): nat { if Expired(times, now) then 0 else Chain(times) }

  /** The saved counter is the chain, or zero once the chain has expired. */
  predicate Counted(times: seq<int>, s: State, now: int) {
    && (times != [] ==> s.lastRestart == Last(times))
    && (s.restarts == Chain(times) || (s.restarts == 0 && Expired(times, now)))
  }

  /** The state is as a decision at `now` leaves it. */
  predicate Aged(s: State, now: int) { s.restarts > 0 ==> now - s.lastRestart < DAY }

  lemma CountedDecide(times: seq<int>, s: State, before: int, now: int, unhealthy: bool, cfg: Config)
    requires Counted(times, s, before) && before <= now
    ensures var p := Decide(s, unhealthy, now, cfg); Counted(times, p.state, now) && Aged(p.state, now)
  {}

  lemma CountedRestart(times: seq<int>, s: State, now: int)
    requires Counted(times, s, now) && Aged(s, now)
    ensures Counted(times + [now], Restarted(s, now), now)
  {
    assert (times + [now])[..|times|] == times;
  }

  /** What a decision finds in the counter. */
  lemma CountedInForce(times: seq<int>, s: State, now: int)
    requires Counted(times, s, now)
    ensures (if s.restarts > 0 && now - s.lastRestart >= DAY then 0 else s.restarts) == InForce(times, now)
  {}
}
