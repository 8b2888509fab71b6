/** The supervise loop over every run: when it attempts a recovery, and what it reports. */
module NfsSupervisor {
  import opened Text
  import opened NfsStatus
  import opened NfsRecovery

  const EXPORTS := ["srv", "generated"]
  const MAIN_EXPORT := "srv"

  function TargetOf(name: string): string {
    if name == MAIN_EXPORT then "/Volumes/homelab-srv" else "/Volumes/homelab-generated"
  }

  function RemoteOf(name: string): string {
    if name == MAIN_EXPORT then "/srv" else "/home/pi/docker/mac-worker/shared"
  }

  /** What the loop keeps for one export. */
  datatype Record = Record(failures: nat, attemptAt: real, recoveries: nat, recoveryOk: int, lastReadOk: int)

  const INITIAL := Record(0, -300.0, 0, 0, 0)

  function Decide(state: State, failures: int, elapsed: real, reachable: bool, everReadOk: bool): Action {
    if !reachable || elapsed < 300.0 then Nothing
    else if state == Unmounted then Mount
    else if state == Hung && failures >= 2 then (if everReadOk then Recover else Nothing)
    else Nothing
  }

  /** What one iteration meets for one export: the source it is mounted from, if it is; the exit
      code of its read probe; the monotonic clock when it decides and when it starts an attempt;
      the wall clock at a successful read; and, for an attempt, the answers of the commands and
      then a status listing and the probe again. Every export has one probe file. */
  datatype Tick = Tick(source: string, probe: int, decideAt: real, attemptAt: real, readAt: int,
                       env: Env, statusAfter: Listing, probeAfter: int, readAfter: int)

  /** A status listing: its exit code and its lines. */
  datatype Listing = Listing(code: int, lines: seq<string>)

  /** One iteration: whether the mount listing could be read, the status listing, and the reachable
      server, if there is one. */
  datatype Iteration = Iteration(listed: bool, status: Listing, ticks: string -> Tick, picked: string, checkedAt: int)

  /** The finding of the inspection. */
  function Inspected(it: Iteration, name: string): Finding {
    Inspect(it.listed, it.ticks(name).source, TargetOf(name), [it.ticks(name).probe], it.status.code, it.status.lines)
  }

  /** The finding of the check after an attempt. */
  function Rechecked(name: string, t: Tick): Finding {
    Health(TargetOf(name), [t.probeAfter], t.statusAfter.code, t.statusAfter.lines)
  }

  /** The commands of an attempt, and its outcome. */
  function AttemptOf(name: string, t: Tick, action: Action): Result {
    WorkerSteps(name == MAIN_EXPORT, TargetOf(name), action, t.env)
  }

  datatype Item = Item(state: State, reason: string, source: string, recoveries: nat, recoveryOk: int, lastReadOk: int)

  datatype Report = Report(checkedAt: int, exports: map<string, Item>)

  predicate AllHealthy(it: Iteration) { forall i :: 0 <= i < |EXPORTS| ==> Inspected(it, EXPORTS[i]).state == Healthy }

  /** A server is looked for only while some export is not healthy. */
  predicate Reached(it: Iteration) { !AllHealthy(it) && it.picked != "" }

  /** The record after the inspection. */
  function Counted(rec: Record, it: Iteration, name: string): Record {
    var state, t := Inspected(it, name).state, it.ticks(name);
    var counted := rec.(failures := if state == Hung then rec.failures + 1 else 0);
    if state == Healthy then counted.(lastReadOk := t.readAt) else counted
  }

  function ActionOf(rec: Record, it: Iteration, name: string): Action {
    var r := Counted(rec, it, name);
    Decide(Inspected(it, name).state, r.failures, it.ticks(name).decideAt - r.attemptAt, Reached(it), r.lastReadOk != 0)
  }

  predicate Mounted(rec: Record, it: Iteration, name: string) {
    AttemptOf(name, it.ticks(name), ActionOf(rec, it, name)).outcome == Done(true)
  }

  /** An attempt that raises an exception ends the daemon. */
  predicate Raises(rec: Record, it: Iteration, name: string) {
    ActionOf(rec, it, name) != Nothing && AttemptOf(name, it.ticks(name), ActionOf(rec, it, name)).outcome.Exception?
  }

  /** The finding that is reported: after an attempt, the check after it. */
  function Final(rec: Record, it: Iteration, name: string): Finding {
    if ActionOf(rec, it, name) == Nothing then Inspected(it, name)
    else if Mounted(rec, it, name) then Rechecked(name, it.ticks(name))
    else Finding(Unknown, "recovery_failed")
  }

  function Next(rec: Record, it: Iteration, name: string): Record {
    var r, t := Counted(rec, it, name), it.ticks(name);
    if ActionOf(rec, it, name) == Nothing then r else
      var ok := Mounted(rec, it, name) && Final(rec, it, name).state == Healthy;
      r.(attemptAt := t.attemptAt, recoveries := r.recoveries + 1, recoveryOk := if ok then 1 else 0,
         lastReadOk := if ok then t.readAfter else r.lastReadOk)
  }

  function ItemOf(rec: Record, it: Iteration, name: string): Item {
    var f, next := Final(rec, it, name), Next(rec, it, name);
    Item(f.state, f.reason,
         if ActionOf(rec, it, name) != Nothing && Mounted(rec, it, name) then it.picked + ":" + RemoteOf(name) else it.ticks(name).source,
         next.recoveries, next.recoveryOk, next.lastReadOk)
  }

  lemma NotYet(i: nat)
    requires i < |EXPORTS|
    ensures EXPORTS[i] !in EXPORTS[..i] && EXPORTS[i] in EXPORTS
  {
    assert |EXPORTS[0]| != |EXPORTS[1]|;
  }

  /** The loop body as the program runs it, over the records of all exports. */
  class Supervisor {
    var history: map<string, Record>

    constructor ()
      ensures history == map n | n in EXPORTS :: INITIAL
    {
      history := map n | n in EXPORTS :: INITIAL;
    }

    /** One iteration; without a report an exception has ended the daemon. */
    method Iterate(it: Iteration) returns (report: Option<Report>)
      requires history.Keys == set n | n in EXPORTS
      modifies this
      ensures report.None? <==> exists i :: 0 <= i < |EXPORTS| && Raises(old(history)[EXPORTS[i]], it, EXPORTS[i])
      ensures report.Some? ==> history == map n | n in EXPORTS :: Next(old(history)[n], it, n)
      ensures report.Some? ==> report.value == Report(it.checkedAt, map n | n in EXPORTS :: ItemOf(old(history)[n], it, n))
    {
      hide *;
      var reachable := Reached(it);
      var exports: map<string, Item> := map[];
      for i := 0 to |EXPORTS|
        invariant history.Keys == set n | n in EXPORTS
        invariant forall k :: 0 <= k < i ==> !Raises(old(history)[EXPORTS[k]], it, EXPORTS[k])
        invariant forall n :: n in EXPORTS ==>
          history[n] == if n in EXPORTS[..i] then Next(old(history)[n], it, n) else old(history)[n]
        invariant exports.Keys == set n | n in EXPORTS[..i]
        invariant forall n :: n in EXPORTS[..i] ==> exports[n] == ItemOf(old(history)[n], it, n)
      {
        ghost var done := EXPORTS[..i];
        var name := EXPORTS[i];
        NotYet(i);
        assert EXPORTS[..i + 1] == done + [name];
        var item := Turn(name, it, reachable);
        if item.None? { return None; }
        exports := exports[name := item.value];
      }
      assert EXPORTS[..|EXPORTS|] == EXPORTS;
      return Some(Report(it.checkedAt, exports));
    }

    /** The part of the loop body for one export. */
    method Turn(name: string, it: Iteration, reachable: bool) returns (item: Option<Item>)
      requires name in history && reachable == Reached(it)
      modifies this
      ensures history.Keys == old(history).Keys
      ensures item.None? <==> Raises(old(history)[name], it, name)
      ensures item.Some? ==> history == old(history)[name := Next(old(history)[name], it, name)] && item.value == ItemOf(old(history)[name], it, name)
    {
      hide Decide, AllHealthy, Inspect, Health, WorkerSteps, Reached, TargetOf, RemoteOf;
      var record, t := history[name], it.ticks(name);
      var f, source := Inspect(it.listed, t.source, TargetOf(name), [t.probe], it.status.code, it.status.lines), t.source;
      record := record.(failures := if f.state == Hung then record.failures + 1 else 0);
      if f.state == Healthy { record := record.(lastReadOk := t.readAt); }
      var action := Decide(f.state, record.failures, t.decideAt - record.attemptAt, reachable, record.lastReadOk != 0);
      if action != Nothing {
        record := record.(attemptAt := t.attemptAt, recoveries := record.recoveries + 1);
        var recoverer := new Recoverer(t.env);
        var mounted := recoverer.RecoverWithWorker(name == MAIN_EXPORT, TargetOf(name), action);
        if mounted.Exception? { return None; }
        if mounted.ok {
          f := CheckHealth(TargetOf(name), [t.probeAfter], t.statusAfter.code, t.statusAfter.lines);
          source := it.picked + ":" + RemoteOf(name);
        } else {
          f := Finding(Unknown, "recovery_failed");
        }
        record := record.(recoveryOk := if mounted.ok && f.state == Healthy then 1 else 0);
        if record.recoveryOk != 0 { record := record.(lastReadOk := t.readAfter); }
      }
      history := history[name := record];
      item := Some(Item(f.state, f.reason, source, record.recoveries, record.recoveryOk, record.lastReadOk));
    }
  }

  // ---------- every run, one export ----------

  function RecordAfter(run: seq<Iteration>, name: string): Record {
    if run == [] then INITIAL else
      Next(RecordAfter(run[..|run| - 1], name), run[|run| - 1], name)
  }

  function ActionAt(run: seq<Iteration>, k: nat, name: string): Action
    requires k < |run|
  {
    ActionOf(RecordAfter(run[..k], name), run[k], name)
  }

  /** The inspection read the export: it is mounted, the status listing calls the mount healthy,
      and its probe returned 0. */
  predicate ReadOnInspection(it: Iteration, name: string) {
    var t := it.ticks(name);
    && it.listed && t.source != "" && t.probe == 0
    && it.status.code == 0 && Status(it.status.lines, TargetOf(name)) == Healthy
  }

  /** The check after an attempt read the export. */
  predicate ReadOnRecheck(name: string, t: Tick) {
    t.probeAfter == 0 && t.statusAfter.code == 0 && Status(t.statusAfter.lines, TargetOf(name)) == Healthy
  }

  /** The commands that iteration `k` issues to recover or mount the export. */
  function EventsAt(run: seq<Iteration>, k: nat, name: string): seq<Event>
    requires k < |run|
  {
    if ActionAt(run, k, name) == Nothing then [] else AttemptOf(name, run[k].ticks(name), ActionAt(run, k, name)).trace
  }

  /** Iteration `k` completed a read of the export: at its inspection, or after an attempt that
      mounted it. */
  predicate ReadAt(run: seq<Iteration>, k: nat, name: string)
    requires k < |run|
  {
    || ReadOnInspection(run[k], name)
    || (ActionAt(run, k, name) != Nothing && AttemptOf(name, run[k].ticks(name), ActionAt(run, k, name)).outcome == Done(true)
        && ReadOnRecheck(name, run[k].ticks(name)))
  }

  /** A finding is healthy exactly when a read was completed. */
  lemma HealthyIsRead(it: Iteration, name: string)
    ensures Inspected(it, name).state == Healthy <==> ReadOnInspection(it, name)
    ensures Rechecked(name, it.ticks(name)).state == Healthy <==> ReadOnRecheck(name, it.ticks(name))
  {
    hide Status, Probed;
    var t := it.ticks(name);
    HealthMeaning(TargetOf(name), [t.probe], it.status.code, it.status.lines);
    HealthMeaning(TargetOf(name), [t.probeAfter], t.statusAfter.code, t.statusAfter.lines);
    assert [t.probe][0] == t.probe && [t.probeAfter][0] == t.probeAfter;
  }

  /** The record knows of a read exactly as it is defined here. */
  lemma NextReads(run: seq<Iteration>, k: nat, name: string)
    requires k < |run|
    ensures var rec := RecordAfter(run[..k], name);
            var next, t := Next(rec, run[k], name), run[k].ticks(name);
            && (next.lastReadOk != rec.lastReadOk ==> ReadAt(run, k, name))
            && (ReadAt(run, k, name) ==> next.lastReadOk in {t.readAt, t.readAfter})
            && (ItemOf(rec, run[k], name).state == Healthy <==> ReadAt(run, k, name))
            && next.recoveries == rec.recoveries + (if ActionAt(run, k, name) != Nothing then 1 else 0)
            && next.recoveryOk == (if ActionAt(run, k, name) == Nothing then rec.recoveryOk else if ReadAt(run, k, name) then 1 else 0)
  {
    hide AllHealthy, Inspected, Rechecked, AttemptOf, ReadOnInspection, ReadOnRecheck;
    HealthyIsRead(run[k], name);
  }

  /** The hung inspections at the end of a run. */
  function HungInARow(run: seq<Iteration>, name: string): nat {
    if run == [] || Inspected(run[|run| - 1], name).state != Hung then 0 else 1 + HungInARow(run[..|run| - 1], name)
  }

  /** The monotonic clock of an export's decisions and attempts does not run backwards. */
  ghost predicate Monotonic(run: seq<Iteration>, name: string) {
    && (forall k :: 0 <= k < |run| ==> run[k].ticks(name).decideAt <= run[k].ticks(name).attemptAt)
    && (forall j, k :: 0 <= j < k < |run| ==> run[j].ticks(name).attemptAt <= run[k].ticks(name).decideAt)
  }

  ghost predicate RecordMeaning(run: seq<Iteration>, name: string, rec: Record) {
    && rec.failures == HungInARow(run, name)
    && (rec.lastReadOk != 0 ==> ReadBefore(run, |run|, name))
    && (forall k :: 0 <= k < |run| && ActionAt(run, k, name) != Nothing ==> rec.attemptAt >= run[k].ticks(name).attemptAt)
  }

  ghost predicate ReadBefore(run: seq<Iteration>, j: nat, name: string)
    requires j <= |run|
  {
    exists k :: 0 <= k < j && ReadAt(run, k, name)
  }

  lemma EarlierSame(run: seq<Iteration>, j: nat, k: nat, name: string)
    requires k < j <= |run|
    ensures run[..j][k] == run[k] && ActionAt(run[..j], k, name) == ActionAt(run, k, name)
    ensures ReadAt(run[..j], k, name) == ReadAt(run, k, name)
  {
    assert run[..j][..k] == run[..k];
  }

  /** A remembered read time means that a read was completed. */
  lemma {:induction false} RememberedMeansRead(run: seq<Iteration>, name: string)
    ensures RecordAfter(run, name).lastReadOk != 0 ==> ReadBefore(run, |run|, name)
  {
    hide Next, ReadAt, ActionAt;
    if run != [] && RecordAfter(run, name).lastReadOk != 0 {
      var n := |run| - 1;
      var less := run[..n];
      RememberedMeansRead(less, name);
      NextReads(run, n, name);
      if RecordAfter(less, name).lastReadOk != 0 {
        var k :| 0 <= k < |less| && ReadAt(less, k, name);
        EarlierSame(run, n, k, name);
      }
      assert ReadBefore(run, |run|, name);
    }
  }

  lemma NextAttempt(rec: Record, it: Iteration, name: string)
    ensures Next(rec, it, name).attemptAt == if ActionOf(rec, it, name) == Nothing then rec.attemptAt else it.ticks(name).attemptAt
    ensures Next(rec, it, name).failures == if Inspected(it, name).state == Hung then rec.failures + 1 else 0
  {
    hide Decide, Final, Inspected, Mounted, Reached;
  }

  lemma {:induction false} FailuresAreHung(run: seq<Iteration>, name: string)
    ensures RecordAfter(run, name).failures == HungInARow(run, name)
  {
    hide Next, Inspected;
    if run != [] {
      var n := |run| - 1;
      FailuresAreHung(run[..n], name);
      NextAttempt(RecordAfter(run[..n], name), run[n], name);
    }
  }

  lemma {:induction false} AttemptsAreNoted(run: seq<Iteration>, name: string, k: nat)
    requires Monotonic(run, name) && k < |run| && ActionAt(run, k, name) != Nothing
    ensures RecordAfter(run, name).attemptAt >= run[k].ticks(name).attemptAt
  {
    hide Next, ActionOf;
    var n := |run| - 1;
    var less := run[..n];
    NextAttempt(RecordAfter(less, name), run[n], name);
    if k < n {
      EarlierSame(run, n, k, name);
      MonotonicPrefix(run, n, name);
      AttemptsAreNoted(less, name, k);
      assert run[k].ticks(name).attemptAt <= run[n].ticks(name).decideAt <= run[n].ticks(name).attemptAt;
    }
  }

  lemma RecordsMeanTheRun(run: seq<Iteration>, name: string)
    requires Monotonic(run, name)
    ensures RecordMeaning(run, name, RecordAfter(run, name))
  {
    hide ActionAt, RecordAfter, ReadBefore;
    FailuresAreHung(run, name);
    RememberedMeansRead(run, name);
    forall k | 0 <= k < |run| && ActionAt(run, k, name) != Nothing ensures RecordAfter(run, name).attemptAt >= run[k].ticks(name).attemptAt {
      AttemptsAreNoted(run, name, k);
    }
  }

  lemma MonotonicPrefix(run: seq<Iteration>, k: nat, name: string)
    requires Monotonic(run, name) && k <= |run|
    ensures Monotonic(run[..k], name)
  {}

  /** Attempts on one export are at least 300 seconds apart. */
  lemma AttemptsAreSpaced(run: seq<Iteration>, name: string, i: nat, j: nat)
    requires Monotonic(run, name) && i < j < |run|
    requires ActionAt(run, i, name) != Nothing && ActionAt(run, j, name) != Nothing
    ensures run[j].ticks(name).attemptAt - run[i].ticks(name).attemptAt >= 300.0
    ensures run[j].ticks(name).decideAt - run[i].ticks(name).attemptAt >= 300.0
  {
    hide Counted, Next, Inspected, Reached;
    AttemptsAreNoted(run[..j], name, i) by { MonotonicPrefix(run, j, name); EarlierSame(run, j, i, name); }
    assert Counted(RecordAfter(run[..j], name), run[j], name).attemptAt == RecordAfter(run[..j], name).attemptAt by { CountedKeeps(run, j, name); }
  }

  lemma CountedKeeps(run: seq<Iteration>, j: nat, name: string)
    requires j < |run|
    ensures var rec := RecordAfter(run[..j], name);
            Counted(rec, run[j], name).attemptAt == rec.attemptAt && Counted(rec, run[j], name).recoveries == rec.recoveries
  {
    hide Inspected;
  }

  /** A recovery with its forced unmount is tried only when the last two inspections were hung
      and some earlier iteration completed a read; an export is mounted only when it was found
      unmounted; an unknown state leads to nothing; and nothing happens without a server. */
  lemma AttemptsAreJustified(run: seq<Iteration>, name: string, j: nat)
    requires j < |run|
    ensures ActionAt(run, j, name) == Recover ==>
              && j >= 1 && Inspected(run[j], name).state == Hung && Inspected(run[j - 1], name).state == Hung
              && ReadBefore(run, j, name)
    ensures ActionAt(run, j, name) == Mount ==> Inspected(run[j], name).state == Unmounted
    ensures Inspected(run[j], name).state == Unknown ==> ActionAt(run, j, name) == Nothing
    ensures !Reached(run[j]) ==> ActionAt(run, j, name) == Nothing
  {
    hide AllHealthy, Inspected, Next, ReadAt;
    var before := run[..j];
    FailuresAreHung(before, name);
    RememberedMeansRead(before, name);
    if ActionAt(run, j, name) == Recover {
      assert HungInARow(before, name) >= 1;
      assert before[|before| - 1] == run[j - 1];
      var k :| 0 <= k < |before| && ReadAt(before, k, name);
      EarlierSame(run, j, k, name);
    }
  }

  /** A forced unmount is issued only after two hung inspections in a row and an earlier read, and
      for the main share only with the worker out of the way; the mount command only after a
      clear listing; and in an unknown state no command at all. */
  lemma CommandsAreJustified(run: seq<Iteration>, name: string, j: nat, i: int)
    requires j < |run| && 0 <= i < |EventsAt(run, j, name)|
    ensures var e := EventsAt(run, j, name)[i];
            && Inspected(run[j], name).state != Unknown && Reached(run[j])
            && (Unmounts(e) ==>
                  && j >= 1 && Inspected(run[j], name).state == Hung && Inspected(run[j - 1], name).state == Hung
                  && ReadBefore(run, j, name)
                  && (name == MAIN_EXPORT ==> Precedes(EventsAt(run, j, name), i, WorkerOut)))
            && (e.command == MountNfs ==> Precedes(EventsAt(run, j, name), i, l => ClearListing(l, TargetOf(name))))
  {
    hide ActionAt, Inspected, Reached, RecoverySteps, TargetOf, ReadBefore;
    AttemptsAreJustified(run, name, j);
    var t, action, target := run[j].ticks(name), ActionAt(run, j, name), TargetOf(name);
    if name == MAIN_EXPORT && action == Recover {
      WorkerProtocol(target, t.env);
    } else {
      RecoverMountProtocol(target, action, t.env);
      assert EventsAt(run, j, name) == RecoverySteps(target, action, t.env).trace;
      assert EventsAt(run, j, name)[i] in RecoverySteps(target, action, t.env).trace;
    }
  }

  /** When the last attempt on an export started; 300 seconds before zero if there was none. */
  function LastAttempt(run: seq<Iteration>, name: string): real {
    if run == [] then -300.0
    else if ActionAt(run, |run| - 1, name) != Nothing then run[|run| - 1].ticks(name).attemptAt
    else LastAttempt(run[..|run| - 1], name)
  }

  lemma {:induction false} AttemptAtIsLastAttempt(run: seq<Iteration>, name: string)
    ensures RecordAfter(run, name).attemptAt == LastAttempt(run, name)
  {
    hide Next, ActionOf;
    if run != [] {
      var n := |run| - 1;
      AttemptAtIsLastAttempt(run[..n], name);
      NextAttempt(RecordAfter(run[..n], name), run[n], name);
    }
  }

  lemma {:induction false} ReadsAreRemembered(run: seq<Iteration>, name: string)
    requires forall k :: 0 <= k < |run| ==> run[k].ticks(name).readAt > 0 && run[k].ticks(name).readAfter > 0
    ensures RecordAfter(run, name).lastReadOk >= 0
    ensures RecordAfter(run, name).lastReadOk != 0 <==> ReadBefore(run, |run|, name)
  {
    hide Next, ReadAt, ActionAt;
    if run != [] {
      var n := |run| - 1;
      var less := run[..n];
      assert forall k :: 0 <= k < |less| ==> less[k] == run[k];
      ReadsAreRemembered(less, name);
      NextReads(run, n, name);
      forall k | 0 <= k < n ensures ReadAt(less, k, name) == ReadAt(run, k, name) { EarlierSame(run, n, k, name); }
      assert ReadBefore(run, |run|, name) <==> ReadBefore(less, n, name) || ReadAt(run, n, name);
    }
  }

  lemma ActsWhenReached(run: seq<Iteration>, name: string, j: nat)
    requires j < |run|
    requires forall k :: 0 <= k < |run| ==> run[k].ticks(name).readAt > 0 && run[k].ticks(name).readAfter > 0
    ensures var t := run[j].ticks(name);
            var due := Reached(run[j]) && t.decideAt - LastAttempt(run[..j], name) >= 300.0;
            && (ActionAt(run, j, name) == Mount <==> due && Inspected(run[j], name).state == Unmounted)
            && (ActionAt(run, j, name) == Recover <==>
                due && Inspected(run[j], name).state == Hung && HungInARow(run[..j], name) >= 1 && ReadBefore(run[..j], j, name))
  {
    hide AllHealthy, ReadAt, Inspected, LastAttempt, HungInARow, RecordAfter;
    var before := run[..j];
    AttemptAtIsLastAttempt(before, name);
    FailuresAreHung(before, name);
    assert forall k :: 0 <= k < |before| ==> before[k] == run[k];
    ReadsAreRemembered(before, name);
  }

  /** Exactly when the loop acts, with wall clocks past the epoch: when a server answers and 300
      seconds have passed since the last attempt, it mounts what is unmounted and recovers what is
      hung for the second time in a row and was read before. */
  lemma ActsExactly(run: seq<Iteration>, name: string, j: nat)
    requires j < |run| && name in EXPORTS
    requires forall k :: 0 <= k < |run| ==> run[k].ticks(name).readAt > 0 && run[k].ticks(name).readAfter > 0
    ensures var t, state := run[j].ticks(name), Inspected(run[j], name).state;
            var due := run[j].picked != "" && t.decideAt - LastAttempt(run[..j], name) >= 300.0;
            && (ActionAt(run, j, name) == Mount <==> due && state == Unmounted)
            && (ActionAt(run, j, name) == Recover <==>
                due && state == Hung && HungInARow(run[..j], name) >= 1 && ReadBefore(run[..j], j, name))
            && (ActionAt(run, j, name) != Nothing ==> state == Unmounted || state == Hung)
  {
    hide ActionAt, ReadBefore, Inspected, LastAttempt, HungInARow;
    ActsWhenReached(run, name, j);
    assert Inspected(run[j], name).state != Healthy ==> !AllHealthy(run[j]);
  }

  // ---------- reports ----------

  function ReportAt(run: seq<Iteration>, k: nat): Report
    requires k < |run|
  {
    Report(run[k].checkedAt, map n | n in EXPORTS :: ItemOf(RecordAfter(run[..k], n), run[k], n))
  }

  function AttemptCount(run: seq<Iteration>, name: string): nat {
    if run == [] then 0 else
      AttemptCount(run[..|run| - 1], name) + (if ActionAt(run, |run| - 1, name) != Nothing then 1 else 0)
  }

  /** The last attempt on an export ended with a completed read. */
  predicate LastAttemptOk(run: seq<Iteration>, name: string) {
    run != [] &&
    if ActionAt(run, |run| - 1, name) != Nothing then ReadAt(run, |run| - 1, name) else LastAttemptOk(run[..|run| - 1], name)
  }

  lemma {:induction false} RecoveriesAreAttempts(run: seq<Iteration>, name: string)
    ensures RecordAfter(run, name).recoveries == AttemptCount(run, name)
    ensures RecordAfter(run, name).recoveryOk == if LastAttemptOk(run, name) then 1 else 0
  {
    hide Next, ReadAt, ActionAt;
    if run != [] {
      RecoveriesAreAttempts(run[..|run| - 1], name);
      NextReads(run, |run| - 1, name);
    }
  }

  /** The wall clock of the last completed read of an export; zero without one. */
  function LastReadTime(run: seq<Iteration>, name: string): int {
    if run == [] then 0
    else if ReadOnInspection(run[|run| - 1], name) then run[|run| - 1].ticks(name).readAt
    else if ReadAt(run, |run| - 1, name) then run[|run| - 1].ticks(name).readAfter
    else LastReadTime(run[..|run| - 1], name)
  }

  lemma {:induction false} ReadTimeIsKept(run: seq<Iteration>, name: string)
    ensures RecordAfter(run, name).lastReadOk == LastReadTime(run, name)
  {
    hide AllHealthy, Inspected, Rechecked, AttemptOf, ReadOnInspection, ReadOnRecheck;
    if run != [] {
      var n := |run| - 1;
      ReadTimeIsKept(run[..n], name);
      HealthyIsRead(run[n], name);
    }
  }

  /** What iteration `k` found out about the export, and from where it is mounted: what the check
      after a mount found, that the recovery failed, or what the inspection found. */
  function Found(run: seq<Iteration>, k: nat, name: string): (Finding, string)
    requires k < |run|
  {
    var it, action := run[k], ActionAt(run, k, name);
    if action == Nothing then (Inspected(it, name), it.ticks(name).source)
    else if AttemptOf(name, it.ticks(name), action).outcome == Done(true)
    then (Rechecked(name, it.ticks(name)), it.picked + (if name == "srv" then ":/srv" else ":/home/pi/docker/mac-worker/shared"))
    else (Finding(Unknown, "recovery_failed"), it.ticks(name).source)
  }

  lemma ReportedIsFound(run: seq<Iteration>, k: nat, name: string)
    requires k < |run| && name in EXPORTS
    ensures var item, found := ReportAt(run, k).exports[name], Found(run, k, name);
            item.state == found.0.state && item.reason == found.0.reason && item.source == found.1
  {
    hide Next, Inspected, Rechecked, AttemptOf, Decide, AllHealthy, Reached, RecordAfter;
    assert run[k].picked + ":" + "/srv" == run[k].picked + ":/srv";
    assert run[k].picked + ":" + "/home/pi/docker/mac-worker/shared" == run[k].picked + ":/home/pi/docker/mac-worker/shared";
  }

  /** What a report says of an export: healthy exactly when this iteration completed a read of
      it, how often a recovery was attempted so far, whether the last attempt worked, and when the
      last read was completed. */
  lemma ReportMeaning(run: seq<Iteration>, k: nat, name: string)
    requires k < |run| && name in EXPORTS
    ensures var item := ReportAt(run, k).exports[name];
            && (item.state == Healthy <==> ReadAt(run, k, name))
            && item.recoveries == AttemptCount(run[..k + 1], name)
            && item.recoveryOk == (if LastAttemptOk(run[..k + 1], name) then 1 else 0)
            && item.lastReadOk == LastReadTime(run[..k + 1], name)
  {
    hide Next, ActionAt, ReadAt, AttemptCount, LastAttemptOk, LastReadTime, Final;
    ReadTimeIsKept(run[..k + 1], name);
    var upTo := run[..k + 1];
    assert upTo[..k] == run[..k] && upTo[k] == run[k];
    RecoveriesAreAttempts(upTo, name);
    NextReads(run, k, name);
  }

  /** Wall clocks do not run backwards, and they are past the epoch. */
  ghost predicate WallForward(run: seq<Iteration>) {
    && (forall k :: 0 <= k < |run| ==> run[k].checkedAt >= 1)
    && (forall j, k :: 0 <= j <= k < |run| ==> run[j].checkedAt <= run[k].checkedAt)
    && (forall k, n :: 0 <= k < |run| && n in EXPORTS ==>
          0 <= run[k].ticks(n).readAt <= run[k].checkedAt && 0 <= run[k].ticks(n).readAfter <= run[k].checkedAt)
  }

  lemma {:induction false} LastReadNotAhead(run: seq<Iteration>, n: string)
    requires WallForward(run) && n in EXPORTS
    ensures var rec := RecordAfter(run, n);
            0 <= rec.lastReadOk && (run == [] ==> rec.lastReadOk == 0) && (run != [] ==> rec.lastReadOk <= run[|run| - 1].checkedAt)
            && rec.recoveryOk in {0, 1}
  {
    hide Decide, AllHealthy;
    if run != [] {
      var less := run[..|run| - 1];
      assert WallForward(less) by {
        forall j, k | 0 <= j <= k < |less| ensures less[j].checkedAt <= less[k].checkedAt { assert less[j] == run[j] && less[k] == run[k]; }
      }
      LastReadNotAhead(less, n);
      if less != [] { assert less[|less| - 1] == run[|run| - 2]; }
      var t := run[|run| - 1].ticks(n);
      assert 0 <= t.readAt <= run[|run| - 1].checkedAt && 0 <= t.readAfter <= run[|run| - 1].checkedAt;
    }
  }

  /** The two shares: where each is mounted, and what a healthy inspection of it rests on. */
  lemma SharesAre(it: Iteration)
    ensures Inspected(it, "srv").state == Healthy <==>
              && it.listed && it.ticks("srv").source != "" && it.ticks("srv").probe == 0
              && it.status.code == 0 && Status(it.status.lines, "/Volumes/homelab-srv") == Healthy
    ensures Inspected(it, "generated").state == Healthy <==>
              && it.listed && it.ticks("generated").source != "" && it.ticks("generated").probe == 0
              && it.status.code == 0 && Status(it.status.lines, "/Volumes/homelab-generated") == Healthy
  {
    hide Status;
    HealthyIsRead(it, "srv");
    HealthyIsRead(it, "generated");
  }
}
