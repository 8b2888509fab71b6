/** The deploy controller: its cycles, finished or killed, its records, and what a cycle does to
    the live targets. */
module AutodeployRuns {
  import opened Text
  import opened Order
  import opened AutodeployPlan

  /** The files of a commit, by path. */
  type Tree = map<string, string>

  /** The controller's state file; a missing string reads as empty. */
  datatype Ctl = Ctl(seenSha: string, failedSha: string, lastGoodSha: string,
                     lastDeploySha: string, lastDeployTs: int, lastDeployResult: string, failCount: int)

  predicate NeedsDeploy(s: Ctl, originHead: string) {
    var head := Strip(PySpace, originHead);
    head != "" && head != s.failedSha && head != s.seenSha
  }

  function OnAttempt(s: Ctl, sha: string): Ctl { s.(seenSha := Strip(PySpace, sha)) }

  function OnSuccess(s: Ctl, sha: string, now: int): Ctl {
    s.(lastGoodSha := sha, lastDeploySha := sha, lastDeployTs := now, lastDeployResult := "ok", failedSha := "")
  }

  function OnFail(s: Ctl, sha: string, now: int): Ctl {
    s.(failedSha := sha, lastDeploySha := sha, lastDeployTs := now, lastDeployResult := "rolled_back", failCount := s.failCount + 1)
  }

  /** What is fixed over a run: the commits, the planner's settings, and which files the deploy of
      a target reads (`uses(target, path)`), whatever the planner makes of them. */
  datatype Setup = Setup(repo: string -> Tree, roles: Roles, allow: set<string>, deny: set<string>, uses: (string, string) -> bool)

  /** A target is deployed by its playbook; without one in the checkout it is skipped. */
  function Playbook(t: string): string { "ansible/playbooks/" + (t + ".yml") }

  predicate HasPlaybook(setup: Setup, t: string, sha: string) { Playbook(t) in setup.repo(sha) }

  /** What a deploy of `t` depends on. */
  predicate Needs(setup: Setup, t: string, f: string) { setup.uses(t, f) || f == Playbook(t) }

  /** What a full deploy of a commit makes live for target `t`: all files that its deploy depends
      on, or nothing without a playbook. */
  function Version(setup: Setup, t: string, sha: string): Tree {
    if !HasPlaybook(setup, t, sha) then map[] else map f | f in setup.repo(sha) && Needs(setup, t, f) :: setup.repo(sha)[f]
  }

  /** Where a cycle is killed, if it is: after the attempt is recorded and before the checkout; in
      the deploy loop after `n` targets; in the restore loop after `n` targets. A kill in a loop
      leaves the target at hand in any state, and one after the last target comes before the
      outcome is recorded. */
  datatype Kill = Never | Noted | Deploying(n: nat) | Restoring(n: nat)

  /** The outside world during one cycle. `partial` and `wreck` are what a deploy and a restore
      that did not succeed leave behind. */
  datatype Cycle = Cycle(head: string, ciGreen: bool, changed: seq<string>, now: int,
                         applyOk: string -> bool, partial: string -> Tree,
                         restoreOk: string -> bool, wreck: string -> Tree, kill: Kill)

  /** The host. `unrestored` marks targets that a failed restore or a killed cycle may have left
      off the last good commit, until they are deployed or restored again. */
  datatype Site = Site(ctl: Ctl, checkout: string, live: map<string, Tree>, unrestored: set<string>)

  function LiveOf(live: map<string, Tree>, t: string): Tree { if t in live then live[t] else map[] }

  /** The commit a cycle diffs against and rolls back to. */
  function Baseline(site: Site): string {
    if site.ctl.lastGoodSha == "" then site.checkout else site.ctl.lastGoodSha
  }

  // ---------- one cycle ----------

  predicate Attempts(site: Site, cy: Cycle) { NeedsDeploy(site.ctl, cy.head) && cy.ciGreen }

  datatype Outcome = Outcome(live: map<string, Tree>, unrestored: set<string>, failed: Option<string>)

  function DeployOne(live: map<string, Tree>, unrestored: set<string>, t: string, setup: Setup, cy: Cycle): Outcome {
    if !HasPlaybook(setup, t, cy.head) then Outcome(live, unrestored, None)
    else if cy.applyOk(t) then Outcome(live[t := Version(setup, t, cy.head)], unrestored - {t}, None)
    else Outcome(live[t := cy.partial(t)], unrestored, Some(t))
  }

  function DeployAll(live: map<string, Tree>, unrestored: set<string>, targets: seq<string>, setup: Setup, cy: Cycle): Outcome
    decreases |targets|
  {
    if targets == [] then Outcome(live, unrestored, None) else
      var one := DeployOne(live, unrestored, targets[0], setup, cy);
      if one.failed.Some? then one else DeployAll(one.live, one.unrestored, targets[1..], setup, cy)
  }

  function RestoreOne(live: map<string, Tree>, unrestored: set<string>, t: string, setup: Setup, cy: Cycle, sha: string): Outcome {
    if !HasPlaybook(setup, t, sha) then Outcome(live, unrestored, None)
    else if cy.restoreOk(t) then Outcome(live[t := Version(setup, t, sha)], unrestored - {t}, None)
    else Outcome(live[t := cy.wreck(t)], unrestored + {t}, None)
  }

  function RestoreAll(live: map<string, Tree>, unrestored: set<string>, targets: seq<string>, setup: Setup, cy: Cycle, sha: string): Outcome
    decreases |targets|
  {
    if targets == [] then Outcome(live, unrestored, None) else
      var one := RestoreOne(live, unrestored, targets[0], setup, cy, sha);
      RestoreAll(one.live, one.unrestored, targets[1..], setup, cy, sha)
  }

  /** A cycle that runs to its end. */
  function Finish(site: Site, setup: Setup, cy: Cycle): Site {
    if !NeedsDeploy(site.ctl, cy.head) || !cy.ciGreen then site else
      var base, ctl := Baseline(site), OnAttempt(site.ctl, cy.head);
      var targets := PlanOf(setup, cy);
      var d := DeployAll(site.live, site.unrestored, targets, setup, cy);
      if d.failed.None? then Site(OnSuccess(ctl, cy.head, cy.now), cy.head, d.live, d.unrestored) else
        var r := RestoreAll(d.live, d.unrestored, RollbackTargets(targets, d.failed.value), setup, cy, base);
        Site(OnFail(ctl, cy.head, cy.now), base, r.live, r.unrestored)
  }

  function PlanOf(setup: Setup, cy: Cycle): seq<string> { Plan(cy.changed, setup.roles, setup.allow, setup.deny) }

  function Names(xs: seq<string>): set<string> { set t | t in xs }

  /** The target at hand when a loop over `targets` is killed after `n` of them. */
  function Torn(live: map<string, Tree>, targets: seq<string>, n: nat, setup: Setup, sha: string, left: string -> Tree): map<string, Tree> {
    if n < |targets| && HasPlaybook(setup, targets[n], sha) then live[targets[n] := left(targets[n])] else live
  }

  /** The first `n` targets, and the one at hand. */
  function Begun(targets: seq<string>, n: nat): seq<string> { if n < |targets| then targets[..n + 1] else targets }

  /** A cycle, killed or not; one that ends before its kill finishes. Without a last good commit
      the checkout is the baseline, so then it is the targets not deployed that may be off. */
  function After(site: Site, setup: Setup, cy: Cycle): Site {
    if !Attempts(site, cy) then site else
      match cy.kill
      case Never => Finish(site, setup, cy)
      case Noted => site.(ctl := OnAttempt(site.ctl, cy.head))
      case Deploying(n) => KilledDeploying(site, setup, cy, n)
      case Restoring(n) => KilledRestoring(site, setup, cy, n)
  }

  function KilledDeploying(site: Site, setup: Setup, cy: Cycle, n: nat): Site {
    var targets := PlanOf(setup, cy);
    if n > |targets| then Finish(site, setup, cy) else
      var d := DeployAll(site.live, site.unrestored, targets[..n], setup, cy);
      var off := if site.ctl.lastGoodSha == "" then Undeployed(setup, cy, targets, n) else Names(Begun(targets, n));
      if d.failed.Some? then Finish(site, setup, cy)
      else Site(OnAttempt(site.ctl, cy.head), cy.head, Torn(d.live, targets, n, setup, cy.head, cy.partial), d.unrestored + off)
  }

  /** The targets that a deploy loop killed after `n` of them has not reached, or has skipped. */
  function Undeployed(setup: Setup, cy: Cycle, targets: seq<string>, n: nat): set<string>
    requires n <= |targets|
  {
    set t | t in targets && (t in targets[n..] || !HasPlaybook(setup, t, cy.head))
  }

  function KilledRestoring(site: Site, setup: Setup, cy: Cycle, n: nat): Site {
    var d := DeployAll(site.live, site.unrestored, PlanOf(setup, cy), setup, cy);
    if d.failed.None? then Finish(site, setup, cy) else
      var restore, base := RollbackTargets(PlanOf(setup, cy), d.failed.value), Baseline(site);
      if n > |restore| then Finish(site, setup, cy) else
        var r := RestoreAll(d.live, d.unrestored, restore[..n], setup, cy, base);
        Site(OnAttempt(site.ctl, cy.head), base, Torn(r.live, restore, n, setup, base, cy.wreck), r.unrestored + Names(restore[n..]))
  }

  /** The cycle as the program runs it to its end. */
  class Controller {
    const setup: Setup
    var ctl: Ctl
    var checkout: string
    var live: map<string, Tree>
    ghost var unrestored: set<string>

    constructor (setup: Setup, site: Site)
      ensures this.setup == setup && Snap() == site
    {
      this.setup := setup;
      ctl, checkout, live, unrestored := site.ctl, site.checkout, site.live, site.unrestored;
    }

    ghost function Snap(): Site
      reads this
    {
      Site(ctl, checkout, live, unrestored)
    }

    method RunCycle(cy: Cycle)
      modifies this
      ensures Snap() == Finish(old(Snap()), setup, cy)
    {
      hide Version, Plan, RollbackTargets, Strip;
      if !NeedsDeploy(ctl, cy.head) || !cy.ciGreen { return; }
      var base := if ctl.lastGoodSha == "" then checkout else ctl.lastGoodSha;
      ctl := OnAttempt(ctl, cy.head);
      checkout := cy.head;
      var targets := PlanTargets(cy.changed, setup.roles, setup.allow, setup.deny);
      var failed := Deploy(targets, cy);
      if failed.None? {
        ctl := OnSuccess(ctl, cy.head, cy.now);
        return;
      }
      checkout := base;
      Restore(RollbackTargets(targets, failed.value), cy, base);
      ctl := OnFail(ctl, cy.head, cy.now);
    }

    /** The deploy loop: in order, until the first failure. */
    method Deploy(targets: seq<string>, cy: Cycle) returns (failed: Option<string>)
      modifies this`live, this`unrestored
      ensures Outcome(live, unrestored, failed) == DeployAll(old(live), old(unrestored), targets, setup, cy)
    {
      hide Version, HasPlaybook;
      for i := 0 to |targets|
        invariant DeployAll(old(live), old(unrestored), targets, setup, cy) == DeployAll(live, unrestored, targets[i..], setup, cy)
      {
        var t := targets[i];
        assert targets[i..][1..] == targets[i + 1..];
        if HasPlaybook(setup, t, cy.head) {
          if cy.applyOk(t) {
            live, unrestored := live[t := Version(setup, t, cy.head)], unrestored - {t};
          } else {
            live := live[t := cy.partial(t)];
            return Some(t);
          }
        }
      }
      return None;
    }

    method Restore(targets: seq<string>, cy: Cycle, sha: string)
      modifies this`live, this`unrestored
      ensures Outcome(live, unrestored, None) == RestoreAll(old(live), old(unrestored), targets, setup, cy, sha)
    {
      hide Version, HasPlaybook;
      for i := 0 to |targets|
        invariant RestoreAll(old(live), old(unrestored), targets, setup, cy, sha) == RestoreAll(live, unrestored, targets[i..], setup, cy, sha)
      {
        var t := targets[i];
        assert targets[i..][1..] == targets[i + 1..];
        if HasPlaybook(setup, t, sha) {
          if cy.restoreOk(t) {
            live, unrestored := live[t := Version(setup, t, sha)], unrestored - {t};
          } else {
            live, unrestored := live[t := cy.wreck(t)], unrestored + {t};
          }
        }
      }
    }
  }

  // ---------- what a cycle does to the live targets ----------

  predicate Untouched(a: map<string, Tree>, aMarks: set<string>, b: Outcome, t: string) {
    LiveOf(b.live, t) == LiveOf(a, t) && (t in b.unrestored <==> t in aMarks)
  }

  /** The deploy of a target lets the loop go on. */
  predicate Goes(setup: Setup, cy: Cycle, t: string) { HasPlaybook(setup, t, cy.head) ==> cy.applyOk(t) }

  /** How far the deploy loop gets: the length of the attempted part of the plan. */
  function Attempted(targets: seq<string>, setup: Setup, cy: Cycle): (k: nat)
    ensures k <= |targets|
  {
    if targets == [] then 0 else if Goes(setup, cy, targets[0]) then 1 + Attempted(targets[1..], setup, cy) else 1
  }

  /** What the deploy loop leaves of the target at place `i` of its attempted part, if it has a
      playbook. */
  function LeftBy(setup: Setup, cy: Cycle, plan: seq<string>, i: nat): Tree
    requires i < |plan|
  {
    if cy.applyOk(plan[i]) then Version(setup, plan[i], cy.head) else cy.partial(plan[i])
  }

  /** The deploy loop leaves of its attempted targets what `LeftBy` says, and all others alone. */
  ghost predicate Deploys(live: map<string, Tree>, unrestored: set<string>, targets: seq<string>, setup: Setup, cy: Cycle, d: Outcome, k: nat)
    requires k <= |targets|
  {
    && (forall t :: t !in targets[..k] || !HasPlaybook(setup, t, cy.head) ==> Untouched(live, unrestored, d, t))
    && (forall i :: 0 <= i < k && HasPlaybook(setup, targets[i], cy.head) ==>
          && LiveOf(d.live, targets[i]) == LeftBy(setup, cy, targets, i)
          && (targets[i] in d.unrestored <==> targets[i] in unrestored && !cy.applyOk(targets[i])))
  }

  lemma DeployAllSpec(live: map<string, Tree>, unrestored: set<string>, targets: seq<string>, setup: Setup, cy: Cycle)
    requires NoDup(targets)
    ensures var d, k := DeployAll(live, unrestored, targets, setup, cy), Attempted(targets, setup, cy);
            && Deploys(live, unrestored, targets, setup, cy, d, k)
            && (d.failed.Some? ==> k > 0 && targets[k - 1] == d.failed.value && !Goes(setup, cy, targets[k - 1]))
            && (d.failed.None? ==> k == |targets|)
            && (d.failed.None? <==> forall t :: t in targets ==> Goes(setup, cy, t))
            && (forall i :: 0 <= i < k - 1 ==> Goes(setup, cy, targets[i]))
  {
    hide Deploys, DeployAll, Attempted, Goes;
    DeployAllLeaves(live, unrestored, targets, setup, cy);
    DeployAllOutcome(live, unrestored, targets, setup, cy);
  }

  lemma {:induction false} DeployAllOutcome(live: map<string, Tree>, unrestored: set<string>, targets: seq<string>, setup: Setup, cy: Cycle)
    ensures var d, k := DeployAll(live, unrestored, targets, setup, cy), Attempted(targets, setup, cy);
            && (d.failed.Some? ==> k > 0 && targets[k - 1] == d.failed.value && !Goes(setup, cy, targets[k - 1]))
            && (d.failed.None? ==> k == |targets|)
            && (d.failed.None? <==> forall t :: t in targets ==> Goes(setup, cy, t))
            && (forall i :: 0 <= i < k - 1 ==> Goes(setup, cy, targets[i]))
    decreases |targets|
  {
    hide Version, HasPlaybook;
    if targets != [] {
      var t, rest := targets[0], targets[1..];
      assert targets == [t] + rest;
      var one := DeployOne(live, unrestored, t, setup, cy);
      assert one.failed.None? <==> Goes(setup, cy, t);
      if one.failed.None? { DeployAllOutcome(one.live, one.unrestored, rest, setup, cy); }
    }
  }

  lemma {:induction false} DeployAllLeaves(live: map<string, Tree>, unrestored: set<string>, targets: seq<string>, setup: Setup, cy: Cycle)
    requires NoDup(targets)
    ensures Deploys(live, unrestored, targets, setup, cy, DeployAll(live, unrestored, targets, setup, cy), Attempted(targets, setup, cy))
    decreases |targets|
  {
    hide Version, HasPlaybook;
    if targets != [] {
      var t, rest := targets[0], targets[1..];
      assert targets == [t] + rest;
      var one := DeployOne(live, unrestored, t, setup, cy);
      assert t !in rest;
      if one.failed.None? {
        DeployAllLeaves(one.live, one.unrestored, rest, setup, cy);
        DeploysFirst(live, unrestored, targets, setup, cy, DeployAll(one.live, one.unrestored, rest, setup, cy), Attempted(rest, setup, cy));
      } else {
        assert targets[..1] == [t];
      }
    }
  }

  lemma DeploysFirst(live: map<string, Tree>, unrestored: set<string>, targets: seq<string>, setup: Setup, cy: Cycle, d: Outcome, k: nat)
    requires targets != [] && targets[0] !in targets[1..] && k < |targets|
    requires var one := DeployOne(live, unrestored, targets[0], setup, cy);
             one.failed.None? && Deploys(one.live, one.unrestored, targets[1..], setup, cy, d, k)
    ensures Deploys(live, unrestored, targets, setup, cy, d, k + 1)
  {
    hide Version, HasPlaybook;
    var t, rest, one := targets[0], targets[1..], DeployOne(live, unrestored, targets[0], setup, cy);
    assert targets[..k + 1] == [t] + rest[..k];
    assert Untouched(one.live, one.unrestored, d, t);
    forall i | 1 <= i < k + 1 ensures targets[i] == rest[i - 1] && targets[i] != t {}
    forall u | u !in targets[..k + 1] || !HasPlaybook(setup, u, cy.head) ensures Untouched(live, unrestored, d, u) {
      assert Untouched(one.live, one.unrestored, d, u);
    }
  }

  /** The restore loop leaves what has a playbook at the commit, or marked, and all else alone. */
  ghost predicate Restores(live: map<string, Tree>, unrestored: set<string>, targets: seq<string>, setup: Setup, sha: string, r: Outcome) {
    && (forall t :: t !in targets || !HasPlaybook(setup, t, sha) ==> Untouched(live, unrestored, r, t))
    && (forall t :: t in targets && HasPlaybook(setup, t, sha) && t !in r.unrestored ==> LiveOf(r.live, t) == Version(setup, t, sha))
  }

  lemma {:induction false} RestoreAllSpec(live: map<string, Tree>, unrestored: set<string>, targets: seq<string>, setup: Setup, cy: Cycle, sha: string)
    requires NoDup(targets)
    ensures Restores(live, unrestored, targets, setup, sha, RestoreAll(live, unrestored, targets, setup, cy, sha))
    decreases |targets|
  {
    hide Version, HasPlaybook;
    if targets != [] {
      var t, rest := targets[0], targets[1..];
      var one := RestoreOne(live, unrestored, t, setup, cy, sha);
      RestoreAllSpec(one.live, one.unrestored, rest, setup, cy, sha);
      assert targets == [t] + rest;
      assert t !in rest;
      assert Untouched(one.live, one.unrestored, RestoreAll(one.live, one.unrestored, rest, setup, cy, sha), t);
    }
  }

  predicate AutoDeployed(setup: Setup, t: string) { Auto(t, setup.allow, setup.deny) }

  lemma PlanIsNamed(setup: Setup, cy: Cycle)
    ensures var plan := PlanOf(setup, cy);
            NoDup(plan) && "" !in plan && forall t :: t in plan ==> AutoDeployed(setup, t)
  {
    hide Implied, FullPlan, Plan, Auto;
    GatesSplitThePlan(cy.changed, setup.roles, setup.allow, setup.deny);
    assert "" in PlanOf(setup, cy) ==> ImpliedByOne(cy.changed, setup.roles, "");
  }

  // ---------- every run ----------

  ghost function Play(site: Site, setup: Setup, cycles: seq<Cycle>): Site {
    if cycles == [] then site else After(Play(site, setup, cycles[..|cycles| - 1]), setup, cycles[|cycles| - 1])
  }

  lemma CycleKeepsHeld(site: Site, setup: Setup, cy: Cycle, t: string)
    requires !AutoDeployed(setup, t)
    ensures LiveOf(After(site, setup, cy).live, t) == LiveOf(site.live, t)
  {
    hide Version, HasPlaybook, Plan, RollbackTargets, Strip, Auto;
    var plan := PlanOf(setup, cy);
    PlanIsNamed(setup, cy);
    DeployKeeps(site.live, site.unrestored, plan, setup, cy, t);
    var d := DeployAll(site.live, site.unrestored, plan, setup, cy);
    if d.failed.Some? {
      var restore := RollbackTargets(plan, d.failed.value);
      RestoredIsPlanned(plan, d.failed.value);
      RestoreKeeps(d.live, d.unrestored, restore, setup, cy, Baseline(site), t);
      if cy.kill.Restoring? && cy.kill.n <= |restore| {
        RestoreKeeps(d.live, d.unrestored, restore[..cy.kill.n], setup, cy, Baseline(site), t);
      }
    }
    if cy.kill.Deploying? && cy.kill.n <= |plan| {
      DeployKeeps(site.live, site.unrestored, plan[..cy.kill.n], setup, cy, t);
    }
  }

  lemma {:induction false} DeployKeeps(live: map<string, Tree>, unrestored: set<string>, targets: seq<string>, setup: Setup, cy: Cycle, t: string)
    requires t !in targets
    ensures LiveOf(DeployAll(live, unrestored, targets, setup, cy).live, t) == LiveOf(live, t)
    decreases |targets|
  {
    hide Version, HasPlaybook;
    if targets != [] {
      var one := DeployOne(live, unrestored, targets[0], setup, cy);
      if one.failed.None? { DeployKeeps(one.live, one.unrestored, targets[1..], setup, cy, t); }
    }
  }

  lemma {:induction false} RestoreKeeps(live: map<string, Tree>, unrestored: set<string>, targets: seq<string>, setup: Setup, cy: Cycle, sha: string, t: string)
    requires t !in targets
    ensures LiveOf(RestoreAll(live, unrestored, targets, setup, cy, sha).live, t) == LiveOf(live, t)
    decreases |targets|
  {
    hide Version, HasPlaybook;
    if targets != [] {
      var one := RestoreOne(live, unrestored, targets[0], setup, cy, sha);
      RestoreKeeps(one.live, one.unrestored, targets[1..], setup, cy, sha, t);
    }
  }

  /** A target the gates hold back is never touched, whatever the diffs, the names and the kills. */
  lemma {:induction false} HeldTargetsStay(site: Site, setup: Setup, cycles: seq<Cycle>, t: string)
    requires !AutoDeployed(setup, t)
    ensures LiveOf(Play(site, setup, cycles).live, t) == LiveOf(site.live, t)
  {
    if cycles != [] {
      hide After, AutoDeployed;
      var less, cy := cycles[..|cycles| - 1], cycles[|cycles| - 1];
      HeldTargetsStay(site, setup, less, t);
      CycleKeepsHeld(Play(site, setup, less), setup, cy, t);
    }
  }

  // ---------- no commit is attempted twice in a row ----------

  /** A commit is held exactly while the last recorded outcome is its failure, and a recorded
      success is the last good commit. */
  predicate Recorded(s: Ctl) {
    && (s.failedSha != "" ==> s.failedSha == s.lastDeploySha && s.lastDeployResult == "rolled_back")
    && (s.lastDeployResult == "ok" ==> s.failedSha == "" && s.lastGoodSha == s.lastDeploySha)
  }

  /** And the last attempt is the recorded one. */
  predicate Consistent(s: Ctl) { Recorded(s) && (s.lastDeploySha != "" ==> Strip(PySpace, s.lastDeploySha) == s.seenSha) }

  /** What one cycle does to the records. */
  lemma RecordsAfter(site: Site, setup: Setup, cy: Cycle)
    ensures var ctl, noted := After(site, setup, cy).ctl, OnAttempt(site.ctl, cy.head);
            || ctl == site.ctl || ctl == OnSuccess(noted, cy.head, cy.now) || ctl == OnFail(noted, cy.head, cy.now)
            || (ctl == noted && !cy.kill.Never?)
  {
    hide PlanOf, RollbackTargets, DeployAll, RestoreAll, Torn, Begun, Names, NeedsDeploy, OnAttempt, OnSuccess, OnFail;
  }

  /** The records agree over every run, and with the last attempt unless cycles were killed. */
  lemma {:induction false} RunsStayConsistent(site: Site, setup: Setup, cycles: seq<Cycle>)
    requires Recorded(site.ctl)
    ensures Recorded(Play(site, setup, cycles).ctl)
    ensures Consistent(site.ctl) && (forall k :: 0 <= k < |cycles| ==> cycles[k].kill.Never?) ==> Consistent(Play(site, setup, cycles).ctl)
  {
    hide After, Strip;
    if cycles != [] {
      var less := cycles[..|cycles| - 1];
      RunsStayConsistent(site, setup, less);
      RecordsAfter(Play(site, setup, less), setup, cycles[|cycles| - 1]);
    }
  }

  /** After an attempt, cycles that still see the same commit change nothing at all. */
  lemma {:induction false} SameHeadIsIdle(site: Site, setup: Setup, cy: Cycle, again: seq<Cycle>)
    requires Attempts(site, cy) && forall k :: 0 <= k < |again| ==> again[k].head == cy.head
    ensures Play(After(site, setup, cy), setup, again) == After(site, setup, cy)
  {
    hide Plan, RollbackTargets, Strip;
    if again != [] {
      var less := again[..|again| - 1];
      assert forall k :: 0 <= k < |less| ==> less[k] == again[k];
      SameHeadIsIdle(site, setup, cy, less);
    }
  }

  /** What an attempt that is not killed comes to. If every planned target that has a playbook
      applies, the commit becomes the last good one; otherwise last-good and the checkout are as
      they were before the attempt, and the commit is held. */
  lemma AttemptOutcome(site: Site, setup: Setup, cy: Cycle)
    requires Attempts(site, cy)
    ensures var after, targets := Finish(site, setup, cy), PlanOf(setup, cy);
            if forall t :: t in targets ==> Goes(setup, cy, t)
            then after.ctl.lastGoodSha == cy.head && after.checkout == cy.head && after.ctl.failedSha == "" && after.ctl.failCount == site.ctl.failCount
            else after.ctl.lastGoodSha == site.ctl.lastGoodSha && after.checkout == Baseline(site)
                 && after.ctl.failedSha == cy.head && after.ctl.failCount == site.ctl.failCount + 1
    ensures var ctl := Finish(site, setup, cy).ctl; ctl.lastDeploySha == cy.head && ctl.lastDeployTs == cy.now
  {
    hide Plan, Version, HasPlaybook, RollbackTargets, Strip, Deploys;
    PlanIsNamed(setup, cy);
    DeployAllSpec(site.live, site.unrestored, PlanOf(setup, cy), setup, cy);
  }

  /** Killed in the deploy loop: the targets deployed so far are at the new commit, the one at
      hand is in any state, all others are as they were; the commit counts as seen, so it is not
      tried again. */
  lemma KilledDeployLeaves(site: Site, setup: Setup, cy: Cycle, n: nat)
    requires Attempts(site, cy) && n <= |PlanOf(setup, cy)| && forall i :: 0 <= i < n ==> Goes(setup, cy, PlanOf(setup, cy)[i])
    ensures var after, targets := KilledDeploying(site, setup, cy, n), PlanOf(setup, cy);
            && (forall i :: 0 <= i < n && HasPlaybook(setup, targets[i], cy.head) ==> LiveOf(after.live, targets[i]) == Version(setup, targets[i], cy.head))
            && (n < |targets| && HasPlaybook(setup, targets[n], cy.head) ==> LiveOf(after.live, targets[n]) == cy.partial(targets[n]))
            && (forall t :: t !in Begun(targets, n) || !HasPlaybook(setup, t, cy.head) ==> LiveOf(after.live, t) == LiveOf(site.live, t))
            && Baseline(after) == (if site.ctl.lastGoodSha == "" then cy.head else Baseline(site))
            && !NeedsDeploy(after.ctl, cy.head)
  {
    hide Version, HasPlaybook, Plan, Strip, Auto, DeployAll, Goes;
    var targets := PlanOf(setup, cy);
    PlanIsNamed(setup, cy);
    var d := DeployAll(site.live, site.unrestored, targets[..n], setup, cy);
    DeployedPrefix(site, setup, cy, targets, n);
    forall t | t !in Begun(targets, n) || !HasPlaybook(setup, t, cy.head)
      ensures LiveOf(Torn(d.live, targets, n, setup, cy.head, cy.partial), t) == LiveOf(site.live, t)
    {
      assert n < |targets| ==> Begun(targets, n) == targets[..n] + [targets[n]];
      assert Untouched(site.live, site.unrestored, d, t);
    }
  }

  lemma DeployedPrefix(site: Site, setup: Setup, cy: Cycle, targets: seq<string>, n: nat)
    requires NoDup(targets) && n <= |targets| && forall i :: 0 <= i < n ==> Goes(setup, cy, targets[i])
    ensures var d := DeployAll(site.live, site.unrestored, targets[..n], setup, cy);
            && d.failed.None?
            && (forall i :: 0 <= i < n && HasPlaybook(setup, targets[i], cy.head) ==> LiveOf(d.live, targets[i]) == Version(setup, targets[i], cy.head))
            && (forall t :: t !in targets[..n] || !HasPlaybook(setup, t, cy.head) ==> Untouched(site.live, site.unrestored, d, t))
  {
    hide Version, HasPlaybook, DeployAll, Attempted;
    var done := targets[..n];
    DeployAllSpec(site.live, site.unrestored, done, setup, cy);
    assert done[..|done|] == done;
    assert forall i :: 0 <= i < n ==> done[i] == targets[i];
  }

  // ---------- which commits are attempted ----------

  /** A green commit is attempted exactly when it is neither the one seen last nor the one held as
      failed; then it is recorded as seen and as the last deploy. Any other cycle changes nothing. */
  lemma AttemptedExactly(site: Site, setup: Setup, cy: Cycle)
    requires Strip(PySpace, cy.head) == cy.head
    ensures var after := Finish(site, setup, cy);
            if cy.head != "" && cy.ciGreen && cy.head != site.ctl.seenSha && cy.head != site.ctl.failedSha
            then after.ctl.seenSha == cy.head && after.ctl.lastDeploySha == cy.head && after.ctl.lastDeployTs == cy.now
            else after == site
  {
    hide Plan, RollbackTargets, Strip, DeployAll, RestoreAll;
  }

  /** After an attempt of one commit, failed or not, any other green commit is attempted. */
  lemma NextCommitIsAttempted(site: Site, setup: Setup, cy: Cycle, next: Cycle)
    requires Attempts(site, cy) && Strip(PySpace, cy.head) == cy.head
    requires next.head != "" && Strip(PySpace, next.head) == next.head && next.ciGreen && next.head != cy.head
    ensures Finish(Finish(site, setup, cy), setup, next).ctl.seenSha == next.head
  {
    hide Plan, RollbackTargets, Strip, DeployAll, RestoreAll, Finish;
    AttemptedExactly(site, setup, cy);
    FailedAfter(site, setup, cy);
    AttemptedExactly(Finish(site, setup, cy), setup, next);
  }

  lemma FailedAfter(site: Site, setup: Setup, cy: Cycle)
    ensures Attempts(site, cy) ==> Finish(site, setup, cy).ctl.failedSha in {"", cy.head}
  {
    hide Plan, RollbackTargets, Strip, DeployAll, RestoreAll;
  }
}
