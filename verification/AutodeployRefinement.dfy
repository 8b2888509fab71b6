/** What is live against what a full deploy of the last good commit would have made live: when an
    incremental deploy with its rollback comes to the same. */
module AutodeployRefinement {
  import opened Text
  import opened Order
  import opened Lists
  import opened AutodeployPlan
  import opened AutodeployRuns

  /** A target that passes the gates. Names whose playbook stands for nothing are none, such as
      those of the playbooks that only verify. */
  predicate Target(setup: Setup, t: string) { AutoDeployed(setup, t) && Implied(Playbook(t), setup.roles) == Some(t) }

  lemma VerifyingIsNoTarget(setup: Setup, name: string)
    requires "verify-" <= name && '/' !in name
    ensures !Target(setup, name)
  {
    var f := Playbook(name);
    assert f[0] == 'a' && f[|f| - 1] == 'l';
    Unspaced(f);
    PlaybookFile(name, setup.roles);
  }

  /** Every target that is not marked is live as a full deploy of the baseline would have it. */
  ghost predicate Refines(site: Site, setup: Setup) {
    forall t :: Target(setup, t) && t !in site.unrestored ==> LiveOf(site.live, t) == Version(setup, t, Baseline(site))
  }

  /** Every path that differs between the two commits is listed. */
  predicate Complete(setup: Setup, changed: seq<string>, old_: string, new_: string) {
    && (forall f :: f in setup.repo(old_) && f !in changed ==> f in setup.repo(new_) && setup.repo(new_)[f] == setup.repo(old_)[f])
    && (forall f :: f in setup.repo(new_) && f !in changed ==> f in setup.repo(old_))
  }

  /** The target is planned if a file that its deploy depends on has changed. */
  predicate CoveredFor(setup: Setup, cy: Cycle, t: string) {
    forall f :: f in cy.changed && Needs(setup, t, f) ==> t in PlanOf(setup, cy)
  }

  ghost predicate Covered(setup: Setup, cy: Cycle) { forall t :: Target(setup, t) ==> CoveredFor(setup, cy, t) }

  /** Each file that the deploy of a target depends on stands for that target. */
  ghost predicate Mapped(setup: Setup) {
    forall t, f :: Target(setup, t) && Needs(setup, t, f) ==> Implied(f, setup.roles) == Some(t)
  }

  lemma MappedCovers(setup: Setup, cy: Cycle)
    requires Mapped(setup)
    ensures Covered(setup, cy)
  {
    hide Implied, Plan, Auto, Needs, Playbook;
    GatesSplitThePlan(cy.changed, setup.roles, setup.allow, setup.deny);
    forall t, f | Target(setup, t) && f in cy.changed && Needs(setup, t, f) ensures t in PlanOf(setup, cy) {
      var i :| 0 <= i < |cy.changed| && cy.changed[i] == f;
      assert Implied(cy.changed[i], setup.roles) == Some(t);
      assert ImpliedByOne(cy.changed, setup.roles, t);
    }
  }

  lemma UnplannedIsUnchanged(setup: Setup, cy: Cycle, old_: string, t: string)
    requires Complete(setup, cy.changed, old_, cy.head) && CoveredFor(setup, cy, t) && t !in PlanOf(setup, cy)
    ensures Version(setup, t, old_) == Version(setup, t, cy.head)
  {
    hide PlanOf, Playbook;
    assert Needs(setup, t, Playbook(t));
    assert forall f :: Needs(setup, t, f) ==> f !in cy.changed;
  }

  lemma NothingWithoutPlaybook(setup: Setup, t: string, sha: string)
    ensures Version(setup, t, sha) == map[] <==> !HasPlaybook(setup, t, sha)
  {
    hide Playbook;
    assert Needs(setup, t, Playbook(t));
    if HasPlaybook(setup, t, sha) { assert Playbook(t) in Version(setup, t, sha); }
  }

  // ---------- exactly when a finished attempt refines ----------

  ghost predicate Green(setup: Setup, cy: Cycle) { forall t :: t in PlanOf(setup, cy) ==> Goes(setup, cy, t) }

  /** The target is deployed by a cycle that succeeds. */
  predicate Deployed(setup: Setup, cy: Cycle, t: string) { t in PlanOf(setup, cy) && HasPlaybook(setup, t, cy.head) }

  lemma GreenLeaves(site: Site, setup: Setup, cy: Cycle, t: string)
    requires Refines(site, setup) && Attempts(site, cy) && Green(setup, cy) && Target(setup, t)
    ensures var after := Finish(site, setup, cy);
            && Baseline(after) == cy.head
            && (t in after.unrestored <==> t in site.unrestored && !Deployed(setup, cy, t))
            && (t !in after.unrestored ==>
                  LiveOf(after.live, t) == Version(setup, t, if Deployed(setup, cy, t) then cy.head else Baseline(site)))
  {
    hide Version, HasPlaybook, Plan, Strip, Target, Goes, RollbackTargets;
    var plan := PlanOf(setup, cy);
    PlanIsNamed(setup, cy);
    DeployAllSpec(site.live, site.unrestored, plan, setup, cy);
    var d := DeployAll(site.live, site.unrestored, plan, setup, cy);
    assert cy.head != "" by { StripNothing(); }
    assert plan[..|plan|] == plan;
    if Deployed(setup, cy, t) {
      var i :| 0 <= i < |plan| && plan[i] == t;
      assert cy.applyOk(t) by { Applies(setup, cy, t); }
      assert LiveOf(d.live, plan[i]) == LeftBy(setup, cy, plan, i);
    } else {
      assert Untouched(site.live, site.unrestored, d, t);
    }
  }

  lemma Applies(setup: Setup, cy: Cycle, t: string)
    requires Goes(setup, cy, t) && HasPlaybook(setup, t, cy.head)
    ensures cy.applyOk(t)
  {}

  /** After an attempt that succeeds, the targets are as a full deploy of the new commit would have
      them exactly when that changes nothing about the targets which were not deployed. */
  lemma GreenRefinesExactly(site: Site, setup: Setup, cy: Cycle)
    requires Refines(site, setup) && Attempts(site, cy) && Green(setup, cy)
    ensures Refines(Finish(site, setup, cy), setup) <==>
              forall t :: Target(setup, t) && t !in site.unrestored && !Deployed(setup, cy, t) ==>
                Version(setup, t, Baseline(site)) == Version(setup, t, cy.head)
  {
    hide Version, HasPlaybook, PlanOf, Target, Finish, Goes, Deployed;
    var after := Finish(site, setup, cy);
    forall t | Target(setup, t)
      ensures Baseline(after) == cy.head
      ensures t in after.unrestored <==> t in site.unrestored && !Deployed(setup, cy, t)
      ensures t !in after.unrestored ==> LiveOf(after.live, t) == Version(setup, t, if Deployed(setup, cy, t) then cy.head else Baseline(site))
    {
      GreenLeaves(site, setup, cy, t);
    }
    assert Baseline(after) == cy.head by { AttemptOutcome(site, setup, cy); HeadNamed(site, cy); }
  }

  lemma HeadNamed(site: Site, cy: Cycle)
    requires Attempts(site, cy)
    ensures cy.head != ""
  {
    hide Strip;
    StripNothing();
  }

  /** A restore takes the target back to the baseline, or marks it. */
  predicate Restored(setup: Setup, plan: seq<string>, failed: string, base: string, t: string) {
    t in RollbackTargets(plan, failed) && HasPlaybook(setup, t, base)
  }

  /** After a failed attempt the targets are as the last good commit would have them exactly when
      all that was deployed and not restored happens to be so, or is still marked. */
  lemma FailedAttemptRefinesExactly(site: Site, setup: Setup, cy: Cycle)
    requires Refines(site, setup) && Attempts(site, cy) && !Green(setup, cy)
    ensures var plan, base := PlanOf(setup, cy), Baseline(site);
            var k := Attempted(plan, setup, cy);
            && k > 0
            && (Refines(Finish(site, setup, cy), setup) <==>
                  forall i :: 0 <= i < k && Target(setup, plan[i]) && HasPlaybook(setup, plan[i], cy.head) && !Restored(setup, plan, plan[k - 1], base, plan[i]) ==>
                    (plan[i] in site.unrestored && !cy.applyOk(plan[i])) || LeftBy(setup, cy, plan, i) == Version(setup, plan[i], base))
  {
    hide Version, HasPlaybook, Plan, RollbackTargets, Strip, Target, LeftBy;
    var plan, base := PlanOf(setup, cy), Baseline(site);
    PlanIsNamed(setup, cy);
    DeployAllSpec(site.live, site.unrestored, plan, setup, cy);
    var d, k := DeployAll(site.live, site.unrestored, plan, setup, cy), Attempted(plan, setup, cy);
    var restore := RollbackTargets(plan, plan[k - 1]);
    RestoredIsPlanned(plan, plan[k - 1]);
    RestoreAllSpec(d.live, d.unrestored, restore, setup, cy, base);
    var r, after := RestoreAll(d.live, d.unrestored, restore, setup, cy, base), Finish(site, setup, cy);
    assert after.live == r.live && after.unrestored == r.unrestored && Baseline(after) == base;
    forall i | 0 <= i < k && HasPlaybook(setup, plan[i], cy.head) && !Restored(setup, plan, plan[k - 1], base, plan[i])
      ensures LiveOf(after.live, plan[i]) == LeftBy(setup, cy, plan, i)
      ensures plan[i] in after.unrestored <==> plan[i] in site.unrestored && !cy.applyOk(plan[i])
    {
      assert Untouched(d.live, d.unrestored, r, plan[i]);
    }
    forall t | Target(setup, t) && t !in after.unrestored
        && (Restored(setup, plan, plan[k - 1], base, t) || t !in plan[..k] || !HasPlaybook(setup, t, cy.head))
      ensures LiveOf(after.live, t) == Version(setup, t, base)
    {
      if !Restored(setup, plan, plan[k - 1], base, t) {
        assert Untouched(d.live, d.unrestored, r, t) && Untouched(site.live, site.unrestored, d, t);
      }
    }
    forall i | 0 <= i < k ensures plan[i] in plan[..k] { assert plan[..k][i] == plan[i]; }
  }

  // ---------- one cycle ----------

  /** No planned target loses its playbook. */
  predicate NoneLost(setup: Setup, plan: seq<string>, base: string, head: string) {
    forall t :: t in plan && Target(setup, t) && HasPlaybook(setup, t, base) ==> HasPlaybook(setup, t, head)
  }

  /** A failure at place `k` can be undone: the failed name, trimmed, is not attempted before it,
      and everything deployed so far has a playbook to restore it with. */
  predicate Restorable(setup: Setup, plan: seq<string>, k: nat, base: string, head: string)
    requires k < |plan|
  {
    && Strip(PySpace, plan[k]) !in plan[..k]
    && forall i :: 0 <= i <= k && Target(setup, plan[i]) && HasPlaybook(setup, plan[i], head) ==> HasPlaybook(setup, plan[i], base)
  }

  /** The outcome is one that the rollback can keep up with. */
  ghost predicate Sound(site: Site, setup: Setup, cy: Cycle) {
    var plan, base := PlanOf(setup, cy), Baseline(site);
    var k := Attempted(plan, setup, cy);
    if Green(setup, cy) then NoneLost(setup, plan, base, cy.head) else k > 0 && Restorable(setup, plan, k - 1, base, cy.head)
  }

  lemma AttemptedRestored(plan: seq<string>, k: nat)
    requires NoDup(plan) && "" !in plan && k < |plan| && Strip(PySpace, plan[k]) !in plan[..k]
    ensures forall t :: t in plan[..k + 1] ==> t in RollbackTargets(plan, plan[k])
  {
    hide RollbackTargets, Strip;
    RestoreCoversExactly(plan, k);
    assert forall i :: 0 <= i <= k ==> plan[i] != "" by { assert forall i :: 0 <= i < |plan| ==> plan[i] in plan; }
    assert forall i :: 0 <= i <= k ==> plan[i] in RollbackTargets(plan, plan[k]);
  }

  lemma GreenRefines(site: Site, setup: Setup, cy: Cycle)
    requires Refines(site, setup) && Complete(setup, cy.changed, Baseline(site), cy.head) && Covered(setup, cy)
    requires Attempts(site, cy) && Green(setup, cy) && NoneLost(setup, PlanOf(setup, cy), Baseline(site), cy.head)
    ensures Refines(Finish(site, setup, cy), setup)
  {
    hide Version, HasPlaybook, PlanOf, Complete, Target, CoveredFor, Finish, Refines, Green, NeedsDeploy;
    var plan, base := PlanOf(setup, cy), Baseline(site);
    GreenRefinesExactly(site, setup, cy);
    forall t | Target(setup, t) && !Deployed(setup, cy, t) ensures Version(setup, t, base) == Version(setup, t, cy.head) {
      if t in plan {
        NothingWithoutPlaybook(setup, t, base);
        NothingWithoutPlaybook(setup, t, cy.head);
      } else {
        UnplannedIsUnchanged(setup, cy, base, t);
      }
    }
  }

  lemma RestorableRefines(site: Site, setup: Setup, cy: Cycle)
    requires Refines(site, setup) && Attempts(site, cy) && !Green(setup, cy)
    requires var plan := PlanOf(setup, cy);
             Attempted(plan, setup, cy) > 0 && Restorable(setup, plan, Attempted(plan, setup, cy) - 1, Baseline(site), cy.head)
    ensures Refines(Finish(site, setup, cy), setup)
  {
    hide Version, HasPlaybook, PlanOf, RollbackTargets, Strip, Target, Finish, Refines, Green, LeftBy, Attempted, NeedsDeploy;
    var plan, base := PlanOf(setup, cy), Baseline(site);
    var k := Attempted(plan, setup, cy);
    PlanIsNamed(setup, cy);
    FailedAttemptRefinesExactly(site, setup, cy);
    AttemptedRestorable(setup, plan, k - 1, base, cy.head);
    forall i | 0 <= i < k ensures plan[i] in plan[..k] { assert plan[i] == plan[..k][i]; }
  }

  /** Everything deployed up to a failure that can be undone is restored. */
  lemma AttemptedRestorable(setup: Setup, plan: seq<string>, k: nat, base: string, head: string)
    requires NoDup(plan) && "" !in plan && k < |plan| && Restorable(setup, plan, k, base, head)
    ensures forall t :: t in plan[..k + 1] && Target(setup, t) && HasPlaybook(setup, t, head) ==> Restored(setup, plan, plan[k], base, t)
  {
    hide HasPlaybook, RollbackTargets, Strip;
    AttemptedRestored(plan, k);
    forall t | t in plan[..k + 1] && Target(setup, t) && HasPlaybook(setup, t, head) ensures HasPlaybook(setup, t, base) {
      var i :| 0 <= i < k + 1 && plan[..k + 1][i] == t;
      assert plan[i] == t;
    }
  }

  lemma FinishRefines(site: Site, setup: Setup, cy: Cycle)
    requires Refines(site, setup) && Complete(setup, cy.changed, Baseline(site), cy.head) && Covered(setup, cy) && Sound(site, setup, cy)
    ensures Refines(Finish(site, setup, cy), setup)
  {
    hide PlanOf, Complete, Covered, Refines, Green, NoneLost, Restorable, NeedsDeploy;
    if Attempts(site, cy) {
      if Green(setup, cy) { GreenRefines(site, setup, cy); } else { RestorableRefines(site, setup, cy); }
    }
  }

  lemma KilledDeployRefines(site: Site, setup: Setup, cy: Cycle, n: nat)
    requires Refines(site, setup) && Complete(setup, cy.changed, Baseline(site), cy.head) && Covered(setup, cy) && Sound(site, setup, cy) && Attempts(site, cy)
    ensures Refines(KilledDeploying(site, setup, cy, n), setup)
  {
    hide Version, HasPlaybook, Plan, Strip, Complete, Target, CoveredFor, Finish, DeployAll, Sound, Deploys, NeedsDeploy;
    var plan, base := PlanOf(setup, cy), Baseline(site);
    PlanIsNamed(setup, cy);
    FinishRefines(site, setup, cy);
    if n <= |plan| && DeployAll(site.live, site.unrestored, plan[..n], setup, cy).failed.None? {
      var done := plan[..n];
      DeployAllSpec(site.live, site.unrestored, done, setup, cy);
      var d, after := DeployAll(site.live, site.unrestored, done, setup, cy), KilledDeploying(site, setup, cy, n);
      assert forall i :: 0 <= i < n ==> plan[i] == done[i] && done[i] in done;
      assert plan == done + plan[n..];
      KilledDeployLeaves(site, setup, cy, n);
      forall t | Target(setup, t) && t !in after.unrestored ensures LiveOf(after.live, t) == Version(setup, t, Baseline(after)) {
        if t !in done { KeptMarks(site, setup, cy, done, t); }
        if t !in plan {
          UnplannedIsUnchanged(setup, cy, base, t);
        } else if site.ctl.lastGoodSha == "" {
          assert t in done && HasPlaybook(setup, t, cy.head);
        } else {
          assert t !in Begun(plan, n);
        }
      }
    }
  }

  /** A deploy loop does not mark anything, and what it does not deploy keeps its mark. */
  lemma KeptMarks(site: Site, setup: Setup, cy: Cycle, done: seq<string>, t: string)
    requires NoDup(done) && t !in done
    ensures t in DeployAll(site.live, site.unrestored, done, setup, cy).unrestored <==> t in site.unrestored
  {
    hide DeployAll, HasPlaybook, Attempted;
    DeployAllSpec(site.live, site.unrestored, done, setup, cy);
    assert Untouched(site.live, site.unrestored, DeployAll(site.live, site.unrestored, done, setup, cy), t);
  }

  lemma KilledRestoreRefines(site: Site, setup: Setup, cy: Cycle, n: nat)
    requires Refines(site, setup) && Complete(setup, cy.changed, Baseline(site), cy.head) && Covered(setup, cy) && Sound(site, setup, cy) && Attempts(site, cy)
    ensures Refines(KilledRestoring(site, setup, cy, n), setup)
  {
    hide Version, HasPlaybook, Plan, RollbackTargets, Strip, Complete, Target, Covered, Finish, DeployAll, RestoreAll, NeedsDeploy, LeftBy;
    var plan, base := PlanOf(setup, cy), Baseline(site);
    PlanIsNamed(setup, cy);
    FinishRefines(site, setup, cy);
    DeployAllSpec(site.live, site.unrestored, plan, setup, cy);
    var d, k := DeployAll(site.live, site.unrestored, plan, setup, cy), Attempted(plan, setup, cy);
    if d.failed.Some? && n <= |RollbackTargets(plan, d.failed.value)| {
      var restore := RollbackTargets(plan, d.failed.value);
      RestoredIsPlanned(plan, d.failed.value);
      AttemptedRestorable(setup, plan, k - 1, base, cy.head);
      var done := restore[..n];
      RestoreAllSpec(d.live, d.unrestored, done, setup, cy, base);
      var r, after := RestoreAll(d.live, d.unrestored, done, setup, cy, base), KilledRestoring(site, setup, cy, n);
      assert restore == done + restore[n..];
      forall t | Target(setup, t) && t !in after.unrestored ensures LiveOf(after.live, t) == Version(setup, t, base) {
        assert t !in restore[n..];
        assert LiveOf(after.live, t) == LiveOf(r.live, t);
        if t !in done || !HasPlaybook(setup, t, base) {
          assert Untouched(d.live, d.unrestored, r, t);
          assert Untouched(site.live, site.unrestored, d, t);
        }
      }
    }
  }

  /** One cycle, finished or killed, keeps the refinement. */
  lemma CycleRefines(site: Site, setup: Setup, cy: Cycle)
    requires Refines(site, setup) && Complete(setup, cy.changed, Baseline(site), cy.head) && Covered(setup, cy) && Sound(site, setup, cy)
    ensures Refines(After(site, setup, cy), setup)
  {
    hide Version, PlanOf, Complete, Target, Covered, Sound, Finish, KilledDeploying, KilledRestoring;
    if Attempts(site, cy) {
      match cy.kill
      case Never => FinishRefines(site, setup, cy);
      case Noted =>
      case Deploying(n) => KilledDeployRefines(site, setup, cy, n);
      case Restoring(n) => KilledRestoreRefines(site, setup, cy, n);
    }
  }

  // ---------- every run ----------

  /** Before the last of these cycles: its diff is complete, it plans every target that depends on
      a changed file, and its outcome is sound. */
  ghost predicate LastDiffed(site: Site, setup: Setup, cycles: seq<Cycle>)
    requires cycles != []
  {
    var cy, before := cycles[|cycles| - 1], Play(site, setup, cycles[..|cycles| - 1]);
    Complete(setup, cy.changed, Baseline(before), cy.head) && Covered(setup, cy) && Sound(before, setup, cy)
  }

  ghost predicate Diffed(site: Site, setup: Setup, cycles: seq<Cycle>) {
    forall k :: 0 < k <= |cycles| ==> LastDiffed(site, setup, cycles[..k])
  }

  lemma DiffedLess(site: Site, setup: Setup, cycles: seq<Cycle>)
    requires Diffed(site, setup, cycles) && cycles != []
    ensures Diffed(site, setup, cycles[..|cycles| - 1]) && LastDiffed(site, setup, cycles)
  {
    hide LastDiffed;
    var less := cycles[..|cycles| - 1];
    forall k | 0 < k <= |less| ensures LastDiffed(site, setup, less[..k]) { assert less[..k] == cycles[..k]; }
    assert cycles[..|cycles|] == cycles;
  }

  /** Incremental deploys with rollback refine full deploys: over every run of cycles, finished or
      killed, every target that is not marked is live exactly as a full deploy of the last good
      commit would leave it. */
  lemma {:induction false} IncrementalRefinesFull(site: Site, setup: Setup, cycles: seq<Cycle>)
    requires Refines(site, setup) && Diffed(site, setup, cycles)
    ensures Refines(Play(site, setup, cycles), setup)
  {
    if cycles != [] {
      hide Complete, Covered, Sound, Refines, After;
      var less := cycles[..|cycles| - 1];
      DiffedLess(site, setup, cycles);
      IncrementalRefinesFull(site, setup, less);
      CycleRefines(Play(site, setup, less), setup, cycles[|cycles| - 1]);
    }
  }

  /** A successful attempt makes the new commit live on a target that it plans if it must, and
      whose playbook it keeps. */
  lemma GreenCommitIsLive(site: Site, setup: Setup, cy: Cycle, t: string)
    requires Refines(site, setup) && Complete(setup, cy.changed, Baseline(site), cy.head)
    requires Attempts(site, cy) && Green(setup, cy) && Target(setup, t) && t !in site.unrestored
    requires CoveredFor(setup, cy, t) && NoneLost(setup, [t], Baseline(site), cy.head)
    ensures LiveOf(Finish(site, setup, cy).live, t) == Version(setup, t, cy.head)
  {
    hide Version, HasPlaybook, PlanOf, Complete, Target, CoveredFor, Finish, Refines, Goes;
    GreenLeaves(site, setup, cy, t);
    if !Deployed(setup, cy, t) {
      if t in PlanOf(setup, cy) {
        assert t in [t];
        NothingWithoutPlaybook(setup, t, Baseline(site));
        NothingWithoutPlaybook(setup, t, cy.head);
      } else {
        UnplannedIsUnchanged(setup, cy, Baseline(site), t);
      }
    }
  }

  // ---------- exactly when every outcome of an attempt refines ----------

  /** The same commit and diff, whatever applies, whatever a failed deploy leaves. */
  ghost predicate SameCommit(a: Cycle, b: Cycle) { a.head == b.head && a.changed == b.changed && a.ciGreen && b.ciGreen }

  /** No planned target gains or loses its playbook, and no planned name that can fail is, trimmed,
      planned before: unless it is the name of no target, and what was deployed since does not
      change. */
  predicate Safe(setup: Setup, plan: seq<string>, base: string, head: string) {
    forall k :: 0 <= k < |plan| ==> SafeAt(setup, plan, k, base, head)
  }

  predicate SafeAt(setup: Setup, plan: seq<string>, k: nat, base: string, head: string)
    requires k < |plan|
  {
    && (Target(setup, plan[k]) ==> (HasPlaybook(setup, plan[k], base) <==> HasPlaybook(setup, plan[k], head)))
    && (HasPlaybook(setup, plan[k], head) && Strip(PySpace, plan[k]) in plan[..k] ==>
          !Target(setup, plan[k]) && forall i :: 0 <= i < k ==> Harmless(setup, plan, i, plan[k], base, head))
  }

  /** When the restore set of `failed` lacks place `i`, nothing is lost. */
  predicate Harmless(setup: Setup, plan: seq<string>, i: nat, failed: string, base: string, head: string)
    requires i < |plan|
  {
    Target(setup, plan[i]) && HasPlaybook(setup, plan[i], head) && plan[i] !in RollbackTargets(plan, failed) ==>
      Version(setup, plan[i], base) == Version(setup, plan[i], head)
  }

  /** The commit changes nothing about the targets that it does not plan. */
  ghost predicate OthersSame(site: Site, setup: Setup, cy: Cycle) {
    forall t :: Target(setup, t) && t !in site.unrestored && t !in PlanOf(setup, cy) ==>
      Version(setup, t, Baseline(site)) == Version(setup, t, cy.head)
  }

  /** A commit can be attempted safely, whatever its deploys come to, exactly when it is safe in
      this sense and plans every target that it changes. */
  lemma SafeToAttemptExactly(site: Site, setup: Setup, cy: Cycle)
    requires Refines(site, setup) && Attempts(site, cy)
    requires forall t :: t in PlanOf(setup, cy) ==> t !in site.unrestored
    ensures (forall other: Cycle :: SameCommit(cy, other) ==> Refines(Finish(site, setup, other), setup)) <==>
              Safe(setup, PlanOf(setup, cy), Baseline(site), cy.head) && OthersSame(site, setup, cy)
  {
    hide Version, HasPlaybook, Plan, Strip, Target, Refines, Finish, Safe, NeedsDeploy;
    if Safe(setup, PlanOf(setup, cy), Baseline(site), cy.head) && OthersSame(site, setup, cy) {
      forall other: Cycle | SameCommit(cy, other) ensures Refines(Finish(site, setup, other), setup) {
        assert PlanOf(setup, other) == PlanOf(setup, cy);
        SafeOutcome(site, setup, other);
      }
    } else {
      var other := UnsafeOutcome(site, setup, cy);
    }
  }

  /** A failure at place `k` of a safe plan is undone. */
  lemma SafeFailure(setup: Setup, cy: Cycle, plan: seq<string>, k: nat, base: string)
    requires NoDup(plan) && "" !in plan && k < |plan| && Safe(setup, plan, base, cy.head)
    requires HasPlaybook(setup, plan[k], cy.head) && forall i :: 0 <= i < k ==> Goes(setup, cy, plan[i])
    ensures forall i :: 0 <= i < k + 1 && Target(setup, plan[i]) && HasPlaybook(setup, plan[i], cy.head) && !Restored(setup, plan, plan[k], base, plan[i]) ==>
              LeftBy(setup, cy, plan, i) == Version(setup, plan[i], base)
  {
    hide Version, HasPlaybook, RollbackTargets, Strip, Target;
    forall i | 0 <= i < |plan| && Target(setup, plan[i]) && HasPlaybook(setup, plan[i], cy.head) ensures HasPlaybook(setup, plan[i], base) {
      assert SafeAt(setup, plan, i, base, cy.head);
    }
    assert SafeAt(setup, plan, k, base, cy.head);
    if Strip(PySpace, plan[k]) !in plan[..k] {
      AttemptedRestored(plan, k);
      forall i | 0 <= i < k + 1 ensures plan[i] in RollbackTargets(plan, plan[k]) { assert plan[..k + 1][i] == plan[i]; }
    } else {
      forall i | 0 <= i < k && Target(setup, plan[i]) && HasPlaybook(setup, plan[i], cy.head) && !Restored(setup, plan, plan[k], base, plan[i])
        ensures LeftBy(setup, cy, plan, i) == Version(setup, plan[i], base)
      {
        assert Harmless(setup, plan, i, plan[k], base, cy.head) && Goes(setup, cy, plan[i]);
      }
    }
  }

  lemma SafeOutcome(site: Site, setup: Setup, cy: Cycle)
    requires Refines(site, setup) && Attempts(site, cy)
    requires Safe(setup, PlanOf(setup, cy), Baseline(site), cy.head) && OthersSame(site, setup, cy)
    ensures Refines(Finish(site, setup, cy), setup)
  {
    hide Version, HasPlaybook, PlanOf, RollbackTargets, Strip, Target, Refines, Finish, NeedsDeploy, LeftBy;
    var plan, base := PlanOf(setup, cy), Baseline(site);
    PlanIsNamed(setup, cy);
    if Green(setup, cy) {
      GreenRefinesExactly(site, setup, cy);
      forall t | t in plan && Target(setup, t) && !Deployed(setup, cy, t) ensures Version(setup, t, base) == Version(setup, t, cy.head) {
        var k :| 0 <= k < |plan| && plan[k] == t;
        assert SafeAt(setup, plan, k, base, cy.head);
        NothingWithoutPlaybook(setup, t, base);
        NothingWithoutPlaybook(setup, t, cy.head);
      }
    } else {
      DeployAllOutcome(site.live, site.unrestored, plan, setup, cy);
      FailedAttemptRefinesExactly(site, setup, cy);
      SafeFailure(setup, cy, plan, Attempted(plan, setup, cy) - 1, base);
    }
  }

  /** One deploy fails: of a target that has no playbook to restore it, or of a clashing name. Else
      all succeed, when the commit drops a playbook or changes what it does not plan. */
  lemma UnsafeOutcome(site: Site, setup: Setup, cy: Cycle) returns (other: Cycle)
    requires Refines(site, setup) && Attempts(site, cy)
    requires forall t :: t in PlanOf(setup, cy) ==> t !in site.unrestored
    requires !Safe(setup, PlanOf(setup, cy), Baseline(site), cy.head) || !OthersSame(site, setup, cy)
    ensures SameCommit(cy, other) && !Refines(Finish(site, setup, other), setup)
  {
    hide Version, HasPlaybook, Plan, Strip, Target, Refines, Finish, NeedsDeploy;
    var plan, base := PlanOf(setup, cy), Baseline(site);
    PlanIsNamed(setup, cy);
    if k :| 0 <= k < |plan| && !SafeAt(setup, plan, k, base, cy.head) && HasPlaybook(setup, plan[k], cy.head) {
      other := FailingAt(site, setup, cy, k);
    } else {
      other := cy.(applyOk := _ => true);
      assert PlanOf(setup, other) == plan;
      GreenRefinesExactly(site, setup, other);
      if k :| 0 <= k < |plan| && !SafeAt(setup, plan, k, base, cy.head) {
        assert plan[k] in plan && !Deployed(setup, other, plan[k]);
        NothingWithoutPlaybook(setup, plan[k], base);
        NothingWithoutPlaybook(setup, plan[k], cy.head);
      } else {
        var t :| Target(setup, t) && t !in site.unrestored && t !in plan && Version(setup, t, base) != Version(setup, t, cy.head);
        assert !Deployed(setup, other, t);
      }
    }
  }

  lemma FailingAt(site: Site, setup: Setup, cy: Cycle, k: nat) returns (other: Cycle)
    requires Refines(site, setup) && Attempts(site, cy)
    requires forall t :: t in PlanOf(setup, cy) ==> t !in site.unrestored
    requires k < |PlanOf(setup, cy)|
    requires !SafeAt(setup, PlanOf(setup, cy), k, Baseline(site), cy.head) && HasPlaybook(setup, PlanOf(setup, cy)[k], cy.head)
    ensures SameCommit(cy, other) && !Refines(Finish(site, setup, other), setup)
  {
    hide Version, HasPlaybook, Plan, RollbackTargets, Strip, Target, Refines, Finish, NeedsDeploy;
    var plan, base := PlanOf(setup, cy), Baseline(site);
    var wrong := OtherTree(Version(setup, plan[k], base));
    other := cy.(applyOk := t => t != plan[k], partial := _ => wrong);
    PlanIsNamed(setup, cy);
    assert PlanOf(setup, other) == plan;
    assert plan[k] in plan && !Goes(setup, other, plan[k]);
    FailsAt(plan, setup, other, k);
    FailedAttemptRefinesExactly(site, setup, other);
    var i := LostAt(setup, plan, k, base, cy.head);
    assert plan[i] in plan;
    assert LeftBy(setup, other, plan, i) == if i == k then wrong else Version(setup, plan[i], cy.head);
  }

  /** What a failure at an unsafe place leaves unrestored. */
  lemma LostAt(setup: Setup, plan: seq<string>, k: nat, base: string, head: string) returns (i: nat)
    requires NoDup(plan) && "" !in plan && k < |plan| && !SafeAt(setup, plan, k, base, head) && HasPlaybook(setup, plan[k], head)
    ensures i <= k && Target(setup, plan[i]) && HasPlaybook(setup, plan[i], head) && !Restored(setup, plan, plan[k], base, plan[i])
    ensures i < k ==> plan[i] != plan[k] && Version(setup, plan[i], base) != Version(setup, plan[i], head)
  {
    hide Version, HasPlaybook, RollbackTargets, Strip, Target;
    if Strip(PySpace, plan[k]) in plan[..k] { FailedIsNotRestored(plan, k); }
    if Target(setup, plan[k]) {
      i := k;
    } else {
      i :| 0 <= i < k && !Harmless(setup, plan, i, plan[k], base, head);
    }
  }

  lemma FailsAt(plan: seq<string>, setup: Setup, cy: Cycle, k: nat)
    requires NoDup(plan) && k < |plan| && !Goes(setup, cy, plan[k]) && forall t :: t in plan && t != plan[k] ==> Goes(setup, cy, t)
    ensures Attempted(plan, setup, cy) == k + 1
  {
    hide Goes;
    if k > 0 {
      assert plan[0] in plan && plan[0] != plan[k];
      FailsAt(plan[1..], setup, cy, k - 1);
    }
  }

  lemma FailedIsNotRestored(plan: seq<string>, k: nat)
    requires NoDup(plan) && "" !in plan && k < |plan| && Strip(PySpace, plan[k]) in plan[..k]
    ensures plan[k] !in RollbackTargets(plan, plan[k])
  {
    hide Strip, RollbackTargets;
    var failed := Strip(PySpace, plan[k]);
    assert failed in plan && failed != "";
    RestoreSet(plan, plan[k]);
    IndexOfSpec(plan, failed);
    var p :| 0 <= p < k && plan[..k][p] == failed;
    IndexInPrefix(plan, failed, p);
    assert plan[k] !in plan[..p + 1];
    FilterIn(Named, plan[..p + 1], plan[k]);
  }

  function OtherTree(tree: Tree): (other: Tree)
    ensures other != tree
  {
    var one: Tree := map["" := ""];
    assert "" in one;
    if tree == map[] then one else map[]
  }

  // ---------- exactly when every commit refines ----------

  /** From a refining site, a cycle with a complete diff and a sound outcome ends in one. */
  ghost predicate KeepsRefining(setup: Setup, site: Site, cy: Cycle) {
    Refines(site, setup) && Complete(setup, cy.changed, Baseline(site), cy.head) && Sound(site, setup, cy) ==> Refines(After(site, setup, cy), setup)
  }

  /** The refinement holds for every repository exactly when each file that the deploy of a target
      depends on stands for that target. */
  lemma EveryCommitRefinesExactly(setup: Setup)
    ensures (forall repo: string -> Tree, site: Site, cy: Cycle :: KeepsRefining(setup.(repo := repo), site, cy)) <==> Mapped(setup)
  {
    hide Target, Implied, Needs, After, Refines, Complete, Sound, KeepsRefining;
    if Mapped(setup) {
      forall repo: string -> Tree, site: Site, cy: Cycle ensures KeepsRefining(setup.(repo := repo), site, cy) {
        MappedRefines(setup, setup.(repo := repo), site, cy);
      }
    } else {
      var t, f :| Target(setup, t) && Needs(setup, t, f) && Implied(f, setup.roles) != Some(t);
      UnmappedBreaks(setup, t, f);
      BreaksSome(setup, t, f);
    }
  }

  lemma MappedRefines(setup: Setup, other: Setup, site: Site, cy: Cycle)
    requires Mapped(setup) && other == setup.(repo := other.repo)
    ensures KeepsRefining(other, site, cy)
  {
    hide Implied, After, Refines, Complete, Sound;
    assert Mapped(other) by {
      forall t, f | Target(other, t) && Needs(other, t, f) ensures Implied(f, other.roles) == Some(t) {
        assert Target(setup, t) && Needs(setup, t, f);
      }
    }
    MappedCovers(other, cy);
    if Refines(site, other) && Complete(other, cy.changed, Baseline(site), cy.head) && Sound(site, other, cy) { CycleRefines(site, other, cy); }
  }

  lemma BreaksSome(setup: Setup, t: string, f: string)
    requires Breaks(setup, t, f)
    ensures exists repo: string -> Tree, site: Site, cy: Cycle :: !KeepsRefining(setup.(repo := repo), site, cy)
  {
    hide Playbook, Refines, Sound, Complete, Finish, NeedsDeploy, Adding;
    var s := Adding(setup, t, f);
    SameRules(setup, t, f);
    assert !KeepsRefining(setup.(repo := s.repo), HostOf(s, t), Adoption(f));
  }

  const OLD := "old"
  const NEW := "new"

  /** Two commits: the new one adds a file; and a host that has the old one live. */
  function Adding(setup: Setup, t: string, f: string): Setup {
    setup.(repo := sha => if sha == NEW then map[Playbook(t) := "", f := ""] else map[Playbook(t) := ""] - {f})
  }

  function HostOf(setup: Setup, t: string): Site {
    Site(Ctl("", "", OLD, OLD, 0, "ok", 0), OLD, map[t := Version(setup, t, OLD)], {})
  }

  function Adoption(f: string): Cycle {
    Cycle(NEW, true, [f], 0, _ => true, _ => map[], _ => true, _ => map[], Never)
  }

  lemma AddedFiles(setup: Setup, t: string, f: string)
    ensures var s, p := Adding(setup, t, f), Playbook(t);
            && (forall g :: g in s.repo(OLD) <==> g == p && g != f) && (forall g :: g in s.repo(OLD) ==> s.repo(OLD)[g] == "")
            && (forall g :: g in s.repo(NEW) <==> g == p || g == f) && (forall g :: g in s.repo(NEW) ==> s.repo(NEW)[g] == "")
  {
    hide Playbook;
    assert OLD[0] != NEW[0];
  }

  lemma PlaybookTells(t: string, u: string)
    requires Playbook(t) == Playbook(u)
    ensures t == u
  {
    var k := |"ansible/playbooks/"|;
    assert Playbook(t)[k..] == t + ".yml" && Playbook(u)[k..] == u + ".yml";
    assert |t| == |u|;
    assert (t + ".yml")[..|t|] == t && (u + ".yml")[..|u|] == u;
  }

  lemma OldIsLive(setup: Setup, t: string, f: string)
    ensures Refines(HostOf(Adding(setup, t, f), t), Adding(setup, t, f))
  {
    hide Playbook, Needs, Target;
    var s := Adding(setup, t, f);
    AddedFiles(setup, t, f);
    forall u | u != t ensures Version(s, u, OLD) == map[] {
      if Playbook(u) in s.repo(OLD) { PlaybookTells(t, u); }
    }
  }

  lemma AdoptionIsSound(setup: Setup, t: string, f: string)
    ensures var s, cy := Adding(setup, t, f), Adoption(f);
            var site := HostOf(s, t);
            Attempts(site, cy) && Green(s, cy) && Complete(s, cy.changed, Baseline(site), cy.head) && Sound(site, s, cy)
  {
    hide Plan, Playbook, Adding, Version;
    AddedFiles(setup, t, f);
    NewIsTrimmed();
    assert OLD[0] != NEW[0];
  }

  lemma NewIsTrimmed()
    ensures Strip(PySpace, NEW) == NEW
  {}

  lemma AdoptionMisses(setup: Setup, t: string, f: string)
    requires Needs(setup, t, f) && Implied(f, setup.roles) != Some(t)
    ensures var s := Adding(setup, t, f); t !in PlanOf(s, Adoption(f)) && Version(s, t, OLD) != Version(s, t, NEW)
  {
    hide Implied, Plan, Auto, Version, Needs, Adding;
    var s := Adding(setup, t, f);
    SameRules(setup, t, f);
    VersionsDiffer(setup, t, f);
    GatesSplitThePlan([f], s.roles, s.allow, s.deny);
    assert !ImpliedByOne([f], s.roles, t);
  }

  lemma VersionsDiffer(setup: Setup, t: string, f: string)
    requires Needs(setup, t, f)
    ensures var s := Adding(setup, t, f); f in Version(s, t, NEW) && f !in Version(s, t, OLD)
  {
    hide Playbook;
    AddedFiles(setup, t, f);
  }

  /** The commit that adds the file is attempted from a refining host, with a complete diff and a
      sound outcome, and becomes the last good one without reaching the target. */
  ghost predicate Breaks(setup: Setup, t: string, f: string) {
    var s, cy := Adding(setup, t, f), Adoption(f);
    var site := HostOf(s, t);
    && Attempts(site, cy) && Refines(site, s) && Complete(s, cy.changed, Baseline(site), cy.head) && Sound(site, s, cy)
    && Baseline(Finish(site, s, cy)) == NEW && !Refines(Finish(site, s, cy), s)
  }

  /** A file that a target needs and that does not stand for it has such a commit. */
  lemma UnmappedBreaks(setup: Setup, t: string, f: string)
    requires Target(setup, t) && Needs(setup, t, f) && Implied(f, setup.roles) != Some(t)
    ensures Breaks(setup, t, f)
  {
    hide Implied, Playbook, PlanOf, Version, Target, Adding, Refines, Sound, Complete, Finish, NeedsDeploy, Needs;
    var s := Adding(setup, t, f);
    var site, cy := HostOf(s, t), Adoption(f);
    OldIsLive(setup, t, f);
    AdoptionIsSound(setup, t, f);
    AdoptionMisses(setup, t, f);
    SameTarget(setup, t, f);
    GreenLeaves(site, s, cy, t);
    Refuted(Finish(site, s, cy), s, t);
  }

  lemma SameRules(setup: Setup, t: string, f: string)
    ensures var s := Adding(setup, t, f); s == setup.(repo := s.repo)
  {}

  lemma SameTarget(setup: Setup, t: string, f: string)
    ensures Target(Adding(setup, t, f), t) == Target(setup, t)
  {
    hide Implied, Playbook;
    SameRules(setup, t, f);
  }

  lemma Refuted(site: Site, setup: Setup, t: string)
    requires Target(setup, t) && t !in site.unrestored && LiveOf(site.live, t) != Version(setup, t, Baseline(site))
    ensures !Refines(site, setup)
  {}

  /** The condition can be met, under any gates: by deploys that depend on what stands for them. */
  lemma MappedPossible(setup: Setup)
    ensures Mapped(setup.(uses := (t, f) => Implied(f, setup.roles) == Some(t)))
  {
    hide Implied, Auto, Playbook;
  }

  const GROUP_VARS := "ansible/" + "inventory/group_vars/all/main.yml"

  /** The shared variables stand for no target: a commit that adds them does not reach a target
      that reads them. */
  lemma GroupVarsStandForNothing(setup: Setup, t: string)
    requires Target(setup, t) && setup.uses(t, GROUP_VARS)
    ensures Implied(GROUP_VARS, setup.roles) == None && Breaks(setup, t, GROUP_VARS)
  {
    hide Implied, Target, Breaks;
    GroupVarsImply(setup.roles);
    UnmappedBreaks(setup, t, GROUP_VARS);
  }

  lemma GroupVarsImply(roles: Roles)
    ensures Implied(GROUP_VARS, roles) == None
  {
    hide Implied;
    InventoryStands("inventory/group_vars/all/main.yml", roles);
  }

  /** Nor does anything else in the inventory. */
  lemma InventoryStands(rest: string, roles: Roles)
    requires rest != "" && rest[0] == 'i' && !PySpace(rest[|rest| - 1])
    ensures Implied("ansible/" + rest, roles) == None
  {
    hide Implied, PySpace;
    var f := "ansible/" + rest;
    assert f[0] == 'a' && !PySpace('a') by { LetterIsNoSpace(); }
    Unspaced(f);
    AnsiblePath(f);
    assert f[8] == 'i' && "ansible/roles/"[8] == 'r' && "ansible/playbooks/"[8] == 'p';
    OtherFile(f, roles);
  }

  const NFS_METRICS := "ansible/roles/" + "nfs_server" + "/files/nfs_client_metrics.py"

  /** A role that a second playbook applies stands for its own target: a commit that adds a file
      to it does not reach the target of the second playbook. */
  lemma SharedRoleStandsForOne(setup: Setup)
    requires "nfs_server" !in setup.roles.base && "nfs_server" !in setup.roles.targets
    requires Target(setup, "nfs-client-health") && setup.uses("nfs-client-health", NFS_METRICS)
    ensures Implied(NFS_METRICS, setup.roles) == Some("nfs-server") && Breaks(setup, "nfs-client-health", NFS_METRICS)
  {
    hide Implied, Target, Breaks;
    NfsFileStands(setup.roles);
    assert "nfs-server"[4] != "nfs-client-health"[4];
    UnmappedBreaks(setup, "nfs-client-health", NFS_METRICS);
  }

  lemma NfsFileStands(roles: Roles)
    requires "nfs_server" !in roles.base && "nfs_server" !in roles.targets
    ensures Implied(NFS_METRICS, roles) == Some("nfs-server")
  {
    hide Implied, Strip;
    var role, tail := "nfs_server", "/files/nfs_client_metrics.py";
    assert NFS_METRICS[0] == 'a' && NFS_METRICS[|NFS_METRICS| - 1] == 'y';
    Unspaced(NFS_METRICS);
    RoleFile(role, tail, roles);
    var t := Implied(NFS_METRICS, roles);
    assert t.value == "nfs-server";
  }
}
