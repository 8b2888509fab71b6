# Verified models of the homelab's decision cores

This project models, in Dafny, the parts of the homelab that decide something nobody is
watching: when a container is restarted, which roles a commit redeploys and what is restored
after a failure, which kernel faults survive a reboot, when a network share is unmounted by
force, which DNS routes are repaired, and when the Mac counts as awake. It proves what those
decisions guarantee over every run, not only over one call.

`dafny verify dfyconfig.toml` checks everything.

## How it is organised

Code that the repository writes as loops and updated fields is a `method` or a `class` here. Each
one is proved equal to a function of its inputs or of the old state, and the theorems are lemmas
about those functions.

| area | modules |
|---|---|
| container watchdog | `WatchdogText` (files and listings), `WatchdogPolicy` (the decision and its budget), `WatchdogScan` (one scan as steps on a disk), `Watchdog` (the scan as it is programmed), `WatchdogLedger`, `WatchdogTrack`, `WatchdogOutcome`, `WatchdogReport`, `WatchdogCommands` (what holds over every run and after every scan) |
| GitOps deploy controller | `AutodeployPlan`, `AutodeployRuns` (its cycles and records), `AutodeployRefinement` (against a full deploy) |
| kernel-fault scanner | `KernelIoText` (the two line patterns), `KernelIo`, `KernelIoPrint` (the text, line by line), `KernelIoRuns` |
| NFS supervisor of the Mac, and the Pi's reader | `NfsChildren`, `NfsStatus`, `NfsRecovery`, `NfsRestart`, `NfsSupervisor`, `NfsReader` |
| split-DNS drift | `SplitDns` |
| Mac presence | `MacPresence` |
| check-mode guard | `CheckModeGuard`, `CheckModeRuns` (against a whole run) |
| runner metrics | `RunnerLabels` |
| shared | `Text`, `Decimal`, `Order`, `Lists` |

## What the runs range over

* **Watchdog.** A disk holds the state files, the counter ledger and the metrics. A scan is a list
  of steps: writes, removals and commands, in the order of the code. Every command result, every
  write failure and every listing is arbitrary. A run is any list of scans, and each of them may be
  killed after any of its steps; an atomic write is one step. An onlooker takes notes from the steps
  alone, and the invariants relate these notes to what is on the disk.
* **Deploy controller.** Commits are arbitrary trees of files. Which files the deploy of a target
  depends on (`uses`) is free and has nothing to do with what the planner makes of a path. A full
  deploy of a commit makes live, for each target that has a playbook there, all files that its deploy
  depends on; a target without a playbook in the checkout is skipped. What is compared with a full
  deploy is every name that passes the gates and that its own playbook stands for, so not the
  playbooks that only verify (`VerifyingIsNoTarget`). A failed deploy and a failed
  restore leave anything at all behind, and a cycle may be killed anywhere after it has recorded its
  attempt. Targets that a failed restore or a killed cycle may have left off the last good commit are
  marked (`unrestored`) until they are deployed or restored again.
* **Kernel scanner.** The fault patterns are an uninterpreted predicate on class and line, tried in
  the order of the source. Converting a number through a float is any function that obeys the
  IEEE 754 laws in `FloatLaws`.
* **NFS.** An iteration of the supervise loop starts from what the mount listing, the status listing
  and the probes answer, and an attempt from what each of its commands answers: failure, success or
  an exception, which ends the daemon. The monotonic and wall clocks are free but for the stated
  order.

## Where the code differs from what its text promises

* The state file of the watchdog takes values up to 2^53 only. A counter or a clock beyond it is
  still written, and the next scan refuses the file (`ParseBytes`, `SuccessfulFilesParse`).
* `parse_prom` calls itself total, and is not: a known class with a value of 2^1024 - 2^970 or more
  raises an overflow error that is not caught (`HugeCountRaises`; `ParseOfAnyText` has the exact
  condition).
* `carry_forward` means an unknown boot id to keep the snapshot, but `main` does not emit a snapshot
  without a boot id, so it is gone from the file unless it was all zero
  (`UnknownBootIdKeepsSnapshotExactly`; `UnknownBootIdLosesDropout` is a run that loses one).
* The split-DNS patch converges in one step from every route table exactly for lists of domains that
  normalise stably (`PatchConvergesExactly`). A domain with white space in front of a trailing dot does
  not (`SpaceBeforeDotIsUnstable`).
* The check-mode guard follows includes of top-level tasks only, not those inside blocks
  (`BlockIncludeIsNotFollowed`; `SeesAllExactly` says when this matters).
* A commit becomes the last good one without reaching a target that depends on a changed file which
  stands for no target or for another one: the shared `group_vars` stand for nothing
  (`GroupVarsStandForNothing`), and a role that a second playbook applies stands for its own target
  (`SharedRoleStandsForOne`); both lemmas give the cycle. Every commit is deployed as a full deploy
  would exactly when each file that a target depends on stands for that target
  (`EveryCommitRefinesExactly`), which can be met under any gates (`MappedPossible`).
* `deploy_target` reports success for a target without a playbook. So a role that is new is not
  restored after its first deploy fails, and one that is removed keeps running. A commit can be
  attempted safely, whatever its deploys come to, exactly when it changes nothing about unplanned
  targets, no planned target gains or loses its playbook, and no planned name that can fail is,
  trimmed, planned before it, unless it is no target and nothing deployed since changes
  (`SafeToAttemptExactly`).
* `rollback_targets` trims the name of the failed target but not the plan. Everything attempted is
  restored exactly when the trimmed name is not planned before the failed target
  (`RestoreCoversExactly`), which two playbooks can break (`UntrimmedNameIsNotRestored`).
* A deploy cycle that is killed leaves its commit seen and is not tried again. `KilledDeployLeaves` says
  which targets are then at which commit.
* The check-mode guard scans one file at a time, and only files that it reaches. It misses a probe
  after a mutator of another file (`AcrossFilesIsMissed`), and one in a file that is included inside a
  block (`InsideBlockIsMissed`); `MissesNothingExactly` is the condition on the files.
* The restart that follows a stop of the worker is refused while the restart of an earlier recovery is
  still blocked, and only then (`RestartStartsExactly`).
* The reader of the NFS report raises an error that nothing catches when a number which is too large
  for a float is the first thing wrong with the report (`CheckStatus`).
* A split-DNS verdict that is ok means that some covering route is ours. That a name resolves through
  our nameserver needs, besides, that no route of others is at least as specific (`ResolvesExactly`,
  `ForeignRouteShadows`).

## Model

| member | source | states |
|---|---|---|
| WatchdogText.ReadState | runtime/internal/watchdog/watchdog.go:63-77 | the four-cell loop computes `ParseState`: three or four words, each a decimal of 64 bits within 0 and 2^53, the fourth zero if absent |
| WatchdogText.ParseBytes | runtime/internal/watchdog/watchdog.go:63-81 | a saved state reads back as itself exactly when all four values are within 0 and 2^53, and is refused otherwise |
| WatchdogText.ValueExactly | runtime/internal/watchdog/watchdog.go:68-75 | a value is an optional sign and digits from 0 to 2^53, and nothing else is accepted |
| WatchdogText.ReadNames | runtime/internal/watchdog/watchdog.go:175-192 | the filtered listing is accepted exactly when it is small enough and its names are well formed and distinct, and comes back sorted |
| WatchdogText.ReadInventory | runtime/internal/watchdog/watchdog.go:133-170 | the row loop computes `Inventory`, and the returned names are the sorted keys without repeats |
| WatchdogText.ParseRowLine | runtime/internal/watchdog/watchdog.go:139-158 | a well-formed row reads back as its name, state and health |
| WatchdogText.RowExactly | runtime/internal/watchdog/watchdog.go:142-163 | a row is accepted exactly when it is a well-formed name, one of Docker's seven states and a health state between two bars |
| WatchdogText.RowsExactly | runtime/internal/watchdog/watchdog.go:137-165 | the rows are accepted exactly when every line that is not blank is one and no name repeats, and the inventory then holds those rows and no others |
| WatchdogText.InventoryOfListing | runtime/internal/watchdog/watchdog.go:133-170 | what Docker lists for any set of containers, in any order, reads back as exactly that inventory |
| WatchdogPolicy.WindowDecide | runtime/internal/watchdog/watchdog.go:36-61 | a decision keeps the meaning of the one counter and one timestamp: they bound the restarts of every day that reaches the last restart |
| WatchdogPolicy.WindowRestart | runtime/internal/watchdog/watchdog.go:390-404 | a restart within the budget keeps every half-open day within the budget |
| WatchdogPolicy.CountedRestart | runtime/internal/watchdog/watchdog.go:36-61 | the counter that a restart saves is the number of restarts that follow each other within a day, up to and with this one |
| Watchdog.Scanner.Publish | runtime/internal/watchdog/watchdog.go:215-224 | writes the ledger, then the metrics, and stops at the first failed write |
| Watchdog.Scanner.Save | runtime/internal/watchdog/watchdog.go:211-213 | writes one state file, or reports the failure through the ledger and stops |
| Watchdog.Scanner.Notify | runtime/internal/watchdog/watchdog.go:361-372 | publishes the attempt, runs the helper, publishes the result |
| Watchdog.Scanner.Check | runtime/internal/watchdog/watchdog.go:309-349 | the validation loops accept exactly what `Validate` accepts and return the parsed states of the present containers |
| Watchdog.Scanner.Observe | runtime/internal/watchdog/watchdog.go:351-356 | the first pass computes the observed state of every container |
| Watchdog.Scanner.TryRestart | runtime/internal/watchdog/watchdog.go:390-428 | the steps around one restart command, in order, with every early return |
| Watchdog.Scanner.Collect | runtime/internal/watchdog/watchdog.go:434-446 | removes the well-named state files of absent containers, in the order of the listing |
| Watchdog.Scanner.Execute | runtime/internal/watchdog/watchdog.go:264-449 | the whole scan leaves the disk, the steps and the error of the specification `Scan` |
| WatchdogOutcome.ValidationExact | runtime/internal/watchdog/watchdog.go:309-349 | validation passes exactly when both listings parse, agree as sets on who is unhealthy, and every present container's state file is absent or valid |
| WatchdogOutcome.RefusedScanTouchesNothing | runtime/internal/watchdog/watchdog.go:297-349 | otherwise no state file changes, nothing is restarted or notified, and the ledger keeps its containers and counters |
| WatchdogReport.RefusedScanReports | runtime/internal/watchdog/watchdog.go:289-349 | a refused scan whose writes work publishes the ledger it began with, with its own clock and both marks cleared, as ledger and as metrics, and changes nothing else |
| WatchdogReport.FailureIsReported | runtime/internal/watchdog/watchdog.go:264-449 | a scan that cannot begin does nothing; one that stops after it began, for whatever reason, leaves in ledger and metrics that the scan of this time did not succeed, unless the write of one of the two failed |
| WatchdogReport.FailedFileIsReported | runtime/internal/watchdog/watchdog.go:297-303 | a state file that cannot be written or removed stops the scan with a write of ledger and metrics and no other step |
| WatchdogReport.SuccessNeedsAll | runtime/internal/watchdog/watchdog.go:264-449 | a scan succeeds only if it could begin, both listings were accepted, every write worked and the directory could be listed |
| WatchdogOutcome.SuccessfulScan | runtime/internal/watchdog/watchdog.go:350-448 | after success the well-named state files are exactly those of present containers that had one or were unhealthy, each with the ledger's state; ledger and metrics agree; other files are untouched |
| WatchdogOutcome.SuccessfulFilesParse | runtime/internal/watchdog/watchdog.go:63-81 | each such file parses back to the ledger's state exactly when that is within 0 and 2^53 |
| WatchdogReport.SuccessfulLedger | runtime/internal/watchdog/watchdog.go:350-448 | the ledger of a successful scan: its clock and marks, every counter raised by exactly the commands issued and their results, and for every container its state, whether it is unhealthy and whether a restart failed |
| WatchdogCommands.SuccessfulScanCommands | runtime/internal/watchdog/watchdog.go:373-433 | a successful scan issued for every container exactly the commands its decision and the restart result call for, in order, and none for absent ones |
| WatchdogLedger.ScanTracks | runtime/internal/watchdog/watchdog.go:276-449 | every step of every scan keeps the ledger invariant |
| WatchdogLedger.RunsKeepLedger | runtime/internal/watchdog/watchdog.go:276-433 | over every run with kills anywhere: attempts count at least every command issued and exceed restarts plus failures by exactly the interrupted attempts; notification attempts count every notice issued; a container restarted and not excused since is flagged as failed on the disk |
| WatchdogLedger.CountersNeverDecrease | runtime/internal/watchdog/watchdog.go:390-416 | no counter on the disk is ever lower than at an earlier moment of the run |
| WatchdogTrack.ScanTracks | runtime/internal/watchdog/watchdog.go:350-448 | every step of every scan keeps the policy invariant of any one container |
| WatchdogTrack.RunsKeepPolicy | runtime/internal/watchdog/watchdog.go:373-428 | over every run with kills anywhere: the saved streak is the streak, urgent notices of a streak are spaced by the cooldown with the stamp saved, and restart commands come at streaks of at least the threshold |
| WatchdogTrack.BudgetPerDay | runtime/internal/watchdog/watchdog.go:36-61 | any half-open day holds at most `budget` successful restarts, plus those whose scan was killed or could not save before the result was saved |
| WatchdogCommands.RestartsExactly | runtime/internal/watchdog/watchdog.go:36-61 | after every run with kills anywhere, a successful scan restarts a container exactly when it is unhealthy, its streak reaches the threshold with this scan, and the restarts in force are fewer than the budget |
| AutodeployPlan.RoleFile | ansible/roles/homelab_autodeploy/files/homelab_autodeploy.py:90-150 | a file of a role, or one right beside the roles, stands for `base`, for the mapped target, or for the role's name with hyphens |
| AutodeployPlan.PlaybookFile | ansible/roles/homelab_autodeploy/files/homelab_autodeploy.py:151-163 | a playbook stands for the target of its name, unless it only verifies |
| AutodeployPlan.OtherFile | ansible/roles/homelab_autodeploy/files/homelab_autodeploy.py:134-165 | other files stand for nothing, the extra files and the runtime sources apart |
| AutodeployPlan.ExtraFiles | ansible/roles/homelab_autodeploy/files/homelab_autodeploy.py:84-87 | the changelog stands for the homepage, the stamp script and the runtime sources for the runtime |
| AutodeployPlan.PathFrontIgnored | ansible/roles/homelab_autodeploy/files/homelab_autodeploy.py:133-134 | dots and slashes in front of a path and white space around it do not change what it stands for |
| AutodeployPlan.PlanTargets | ansible/roles/homelab_autodeploy/files/homelab_autodeploy.py:101-181 | the loop, the move of the runtime to the front and the two gates compute `Plan` |
| AutodeployPlan.FullPlanShape | ansible/roles/homelab_autodeploy/files/homelab_autodeploy.py:166-176 | the ungated plan has no repeats, has exactly the implied targets, `base` first, then `homelab-runtime`, then the others by their first changed file |
| AutodeployPlan.PlanSetOfFileSet | ansible/roles/homelab_autodeploy/files/homelab_autodeploy.py:101-181 | which targets are planned depends only on the set of changed files |
| AutodeployPlan.PlanSkipped | ansible/roles/homelab_autodeploy/files/homelab_autodeploy.py:184-199 | computes the held part of the plan |
| AutodeployPlan.GatesSplitThePlan | ansible/roles/homelab_autodeploy/files/homelab_autodeploy.py:177-199 | under any gates the deployed and the held targets split the ungated plan into two disjoint ordered parts, and deny beats allow |
| AutodeployPlan.RestoreIsTheAttemptedPart | ansible/roles/homelab_autodeploy/files/homelab_autodeploy.py:202-223 | for a failed name without white space around it the restore set is the plan up to and with it; it is all of the plan when the failed target is unknown |
| AutodeployPlan.RestoreCoversExactly | ansible/roles/homelab_autodeploy/files/homelab_autodeploy.py:202-223 | for any plan without repeats, everything attempted is restored exactly when the failed name, trimmed, is not attempted before it |
| AutodeployPlan.UntrimmedNameIsNotRestored | ansible/roles/homelab_autodeploy/files/homelab_autodeploy.py:202-223 | two changed playbooks give a plan on which the failed target is not restored |
| AutodeployRuns.Controller.RunCycle | ansible/roles/homelab_autodeploy/templates/homelab-autodeploy.sh.j2:175-310 | one cycle, with its deploy loop, rollback and state changes, computes `Finish` |
| AutodeployRuns.Controller.Deploy | ansible/roles/homelab_autodeploy/templates/homelab-autodeploy.sh.j2:96-113 | deploys in order, skips what has no playbook, and stops at the first failure |
| AutodeployRuns.Controller.Restore | ansible/roles/homelab_autodeploy/templates/homelab-autodeploy.sh.j2:286-302 | restores every listed target that has a playbook at the given commit, going on after failures |
| AutodeployRefinement.UnplannedIsUnchanged | ansible/roles/homelab_autodeploy/files/homelab_autodeploy.py:101-181 | a target that is not planned, although it would be if a file it depends on had changed, is the same in both commits |
| AutodeployRefinement.CycleRefines | ansible/roles/homelab_autodeploy/files/homelab_autodeploy.py:202-243 | one cycle, finished or killed anywhere, that plans what it changes and whose outcome the rollback can undo, keeps every target that is not marked at the version of the last good commit |
| AutodeployRefinement.GreenRefinesExactly | ansible/roles/homelab_autodeploy/files/homelab_autodeploy.py:226-233 | after an attempt that succeeds, the targets are as a full deploy would have them exactly when the commit changes nothing about those not deployed |
| AutodeployRuns.KilledDeployLeaves | ansible/roles/homelab_autodeploy/templates/homelab-autodeploy.sh.j2:216-277 | after a kill in the deploy loop: which targets are at the new commit, which one is in any state, which are as before, and that the commit is not tried again |
| AutodeployRefinement.FailedAttemptRefinesExactly | ansible/roles/homelab_autodeploy/files/homelab_autodeploy.py:202-243 | after a failed attempt the targets are as the last good commit would have them exactly when all that was deployed and not restored happens to be so, or is marked |
| AutodeployRefinement.SafeToAttemptExactly | ansible/roles/homelab_autodeploy/templates/homelab-autodeploy.sh.j2:96-113 | every outcome of an attempt keeps the refinement exactly when unplanned targets do not change, no planned one gains or loses its playbook, and no planned name that can fail is, trimmed, planned before it, unless it is no target and loses nothing |
| AutodeployRefinement.EveryCommitRefinesExactly | ansible/roles/homelab_autodeploy/files/homelab_autodeploy.py:101-181 | every commit of every repository, with a sound outcome, keeps the refinement exactly when each file that a target depends on stands for it |
| AutodeployRefinement.MappedPossible | ansible/roles/homelab_autodeploy/files/homelab_autodeploy.py:101-181 | under any gates there are deploys for which that condition holds |
| AutodeployRefinement.VerifyingIsNoTarget | ansible/roles/homelab_autodeploy/files/homelab_autodeploy.py:151-163 | a playbook that only verifies is no target |
| AutodeployRefinement.GroupVarsStandForNothing | ansible/roles/homelab_autodeploy/files/homelab_autodeploy.py:108-112 | the shared variables stand for no target, and a successful cycle whose commit adds them leaves a target that reads them off the new last good commit |
| AutodeployRefinement.SharedRoleStandsForOne | ansible/playbooks/nfs-client-health.yml:1-9 | a file of a role that a second playbook applies stands for the role's own target, and a successful cycle whose commit adds it leaves the target of the second playbook off the new last good commit |
| AutodeployRefinement.IncrementalRefinesFull | ansible/roles/homelab_autodeploy/files/homelab_autodeploy.py:101-243 | over every run of such cycles, incremental deploys with rollback leave every target that is not marked as a full deploy of the last good commit would |
| AutodeployRuns.HeldTargetsStay | ansible/roles/homelab_autodeploy/files/homelab_autodeploy.py:177-181 | a target the gates hold back is never touched, whatever the diffs, the names and the kills |
| AutodeployRuns.RunsStayConsistent | ansible/roles/homelab_autodeploy/files/homelab_autodeploy.py:226-243 | over every run the held commit, the last result and the last good commit agree, and with the last attempt unless cycles were killed |
| AutodeployRuns.SameHeadIsIdle | ansible/roles/homelab_autodeploy/files/homelab_autodeploy.py:51-66 | after an attempt, cycles that still see the same commit change nothing |
| AutodeployRuns.AttemptedExactly | ansible/roles/homelab_autodeploy/files/homelab_autodeploy.py:51-66 | a green commit is attempted, and recorded as seen and deployed, exactly when it is neither the one seen last nor the one held as failed; any other cycle changes nothing |
| AutodeployRuns.NextCommitIsAttempted | ansible/roles/homelab_autodeploy/files/homelab_autodeploy.py:51-66 | after an attempt of one commit, failed or not, any other green commit is attempted |
| AutodeployRuns.AttemptOutcome | ansible/roles/homelab_autodeploy/files/homelab_autodeploy.py:226-243 | an attempt makes the commit last-good exactly when every planned target that has a playbook applies; otherwise the checkout returns, the commit is held and the failure counted |
| AutodeployRefinement.GreenCommitIsLive | ansible/roles/homelab_autodeploy/files/homelab_autodeploy.py:101-243 | a successful attempt makes the new commit live on a target that it plans if it must and whose playbook it keeps |
| KernelIo.ClassifyIsFirst | ansible/roles/node_exporter/files/kernel_io_scan.py:173-178 | a line is given the first class whose pattern is found, and none only if none is found |
| KernelIoPrint.ClassifyExactly | ansible/roles/node_exporter/files/kernel_io_scan.py:53-121 | the ten classes are looked for in this order, the remounted file system first |
| KernelIo.Scan | ansible/roles/node_exporter/files/kernel_io_scan.py:181-191 | the loop counts, for each class, the lines of that class |
| KernelIo.CountsConserveLines | ansible/roles/node_exporter/files/kernel_io_scan.py:173-191 | the counts add up to the number of classified lines |
| KernelIo.RenderProm | ansible/roles/node_exporter/files/kernel_io_scan.py:267-318 | the loops print the sections in order, classes sorted |
| KernelIoPrint.RenderExactly | ansible/roles/node_exporter/files/kernel_io_scan.py:267-318 | the printed lines: for this boot and, if given, the one before, ten rows with the severity and count of every class, then the boot id and the time |
| KernelIo.ParseProm | ansible/roles/node_exporter/files/kernel_io_scan.py:205-238 | the line loop computes `Parse`, with the overflow error as `None` |
| KernelIoText.ParseEventLine | ansible/roles/node_exporter/files/kernel_io_scan.py:198-202 | a printed count line matches as its suffix, its class and its number, whatever the backtracking of the pattern |
| KernelIoText.ParseBootLine | ansible/roles/node_exporter/files/kernel_io_scan.py:202 | a printed boot line without quotes matches as its id |
| KernelIoText.BootExactly | ansible/roles/node_exporter/files/kernel_io_scan.py:202 | a boot line matches exactly when it starts so, with the text between the quotes as its id |
| KernelIoText.DigitsExactly | ansible/roles/node_exporter/files/kernel_io_scan.py:198-201 | digits with an optional fraction match exactly when only white space follows |
| KernelIoText.ClassExactly | ansible/roles/node_exporter/files/kernel_io_scan.py:198-201 | a class label is one or more lower-case letters, digits and `_` between its quotes |
| KernelIoText.LastClassExactly | ansible/roles/node_exporter/files/kernel_io_scan.py:198-201 | of several class labels the last one counts |
| KernelIoText.LabelsExactly | ansible/roles/node_exporter/files/kernel_io_scan.py:198-201 | the labels match exactly when they end at the first closing brace, hold a class, and a value follows |
| KernelIoRuns.ParseUndoesRender | ansible/roles/node_exporter/files/kernel_io_scan.py:205-318 | reading undoes printing: boot id, counts and last-boot counts come back, for counts up to 2^53 |
| KernelIoRuns.ParseOfAnyText | ansible/roles/node_exporter/files/kernel_io_scan.py:205-238 | reading any text fails exactly when a known class has a value that rounds to infinity, and else gives tables over exactly the classes |
| KernelIoRuns.HugeCountRaises | ansible/roles/node_exporter/files/kernel_io_scan.py:211-236 | one line with a large enough count makes the reader raise |
| KernelIoRuns.BootIdComesBackExactly | ansible/roles/node_exporter/files/kernel_io_scan.py:202-238 | a boot id comes back exactly when it has no quote and no line break |
| KernelIoRuns.RunMain | ansible/roles/node_exporter/files/kernel_io_scan.py:321-350 | one scan reads the earlier text, carries the counts and prints |
| KernelIoRuns.TextCarriesTheRun | ansible/roles/node_exporter/files/kernel_io_scan.py:205-350 | over every run, reading the file gives what the run means without the text |
| KernelIoRuns.LastBootSurvivesReboots | ansible/roles/node_exporter/files/kernel_io_scan.py:241-350 | the last-boot counts are those of the last scan of the preceding boot, and zero during the first boot |
| KernelIoRuns.UnknownBootIdKeepsSnapshotExactly | ansible/roles/node_exporter/files/kernel_io_scan.py:241-349 | a scan without a boot id leaves the snapshot in the file exactly if it was all zero |
| KernelIoRuns.UnknownBootIdLosesDropout | ansible/roles/node_exporter/files/kernel_io_scan.py:241-349 | a run of three scans whose counted disconnect is in the file after the second and gone after the third |
| NfsChildren.Runner.Call | mac-worker/nfs_mount.py:37-59 | one bounded call: reap, refuse or start, remember a survivor |
| NfsChildren.AllRemembered | mac-worker/nfs_mount.py:32-59 | every living child is the remembered one of its operation |
| NfsChildren.OneChildPerOperation | mac-worker/nfs_mount.py:32-59 | over every history no two living children run the same operation, and a call is refused exactly while one lives |
| NfsStatus.MountStatus | mac-worker/nfs_mount.py:62-72 | the line loop with its section flag computes `Status` |
| NfsStatus.StatusMeaning | mac-worker/nfs_mount.py:62-72 | the state is that of the first flags line in a section headed by exactly the target, else unknown |
| NfsStatus.HeaderLine | mac-worker/nfs_mount.py:62-66 | a name before ` from ` heads the section of that mount |
| NfsStatus.FlagsLine | mac-worker/nfs_mount.py:67-71 | an indented flags line means hung if it says that the server does not respond, and healthy exactly if no flag is set |
| NfsStatus.CheckHealth | mac-worker/nfs_mount.py:92-102 | the listing, then the probes up to the first failure |
| NfsStatus.ProbedMeaning | mac-worker/nfs_mount.py:86-102 | healthy exactly when all reads succeed, hung exactly when the first failure is a time-out or an I/O error |
| NfsStatus.HealthMeaning | mac-worker/nfs_mount.py:92-102 | when a mount is healthy and when it is hung, both exactly |
| NfsStatus.InspectMeaning | mac-worker/nfs_mount.py:117-130 | unmounted means exactly that a readable mount listing lacks the target |
| NfsRecovery.Recoverer.Recover | mac-worker/nfs_mount.py:169-188 | the commands of a recovery and its result are those of `RecoverySteps` |
| NfsRecovery.Recoverer.RecoverWithWorker | mac-worker/nfs_mount.py:198-236 | the commands around it, with the restart also after an exception, are those of `WorkerSteps` |
| NfsRecovery.RecoverMountProtocol | mac-worker/nfs_mount.py:169-188 | the mount command runs only after a clear listing, success needs it to succeed, and a plain mount never unmounts |
| NfsRecovery.WorkerProtocol | mac-worker/nfs_mount.py:198-236 | for every outcome: no unmount unless the worker is absent or stopped, after a successful stop the restart command is called, no mount without a clear listing |
| NfsRestart.RestartStartsExactly | mac-worker/nfs_mount.py:32-59 | that call starts a child exactly when no restart of an earlier recovery is still alive; else it is refused and the recovery does not succeed |
| NfsRecovery.WorkerLoadedAsBefore | mac-worker/nfs_mount.py:198-236 | a true result means the worker is loaded exactly if it was before |
| NfsRecovery.SucceedsExactly | mac-worker/nfs_mount.py:169-236 | a recovery succeeds exactly when every command on its way does |
| NfsRecovery.IssuedExactly | mac-worker/nfs_mount.py:169-236 | every command is issued exactly when it is called for, a forced unmount only after one that failed, in a fixed order and once; an exception comes out exactly if an issued command raises it |
| NfsSupervisor.Supervisor.Iterate | mac-worker/nfs_mount.py:258-294 | one iteration updates every record and publishes every item as specified, unless an attempt raises |
| NfsSupervisor.Supervisor.Turn | mac-worker/nfs_mount.py:261-293 | the part of one export: the inspection's finding, the decision, the commands of an attempt and the check after it |
| NfsSupervisor.RecordsMeanTheRun | mac-worker/nfs_mount.py:252-288 | over every run the record holds the hung inspections in a row, whether a read ever succeeded, and a bound on the last attempt |
| NfsSupervisor.AttemptsAreSpaced | mac-worker/nfs_mount.py:137-139 | attempts on one export are at least 300 seconds apart |
| NfsSupervisor.AttemptsAreJustified | mac-worker/nfs_mount.py:137-166 | a recovery needs two hung inspections in a row and an earlier read; an unknown state leads to nothing |
| NfsSupervisor.CommandsAreJustified | mac-worker/nfs_mount.py:137-236 | of the commands an iteration issues: a forced unmount only after two hung inspections and an earlier read, for the main share only with the worker out of the way; a mount only after a clear listing; none in an unknown state |
| NfsSupervisor.HealthyIsRead | mac-worker/nfs_mount.py:86-130 | a finding is healthy exactly when the export is mounted, the status listing calls it healthy and its probe returned 0 |
| NfsSupervisor.ActsExactly | mac-worker/nfs_mount.py:252-288 | exactly when the loop mounts and when it recovers: a server answers, 300 seconds have passed, and the share is unmounted, or hung for the second time in a row and read before |
| NfsSupervisor.ReportedIsFound | mac-worker/nfs_mount.py:260-293 | the state, reason and source reported are those of the inspection, of the check after a mount, or of a failed recovery |
| NfsSupervisor.SharesAre | mac-worker/nfs_mount.py:22-26 | which mount each export stands for, and what its healthy inspection rests on |
| NfsSupervisor.ReportMeaning | mac-worker/nfs_mount.py:258-294 | an export is reported healthy exactly when the iteration completed a read of it, with the number of attempts so far, whether the last one worked, and the time of the last completed read |
| NfsReader.CheckStatus | ansible/roles/nfs_server/files/nfs_client_metrics.py:14-35 | the checks raise exactly when a number too large for a float is the first thing wrong with the report, and else compute `ValidStatus` |
| NfsReader.AcceptedExactly | ansible/roles/nfs_server/files/nfs_client_metrics.py:14-58 | whatever numbers a sender puts into a report, it is accepted exactly when it was checked after the epoch and not in the reader's future, and each export's read is not after its check, its attempts fit a float and its last result is 0 or 1 |
| NfsReader.ReportsAreAccepted | ansible/roles/nfs_server/files/nfs_client_metrics.py:14-58 | a report of any run is accepted by a Pi whose clock is not behind exactly when its numbers fit a float, and `read_ok` is then 1 exactly for a healthy export in a report at most 600 s old |
| NfsReader.ReportsAreSmall | mac-worker/nfs_mount.py:252-294 | its numbers fit as long as the clock and the number of iterations do |
| NfsReader.ReadOkMeansARead | ansible/roles/nfs_server/files/nfs_client_metrics.py:38-58 | `read_ok` is 1 exactly when, in that iteration, the export's probe returned 0 on a mount called healthy, before or after an attempt, and the report is at most 600 s old |
| SplitDns.Decide | ansible/roles/tailscale_dns/files/tailscale_split_dns.py:112-154 | the two loops compute the verdict and the patch |
| SplitDns.VerdictExactly | ansible/roles/tailscale_dns/files/tailscale_split_dns.py:131-152 | what is missing, misrouted and stale, in terms of labels: a route is stale exactly when it is ours and neither at or below a required domain nor above one |
| SplitDns.PatchExactly | ansible/roles/tailscale_dns/files/tailscale_split_dns.py:131-152 | the patch clears exactly what is stale and points exactly the rest of what is missing or misrouted at our nameserver alone |
| SplitDns.NormIgnores | ansible/roles/tailscale_dns/files/tailscale_split_dns.py:52-54 | normalising ignores case, white space around the name and a trailing dot, and leaves other names alone |
| SplitDns.ExtraNameserversAreFine | ansible/roles/tailscale_dns/files/tailscale_split_dns.py:128-150 | a route is ours wherever our nameserver stands among its addresses |
| SplitDns.CoversIsSubdomain | ansible/roles/tailscale_dns/files/tailscale_split_dns.py:57-71 | a route covers exactly the names whose labels end with its own (section 3.1 of RFC 1034) |
| SplitDns.OkMeansServed | ansible/roles/tailscale_dns/files/tailscale_split_dns.py:91-99 | the verdict is ok exactly when every required domain is covered by some route that lists our nameserver |
| SplitDns.ResolvesExactly | ansible/roles/tailscale_dns/files/tailscale_split_dns.py:91-125 | every required domain's most specific routes are ours exactly when the verdict is ok and no route of others is at least as specific as ours |
| SplitDns.ForeignRouteShadows | ansible/roles/tailscale_dns/files/tailscale_split_dns.py:91-142 | an ok verdict for a domain whose most specific route belongs to others |
| SplitDns.PatchConverges | ansible/roles/tailscale_dns/files/tailscale_split_dns.py:112-154 | the patched routes have nothing missing, misrouted or stale and need no further patch |
| SplitDns.ForeignRoutesStay | ansible/roles/tailscale_dns/files/tailscale_split_dns.py:144-152 | a route not listing our nameserver changes only if its name is a misrouted required domain |
| SplitDns.ForeignRoutesStayExactly | ansible/roles/tailscale_dns/files/tailscale_split_dns.py:112-154 | this holds in every route table exactly when every required domain that is not blank normalises stably |
| SplitDns.NoInnerSpaceIsStable | ansible/roles/tailscale_dns/files/tailscale_split_dns.py:52-54 | normalising twice changes nothing for names without inner white space |
| SplitDns.SpaceBeforeDotIsUnstable | ansible/roles/tailscale_dns/files/tailscale_split_dns.py:52-54 | it does for a name with white space before its trailing dot |
| SplitDns.PatchConvergesExactly | ansible/roles/tailscale_dns/files/tailscale_split_dns.py:52-154 | the patch converges from every route table exactly when every required domain that is not blank normalises stably |
| MacPresence.Probe | runtime/internal/macpresence/presence.go:105-120 | present exactly when some target accepts or refuses |
| MacPresence.HistoryMeaning | runtime/internal/macpresence/presence.go:64-82 | after every history: trailing failures, reachable exactly after a success with fewer than the threshold trailing, since the first success after the last such run of failures |
| MacPresence.StreakStartUnique | runtime/internal/macpresence/presence.go:64-82 | that first success is unique |
| MacPresence.WrittenStateIsAccepted | runtime/internal/macpresence/presence.go:38-82 | with positive clocks every written state is accepted when read back |
| MacPresence.LoadedStaysAccepted | runtime/internal/macpresence/presence.go:38-82 | whatever was loaded, going on with positive clocks writes only what is accepted again |
| MacPresence.ClocksMeaning | runtime/internal/macpresence/presence.go:64-75 | the last probe and the last success are those of the history |
| CheckModeGuard.CheckReachableFiles | tests/test_check_mode_probe_safety.py:135-152 | the work list ends with exactly the reachable files, for cyclic graphs too, or all files without `main.yml` |
| CheckModeGuard.BlockIncludeIsNotFollowed | tests/test_check_mode_probe_safety.py:135-152 | an ungated include inside a block is not followed |
| CheckModeGuard.SeesAllExactly | tests/test_check_mode_probe_safety.py:99-152 | the guard sees all files exactly when no block of a file it sees includes one it does not see |
| CheckModeGuard.GateInherited | tests/test_check_mode_probe_safety.py:99-112 | a gate on the block or the task is a gate on the combined condition |
| CheckModeGuard.GateExactly | tests/test_check_mode_probe_safety.py:66 | a condition is gated exactly when `not`, white space and `ansible_check_mode` stand in it in a row |
| CheckModeGuard.GatedIncludesStop | tests/test_check_mode_probe_safety.py:135-152 | a file that is included under a gate only is out of reach |
| CheckModeGuard.GatedBlockGatesAll | tests/test_check_mode_probe_safety.py:99-112 | everything inside a gated block is gated, however deep |
| CheckModeGuard.ViolationsInFile | tests/test_check_mode_probe_safety.py:155-173 | the loop with its remembered mutator computes the findings in order |
| CheckModeGuard.ViolationsExactly | tests/test_check_mode_probe_safety.py:155-173 | a task is reported exactly when it is a risky probe after an unestablished mutator |
| CheckModeGuard.FindingsInOrder | tests/test_check_mode_probe_safety.py:155-173 | the findings come in the order of the tasks, each with the mutator remembered before it |
| CheckModeGuard.BlamedExactly | tests/test_check_mode_probe_safety.py:155-173 | the mutator remembered is the first unestablished one with a name |
| CheckModeGuard.GatedFileIsClean | tests/test_check_mode_probe_safety.py:99-173 | a file of which every block and task is gated has no findings |
| CheckModeRuns.ReportedFails | tests/test_check_mode_probe_safety.py:155-195 | what the guard reports in a file that a run enters fails in that run, with includes expanded to any depth |
| CheckModeRuns.MissesNothingExactly | tests/test_check_mode_probe_safety.py:155-195 | it misses nothing exactly when no file that a run enters meets a mutator and, at a later place or in what the same task includes, a risky probe that is not reported in its own file |
| CheckModeRuns.AcrossFilesIsMissed | tests/test_check_mode_probe_safety.py:155-195 | a mutator, then an include of a file with a risky probe: missed |
| CheckModeRuns.InsideBlockIsMissed | tests/test_check_mode_probe_safety.py:135-195 | a mutator and a risky probe in a file that is included inside a block: missed |
| RunnerLabels.ReadUndoesLabel | runtime/internal/runner/metrics.go:52-56 | escaping is undone by a reader of the exposition format, which stops at the closing quote |
| RunnerLabels.LabelHasNoBreak | runtime/internal/runner/metrics.go:52-56 | no raw line break is left |
| RunnerLabels.LabelInjective | runtime/internal/runner/metrics.go:52-56 | different names have different labels |
| RunnerLabels.Render | runtime/internal/runner/metrics.go:57-146 | the loop over the sorted keys prints the series, or the placeholder for none |
| RunnerLabels.SeriesReadsBack | runtime/internal/runner/metrics.go:128-146 | a reader gets one sample per repository, with its name and number, in sorted order |
| RunnerLabels.SeriesTellRepositoriesApart | runtime/internal/runner/metrics.go:128-146 | equal lines mean equal tables, except that none looks like one repository `none` with zero |

## Left out

Watchdog

- WatchdogTrack.BudgetPerDay: counts the restarts whose scan was killed before its result was saved separately (`lost`), because the code cannot count them: those of a scan that was killed, or whose write of the state file failed, before the result was saved. Without any the bound is `budget`. It speaks of the time since the state file last came into being, since garbage collection starts a container's budget anew.
- WatchdogTrack.RunsKeepPolicy: assumes one policy over the run and clocks not behind the last scan that began.
- WatchdogLedger.RunsKeepLedger: does not model the wrap-around of the 64-bit counters, which are unbounded naturals here.
- Decoding and encoding the JSON ledger, its 1 MiB read limit, the deletion of the ledger during a run, overlapping scans, time-outs, path checks (output paths are distinct), the log, the metrics text and notification bodies.
- A state file that cannot be read, is not a regular file or is too large is one case, `Blocked`. Text is decoded code points.

Deploy controller

- AutodeployRefinement.IncrementalRefinesFull: assumes of each cycle that its diff lists every changed path under its plain name (a detected rename lists only the new path, and unusual names are quoted), that it plans every target which depends on a changed file, and that its outcome is sound: a success drops no playbook, and a failure can be undone. `EveryCommitRefinesExactly` and `SafeToAttemptExactly` say what these leave out. Marked targets are excepted until they are deployed or restored again.
- AutodeployRefinement.SafeToAttemptExactly: assumes that no planned target is still marked.
- AutodeployRefinement.Refines: does not speak of names that are planned although their own playbook stands for nothing or for another name, such as that of a role whose name starts with `verify-`.
- Target names with line breaks, the retries inside one deploy, the CI query, the deny-list drift gauge, metrics and notifications of the shell script.

Kernel-fault scanner

- The fault patterns themselves, and the wording of the comment lines (any text without line breaks).
- Digits outside ASCII in a damaged file, fractional timestamps, and undecodable bytes.

NFS

- The regular expression over the mount listing, the JSON of the report and its publication, the choice of the server by `pick_source`, child-process mechanics, and the log. Numbers of a report that are not finite read as invalid.

Others

- SplitDns.PatchConverges: assumes required names that normalise stably, which all names without inner white space do; `PatchConvergesExactly` and, for `ForeignRoutesStay`, `ForeignRoutesStayExactly` show that the assumption is exactly what is needed. Lower case is that of ASCII. `parse_status` and the metrics are not modelled.
- MacPresence.WrittenStateIsAccepted: starts from decoded fields; the strict JSON decoding is not modelled.
- CheckModeGuard.CheckReachableFiles: starts from decoded task lists with the included file's base name and the condition as text.
- RunnerLabels.SeriesReadsBack: takes the numbers as integers; `number` and the header lines are not modelled. The reader is that of the exposition format, not a part of the repository.
- `mac-worker/github-runner/supervisor/supervisor.py`, `runtime/internal/backup/observe.go`, `runtime/internal/logstats/count.go`, `runtime/internal/indexerhealth/probe.go`, `ansible/roles/beszel/files/beszel_freshness.py` and `ansible/roles/github_runner_metrics/files/gh_runner_metrics.py`: input and output around a short fold, which would only add easy members.
- Roles, playbooks, templates, the site and the documentation.
