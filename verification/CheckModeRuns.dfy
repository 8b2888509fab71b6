/** The guard, file by file, against a whole check-mode run over the tasks with their includes
    expanded: what it reports fails, and exactly when it misses nothing. */
module CheckModeRuns {
  import opened Text
  import opened CheckModeGuard

  /** A task of a file, by its place among the flattened tasks. */
  datatype Spot = Spot(file: string, place: nat)

  function LeavesOf(files: Files, f: string): seq<Leaf> { if f in files then Flatten(files[f], "") else [] }

  /** The file that check mode includes at a task. */
  function Followed(files: Files, leaf: Leaf): Option<string> {
    if leaf.task.Task? && leaf.task.includes.Some? && leaf.task.includes.value in files && leaf.task.includes.value != "" && !HasGate(leaf.condition)
    then leaf.task.includes else None
  }

  /** The tasks of `f` from place `from` on, as a run meets them: after an include come the tasks
      of the included file, down to `depth` includes within each other. */
  function Expand(files: Files, f: string, from: nat, depth: nat): seq<Spot>
    requires from <= |LeavesOf(files, f)|
    decreases depth, |LeavesOf(files, f)| - from
  {
    if from == |LeavesOf(files, f)| then [] else
      [Spot(f, from)] + Inside(files, f, from, depth) + Expand(files, f, from + 1, depth)
  }

  function Inside(files: Files, f: string, from: nat, depth: nat): seq<Spot>
    requires from < |LeavesOf(files, f)|
    decreases depth, 0
  {
    var b := Followed(files, LeavesOf(files, f)[from]);
    if b.Some? && depth > 0 then Expand(files, b.value, 0, depth - 1) else []
  }

  predicate MutatesAt(files: Files, s: Spot) { s.place < |LeavesOf(files, s.file)| && Unestablished(LeavesOf(files, s.file)[s.place]) }

  predicate RiskyAt(files: Files, s: Spot) { s.place < |LeavesOf(files, s.file)| && RiskyProbe(LeavesOf(files, s.file)[s.place]) }

  /** The guard opens the file: the work list reaches it, or there is no `main.yml`. */
  ghost predicate Scanned(files: Files, f: string) { MAIN in files ==> Reachable(files, f) }

  /** The guard reports the task: it scans the file, and finds a mutator before it there. */
  ghost predicate ReportedAt(files: Files, s: Spot) {
    Scanned(files, s.file) && s.place < |LeavesOf(files, s.file)| && IsViolation(LeavesOf(files, s.file), s.place)
  }

  /** The task runs on what an earlier task of the whole run did not establish. */
  predicate FailsInRun(files: Files, run: seq<Spot>, n: nat)
    requires n < |run|
  {
    RiskyAt(files, run[n]) && exists m :: 0 <= m < n && MutatesAt(files, run[m])
  }

  /** When a run meets a task, it has met all earlier ones of the same file. */
  ghost predicate OwnBefore(run: seq<Spot>, f: string, from: nat) {
    forall n, i: nat :: 0 <= n < |run| && i < run[n].place ==> Met(run, n, Spot(run[n].file, i)) || (run[n].file == f && i < from)
  }

  ghost predicate Met(run: seq<Spot>, n: nat, s: Spot)
    requires n <= |run|
  {
    exists m :: 0 <= m < n && run[m] == s
  }

  lemma {:induction false} ExpandKeepsOrder(files: Files, f: string, from: nat, depth: nat)
    requires from <= |LeavesOf(files, f)|
    ensures OwnBefore(Expand(files, f, from, depth), f, from)
    decreases depth, |LeavesOf(files, f)| - from
  {
    hide LeavesOf, Followed;
    if from < |LeavesOf(files, f)| {
      var a, b := Inside(files, f, from, depth), Expand(files, f, from + 1, depth);
      var inner := Followed(files, LeavesOf(files, f)[from]);
      if inner.Some? && depth > 0 { ExpandKeepsOrder(files, inner.value, 0, depth - 1); }
      ExpandKeepsOrder(files, f, from + 1, depth);
      OneLevel(a, b, f, from, if inner.Some? then inner.value else "");
    }
  }

  lemma OneLevel(a: seq<Spot>, b: seq<Spot>, f: string, from: nat, inner: string)
    requires OwnBefore(a, inner, 0) && OwnBefore(b, f, from + 1)
    ensures OwnBefore([Spot(f, from)] + a + b, f, from)
  {
    var run := [Spot(f, from)] + a + b;
    forall n, i: nat | 0 <= n < |run| && i < run[n].place ensures Met(run, n, Spot(run[n].file, i)) || (run[n].file == f && i < from) {
      var s := Spot(run[n].file, i);
      if 1 <= n <= |a| {
        assert run[n] == a[n - 1];
        var m :| 0 <= m < n - 1 && a[m] == s;
        assert run[m + 1] == s;
      } else if n > |a| {
        var k := n - 1 - |a|;
        assert run[n] == b[k];
        if Met(b, k, s) {
          var m :| 0 <= m < k && b[m] == s;
          assert run[1 + |a| + m] == s;
        } else if i == from {
          assert run[0] == s;
        }
      }
    }
  }

  /** What the guard reports in a file that a run enters fails in that run. */
  lemma ReportedFails(files: Files, depth: nat, n: nat)
    requires n < |Expand(files, MAIN, 0, depth)| && ReportedAt(files, Expand(files, MAIN, 0, depth)[n])
    ensures FailsInRun(files, Expand(files, MAIN, 0, depth), n)
  {
    hide Expand, LeavesOf, RiskyProbe, Unestablished, Reachable;
    var run := Expand(files, MAIN, 0, depth);
    ExpandKeepsOrder(files, MAIN, 0, depth);
    var i: nat :| i < run[n].place && Unestablished(LeavesOf(files, run[n].file)[i]);
    assert Met(run, n, Spot(run[n].file, i));
  }

  // ---------- tasks and pairs of tasks in a run ----------

  ghost predicate Has(run: seq<Spot>, p: Spot -> bool) { exists n :: 0 <= n < |run| && p(run[n]) }

  /** Some task with `q` comes after one with `p`. */
  ghost predicate Late(run: seq<Spot>, p: Spot -> bool, q: Spot -> bool) {
    exists m, n :: 0 <= m < n < |run| && p(run[m]) && q(run[n])
  }

  lemma HasConcat(a: seq<Spot>, b: seq<Spot>, p: Spot -> bool)
    ensures Has(a + b, p) <==> Has(a, p) || Has(b, p)
  {
    var run := a + b;
    forall n | 0 <= n < |a| ensures run[n] == a[n] {}
    forall n | 0 <= n < |b| ensures run[|a| + n] == b[n] {}
    if Has(run, p) {
      var n :| 0 <= n < |run| && p(run[n]);
      assert if n < |a| then run[n] == a[n] else run[n] == b[n - |a|];
    }
  }

  lemma HasOne(s: Spot, p: Spot -> bool)
    ensures Has([s], p) <==> p(s)
  {
    assert [s][0] == s;
  }

  lemma LateConcat(a: seq<Spot>, b: seq<Spot>, p: Spot -> bool, q: Spot -> bool)
    ensures Late(a + b, p, q) <==> Late(a, p, q) || Late(b, p, q) || (Has(a, p) && Has(b, q))
  {
    var run := a + b;
    assert forall n :: 0 <= n < |a| ==> run[n] == a[n];
    forall n | 0 <= n < |b| ensures run[|a| + n] == b[n] {}
    if Late(run, p, q) {
      var m, n :| 0 <= m < n < |run| && p(run[m]) && q(run[n]);
      assert if n < |a| then run[n] == a[n] else run[n] == b[n - |a|];
      assert if m < |a| then run[m] == a[m] else run[m] == b[m - |a|];
    }
  }

  // ---------- the same on the files ----------

  ghost predicate EnterPath(files: Files, path: seq<string>, f: string, g: string) {
    path != [] && path[0] == f && path[|path| - 1] == g && forall k :: 0 <= k < |path| - 1 ==> IncludesDeep(files, path[k], path[k + 1])
  }

  /** A run of `f` enters `g`. */
  ghost predicate Enters(files: Files, f: string, g: string) { exists path :: EnterPath(files, path, f, g) }

  ghost predicate InFile(files: Files, f: string, s: Spot) { Enters(files, f, s.file) && s.place < |LeavesOf(files, s.file)| }

  /** A run of `f` meets a task with `p`: some file that it enters has one. */
  ghost predicate Meets(files: Files, f: string, p: Spot -> bool) { exists s :: InFile(files, f, s) && p(s) }

  /** So does the task at place `k`, or the file that is included there. */
  ghost predicate MeetsAt(files: Files, f: string, k: nat, p: Spot -> bool)
    requires k < |LeavesOf(files, f)|
  {
    p(Spot(f, k)) || IncludesMeeting(files, f, k, p)
  }

  ghost predicate IncludesMeeting(files: Files, f: string, k: nat, p: Spot -> bool)
    requires k < |LeavesOf(files, f)|
  {
    var b := Followed(files, LeavesOf(files, f)[k]);
    b.Some? && Meets(files, b.value, p)
  }

  /** In `f` itself, place `i` meets `p` and a later place meets `q`; or place `i` has `p` and
      includes what meets `q`. */
  ghost predicate LateAt(files: Files, f: string, i: nat, j: nat, p: Spot -> bool, q: Spot -> bool) {
    && i < |LeavesOf(files, f)| && j < |LeavesOf(files, f)|
    && ((i < j && MeetsAt(files, f, i, p) && MeetsAt(files, f, j, q)) || (i == j && p(Spot(f, i)) && IncludesMeeting(files, f, i, q)))
  }

  lemma EntersItself(files: Files, f: string)
    ensures Enters(files, f, f)
  {
    assert EnterPath(files, [f], f, f);
  }

  lemma FollowedIsEntered(files: Files, f: string, k: nat)
    requires k < |LeavesOf(files, f)| && Followed(files, LeavesOf(files, f)[k]).Some?
    ensures IncludesDeep(files, f, Followed(files, LeavesOf(files, f)[k]).value)
  {
    hide HasGate;
    assert f in files;
    var leaf := Flatten(files[f], "")[k];
    assert leaf.task.Task? && leaf.task.includes == Followed(files, leaf) && !HasGate(leaf.condition);
  }

  lemma EntersThrough(files: Files, f: string, b: string, g: string)
    requires IncludesDeep(files, f, b) && Enters(files, b, g)
    ensures Enters(files, f, g)
  {
    hide IncludesDeep;
    var path :| EnterPath(files, path, b, g);
    var longer := [f] + path;
    forall k | 0 <= k < |longer| - 1 ensures IncludesDeep(files, longer[k], longer[k + 1]) {
      if k > 0 { assert longer[k] == path[k - 1] && longer[k + 1] == path[k]; }
    }
    assert EnterPath(files, longer, f, g);
  }

  lemma MeetsAtMeets(files: Files, f: string, k: nat, p: Spot -> bool)
    requires k < |LeavesOf(files, f)| && MeetsAt(files, f, k, p)
    ensures Meets(files, f, p)
  {
    hide LeavesOf, IncludesDeep, Followed, Enters;
    if p(Spot(f, k)) {
      EntersItself(files, f);
      assert InFile(files, f, Spot(f, k));
    } else {
      var b := Followed(files, LeavesOf(files, f)[k]).value;
      FollowedIsEntered(files, f, k);
      var s :| InFile(files, b, s) && p(s);
      EntersThrough(files, f, b, s.file);
      assert InFile(files, f, s);
    }
  }

  // ---------- from the run to the files ----------

  lemma {:induction false} HasMeets(files: Files, f: string, from: nat, depth: nat, p: Spot -> bool) returns (k: nat)
    requires from <= |LeavesOf(files, f)| && Has(Expand(files, f, from, depth), p)
    ensures from <= k < |LeavesOf(files, f)| && MeetsAt(files, f, k, p)
    decreases depth, |LeavesOf(files, f)| - from
  {
    hide LeavesOf, Followed, Has, Meets;
    assert !Has([], p) by { NoneHas(p); }
    var one, inner, rest := [Spot(f, from)], Inside(files, f, from, depth), Expand(files, f, from + 1, depth);
    HasConcat(one + inner, rest, p);
    HasConcat(one, inner, p);
    HasOne(Spot(f, from), p);
    if Has(rest, p) {
      k := HasMeets(files, f, from + 1, depth, p);
    } else {
      k := from;
      if Has(inner, p) {
        var b := Followed(files, LeavesOf(files, f)[from]).value;
        var j := HasMeets(files, b, 0, depth - 1, p);
        MeetsAtMeets(files, b, j, p);
      }
    }
  }

  lemma NoneHas(p: Spot -> bool)
    ensures !Has([], p) && forall q :: !Late([], p, q)
  {}

  lemma {:induction false} LateIsSomewhere(files: Files, f: string, from: nat, depth: nat, p: Spot -> bool, q: Spot -> bool) returns (g: string, i: nat, j: nat)
    requires from <= |LeavesOf(files, f)| && Late(Expand(files, f, from, depth), p, q)
    ensures Enters(files, f, g) && LateAt(files, g, i, j, p, q)
    decreases depth, |LeavesOf(files, f)| - from
  {
    hide LeavesOf, Followed, Has, Late, Meets, Enters, IncludesDeep;
    NoneHas(p);
    NoneHas(q);
    EntersItself(files, f);
    var one, inner, rest := [Spot(f, from)], Inside(files, f, from, depth), Expand(files, f, from + 1, depth);
    LateConcat(one + inner, rest, p, q);
    LateConcat(one, inner, p, q);
    HasConcat(one, inner, p);
    HasOne(Spot(f, from), p);
    assert !Late(one, p, q) by { OneIsNotLate(Spot(f, from), p, q); }
    var b := Followed(files, LeavesOf(files, f)[from]);
    if Late(rest, p, q) {
      g, i, j := LateIsSomewhere(files, f, from + 1, depth, p, q);
    } else if Late(inner, p, q) {
      g, i, j := LateIsSomewhere(files, b.value, 0, depth - 1, p, q);
      FollowedIsEntered(files, f, from);
      EntersThrough(files, f, b.value, g);
    } else {
      g, i := f, from;
      if Has(inner, p) {
        var k := HasMeets(files, b.value, 0, depth - 1, p);
        MeetsAtMeets(files, b.value, k, p);
      }
      if Has(rest, q) {
        j := HasMeets(files, f, from + 1, depth, q);
      } else {
        j := from;
        var k := HasMeets(files, b.value, 0, depth - 1, q);
        MeetsAtMeets(files, b.value, k, q);
      }
    }
  }

  lemma OneIsNotLate(s: Spot, p: Spot -> bool, q: Spot -> bool)
    ensures !Late([s], p, q)
  {}

  // ---------- from the files to the run ----------

  /** The part of a run that belongs to one place of the file, between what comes before and after. */
  lemma {:induction false} PlaceInRun(files: Files, f: string, from: nat, k: nat, depth: nat) returns (before: seq<Spot>)
    requires from <= k < |LeavesOf(files, f)|
    ensures Expand(files, f, from, depth) == before + (([Spot(f, k)] + Inside(files, f, k, depth)) + Expand(files, f, k + 1, depth))
    decreases k - from
  {
    hide LeavesOf, Inside;
    if from == k {
      before := [];
    } else {
      var less := PlaceInRun(files, f, from + 1, k, depth);
      before := [Spot(f, from)] + Inside(files, f, from, depth) + less;
    }
  }

  lemma {:induction false} PathHas(files: Files, path: seq<string>, f: string, s: Spot, depth: nat, p: Spot -> bool)
    requires EnterPath(files, path, f, s.file) && s.place < |LeavesOf(files, s.file)| && p(s) && depth >= |path| - 1
    ensures Has(Expand(files, f, 0, depth), p)
    decreases |path|
  {
    hide LeavesOf, Has, IncludesDeep, Expand;
    if |path| == 1 {
      PlaceHas(files, f, s.place, depth, p);
      HasConcat([s], Inside(files, f, s.place, depth), p);
      HasOne(s, p);
    } else {
      var k := IncludedAt(files, f, path[1]);
      PathHas(files, path[1..], path[1], s, depth - 1, p);
      PlaceHas(files, f, k, depth, p);
      HasConcat([Spot(f, k)], Inside(files, f, k, depth), p);
    }
  }

  lemma PlaceHas(files: Files, f: string, k: nat, depth: nat, p: Spot -> bool)
    requires k < |LeavesOf(files, f)|
    ensures Has([Spot(f, k)] + Inside(files, f, k, depth), p) ==> Has(Expand(files, f, 0, depth), p)
  {
    hide LeavesOf, Has, Expand, Inside;
    var before := PlaceInRun(files, f, 0, k, depth);
    var here, rest := [Spot(f, k)] + Inside(files, f, k, depth), Expand(files, f, k + 1, depth);
    HasConcat(before, here + rest, p);
    HasConcat(here, rest, p);
  }

  lemma IncludedAt(files: Files, f: string, b: string) returns (k: nat)
    requires IncludesDeep(files, f, b)
    ensures k < |LeavesOf(files, f)| && Followed(files, LeavesOf(files, f)[k]) == Some(b)
  {
    hide HasGate;
    k :| k < |Flatten(files[f], "")| && Flatten(files[f], "")[k].task.Task? && Flatten(files[f], "")[k].task.includes == Some(b)
         && !HasGate(Flatten(files[f], "")[k].condition);
  }

  /** From some depth on, the run of a place has what it meets. */
  lemma MeetsFrom(files: Files, f: string, k: nat, p: Spot -> bool) returns (d: nat)
    requires k < |LeavesOf(files, f)| && MeetsAt(files, f, k, p)
    ensures forall depth :: depth >= d ==> Has([Spot(f, k)] + Inside(files, f, k, depth), p)
    ensures IncludesMeeting(files, f, k, p) && !p(Spot(f, k)) ==> forall depth :: depth >= d ==> Has(Inside(files, f, k, depth), p)
  {
    hide LeavesOf, Has, IncludesDeep, Expand, Followed, Enters;
    if p(Spot(f, k)) {
      d := 0;
      forall depth: nat ensures Has([Spot(f, k)] + Inside(files, f, k, depth), p) {
        HasConcat([Spot(f, k)], Inside(files, f, k, depth), p);
        HasOne(Spot(f, k), p);
      }
    } else {
      d := IncludesFrom(files, f, k, p);
      forall depth | depth >= d ensures Has([Spot(f, k)] + Inside(files, f, k, depth), p) {
        HasConcat([Spot(f, k)], Inside(files, f, k, depth), p);
      }
    }
  }

  lemma IncludesFrom(files: Files, f: string, k: nat, p: Spot -> bool) returns (d: nat)
    requires k < |LeavesOf(files, f)| && IncludesMeeting(files, f, k, p)
    ensures forall depth :: depth >= d ==> Has(Inside(files, f, k, depth), p)
  {
    hide LeavesOf, Has, IncludesDeep, Expand, Followed;
    var b := Followed(files, LeavesOf(files, f)[k]).value;
    var s :| InFile(files, b, s) && p(s);
    var path :| EnterPath(files, path, b, s.file);
    d := |path|;
    forall depth | depth >= d ensures Has(Inside(files, f, k, depth), p) { PathHas(files, path, b, s, depth - 1, p); }
  }

  lemma LateAtIsLate(files: Files, f: string, i: nat, j: nat, p: Spot -> bool, q: Spot -> bool) returns (depth: nat)
    requires LateAt(files, f, i, j, p, q)
    ensures Late(Expand(files, f, 0, depth), p, q)
  {
    hide LeavesOf, Has, Late, Expand, Inside, Meets, IncludesMeeting;
    if i < j {
      var d := MeetsFrom(files, f, i, p);
      var e := MeetsFrom(files, f, j, q);
      depth := if d < e then e else d;
      var before := PlaceInRun(files, f, 0, i, depth);
      var between := PlaceInRun(files, f, i + 1, j, depth);
      var here, there, rest := [Spot(f, i)] + Inside(files, f, i, depth), [Spot(f, j)] + Inside(files, f, j, depth), Expand(files, f, j + 1, depth);
      LateConcat(before, here + (between + (there + rest)), p, q);
      LateConcat(here, between + (there + rest), p, q);
      HasConcat(between, there + rest, q);
      HasConcat(there, rest, q);
    } else {
      depth := IncludesFrom(files, f, i, q);
      var before := PlaceInRun(files, f, 0, i, depth);
      var one, inner, rest := [Spot(f, i)], Inside(files, f, i, depth), Expand(files, f, i + 1, depth);
      LateConcat(before, (one + inner) + rest, p, q);
      LateConcat(one + inner, rest, p, q);
      LateConcat(one, inner, p, q);
      HasOne(Spot(f, i), p);
    }
  }

  lemma {:induction false} LateLifts(files: Files, path: seq<string>, f: string, g: string, depth: nat, p: Spot -> bool, q: Spot -> bool)
    requires EnterPath(files, path, f, g) && Late(Expand(files, g, 0, depth), p, q)
    ensures Late(Expand(files, f, 0, depth + |path| - 1), p, q)
    decreases |path|
  {
    hide LeavesOf, Has, Late, IncludesDeep, Expand;
    if |path| > 1 {
      var k := IncludedAt(files, f, path[1]);
      var deeper := depth + |path| - 1;
      LateLifts(files, path[1..], path[1], g, depth, p, q);
      var before := PlaceInRun(files, f, 0, k, deeper);
      var one, inner, rest := [Spot(f, k)], Inside(files, f, k, deeper), Expand(files, f, k + 1, deeper);
      LateConcat(before, (one + inner) + rest, p, q);
      LateConcat(one + inner, rest, p, q);
      LateConcat(one, inner, p, q);
    }
  }

  // ---------- when the guard misses nothing ----------

  ghost function Mutating(files: Files): Spot -> bool { s => MutatesAt(files, s) }

  /** A risky probe that the guard does not report. */
  ghost function Unreported(files: Files): Spot -> bool { s => RiskyAt(files, s) && !ReportedAt(files, s) }

  /** Every task that fails in a run, to any depth, is reported. */
  ghost predicate MissesNothing(files: Files) {
    forall depth: nat, n: nat :: n < |Expand(files, MAIN, 0, depth)| && FailsInRun(files, Expand(files, MAIN, 0, depth), n) ==>
      ReportedAt(files, Expand(files, MAIN, 0, depth)[n])
  }

  /** Some file that a run enters has a place that meets a mutator, and then one that meets an
      unreported risky probe. */
  ghost predicate SomeLateProbe(files: Files) {
    exists f, i, j :: Enters(files, MAIN, f) && LateAt(files, f, i, j, Mutating(files), Unreported(files))
  }

  lemma LateMeansMissed(files: Files, depth: nat)
    ensures Late(Expand(files, MAIN, 0, depth), Mutating(files), Unreported(files)) <==>
              exists n: nat :: n < |Expand(files, MAIN, 0, depth)| && FailsInRun(files, Expand(files, MAIN, 0, depth), n)
                && !ReportedAt(files, Expand(files, MAIN, 0, depth)[n])
  {
    hide Expand, MutatesAt, RiskyAt, ReportedAt;
    var run := Expand(files, MAIN, 0, depth);
    if Late(run, Mutating(files), Unreported(files)) {
      var m, n :| 0 <= m < n < |run| && Mutating(files)(run[m]) && Unreported(files)(run[n]);
      assert FailsInRun(files, run, n);
    }
    forall n: nat | n < |run| && FailsInRun(files, run, n) && !ReportedAt(files, run[n]) ensures Late(run, Mutating(files), Unreported(files)) {
      var m :| 0 <= m < n && MutatesAt(files, run[m]);
      assert Mutating(files)(run[m]) && Unreported(files)(run[n]);
    }
  }

  /** The guard misses nothing exactly when no file that a run enters meets a mutator and, later,
      a risky probe that is not reported in its own file. */
  lemma MissesNothingExactly(files: Files)
    ensures MissesNothing(files) <==> !SomeLateProbe(files)
  {
    hide Expand, FailsInRun, ReportedAt, Late, LateAt, Enters, Mutating, Unreported;
    if SomeLateProbe(files) {
      var f, i, j :| Enters(files, MAIN, f) && LateAt(files, f, i, j, Mutating(files), Unreported(files));
      var depth := LateInRun(files, f, i, j);
      LateMeansMissed(files, depth);
    } else if !MissesNothing(files) {
      var depth: nat, n: nat :| n < |Expand(files, MAIN, 0, depth)| && FailsInRun(files, Expand(files, MAIN, 0, depth), n)
        && !ReportedAt(files, Expand(files, MAIN, 0, depth)[n]);
      LateMeansMissed(files, depth);
      var f, i, j := LateIsSomewhere(files, MAIN, 0, depth, Mutating(files), Unreported(files));
      assert false;
    }
  }

  lemma LateInRun(files: Files, f: string, i: nat, j: nat) returns (depth: nat)
    requires Enters(files, MAIN, f) && LateAt(files, f, i, j, Mutating(files), Unreported(files))
    ensures Late(Expand(files, MAIN, 0, depth), Mutating(files), Unreported(files))
  {
    hide Expand, Late, LateAt, Mutating, Unreported, EnterPath;
    var d := LateAtIsLate(files, f, i, j, Mutating(files), Unreported(files));
    var path :| EnterPath(files, path, MAIN, f);
    assert path != [] by { PathIsNotEmpty(files, path, MAIN, f); }
    LateLifts(files, path, MAIN, f, d, Mutating(files), Unreported(files));
    depth := d + |path| - 1;
  }

  lemma PathIsNotEmpty(files: Files, path: seq<string>, f: string, g: string)
    requires EnterPath(files, path, f, g)
    ensures path != []
  {}

  // ---------- two probes that are missed ----------

  const OTHER := "b.yml"
  const COPY := Task("copy", "", None, Mutator, false, false, false, [])
  const CHECK := Task("check", "", None, Probe, true, false, false, [])
  const INCLUDE := Task("include", "", Some(OTHER), Neither, false, false, false, [])
  const BLOCK := Task("block", "", None, Neither, false, false, true, [INCLUDE])

  /** A mutator, and then an include of a file with a risky probe. */
  function AcrossFiles(): Files { map[MAIN := [COPY, INCLUDE], OTHER := [CHECK]] }

  /** A mutator and a risky probe in a file that is included inside a block. */
  function InsideBlock(): Files { map[MAIN := [BLOCK], OTHER := [COPY, CHECK]] }

  lemma NoCondition()
    ensures Combined("", "") == "" && !HasGate("")
  {}

  lemma PlainTasks(a: Item, b: Item)
    requires a.Task? && !a.block && a.condition == "" && b.Task? && !b.block && b.condition == ""
    ensures Flatten([a], "") == [Leaf(a, "")] && Flatten([a, b], "") == [Leaf(a, ""), Leaf(b, "")]
  {
    hide Combined;
    NoCondition();
    assert [a][1..] == [] && [b][1..] == [] && [a, b][1..] == [b];
    assert Flatten([b], "") == [Leaf(b, "")];
  }

  lemma AcrossLeaves()
    ensures LeavesOf(AcrossFiles(), MAIN) == [Leaf(COPY, ""), Leaf(INCLUDE, "")] && LeavesOf(AcrossFiles(), OTHER) == [Leaf(CHECK, "")]
  {
    hide Combined;
    NoCondition();
    assert OTHER != MAIN by { assert OTHER[0] != MAIN[0]; }
    PlainTasks(COPY, INCLUDE);
    PlainTasks(CHECK, CHECK);
  }

  lemma BlockLeaves()
    ensures LeavesOf(InsideBlock(), MAIN) == [Leaf(INCLUDE, "")] && LeavesOf(InsideBlock(), OTHER) == [Leaf(COPY, ""), Leaf(CHECK, "")]
  {
    hide Combined;
    NoCondition();
    assert OTHER != MAIN by { assert OTHER[0] != MAIN[0]; }
    PlainTasks(COPY, CHECK);
    PlainTasks(INCLUDE, INCLUDE);
    assert [BLOCK][1..] == [];
  }

  /** A probe in a file of its own is missed: its run is `copy`, `include`, `check`. */
  lemma AcrossFilesIsMissed()
    ensures Expand(AcrossFiles(), MAIN, 0, 1) == [Spot(MAIN, 0), Spot(MAIN, 1), Spot(OTHER, 0)]
    ensures FailsInRun(AcrossFiles(), Expand(AcrossFiles(), MAIN, 0, 1), 2) && !ReportedAt(AcrossFiles(), Spot(OTHER, 0))
    ensures !MissesNothing(AcrossFiles())
  {
    hide LeavesOf, HasGate, Reachable;
    var files := AcrossFiles();
    AcrossLeaves();
    NoCondition();
    assert Expand(files, OTHER, 0, 0) == [Spot(OTHER, 0)];
    assert Expand(files, MAIN, 2, 1) == [];
    assert Followed(files, Leaf(COPY, "")) == None && Followed(files, Leaf(INCLUDE, "")) == Some(OTHER);
    assert Expand(files, MAIN, 1, 1) == [Spot(MAIN, 1), Spot(OTHER, 0)];
    var run := Expand(files, MAIN, 0, 1);
    assert MutatesAt(files, run[0]) && RiskyAt(files, run[2]);
  }

  /** So is a probe in a file that the guard does not open. */
  lemma InsideBlockIsMissed()
    ensures Expand(InsideBlock(), MAIN, 0, 1) == [Spot(MAIN, 0), Spot(OTHER, 0), Spot(OTHER, 1)]
    ensures FailsInRun(InsideBlock(), Expand(InsideBlock(), MAIN, 0, 1), 2) && !ReportedAt(InsideBlock(), Spot(OTHER, 1))
    ensures !MissesNothing(InsideBlock())
  {
    hide LeavesOf, HasGate, Reachable;
    var files := InsideBlock();
    BlockLeaves();
    NoCondition();
    assert !Reachable(files, OTHER) by { OtherIsNotReached(); }
    assert Followed(files, Leaf(INCLUDE, "")) == Some(OTHER) && Followed(files, Leaf(COPY, "")) == None && Followed(files, Leaf(CHECK, "")) == None;
    assert Expand(files, OTHER, 2, 0) == [];
    assert Expand(files, OTHER, 1, 0) == [Spot(OTHER, 1)];
    assert Expand(files, OTHER, 0, 0) == [Spot(OTHER, 0), Spot(OTHER, 1)];
    assert Expand(files, MAIN, 1, 1) == [];
    var run := Expand(files, MAIN, 0, 1);
    assert MutatesAt(files, run[1]) && RiskyAt(files, run[2]);
  }

  lemma OtherIsNotReached()
    ensures !Reachable(InsideBlock(), OTHER)
  {
    hide HasGate;
    var files := InsideBlock();
    assert OTHER != MAIN by { assert OTHER[0] != MAIN[0]; }
    if Reachable(files, OTHER) {
      var p :| PathTo(files, p, OTHER);
      NoneIncluded(files, p);
    }
  }

  lemma NoneIncluded(files: Files, p: seq<string>)
    requires files == InsideBlock() && Path(files, p)
    ensures |p| == 1
  {
    hide HasGate;
    assert |p| > 1 ==> Includes(files, p[0], p[1]);
  }
}
