/** The guard over Ansible task files: which files a check-mode run reaches, and which probes
    in them run against state that check mode never established. */
module CheckModeGuard {
  import opened Text
  import opened Order

  datatype Kind = Mutator | Probe | Neither

  /** One entry of a task list. `sections` are the tasks of its block, rescue and always
      lists in that order, if it is a block at all; `Junk` entries are not mappings. */
  datatype Item =
    | Junk
    | Task(name: string, condition: string, includes: Option<string>, kind: Kind,
           realInCheckMode: bool, tolerated: bool, block: bool, sections: seq<Item>)

  type Files = map<string, seq<Item>>

  const MAIN := "main.yml"

  // ---------- the gate ----------

  predicate GateAt(s: string, i: nat) {
    i + 3 <= |s| && s[i..i + 3] == "not" &&
    var rest := DropWhile(PySpace, s[i + 3..]);
    |rest| < |s| - i - 3 && "ansible_check_mode" <= rest
  }

  /** `not\s+ansible_check_mode` somewhere in the condition. */
  predicate HasGate(s: string) { exists i :: 0 <= i < |s| && GateAt(s, i) }

  function Combined(inherited: string, own: string): string { Strip(PySpace, inherited + " " + own) }

  // ---------- reachable files ----------

  /** A top-level include of `a` that check mode follows to `b`. */
  predicate Includes(files: Files, a: string, b: string) {
    a in files && b in files && b != "" &&
    exists k :: 0 <= k < |files[a]| && files[a][k].Task? && files[a][k].includes == Some(b) && !HasGate(files[a][k].condition)
  }

  ghost predicate Path(files: Files, p: seq<string>) {
    p != [] && p[0] == MAIN && forall k :: 0 <= k < |p| - 1 ==> Includes(files, p[k], p[k + 1])
  }

  ghost predicate PathTo(files: Files, p: seq<string>, f: string) { Path(files, p) && p[|p| - 1] == f }

  ghost predicate Reachable(files: Files, f: string) { exists p :: PathTo(files, p, f) }

  lemma StepReachable(files: Files, a: string, b: string)
    requires Reachable(files, a) && Includes(files, a, b)
    ensures Reachable(files, b)
  {
    var p :| PathTo(files, p, a);
    var q := p + [b];
    forall k | 0 <= k < |q| - 1 ensures Includes(files, q[k], q[k + 1]) {}
    assert PathTo(files, q, b);
  }

  ghost predicate Closed(files: Files, done: set<string>, reach: set<string>) {
    forall a, b :: a in done && Includes(files, a, b) ==> b in reach
  }

  function Finished(reach: set<string>, queue: seq<string>): set<string> { set f | f in reach && f !in queue }

  lemma {:induction false} ClosedCovers(files: Files, reach: set<string>, p: seq<string>)
    requires MAIN in reach && Closed(files, reach, reach) && Path(files, p)
    ensures p[|p| - 1] in reach
    decreases |p|
  {
    if |p| > 1 {
      var less := p[..|p| - 1];
      forall k | 0 <= k < |less| - 1 ensures Includes(files, less[k], less[k + 1]) {
        assert Includes(files, p[k], p[k + 1]);
      }
      ClosedCovers(files, reach, less);
      assert Includes(files, p[|p| - 2], p[|p| - 1]);
    }
  }

  /** The work list: for cyclic include graphs too it ends with exactly the reachable files,
      or with all files when there is no `main.yml`. */
  method CheckReachableFiles(files: Files) returns (reach: set<string>)
    ensures MAIN !in files ==> reach == files.Keys
    ensures MAIN in files ==> forall f :: f in reach <==> Reachable(files, f)
  {
    if MAIN !in files { return files.Keys; }
    reach := {MAIN};
    var queue := [MAIN];
    assert PathTo(files, [MAIN], MAIN);
    while queue != []
      invariant MAIN in reach && reach <= files.Keys
      invariant forall f :: f in reach ==> Reachable(files, f)
      invariant NoDup(queue) && forall f :: f in queue ==> f in reach
      invariant Closed(files, Finished(reach, queue), reach)
      decreases |files.Keys - reach|, |queue|
    {
      hide HasGate;
      var current := queue[|queue| - 1];
      ghost var before, waiting := reach, queue;
      queue := queue[..|queue| - 1];
      assert waiting == queue + [current];
      var tasks := files[current];
      for k := 0 to |tasks|
        invariant MAIN in reach && before <= reach <= files.Keys
        invariant forall f :: f in reach ==> Reachable(files, f)
        invariant NoDup(queue) && current !in queue
        invariant forall f :: f in queue <==> f in reach && (f !in before || (f in waiting && f != current))
        invariant forall j :: 0 <= j < k && Follows(files, tasks[j]) ==> tasks[j].includes.value in reach
        invariant reach == before ==> |queue| == |waiting| - 1
      {
        if Follows(files, tasks[k]) {
          var inc := tasks[k].includes.value;
          if inc !in reach {
            assert Includes(files, current, inc);
            StepReachable(files, current, inc);
            reach := reach + {inc};
            queue := queue + [inc];
          }
        }
      }
      assert Closed(files, Finished(reach, queue), reach) by {
        forall a, b | a in reach && a !in queue && Includes(files, a, b) ensures b in reach {
          if a == current {
            var j :| 0 <= j < |tasks| && tasks[j].Task? && tasks[j].includes == Some(b) && !HasGate(tasks[j].condition);
            assert Follows(files, tasks[j]);
          } else {
            assert a in before && a !in waiting;
          }
        }
      }
      if reach != before { SmallerRest(files.Keys, before, reach); }
    }
    assert Finished(reach, queue) == reach;
    forall f | Reachable(files, f) ensures f in reach {
      var p :| PathTo(files, p, f);
      ClosedCovers(files, reach, p);
    }
  }

  predicate Follows(files: Files, t: Item) {
    t.Task? && t.includes.Some? && t.includes.value != "" && t.includes.value in files && !HasGate(t.condition)
  }

  lemma SmallerRest(all: set<string>, a: set<string>, b: set<string>)
    requires a < b <= all
    ensures |all - b| < |all - a|
  {
    var x :| x in b && x !in a;
    assert all - b <= (all - a) - {x};
    SubsetSize(all - b, (all - a) - {x});
  }

  lemma {:induction false} SubsetSize(a: set<string>, b: set<string>)
    requires a <= b
    ensures |a| <= |b|
  {
    if a != {} {
      var x :| x in a;
      SubsetSize(a - {x}, b - {x});
    }
  }

  // ---------- tasks with the conditions of their blocks ----------

  datatype Leaf = Leaf(task: Item, condition: string)

  function Flatten(items: seq<Item>, inherited: string): seq<Leaf> {
    if items == [] then [] else
      (match items[0]
       case Junk => []
       case Task(_, own, _, _, _, _, block, sections) =>
         if block then Flatten(sections, Combined(inherited, own))
         else [Leaf(items[0], Combined(inherited, own))])
      + Flatten(items[1..], inherited)
  }

  // ---------- an enclosing gate protects ----------

  const CHECK_MODE := "ansible_check_mode"

  /** A gate in the middle of a text is a gate of the text. */
  lemma GateInside(a: string, s: string, b: string, i: nat)
    requires i < |s| && GateAt(s, i)
    ensures GateAt(a + s + b, |a| + i)
  {
    var t, after := a + s + b, s[i + 3..];
    var rest := DropWhile(PySpace, after);
    assert t[|a| + i..|a| + i + 3] == s[i..i + 3];
    assert t[|a| + i + 3..] == after + b;
    DropWhilePrefix(PySpace, after, b);
    assert rest[0] == CHECK_MODE[0];
    assert CHECK_MODE <= rest + b by { assert (rest + b)[..|CHECK_MODE|] == rest[..|CHECK_MODE|]; }
  }

  lemma {:induction false} DropWhilePrefix(p: char -> bool, s: string, b: string)
    requires DropWhile(p, s) != ""
    ensures DropWhile(p, s + b) == DropWhile(p, s) + b
  {
    if p(s[0]) {
      assert (s + b)[1..] == s[1..] + b;
      DropWhilePrefix(p, s[1..], b);
    }
  }

  lemma {:induction false} DropWhileSplit(p: char -> bool, s: string)
    ensures var r := DropWhile(p, s); s == s[..|s| - |r|] + r && AllOf(p, s[..|s| - |r|])
  {
    if s != "" && p(s[0]) {
      DropWhileSplit(p, s[1..]);
      var r := DropWhile(p, s[1..]);
      assert s[..|s| - |r|] == [s[0]] + s[1..][..|s[1..]| - |r|];
    }
  }

  lemma {:induction false} DropEndSplit(p: char -> bool, s: string)
    ensures var r := DropEndWhile(p, s); r <= s && AllOf(p, s[|r|..])
  {
    if s != "" && p(s[|s| - 1]) { DropEndSplit(p, s[..|s| - 1]); }
  }

  /** What a gate needs: it starts at a letter, and it ends at a letter that stands in the text. */
  lemma GateSpan(s: string, i: nat) returns (e: nat)
    requires GateAt(s, i)
    ensures i < e < |s| && !PySpace(s[i]) && !PySpace(s[e])
    ensures forall k :: e < k <= |s| ==> GateAt(s[..k], i)
  {
    var after := s[i + 3..];
    var rest := DropWhile(PySpace, after);
    DropWhileSplit(PySpace, after);
    var gap := |after| - |rest|;
    e := i + 3 + gap + |CHECK_MODE| - 1;
    assert s[i] == s[i..i + 3][0] == 'n';
    assert s[e] == after[gap + |CHECK_MODE| - 1] == rest[|CHECK_MODE| - 1] == CHECK_MODE[|CHECK_MODE| - 1];
    forall k | e < k <= |s| ensures GateAt(s[..k], i) {
      var cut := s[..k];
      assert cut[i..i + 3] == s[i..i + 3];
      assert cut[i + 3..] == after[..k - i - 3];
      SkipGap(after, k - i - 3);
    }
  }

  lemma SkipGap(after: string, m: nat)
    requires CHECK_MODE <= DropWhile(PySpace, after) && |after| - |DropWhile(PySpace, after)| + |CHECK_MODE| <= m <= |after|
    ensures |DropWhile(PySpace, after[..m])| == |DropWhile(PySpace, after)| - (|after| - m)
    ensures CHECK_MODE <= DropWhile(PySpace, after[..m])
  {
    var rest := DropWhile(PySpace, after);
    DropWhileSplit(PySpace, after);
    var gap := |after| - |rest|;
    assert after[..m] == after[..gap] + rest[..m - gap];
    assert !PySpace(rest[0]) by { DropWhileHead(PySpace, after); }
    SkipAll(PySpace, after[..gap], rest[..m - gap]);
  }

  lemma {:induction false} SkipAll(p: char -> bool, a: string, b: string)
    requires AllOf(p, a) && b != "" && !p(b[0])
    ensures DropWhile(p, a + b) == b
  {
    if a == "" {
      assert a + b == b;
    } else {
      assert (a + b)[1..] == a[1..] + b;
      SkipAll(p, a[1..], b);
    }
  }

  lemma PrefixChars(p: char -> bool, s: string, a: nat)
    requires a <= |s| && AllOf(p, s[..a])
    ensures forall k :: 0 <= k < a ==> p(s[k])
  {
    forall k | 0 <= k < a ensures p(s[k]) { assert s[..a][k] == s[k]; }
  }

  lemma SuffixChars(p: char -> bool, s: string, a: nat)
    requires a <= |s| && AllOf(p, s[a..])
    ensures forall k :: a <= k < |s| ==> p(s[k])
  {
    forall k | a <= k < |s| ensures p(s[k]) { assert s[a..][k - a] == s[k]; }
  }

  lemma GateSurvivesStrip(s: string)
    requires HasGate(s)
    ensures HasGate(Strip(PySpace, s))
  {
    hide GateAt;
    var i :| 0 <= i < |s| && GateAt(s, i);
    var e := GateSpan(s, i);
    var t := DropWhile(PySpace, s);
    DropWhileSplit(PySpace, s);
    var a := |s| - |t|;
    PrefixChars(PySpace, s, a);
    assert t == s[a..];
    DropEndSplit(PySpace, t);
    var u := DropEndWhile(PySpace, t);
    SuffixChars(PySpace, t, |u|);
    assert t[e - a] == s[e];
    assert GateAt(s[..a + |u|], i);
    assert s[..a + |u|] == s[..a] + u;
    GateTail(s[..a], u, i);
  }

  lemma GateTail(a: string, u: string, i: nat)
    requires |a| <= i < |a + u| && GateAt(a + u, i)
    ensures HasGate(u)
  {
    assert (a + u)[i..i + 3] == u[i - |a|..i - |a| + 3];
    assert (a + u)[i + 3..] == u[i - |a| + 3..];
    assert GateAt(u, i - |a|);
  }

  /** A gate on a block, or on the task itself, is a gate on the task. */
  lemma GateInherited(inherited: string, own: string)
    requires HasGate(inherited) || HasGate(own)
    ensures HasGate(Combined(inherited, own))
  {
    hide GateAt;
    var s := inherited + " " + own;
    if HasGate(inherited) {
      var i :| 0 <= i < |inherited| && GateAt(inherited, i);
      GateInside("", inherited, " " + own, i);
      assert "" + inherited + (" " + own) == s;
      assert GateAt(s, i);
    } else {
      var i :| 0 <= i < |own| && GateAt(own, i);
      GateInside(inherited + " ", own, "", i);
      assert (inherited + " ") + own + "" == s;
      assert GateAt(s, |inherited| + 1 + i);
    }
    GateSurvivesStrip(s);
  }

  /** Everything inside a gated block is gated, however deeply nested. */
  lemma {:induction false} GatedBlockGatesAll(items: seq<Item>, inherited: string)
    requires HasGate(inherited)
    ensures forall k :: 0 <= k < |Flatten(items, inherited)| ==> HasGate(Flatten(items, inherited)[k].condition)
  {
    hide HasGate, Combined;
    if items != [] {
      GatedBlockGatesAll(items[1..], inherited);
      match items[0] {
        case Junk =>
        case Task(_, own, _, _, _, _, block, sections) =>
          GateInherited(inherited, own);
          if block { GatedBlockGatesAll(sections, Combined(inherited, own)); }
      }
    }
  }

  // ---------- violations ----------

  predicate Unestablished(leaf: Leaf) { leaf.task.Task? && leaf.task.kind == Mutator && !leaf.task.realInCheckMode }

  predicate RiskyProbe(leaf: Leaf) {
    leaf.task.Task? && leaf.task.kind == Probe && leaf.task.realInCheckMode && !HasGate(leaf.condition) && !leaf.task.tolerated
  }

  /** A probe that runs under check mode after a mutator that does not. */
  predicate IsViolation(leaves: seq<Leaf>, j: nat)
    requires j < |leaves|
  {
    RiskyProbe(leaves[j]) && exists i :: 0 <= i < j && Unestablished(leaves[i])
  }

  /** What the report names as the reason: the first mutator, or a later one while the name is empty. */
  function MutatorBefore(leaves: seq<Leaf>, n: nat): Option<string>
    requires n <= |leaves|
  {
    if n == 0 then None else
      var m := MutatorBefore(leaves, n - 1);
      if !Unestablished(leaves[n - 1]) || (m.Some? && m.value != "") then m else Some(leaves[n - 1].task.name)
  }

  lemma {:induction false} MutatorBeforeExists(leaves: seq<Leaf>, n: nat)
    requires n <= |leaves|
    ensures MutatorBefore(leaves, n).Some? <==> exists i :: 0 <= i < n && Unestablished(leaves[i])
  {
    if n > 0 { MutatorBeforeExists(leaves, n - 1); }
  }

  datatype Finding = Finding(probe: nat, after: string)

  /** The violations among the first `n` leaves, in document order. */
  function Violations(leaves: seq<Leaf>, n: nat): seq<Finding>
    requires n <= |leaves|
  {
    if n == 0 then [] else
      var m := MutatorBefore(leaves, n - 1);
      Violations(leaves, n - 1) + (if RiskyProbe(leaves[n - 1]) && m.Some? then [Finding(n - 1, m.value)] else [])
  }

  method ViolationsInFile(items: seq<Item>) returns (found: seq<Finding>)
    ensures found == Violations(Flatten(items, ""), |Flatten(items, "")|)
  {
    hide HasGate;
    found := [];
    var mutator: Option<string> := None;
    var leaves := Flatten(items, "");
    for j := 0 to |leaves|
      invariant found == Violations(leaves, j)
      invariant mutator == MutatorBefore(leaves, j)
    {
      var leaf := leaves[j];
      if leaf.task.Junk? || leaf.task.kind == Neither { continue; }
      if leaf.task.kind == Mutator && !leaf.task.realInCheckMode {
        mutator := if mutator.Some? && mutator.value != "" then mutator else Some(leaf.task.name);
        continue;
      }
      if leaf.task.kind == Probe && leaf.task.realInCheckMode && mutator.Some? && !HasGate(leaf.condition) && !leaf.task.tolerated {
        found := found + [Finding(j, mutator.value)];
      }
    }
  }

  ghost predicate Reports(found: seq<Finding>, j: nat) { exists k :: 0 <= k < |found| && found[k].probe == j }

  /** A leaf is reported exactly when it is a risky probe with an unestablished mutator before it. */
  lemma {:induction false} ViolationsExactly(leaves: seq<Leaf>, n: nat, j: nat)
    requires n <= |leaves| && j < |leaves|
    ensures Reports(Violations(leaves, n), j) <==> j < n && IsViolation(leaves, j)
  {
    hide HasGate;
    if n > 0 {
      ViolationsExactly(leaves, n - 1, j);
      MutatorBeforeExists(leaves, n - 1);
      var less, all := Violations(leaves, n - 1), Violations(leaves, n);
      assert Reports(less, j) ==> Reports(all, j) by {
        if Reports(less, j) {
          var k :| 0 <= k < |less| && less[k].probe == j;
          assert all[k] == less[k];
        }
      }
      if |all| > |less| { assert all[|less|].probe == n - 1; }
    }
  }

  /** A file of which every entry, block or task, is gated has no violations. */
  lemma GatedFileIsClean(items: seq<Item>)
    requires forall k :: 0 <= k < |items| ==> items[k].Junk? || HasGate(items[k].condition)
    ensures var leaves := Flatten(items, ""); Violations(leaves, |leaves|) == []
  {
    var leaves := Flatten(items, "");
    GatedEntriesGateAll(items, "");
    NoRiskNoViolation(leaves, |leaves|);
  }

  lemma {:induction false} GatedEntriesGateAll(items: seq<Item>, inherited: string)
    requires forall k :: 0 <= k < |items| ==> items[k].Junk? || HasGate(items[k].condition)
    ensures forall k :: 0 <= k < |Flatten(items, inherited)| ==> HasGate(Flatten(items, inherited)[k].condition)
  {
    hide HasGate, Combined;
    if items != [] {
      GatedEntriesGateAll(items[1..], inherited);
      if items[0].Task? {
        GateInherited(inherited, items[0].condition);
        if items[0].block { GatedBlockGatesAll(items[0].sections, Combined(inherited, items[0].condition)); }
      }
    }
  }

  lemma {:induction false} NoRiskNoViolation(leaves: seq<Leaf>, n: nat)
    requires n <= |leaves| && forall k :: 0 <= k < |leaves| ==> !RiskyProbe(leaves[k])
    ensures Violations(leaves, n) == []
  {
    if n > 0 { NoRiskNoViolation(leaves, n - 1); }
  }

  // ---------- includes inside blocks ----------

  /** An include anywhere in `a`, at top level or inside a block, that its conditions do not gate. */
  predicate IncludesDeep(files: Files, a: string, b: string) {
    a in files && b in files && b != "" &&
    exists k :: 0 <= k < |Flatten(files[a], "")| &&
      var leaf := Flatten(files[a], "")[k]; leaf.task.Task? && leaf.task.includes == Some(b) && !HasGate(leaf.condition)
  }

  /** The work list looks at top-level entries only: an ungated include inside a block is not
      followed, so the included file is reported as out of reach. */
  lemma BlockIncludeIsNotFollowed()
    ensures var inner := Task("inner", "", Some("b.yml"), Neither, false, false, false, []);
            var outer := Task("outer", "", None, Neither, false, false, true, [inner]);
            var files := map[MAIN := [outer], "b.yml" := []];
            IncludesDeep(files, MAIN, "b.yml") && !Reachable(files, "b.yml")
  {
    var inner := Task("inner", "", Some("b.yml"), Neither, false, false, false, []);
    var outer := Task("outer", "", None, Neither, false, false, true, [inner]);
    var files := map[MAIN := [outer], "b.yml" := []];
    var c := Combined(Combined("", ""), "");
    assert [inner][1..] == [] && [outer][1..] == [];
    assert Flatten([inner], Combined("", "")) == [Leaf(inner, c)];
    assert Flatten([outer], "") == [Leaf(inner, c)];
    assert Strip(PySpace, " ") == "" && "" + " " + "" == " ";
    assert c == "";
    assert !HasGate(c);
    assert IncludesDeep(files, MAIN, "b.yml") by { assert Flatten(files[MAIN], "")[0].task == inner; }
    assert Closed(files, {MAIN}, {MAIN});
    if Reachable(files, "b.yml") {
      var p :| PathTo(files, p, "b.yml");
      ClosedCovers(files, {MAIN}, p);
    }
  }

  ghost predicate DeepPath(files: Files, p: seq<string>) {
    p != [] && p[0] == MAIN && forall k :: 0 <= k < |p| - 1 ==> Includes(files, p[k], p[k + 1]) || IncludesDeep(files, p[k], p[k + 1])
  }

  ghost predicate DeepPathTo(files: Files, p: seq<string>, f: string) { DeepPath(files, p) && p[|p| - 1] == f }

  ghost predicate DeeplyReachable(files: Files, f: string) { exists p :: DeepPathTo(files, p, f) }

  /** The guard sees every reachable file exactly when no block of a file it sees includes one it
      does not: that is checked on the files that the work list returns, and needs no others. */
  lemma SeesAllExactly(files: Files)
    ensures (forall f :: DeeplyReachable(files, f) ==> Reachable(files, f)) <==>
            (forall a, b :: Reachable(files, a) && IncludesDeep(files, a, b) ==> Reachable(files, b))
  {
    hide Includes, IncludesDeep;
    if forall f :: DeeplyReachable(files, f) ==> Reachable(files, f) {
      forall a, b | Reachable(files, a) && IncludesDeep(files, a, b) ensures Reachable(files, b) {
        var p :| PathTo(files, p, a);
        var q := p + [b];
        forall k | 0 <= k < |q| - 1 ensures Includes(files, q[k], q[k + 1]) || IncludesDeep(files, q[k], q[k + 1]) {
          if k < |p| - 1 { assert Includes(files, p[k], p[k + 1]); }
        }
        assert DeepPathTo(files, q, b);
      }
    }
    if forall a, b :: Reachable(files, a) && IncludesDeep(files, a, b) ==> Reachable(files, b) {
      forall f | DeeplyReachable(files, f) ensures Reachable(files, f) {
        var p :| DeepPathTo(files, p, f);
        DeepPathStays(files, p);
      }
    }
  }

  lemma {:induction false} DeepPathStays(files: Files, p: seq<string>)
    requires DeepPath(files, p) && forall a, b :: Reachable(files, a) && IncludesDeep(files, a, b) ==> Reachable(files, b)
    ensures Reachable(files, p[|p| - 1])
    decreases |p|
  {
    hide Includes, IncludesDeep;
    if |p| == 1 {
      assert PathTo(files, p, MAIN);
    } else {
      var less := p[..|p| - 1];
      forall k | 0 <= k < |less| - 1 ensures Includes(files, less[k], less[k + 1]) || IncludesDeep(files, less[k], less[k + 1]) {
        assert Includes(files, p[k], p[k + 1]) || IncludesDeep(files, p[k], p[k + 1]);
      }
      DeepPathStays(files, less);
      var a, b := p[|p| - 2], p[|p| - 1];
      if Includes(files, a, b) { StepReachable(files, a, b); }
    }
  }

  // ---------- the gate and the findings, spelled out ----------

  ghost predicate GateParts(s: string, before: string, gap: string, after: string) {
    s == before + "not" + gap + "ansible_check_mode" + after && gap != "" && AllOf(PySpace, gap)
  }

  /** A condition is gated exactly when `not`, white space and `ansible_check_mode` stand in it in a row. */
  lemma GateExactly(s: string)
    ensures HasGate(s) <==> exists before, gap, after :: GateParts(s, before, gap, after)
  {
    hide GateAt, GateParts;
    if i: nat :| i < |s| && GateAt(s, i) { GateApart(s, i); }
    if before, gap, after :| GateParts(s, before, gap, after) { GateTogether(s, before, gap, after); }
  }

  lemma GateApart(s: string, i: nat)
    requires i < |s| && GateAt(s, i)
    ensures exists before, gap, after :: GateParts(s, before, gap, after)
  {
    hide PySpace, GateParts;
    var tail := s[i + 3..];
    var rest := DropWhile(PySpace, tail);
    DropWhileSplit(PySpace, tail);
    var gap, after := tail[..|tail| - |rest|], rest[|CHECK_MODE|..];
    assert rest == CHECK_MODE + after;
    PartsAre(s, i, gap, after);
  }

  lemma PartsAre(s: string, i: nat, gap: string, after: string)
    requires i + 3 <= |s| && s[i..i + 3] == "not" && s[i + 3..] == gap + (CHECK_MODE + after) && gap != "" && AllOf(PySpace, gap)
    ensures GateParts(s, s[..i], gap, after)
  {
    hide PySpace;
    var a, b := s[..i], s[i..i + 3];
    assert s == a + (b + (gap + (CHECK_MODE + after)));
    assert a + (b + (gap + (CHECK_MODE + after))) == a + b + gap + CHECK_MODE + after;
  }

  lemma GateTogether(s: string, before: string, gap: string, after: string)
    requires GateParts(s, before, gap, after)
    ensures HasGate(s)
  {
    hide DropWhile, PySpace;
    var i, rest := |before|, CHECK_MODE + after;
    assert s == before + ("not" + (gap + rest));
    assert s[i..i + 3] == "not" && s[i + 3..] == gap + rest;
    assert rest[0] == 'a' && !PySpace('a') by { LetterIsNoSpace(); }
    SkipAll(PySpace, gap, rest);
    assert GateAt(s, i);
  }

  /** A task is reported exactly when it is a command that runs for real in check mode, can fail the
      play and is not gated, and some task before it that changes state does not run in check mode. */
  lemma FindingExactly(items: seq<Item>, j: nat)
    requires j < |Flatten(items, "")|
    ensures var leaves := Flatten(items, "");
            Reports(Violations(leaves, |leaves|), j) <==>
              && leaves[j].task.Task? && leaves[j].task.kind == Probe && leaves[j].task.realInCheckMode && !leaves[j].task.tolerated
              && !HasGate(leaves[j].condition)
              && exists i :: 0 <= i < j && leaves[i].task.Task? && leaves[i].task.kind == Mutator && !leaves[i].task.realInCheckMode
  {
    hide HasGate, Violations;
    var leaves := Flatten(items, "");
    ViolationsExactly(leaves, |leaves|, j);
  }

  /** The first task before place `n` that changes state, does not run in check mode, and has a name. */
  ghost predicate NamedFirst(leaves: seq<Leaf>, n: nat, i: int)
    requires n <= |leaves|
  {
    && 0 <= i < n && Unestablished(leaves[i]) && leaves[i].task.name != ""
    && forall j :: 0 <= j < i && Unestablished(leaves[j]) ==> leaves[j].task.name == ""
  }

  lemma {:induction false} BlamedExactly(leaves: seq<Leaf>, n: nat)
    requires n <= |leaves|
    ensures var m := MutatorBefore(leaves, n);
            && (m.Some? && m.value != "" ==> exists i :: NamedFirst(leaves, n, i) && leaves[i].task.name == m.value)
            && (m.None? || m.value == "" ==> forall i :: 0 <= i < n && Unestablished(leaves[i]) ==> leaves[i].task.name == "")
  {
    if n > 0 {
      BlamedExactly(leaves, n - 1);
      var m, less := MutatorBefore(leaves, n), MutatorBefore(leaves, n - 1);
      if less.Some? && less.value != "" {
        var i :| NamedFirst(leaves, n - 1, i) && leaves[i].task.name == less.value;
        assert NamedFirst(leaves, n, i);
      } else if m.Some? && m.value != "" {
        assert NamedFirst(leaves, n, n - 1);
      }
    }
  }

  ghost predicate Ordered(leaves: seq<Leaf>, found: seq<Finding>, n: nat) {
    && (forall k :: 0 <= k < |found| ==> found[k].probe < n <= |leaves| && MutatorBefore(leaves, found[k].probe) == Some(found[k].after))
    && (forall j, k :: 0 <= j < k < |found| ==> found[j].probe < found[k].probe)
  }

  /** The findings come in the order of the tasks, and each blames the first named mutator before it. */
  lemma {:induction false} FindingsInOrder(leaves: seq<Leaf>, n: nat)
    requires n <= |leaves|
    ensures Ordered(leaves, Violations(leaves, n), n)
  {
    hide HasGate, Ordered;
    if n > 0 {
      FindingsInOrder(leaves, n - 1);
      OrderedMore(leaves, Violations(leaves, n - 1), n);
      assert Violations(leaves, n - 1) + [] == Violations(leaves, n - 1);
    } else {
      NoneOrdered(leaves);
    }
  }

  lemma NoneOrdered(leaves: seq<Leaf>)
    ensures Ordered(leaves, [], 0)
  {}

  lemma OrderedMore(leaves: seq<Leaf>, found: seq<Finding>, n: nat)
    requires 0 < n <= |leaves| && Ordered(leaves, found, n - 1)
    ensures Ordered(leaves, found, n)
    ensures MutatorBefore(leaves, n - 1).Some? ==> Ordered(leaves, found + [Finding(n - 1, MutatorBefore(leaves, n - 1).value)], n)
  {
    hide MutatorBefore;
  }

  /** A file that is included under a gate only is out of reach. */
  lemma GatedIncludesStop(files: Files, b: string)
    requires b != MAIN
    requires forall a, k :: a in files && 0 <= k < |files[a]| && files[a][k].Task? && files[a][k].includes == Some(b) ==> HasGate(files[a][k].condition)
    ensures !Reachable(files, b)
  {
    hide HasGate, Includes;
    if Reachable(files, b) {
      var p :| PathTo(files, p, b);
      NotIncluded(files, p[|p| - 2], b);
    }
  }

  lemma NotIncluded(files: Files, a: string, b: string)
    requires forall a, k :: a in files && 0 <= k < |files[a]| && files[a][k].Task? && files[a][k].includes == Some(b) ==> HasGate(files[a][k].condition)
    ensures !Includes(files, a, b)
  {
    hide HasGate;
  }
}
