/** From the files a commit changes to the ordered list of deploy targets, and the gates. */
module AutodeployPlan {
  import opened Text
  import opened Order
  import opened Lists

  /** The role map, and the roles that collapse into `base`. */
  datatype Roles = Roles(targets: map<string, string>, base: set<string>)

  const BASE := "base"
  const RUNTIME := "homelab-runtime"
  const EXTRA_FILE_TARGETS := map["CHANGELOG.md" := "homepage", "scripts/go-source-id.py" := RUNTIME]

  function Replace(s: string, from: char, to: char): string {
    seq(|s|, i requires 0 <= i < |s| => if s[i] == from then to else s[i])
  }

  function RoleToTarget(role: string, roles: Roles): Option<string> {
    if role in roles.base then Some(BASE)
    else if role in roles.targets then
      if roles.targets[role] == "" then None else Some(roles.targets[role])
    else Some(Replace(role, '_', '-'))
  }

  function CleanPath(f: string): string {
    DropWhile(c => c == '.' || c == '/', Strip(PySpace, f))
  }

  /** The one target a changed file stands for, if any. */
  function Implied(file: string, roles: Roles): (t: Option<string>)
    ensures t != Some("")
  {
    var f := CleanPath(file);
    if f in EXTRA_FILE_TARGETS then Some(EXTRA_FILE_TARGETS[f])
    else if "runtime/" <= f then Some(RUNTIME)
    else if !("ansible/" <= f) then None
    else
      var parts := Split(f, '/');
      var t :=
        if |parts| >= 3 && parts[1] == "roles" then RoleToTarget(parts[2], roles)
        else if |parts| >= 3 && parts[1] == "playbooks" && EndsWith(parts[2], ".yml") then
          var name := parts[2][..|parts[2]| - 4];
          if "verify-" <= name then None else Some(name)
        else None;
      if t == Some("") then None else t
  }

  // ---------- which files stand for which target ----------

  lemma SplitPath(top: string, place: string, last: string, rest: string)
    requires '/' !in top && '/' !in place && '/' !in last
    ensures Split(top + ['/'] + (place + ['/'] + last), '/') == [top, place, last]
    ensures var parts := Split(top + ['/'] + (place + ['/'] + (last + ['/'] + rest)), '/');
            |parts| >= 4 && parts[0] == top && parts[1] == place && parts[2] == last
  {
    hide Split;
    SplitHead(top, '/', place + ['/'] + last);
    SplitHead(place, '/', last);
    SplitWord(last, '/');
    SplitHead(top, '/', place + ['/'] + (last + ['/'] + rest));
    SplitHead(place, '/', last + ['/'] + rest);
    SplitHead(last, '/', rest);
  }

  lemma AnsiblePath(f: string)
    requires "ansible/" <= f && Strip(PySpace, f) == f
    ensures CleanPath(f) == f && f !in EXTRA_FILE_TARGETS && !("runtime/" <= f)
  {
    assert f[0] == 'a';
    assert "CHANGELOG.md"[0] == 'C' && "scripts/go-source-id.py"[0] == 's' && "runtime/"[0] == 'r';
  }

  /** A file of a role, or one beside the roles that is taken for a role of its name, stands for
      the target of the role: `base` for a base role, the mapped target if the role is mapped
      (nothing for an empty one), else its name with hyphens. */
  lemma RoleFile(role: string, tail: string, roles: Roles)
    requires role != "" && '/' !in role && (tail == "" || tail[0] == '/')
    requires Strip(PySpace, "ansible/roles/" + role + tail) == "ansible/roles/" + role + tail
    ensures var t := Implied("ansible/roles/" + role + tail, roles);
            && (role in roles.base ==> t == Some(BASE))
            && (role !in roles.base && role in roles.targets ==> if roles.targets[role] == "" then t == None else t == Some(roles.targets[role]))
            && (role !in roles.base && role !in roles.targets ==>
                  t.Some? && |t.value| == |role| && forall i :: 0 <= i < |role| ==> t.value[i] == if role[i] == '_' then '-' else role[i])
  {
    hide Split, Strip;
    var f := "ansible/roles/" + role + tail;
    var rest := if tail == "" then "" else tail[1..];
    assert tail == "" ==> f == "ansible" + ['/'] + ("roles" + ['/'] + role);
    assert tail != "" ==> tail == ['/'] + rest && f == "ansible" + ['/'] + ("roles" + ['/'] + (role + ['/'] + rest));
    AnsiblePath(f);
    SplitPath("ansible", "roles", role, rest);
  }

  /** A playbook stands for the target of its name, unless it only verifies. */
  lemma PlaybookFile(name: string, roles: Roles)
    requires '/' !in name && Strip(PySpace, "ansible/playbooks/" + (name + ".yml")) == "ansible/playbooks/" + (name + ".yml")
    ensures Implied("ansible/playbooks/" + (name + ".yml"), roles) == if name == "" || "verify-" <= name then None else Some(name)
  {
    hide Split, Strip;
    var f := "ansible/playbooks/" + (name + ".yml");
    assert f == "ansible" + ['/'] + ("playbooks" + ['/'] + (name + ".yml"));
    AnsiblePath(f);
    SplitPath("ansible", "playbooks", name + ".yml", "");
    assert (name + ".yml")[..|name|] == name;
  }

  /** Any other file stands for nothing, the two extra files and the runtime sources apart. */
  lemma OtherFile(file: string, roles: Roles)
    requires var f := CleanPath(file); !("ansible/roles/" <= f) && !("ansible/playbooks/" <= f)
    ensures var f := CleanPath(file);
            Implied(file, roles) == if f in EXTRA_FILE_TARGETS then Some(EXTRA_FILE_TARGETS[f]) else if "runtime/" <= f then Some(RUNTIME) else None
  {
    hide Split, CleanPath, RoleToTarget, EndsWith;
    if "ansible/" <= CleanPath(file) { AnsiblePlaces(CleanPath(file)); }
  }

  lemma AnsiblePlaces(f: string)
    requires "ansible/" <= f
    ensures var parts := Split(f, '/');
            |parts| >= 3 ==> (parts[1] == "roles" ==> "ansible/roles/" <= f) && (parts[1] == "playbooks" ==> "ansible/playbooks/" <= f)
  {
    hide Split;
    var parts := Split(f, '/');
    JoinSplit(f, '/');
    assert f == "ansible" + ['/'] + f[8..];
    SplitHead("ansible", '/', f[8..]);
    if |parts| >= 3 {
      assert parts[1..][1..] == parts[2..];
      assert Join(parts, '/') == parts[0] + ['/'] + (parts[1] + ['/'] + Join(parts[2..], '/'));
      assert f == "ansible/" + (parts[1] + ['/'] + Join(parts[2..], '/'));
    }
  }

  // ---------- ordered lists without repeats ----------

  function FirstSeen(xs: seq<string>): seq<string> {
    if xs == [] then [] else
      var seen := FirstSeen(xs[..|xs| - 1]);
      if xs[|xs| - 1] in seen then seen else seen + [xs[|xs| - 1]]
  }

  lemma {:induction false} FirstSeenIn(xs: seq<string>, x: string)
    ensures x in FirstSeen(xs) <==> x in xs
  {
    if xs != [] {
      FirstSeenIn(xs[..|xs| - 1], x);
      assert xs == xs[..|xs| - 1] + [xs[|xs| - 1]];
    }
  }

  lemma {:induction false} FirstSeenNoDup(xs: seq<string>)
    ensures NoDup(FirstSeen(xs))
  {
    if xs != [] { FirstSeenNoDup(xs[..|xs| - 1]); }
  }

  lemma {:induction false} FirstSeenFilter(keep: string -> bool, xs: seq<string>)
    ensures FirstSeen(Filter(keep, xs)) == Filter(keep, FirstSeen(xs))
  {
    if xs != [] {
      var less, x := xs[..|xs| - 1], xs[|xs| - 1];
      FirstSeenFilter(keep, less);
      FilterIn(keep, FirstSeen(less), x);
      assert (FirstSeen(less) + [x])[..|FirstSeen(less)|] == FirstSeen(less);
      if keep(x) {
        assert (Filter(keep, less) + [x])[..|Filter(keep, less)|] == Filter(keep, less);
      } else {
        assert Filter(keep, less) + [] == Filter(keep, less);
      }
    }
  }

  // ---------- the plan ----------

  function ImpliedBy(files: seq<string>, roles: Roles): seq<string> {
    if files == [] then [] else
      ImpliedBy(files[..|files| - 1], roles) +
      (match Implied(files[|files| - 1], roles) case Some(t) => [t] case None => [])
  }

  function Others(files: seq<string>, roles: Roles): seq<string> {
    FirstSeen(Filter(t => t != BASE && t != RUNTIME, ImpliedBy(files, roles)))
  }

  /** The plan without gates. */
  function FullPlan(files: seq<string>, roles: Roles): seq<string> {
    (if BASE in ImpliedBy(files, roles) then [BASE] else []) +
    ((if RUNTIME in ImpliedBy(files, roles) then [RUNTIME] else []) + Others(files, roles))
  }

  predicate Auto(t: string, allow: set<string>, deny: set<string>) {
    (allow == {} || t in allow) && t !in deny
  }

  function Plan(files: seq<string>, roles: Roles, allow: set<string>, deny: set<string>): seq<string> {
    Filter(t => Auto(t, allow, deny), FullPlan(files, roles))
  }

  /** `[t for t in xs if keep(t)]` */
  method Select(keep: string -> bool, xs: seq<string>) returns (r: seq<string>)
    ensures r == Filter(keep, xs)
  {
    r := [];
    for i := 0 to |xs|
      invariant r == Filter(keep, xs[..i])
    {
      assert xs[..i + 1][..i] == xs[..i];
      if keep(xs[i]) { r := r + [xs[i]]; }
    }
    assert xs[..|xs|] == xs;
  }

  method PlanTargets(files: seq<string>, roles: Roles, allow: set<string>, deny: set<string>) returns (ordered: seq<string>)
    ensures ordered == Plan(files, roles, allow, deny)
  {
    hide Implied, Auto, FirstSeen, Filter;
    var targets: seq<string>, sawBase := [], false;
    assert targets == Seen([], roles) by { NothingSeen(roles); }
    for i := 0 to |files|
      invariant targets == Seen(files[..i], roles)
      invariant sawBase <==> BASE in ImpliedBy(files[..i], roles)
    {
      SeenMore(files[..i], files[i], roles);
      assert files[..i + 1] == files[..i] + [files[i]];
      var t := Implied(files[i], roles);
      if t == Some(BASE) {
        sawBase := true;
      } else if t.Some? && t.value !in targets {
        targets := targets + [t.value];
      }
    }
    assert files[..|files|] == files;
    SeenRest(files, roles);
    if RUNTIME in targets {
      var rest := Select(t => t != RUNTIME, targets);
      targets := [RUNTIME] + rest;
    }
    ordered := (if sawBase then [BASE] else []) + targets;
    assert ordered == FullPlan(files, roles);
    GatesOneByOne(ordered, allow, deny);
    if allow != {} { ordered := Select(t => t in allow, ordered); }
    if deny != {} { ordered := Select(t => t !in deny, ordered); }
  }

  /** What the loop has collected: everything implied except `base`. */
  ghost function Seen(files: seq<string>, roles: Roles): seq<string> {
    FirstSeen(Filter(t => t != BASE, ImpliedBy(files, roles)))
  }

  lemma NothingSeen(roles: Roles)
    ensures Seen([], roles) == []
  {}

  lemma SeenMore(files: seq<string>, f: string, roles: Roles)
    ensures var t, s := Implied(f, roles), Seen(files, roles);
            Seen(files + [f], roles) == (if t.None? || t == Some(BASE) || t.value in s then s else s + [t.value])
    ensures BASE in ImpliedBy(files + [f], roles) <==> BASE in ImpliedBy(files, roles) || Implied(f, roles) == Some(BASE)
  {
    hide Implied;
    assert (files + [f])[..|files|] == files;
    var all, t := ImpliedBy(files, roles), Implied(f, roles);
    if t.Some? {
      assert ImpliedBy(files + [f], roles) == all + [t.value];
      assert (all + [t.value])[..|all|] == all;
      var kept := Filter(u => u != BASE, all);
      if t == Some(BASE) {
        assert Filter(u => u != BASE, all + [t.value]) == kept;
      } else {
        assert Filter(u => u != BASE, all + [t.value]) == kept + [t.value];
        assert (kept + [t.value])[..|kept|] == kept;
      }
    } else {
      assert ImpliedBy(files + [f], roles) == all;
    }
  }

  /** Moving `homelab-runtime` to the front leaves the others in first-seen order. */
  lemma SeenRest(files: seq<string>, roles: Roles)
    ensures var s := Seen(files, roles);
            && (RUNTIME in s <==> RUNTIME in ImpliedBy(files, roles))
            && Filter(t => t != RUNTIME, s) == Others(files, roles)
            && (RUNTIME !in s ==> s == Others(files, roles))
  {
    var all := ImpliedBy(files, roles);
    var kept := Filter(t => t != BASE, all);
    FirstSeenIn(kept, RUNTIME);
    FilterIn(t => t != BASE, all, RUNTIME);
    FilterTwice(t => t != BASE, t => t != RUNTIME, t => t != BASE && t != RUNTIME, all);
    FirstSeenFilter(t => t != RUNTIME, kept);
    if RUNTIME !in Seen(files, roles) { FilterAll(t => t != RUNTIME, Seen(files, roles)); }
  }

  lemma GatesOneByOne(full: seq<string>, allow: set<string>, deny: set<string>)
    ensures var allowed := if allow != {} then Filter(t => t in allow, full) else full;
            (if deny != {} then Filter(t => t !in deny, allowed) else allowed) == Filter(t => Auto(t, allow, deny), full)
  {
    FilterTwice(t => allow == {} || t in allow, t => t !in deny, t => Auto(t, allow, deny), full);
    var open := Filter(t => allow == {} || t in allow, full);
    if allow == {} {
      FilterAll(t => allow == {} || t in allow, full);
    } else {
      FilterTwice(t => t in allow, t => true, t => allow == {} || t in allow, full);
      FilterAll(t => true, Filter(t => t in allow, full));
    }
    if deny == {} { FilterAll(t => t !in deny, open); }
  }

  // ---------- what the plan is ----------

  predicate ImpliedByOne(files: seq<string>, roles: Roles, t: string) {
    exists i :: 0 <= i < |files| && Implied(files[i], roles) == Some(t)
  }

  lemma {:induction false} ImpliedByIn(files: seq<string>, roles: Roles, t: string)
    ensures t in ImpliedBy(files, roles) <==> ImpliedByOne(files, roles, t)
  {
    hide Implied;
    if files != [] {
      var less, f := files[..|files| - 1], files[|files| - 1];
      ImpliedByIn(less, roles, t);
      if t in ImpliedBy(less, roles) {
        var i :| 0 <= i < |less| && Implied(less[i], roles) == Some(t);
        assert files[i] == less[i];
      }
      if ImpliedByOne(files, roles, t) {
        var i :| 0 <= i < |files| && Implied(files[i], roles) == Some(t);
        assert i < |less| ==> less[i] == files[i];
      }
    }
  }

  /** The first changed file that stands for `t`. */
  function FirstFile(files: seq<string>, roles: Roles, t: string): nat {
    if files == [] then 0
    else
      var first := FirstFile(files[..|files| - 1], roles, t);
      if first < |files| - 1 || Implied(files[|files| - 1], roles) == Some(t) then first else |files|
  }

  lemma {:induction false} FirstFileSpec(files: seq<string>, roles: Roles, t: string)
    ensures var k := FirstFile(files, roles, t);
            && k <= |files| && (k < |files| ==> Implied(files[k], roles) == Some(t))
            && forall i :: 0 <= i < k ==> Implied(files[i], roles) != Some(t)
  {
    hide Implied;
    if files != [] {
      var less := files[..|files| - 1];
      FirstFileSpec(less, roles, t);
      forall i | 0 <= i < |less| ensures less[i] == files[i] {}
    }
  }

  lemma OthersMore(files: seq<string>, f: string, roles: Roles)
    ensures var t, o := Implied(f, roles), Others(files, roles);
            Others(files + [f], roles) == (if t.None? || t == Some(BASE) || t == Some(RUNTIME) || t.value in o then o else o + [t.value])
  {
    hide Implied;
    assert (files + [f])[..|files|] == files;
    var all, t := ImpliedBy(files, roles), Implied(f, roles);
    if t.Some? {
      assert ImpliedBy(files + [f], roles) == all + [t.value];
      assert (all + [t.value])[..|all|] == all;
      var kept := Filter(u => u != BASE && u != RUNTIME, all);
      if t == Some(BASE) || t == Some(RUNTIME) {
        assert Filter(u => u != BASE && u != RUNTIME, all + [t.value]) == kept;
      } else {
        assert Filter(u => u != BASE && u != RUNTIME, all + [t.value]) == kept + [t.value];
        assert (kept + [t.value])[..|kept|] == kept;
      }
    } else {
      assert ImpliedBy(files + [f], roles) == all;
    }
  }

  lemma OthersIn(files: seq<string>, roles: Roles, t: string)
    ensures t in Others(files, roles) <==> t != BASE && t != RUNTIME && ImpliedByOne(files, roles, t)
  {
    hide ImpliedByOne;
    FirstSeenIn(Filter(u => u != BASE && u != RUNTIME, ImpliedBy(files, roles)), t);
    FilterIn(u => u != BASE && u != RUNTIME, ImpliedBy(files, roles), t);
    ImpliedByIn(files, roles, t);
  }

  ghost predicate ByFirstFile(ts: seq<string>, files: seq<string>, roles: Roles) {
    forall i, j :: 0 <= i < j < |ts| ==> FirstFile(files, roles, ts[i]) < FirstFile(files, roles, ts[j])
  }

  lemma {:induction false} OthersOrder(files: seq<string>, roles: Roles)
    ensures ByFirstFile(Others(files, roles), files, roles)
    ensures forall t :: t in Others(files, roles) ==> FirstFile(files, roles, t) < |files|
  {
    hide Implied, Others, ImpliedByOne;
    assert files == [] ==> Others(files, roles) == [] by { OthersOfNothing(roles); }
    if files != [] {
      var less, f := files[..|files| - 1], files[|files| - 1];
      assert files == less + [f];
      OthersOrder(less, roles);
      OthersMore(less, f, roles);
      var o, t := Others(less, roles), Implied(f, roles);
      forall u | u in o ensures FirstFile(files, roles, u) == FirstFile(less, roles, u) {}
      if t.Some? && t.value !in o {
        FirstFileSpec(less, roles, t.value);
        if t != Some(BASE) && t != Some(RUNTIME) {
          OthersIn(less, roles, t.value);
          assert FirstFile(less, roles, t.value) == |less| by { NotImplied(less, roles, t.value); }
        }
      }
    }
  }

  lemma OthersOfNothing(roles: Roles)
    ensures Others([], roles) == []
  {}

  lemma NotImplied(files: seq<string>, roles: Roles, t: string)
    requires !ImpliedByOne(files, roles, t)
    ensures FirstFile(files, roles, t) == |files|
  {
    hide Implied;
    FirstFileSpec(files, roles, t);
  }

  /** The ungated plan: no repeats; exactly the implied targets; `base` first, then
      `homelab-runtime`, then the others in the order of their first changed file. */
  lemma FullPlanShape(files: seq<string>, roles: Roles)
    ensures NoDup(FullPlan(files, roles))
    ensures forall t :: t in FullPlan(files, roles) <==> ImpliedByOne(files, roles, t)
    ensures ImpliedByOne(files, roles, BASE) ==> FullPlan(files, roles)[0] == BASE
    ensures ImpliedByOne(files, roles, RUNTIME) ==>
              var k := if ImpliedByOne(files, roles, BASE) then 1 else 0; |FullPlan(files, roles)| > k && FullPlan(files, roles)[k] == RUNTIME
    ensures ByFirstFile(Filter(t => t != BASE && t != RUNTIME, FullPlan(files, roles)), files, roles)
  {
    hide Implied, ImpliedByOne, Others, ByFirstFile, FirstSeen, Filter, NoDup;
    var o := Others(files, roles);
    ImpliedByIn(files, roles, BASE);
    ImpliedByIn(files, roles, RUNTIME);
    forall t ensures t in o <==> t != BASE && t != RUNTIME && ImpliedByOne(files, roles, t) { OthersIn(files, roles, t); }
    OthersNoDup(files, roles);
    OthersOrder(files, roles);
    Stacked(BASE in ImpliedBy(files, roles), RUNTIME in ImpliedBy(files, roles), o);
    OnlyOthers(BASE in ImpliedBy(files, roles), RUNTIME in ImpliedBy(files, roles), o);
  }

  lemma OthersNoDup(files: seq<string>, roles: Roles)
    ensures NoDup(Others(files, roles))
  {
    FirstSeenNoDup(Filter(u => u != BASE && u != RUNTIME, ImpliedBy(files, roles)));
  }

  lemma Stacked(base: bool, runtime: bool, o: seq<string>)
    requires BASE !in o && RUNTIME !in o && NoDup(o)
    ensures var full := (if base then [BASE] else []) + ((if runtime then [RUNTIME] else []) + o);
            && NoDup(full)
            && (forall t :: t in full <==> (base && t == BASE) || (runtime && t == RUNTIME) || t in o)
            && (base ==> full[0] == BASE)
            && (runtime ==> var k := if base then 1 else 0; |full| > k && full[k] == RUNTIME)
  {
    assert BASE != RUNTIME;
    var tail := (if runtime then [RUNTIME] else []) + o;
    assert NoDup(tail) && BASE !in tail;
  }

  lemma OnlyOthers(base: bool, runtime: bool, o: seq<string>)
    requires BASE !in o && RUNTIME !in o
    ensures Filter(t => t != BASE && t != RUNTIME, (if base then [BASE] else []) + ((if runtime then [RUNTIME] else []) + o)) == o
  {
    var b, r := if base then [BASE] else [], if runtime then [RUNTIME] else [];
    FilterConcat(t => t != BASE && t != RUNTIME, b, r + o);
    FilterConcat(t => t != BASE && t != RUNTIME, r, o);
    FilterAll(t => t != BASE && t != RUNTIME, o);
    assert [BASE][..0] == [] && [RUNTIME][..0] == [];
  }

  /** Which targets are planned depends only on which files changed, not on their order. */
  lemma PlanSetOfFileSet(files: seq<string>, others: seq<string>, roles: Roles, allow: set<string>, deny: set<string>, t: string)
    requires forall f :: f in files <==> f in others
    ensures t in Plan(files, roles, allow, deny) <==> t in Plan(others, roles, allow, deny)
  {
    hide Implied, FullPlan, Auto;
    FilterIn(u => Auto(u, allow, deny), FullPlan(files, roles), t);
    FilterIn(u => Auto(u, allow, deny), FullPlan(others, roles), t);
    FullPlanShape(files, roles);
    FullPlanShape(others, roles);
    assert ImpliedByOne(files, roles, t) <==> exists f :: f in files && Implied(f, roles) == Some(t);
    assert ImpliedByOne(others, roles, t) <==> exists f :: f in others && Implied(f, roles) == Some(t);
  }

  // ---------- the gates ----------

  method PlanSkipped(files: seq<string>, roles: Roles, allow: set<string>, deny: set<string>) returns (held: seq<string>)
    ensures held == Skipped(files, roles, allow, deny)
  {
    hide Implied, FullPlan, Filter;
    var deployed := PlanTargets(files, roles, allow, deny);
    var full := PlanTargets(files, roles, {}, {});
    assert full == FullPlan(files, roles) by { FilterAll(t => Auto(t, {}, {}), FullPlan(files, roles)); }
    held := Select(t => t !in deployed, full);
  }

  function Skipped(files: seq<string>, roles: Roles, allow: set<string>, deny: set<string>): seq<string> {
    var deployed := Plan(files, roles, allow, deny);
    Filter(t => t !in deployed, FullPlan(files, roles))
  }

  /** The gates split the ungated plan into two disjoint ordered parts: what is deployed is
      allowed (or nothing is gated) and not denied, everything else is reported as held. */
  lemma GatesSplitThePlan(files: seq<string>, roles: Roles, allow: set<string>, deny: set<string>)
    ensures var full := FullPlan(files, roles);
            && Plan(files, roles, allow, deny) == Filter(t => Auto(t, allow, deny), full)
            && Skipped(files, roles, allow, deny) == Filter(t => !Auto(t, allow, deny), full)
    ensures forall t :: t in Plan(files, roles, allow, deny) <==> ImpliedByOne(files, roles, t) && Auto(t, allow, deny)
    ensures forall t :: t in Skipped(files, roles, allow, deny) <==> ImpliedByOne(files, roles, t) && !Auto(t, allow, deny)
    ensures forall t :: t in Skipped(files, roles, allow, deny) <==> ImpliedByOne(files, roles, t) && (t in deny || (allow != {} && t !in allow))
    ensures NoDup(Plan(files, roles, allow, deny)) && NoDup(Skipped(files, roles, allow, deny))
  {
    hide Implied, FullPlan, ImpliedByOne;
    var full, deployed := FullPlan(files, roles), Plan(files, roles, allow, deny);
    FullPlanShape(files, roles);
    forall t ensures t in deployed <==> t in full && Auto(t, allow, deny) { FilterIn(u => Auto(u, allow, deny), full, t); }
    FilterSame(t => t !in deployed, t => !Auto(t, allow, deny), full);
    forall t ensures t in Skipped(files, roles, allow, deny) <==> t in full && !Auto(t, allow, deny) { FilterIn(u => !Auto(u, allow, deny), full, t); }
    FilterNoDup(t => Auto(t, allow, deny), full);
    FilterNoDup(t => t !in deployed, full);
  }

  // ---------- the restore set ----------

  function IndexOf(xs: seq<string>, x: string): (k: nat)
    ensures x in xs ==> k < |xs|
  {
    if xs == [] || xs[0] == x then 0 else 1 + IndexOf(xs[1..], x)
  }

  lemma {:induction false} IndexOfSpec(xs: seq<string>, x: string)
    requires x in xs
    ensures var k := IndexOf(xs, x); k < |xs| && xs[k] == x && x !in xs[..k]
  {
    if xs[0] != x {
      IndexOfSpec(xs[1..], x);
      var k := IndexOf(xs[1..], x);
      assert xs[..k + 1] == [xs[0]] + xs[1..][..k];
    }
  }

  lemma {:induction false} IndexOfAt(xs: seq<string>, k: nat)
    requires k < |xs| && xs[k] !in xs[..k]
    ensures IndexOf(xs, xs[k]) == k
  {
    if k > 0 {
      assert xs[..k] == [xs[0]] + xs[1..][..k - 1];
      IndexOfAt(xs[1..], k - 1);
    }
  }

  predicate Named(t: string) { t != "" }

  /** What is deployed again at last-good after a failure. */
  function RollbackTargets(all: seq<string>, failedTarget: string): seq<string> {
    var targets, failed := Filter(Named, all), Strip(PySpace, failedTarget);
    if failed == "" || failed !in targets then targets
    else targets[..IndexOf(targets, failed) + 1]
  }

  lemma IndexInPrefix(xs: seq<string>, x: string, k: nat)
    requires k < |xs| && xs[k] == x && x !in xs[..k]
    ensures IndexOf(xs, x) == k
  {
    IndexOfAt(xs, k);
  }

  /** A list up to and with the first place of `x`; all of it without one. */
  function UpToFirst(xs: seq<string>, x: string): seq<string> {
    if x in xs then xs[..IndexOf(xs, x) + 1] else xs
  }

  /** Dropping the empty names first does not change where the restore set ends. */
  lemma RestoreSet(all: seq<string>, failedTarget: string)
    ensures var failed := Strip(PySpace, failedTarget);
            RollbackTargets(all, failedTarget) == Filter(Named, if failed == "" then all else UpToFirst(all, failed))
  {
    hide Strip;
    var targets, failed := Filter(Named, all), Strip(PySpace, failedTarget);
    FilterIn(Named, all, failed);
    if failed != "" && failed in all {
      IndexOfSpec(all, failed);
      FilteredUpTo(all, IndexOf(all, failed));
    }
  }

  lemma FilteredUpTo(all: seq<string>, p: nat)
    requires p < |all| && all[p] != "" && all[p] !in all[..p]
    ensures var targets := Filter(Named, all);
            all[p] in targets && targets[..IndexOf(targets, all[p]) + 1] == Filter(Named, all[..p + 1])
  {
    hide IndexOf, Filter;
    var f, rest := all[p], all[p + 1..];
    var before, after := Filter(Named, all[..p]), Filter(Named, rest);
    assert all[..p + 1] == all[..p] + [f] && all == all[..p + 1] + rest;
    FilterConcat(Named, all[..p], [f]);
    FilterAll(Named, [f]);
    FilterConcat(Named, all[..p + 1], rest);
    FilterIn(Named, all[..p], f);
    FirstInMiddle(before, f, after);
  }

  lemma FirstInMiddle(before: seq<string>, x: string, after: seq<string>)
    requires x !in before
    ensures var all := before + [x] + after; x in all && all[..IndexOf(all, x) + 1] == before + [x]
  {
    hide IndexOf;
    var all := before + [x] + after;
    assert all[..|before|] == before;
    IndexInPrefix(all, x, |before|);
  }

  /** The restore set is the attempted part of the plan: all of it up to and with the failed
      target, when that target's name has no white space around it; all of it when the failed
      target is not known. */
  lemma RestoreIsTheAttemptedPart(all: seq<string>, k: nat)
    requires k < |all| && all[k] !in all[..k] && all[k] != "" && Strip(PySpace, all[k]) == all[k]
    ensures RollbackTargets(all, all[k]) == Filter(Named, all[..k + 1])
    ensures RollbackTargets(all, "") == Filter(Named, all)
  {
    RestoreSet(all, all[k]);
    RestoreSet(all, "");
    IndexOfAt(all, k);
    assert Strip(PySpace, "") == "";
  }

  /** For any plan without repeats, everything attempted is restored exactly when the failed
      name, trimmed, is not the name of a target attempted before it. */
  lemma RestoreCoversExactly(all: seq<string>, k: nat)
    requires k < |all| && NoDup(all)
    ensures (forall i :: 0 <= i <= k && all[i] != "" ==> all[i] in RollbackTargets(all, all[k]))
            <==> Strip(PySpace, all[k]) == "" || Strip(PySpace, all[k]) !in all[..k]
  {
    hide Strip, RollbackTargets;
    var failed := Strip(PySpace, all[k]);
    RestoreSet(all, all[k]);
    var part := if failed == "" then all else UpToFirst(all, failed);
    forall t ensures t in RollbackTargets(all, all[k]) <==> t in part && t != "" { FilterIn(Named, part, t); }
    if failed != "" && failed in all {
      IndexOfSpec(all, failed);
      var p := IndexOf(all, failed);
      if p < k {
        assert all[..k][p] == failed;
        assert all[k] !in part && all[k] != "" by { StripNothing(); }
      } else {
        forall i | 0 <= i <= k ensures all[i] in part { assert part[i] == all[i]; }
        assert failed !in all[..k] by { assert forall i :: 0 <= i < k ==> all[..p][i] == all[i]; }
      }
    }
  }

  lemma Unspaced(s: string)
    requires s != "" && !PySpace(s[0]) && !PySpace(s[|s| - 1])
    ensures Strip(PySpace, s) == s
  {}

  lemma StripNothing()
    ensures Strip(PySpace, "") == ""
  {}

  /** What is restored was planned, without repeats. */
  lemma RestoredIsPlanned(all: seq<string>, failedTarget: string)
    requires NoDup(all)
    ensures NoDup(RollbackTargets(all, failedTarget))
    ensures forall t :: t in RollbackTargets(all, failedTarget) ==> t in all
  {
    hide Strip, IndexOf;
    FilterNoDup(Named, all);
    forall t ensures t in Filter(Named, all) ==> t in all { FilterIn(Named, all, t); }
  }

  lemma TwoOthers(files: seq<string>, roles: Roles, a: string, b: string)
    requires |files| == 2 && Implied(files[0], roles) == Some(a) && Implied(files[1], roles) == Some(b)
    requires a != b && a !in {BASE, RUNTIME} && b !in {BASE, RUNTIME}
    ensures FullPlan(files, roles) == [a, b]
  {
    hide Implied, Others, ImpliedBy;
    assert files == [files[0]] + [files[1]] && [files[0]] == [] + [files[0]];
    OthersOfNothing(roles);
    OthersMore([], files[0], roles);
    OthersMore([files[0]], files[1], roles);
    ImpliedByIn(files, roles, BASE);
    ImpliedByIn(files, roles, RUNTIME);
  }

  /** The condition can fail on a real plan: two changed playbooks, one with a blank before its
      name, are planned as `x` and ` x`; when the second fails, only `x` is restored. */
  lemma UntrimmedNameIsNotRestored(roles: Roles)
    ensures var plan := Plan(["ansible/playbooks/x.yml", "ansible/playbooks/ x.yml"], roles, {}, {});
            plan == ["x", " x"] && RollbackTargets(plan, " x") == ["x"]
  {
    hide Implied, FullPlan, RollbackTargets, Strip;
    var files := ["ansible/playbooks/x.yml", "ansible/playbooks/ x.yml"];
    PlaybookTarget("x", files[0], roles);
    PlaybookTarget(" x", files[1], roles);
    assert "x"[0] != " x"[0];
    TwoOthers(files, roles, "x", " x");
    FilterAll(t => Auto(t, {}, {}), FullPlan(files, roles));
    ClashRestoresOne();
  }

  lemma ClashRestoresOne()
    ensures RollbackTargets(["x", " x"], " x") == ["x"]
  {
    hide Strip;
    var all := ["x", " x"];
    StripBlank();
    RestoreSet(all, " x");
    IndexInPrefix(all, "x", 0);
    assert all[..1] == ["x"];
    FilterAll(Named, ["x"]);
  }

  lemma PlaybookTarget(name: string, file: string, roles: Roles)
    requires file == "ansible/playbooks/" + (name + ".yml") && name != "" && '/' !in name && !("verify-" <= name)
    ensures Implied(file, roles) == Some(name)
  {
    assert file[0] == 'a' && file[|file| - 1] == 'l';
    Unspaced(file);
    PlaybookFile(name, roles);
  }

  lemma StripBlank()
    ensures Strip(PySpace, " x") == "x"
  {
    assert DropWhile(PySpace, " x") == DropWhile(PySpace, "x") by { assert " x"[1..] == "x"; }
    assert PySpace(' ') && !PySpace('x');
  }

  // ---------- paths as they are listed ----------

  /** Dots and slashes in front of a path, and white space around it, do not matter. */
  lemma PathFrontIgnored(front: string, file: string, roles: Roles)
    requires file != "" && !PySpace(file[0]) && !PySpace(file[|file| - 1]) && file[0] != '.' && file[0] != '/'
    requires forall i :: 0 <= i < |front| ==> front[i] == '.' || front[i] == '/'
    ensures Implied(front + file, roles) == Implied(file, roles)
    ensures Implied(" " + file, roles) == Implied(file, roles) == Implied(file + " ", roles)
  {
    hide Implied, CleanPath;
    CleanFront(front, file);
    CleanFront("", file);
    assert "" + file == file;
    CleanSpaced(file);
    SamePath(front + file, file, roles);
    SamePath(" " + file, file, roles);
    SamePath(file + " ", file, roles);
  }

  lemma SamePath(a: string, b: string, roles: Roles)
    requires CleanPath(a) == CleanPath(b)
    ensures Implied(a, roles) == Implied(b, roles)
  {
    hide CleanPath, Split, RoleToTarget;
  }

  lemma CleanFront(front: string, file: string)
    requires file != "" && !PySpace(file[0]) && !PySpace(file[|file| - 1]) && file[0] != '.' && file[0] != '/'
    requires forall i :: 0 <= i < |front| ==> front[i] == '.' || front[i] == '/'
    ensures CleanPath(front + file) == file
  {
    hide Strip;
    var f := front + file;
    assert f[0] == (if front == "" then file[0] else front[0]) && f[|f| - 1] == file[|file| - 1];
    Unspaced(f);
    FrontDropped(front, file);
  }

  lemma CleanSpaced(file: string)
    requires file != "" && !PySpace(file[0]) && !PySpace(file[|file| - 1])
    ensures CleanPath(" " + file) == CleanPath(file) == CleanPath(file + " ")
  {
    Unspaced(file);
    assert PySpace(' ');
    assert (" " + file)[1..] == file && (file + " ")[..|file|] == file;
    assert DropWhile(PySpace, file + " ") == file + " ";
  }

  lemma {:induction false} FrontDropped(front: string, file: string)
    requires file != "" && file[0] != '.' && file[0] != '/' && forall i :: 0 <= i < |front| ==> front[i] == '.' || front[i] == '/'
    ensures DropWhile(c => c == '.' || c == '/', front + file) == file
  {
    if front == "" {
      assert front + file == file;
    } else {
      assert (front + file)[1..] == front[1..] + file;
      FrontDropped(front[1..], file);
    }
  }

  /** The changelog stands for the homepage, which embeds it; the runtime sources and the script
      that stamps them stand for the runtime. */
  lemma ExtraFiles(rest: string, roles: Roles)
    requires rest != "" && !PySpace(rest[|rest| - 1])
    ensures Implied("CHANGELOG.md", roles) == Some("homepage")
    ensures Implied("scripts/go-source-id.py", roles) == Some("homelab-runtime")
    ensures Implied("runtime/" + rest, roles) == Some("homelab-runtime")
  {
    hide Split, Strip, RoleToTarget;
    var a, b, c := "CHANGELOG.md", "scripts/go-source-id.py", "runtime/" + rest;
    assert a[0] == 'C' && a[|a| - 1] == 'd' && b[0] == 's' && b[|b| - 1] == 'y' && c[0] == 'r';
    Unspaced(a);
    Unspaced(b);
    Unspaced(c);
    assert c !in EXTRA_FILE_TARGETS && a != b;
  }
}
