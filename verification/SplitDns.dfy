/** Split-DNS routes of a tailnet against the domains we require: the verdict, the repair patch,
    and what applying the patch achieves. */
module SplitDns {
  import opened Text
  import opened Order
  import opened Lists

  function Lower(s: string): string {
    seq(|s|, i requires 0 <= i < |s| => if 'A' <= s[i] <= 'Z' then (s[i] as int + 32) as char else s[i])
  }

  /** Lower case, no surrounding white space, no trailing dots. */
  function Norm(domain: string): string { Lower(DropEndWhile(c => c == '.', Strip(PySpace, domain))) }

  function Trim(domain: string): string { Strip(PySpace, domain) }

  /** A route covers its own name and everything below it. */
  predicate Covers(route: string, domain: string) {
    var r, d := Norm(route), Norm(domain);
    r != "" && d != "" && (d == r || EndsWith(d, "." + r))
  }

  /** Routes by name, with the nameservers each lists. */
  type Routes = map<string, seq<string>>

  predicate Uses(addrs: seq<string>, ns: string) { exists i :: 0 <= i < |addrs| && Norm(addrs[i]) == ns }

  predicate IsCovered(routes: Routes, d: string) { exists r :: r in routes && Covers(r, d) }

  predicate IsServed(routes: Routes, d: string, ns: string) { exists r :: r in routes && Covers(r, d) && Uses(routes[r], ns) }

  predicate IsMissing(routes: Routes, domain: string) { Norm(domain) != "" && !IsCovered(routes, Norm(domain)) }

  predicate IsMisrouted(routes: Routes, domain: string, ns: string) {
    Norm(domain) != "" && IsCovered(routes, Norm(domain)) && !IsServed(routes, Norm(domain), ns)
  }

  predicate Claimed(required: seq<string>, route: string) {
    exists i :: 0 <= i < |required| && Norm(required[i]) != "" && (Covers(route, Norm(required[i])) || Covers(Norm(required[i]), route))
  }

  predicate IsStale(routes: Routes, required: seq<string>, ns: string, route: string)
    requires route in routes
  {
    Uses(routes[route], ns) && !Claimed(required, route)
  }

  datatype Verdict = Verdict(missing: seq<string>, misrouted: seq<string>, stale: seq<string>, patch: map<string, Option<seq<string>>>)
  {
    predicate Ok() { missing == [] && misrouted == [] }
  }

  function Trims(xs: seq<string>): seq<string> {
    if xs == [] then [] else Trims(xs[..|xs| - 1]) + [Trim(xs[|xs| - 1])]
  }

  predicate NeedsRoute(routes: Routes, ns: string, domain: string) { IsMissing(routes, domain) || IsMisrouted(routes, domain, ns) }

  /** The keys the patch points at our nameserver, and the keys it clears. */
  function ToSet(routes: Routes, required: seq<string>, ns: string): set<string> {
    set i | 0 <= i < |required| && NeedsRoute(routes, ns, required[i]) :: Trim(required[i])
  }

  function ToClear(routes: Routes, required: seq<string>, ns: string): set<string> {
    set r | r in routes && IsStale(routes, required, ns, r)
  }

  function PatchOf(routes: Routes, required: seq<string>, nameserver: string): map<string, Option<seq<string>>> {
    var ns := Norm(nameserver);
    map k | k in ToSet(routes, required, ns) + ToClear(routes, required, ns) ::
      if k in ToClear(routes, required, ns) then None else Some([nameserver])
  }

  /** The verdict; `order` is the order in which the route table is walked. */
  function Judge(routes: Routes, order: seq<string>, required: seq<string>, nameserver: string): Verdict {
    var ns := Norm(nameserver);
    Verdict(Trims(Filter(d => IsMissing(routes, d), required)),
            Trims(Filter(d => IsMisrouted(routes, d, ns), required)),
            Filter(r => r in routes && IsStale(routes, required, ns, r), order),
            PatchOf(routes, required, nameserver))
  }

  ghost predicate Walks(order: seq<string>, routes: Routes) {
    NoDup(order) && forall r :: r in order <==> r in routes
  }

  method Decide(routes: Routes, order: seq<string>, required: seq<string>, nameserver: string) returns (v: Verdict)
    requires Walks(order, routes)
    ensures v == Judge(routes, order, required, nameserver)
  {
    hide Norm, ToSet, ToClear, IsStale, Filter;
    var missing, misrouted, patch := CheckRequired(routes, required, nameserver);
    var stale: seq<string>;
    stale, patch := CheckRoutes(routes, order, required, nameserver, patch);
    v := Verdict(missing, misrouted, stale, patch);
  }

  /** The loop over the required domains. */
  method CheckRequired(routes: Routes, required: seq<string>, nameserver: string)
    returns (missing: seq<string>, misrouted: seq<string>, patch: map<string, Option<seq<string>>>)
    ensures missing == Trims(Filter(d => IsMissing(routes, d), required))
    ensures misrouted == Trims(Filter(d => IsMisrouted(routes, d, Norm(nameserver)), required))
    ensures patch == map k | k in ToSet(routes, required, Norm(nameserver)) :: Some([nameserver])
  {
    hide Norm, Trim, IsCovered, IsServed, ToSet, Filter, Trims;
    var ns := Norm(nameserver);
    missing, misrouted, patch := [], [], map[];
    assert required[..0] == [];
    NothingYet(routes, ns);
    for i := 0 to |required|
      invariant missing == Trims(Filter(d => IsMissing(routes, d), required[..i]))
      invariant misrouted == Trims(Filter(d => IsMisrouted(routes, d, ns), required[..i]))
      invariant patch == map k | k in ToSet(routes, required[..i], ns) :: Some([nameserver])
    {
      var domain := required[i];
      FilterLast(d => IsMissing(routes, d), required, i);
      FilterLast(d => IsMisrouted(routes, d, ns), required, i);
      ToSetLast(routes, required, i, ns);
      var d := Norm(domain);
      if d != "" {
        if !IsCovered(routes, d) {
          missing := missing + [Trim(domain)];
          patch := patch[Trim(domain) := Some([nameserver])];
        } else if !IsServed(routes, d, ns) {
          misrouted := misrouted + [Trim(domain)];
          patch := patch[Trim(domain) := Some([nameserver])];
        }
      }
    }
    assert required[..|required|] == required;
  }

  lemma NothingYet(routes: Routes, ns: string)
    ensures Trims(Filter(d => IsMissing(routes, d), [])) == [] && Trims(Filter(d => IsMisrouted(routes, d, ns), [])) == []
    ensures ToSet(routes, [], ns) == {}
  {}

  /** The loop over the route table, in its order. */
  method CheckRoutes(routes: Routes, order: seq<string>, required: seq<string>, nameserver: string, needed: map<string, Option<seq<string>>>)
    returns (stale: seq<string>, patch: map<string, Option<seq<string>>>)
    requires Walks(order, routes)
    requires needed == map k | k in ToSet(routes, required, Norm(nameserver)) :: Some([nameserver])
    ensures stale == Filter(r => r in routes && IsStale(routes, required, Norm(nameserver), r), order)
    ensures patch == PatchOf(routes, required, nameserver)
  {
    hide Norm, ToSet, IsStale, NoDup, Filter, ToClearIn, Clearing;
    var ns := Norm(nameserver);
    stale, patch := [], needed;
    assert order[..0] == [];
    NothingCleared(routes, required, ns, needed);
    for i := 0 to |order|
      invariant stale == Filter(r => r in routes && IsStale(routes, required, ns, r), order[..i])
      invariant patch == Clearing(needed, ToClearIn(routes, required, ns, order[..i]))
    {
      var route := order[i];
      assert route in order;
      ClearOne(routes, required, ns, needed, order, i);
      if IsStale(routes, required, ns, route) {
        stale := stale + [route];
        patch := patch[route := None];
      }
    }
    assert order[..|order|] == order;
    AllCleared(routes, order, required, nameserver, needed);
  }

  lemma NothingCleared(routes: Routes, required: seq<string>, ns: string, needed: map<string, Option<seq<string>>>)
    ensures Filter(r => r in routes && IsStale(routes, required, ns, r), []) == []
    ensures Clearing(needed, ToClearIn(routes, required, ns, [])) == needed
  {}

  lemma ClearOne(routes: Routes, required: seq<string>, ns: string, needed: map<string, Option<seq<string>>>, order: seq<string>, i: nat)
    requires i < |order| && order[i] in routes
    ensures var stale, before, after := IsStale(routes, required, ns, order[i]), ToClearIn(routes, required, ns, order[..i]), ToClearIn(routes, required, ns, order[..i + 1]);
            && Clearing(needed, after) == (if stale then Clearing(needed, before)[order[i] := None] else Clearing(needed, before))
            && Filter(r => r in routes && IsStale(routes, required, ns, r), order[..i + 1]) ==
               Filter(r => r in routes && IsStale(routes, required, ns, r), order[..i]) + (if stale then [order[i]] else [])
  {
    hide IsStale;
    assert order[..i + 1][..i] == order[..i];
    assert order[..i + 1] == order[..i] + [order[i]];
    var before, after := ToClearIn(routes, required, ns, order[..i]), ToClearIn(routes, required, ns, order[..i + 1]);
    assert after == if IsStale(routes, required, ns, order[i]) then before + {order[i]} else before;
  }

  lemma AllCleared(routes: Routes, order: seq<string>, required: seq<string>, nameserver: string, needed: map<string, Option<seq<string>>>)
    requires Walks(order, routes)
    requires needed == map k | k in ToSet(routes, required, Norm(nameserver)) :: Some([nameserver])
    ensures Clearing(needed, ToClearIn(routes, required, Norm(nameserver), order)) == PatchOf(routes, required, nameserver)
  {
    hide Norm, IsStale, NoDup, ToSet;
    assert ToClearIn(routes, required, Norm(nameserver), order) == ToClear(routes, required, Norm(nameserver));
  }

  function Clearing(needed: map<string, Option<seq<string>>>, cleared: set<string>): map<string, Option<seq<string>>> {
    map k | k in needed.Keys + cleared :: if k in cleared then None else needed[k]
  }

  function ToClearIn(routes: Routes, required: seq<string>, ns: string, order: seq<string>): set<string> {
    set r | r in order && r in routes && IsStale(routes, required, ns, r)
  }

  lemma FilterLast(p: string -> bool, xs: seq<string>, i: nat)
    requires i < |xs|
    ensures Trims(Filter(p, xs[..i + 1])) == Trims(Filter(p, xs[..i])) + (if p(xs[i]) then [Trim(xs[i])] else [])
  {
    hide Trim;
    assert xs[..i + 1][..i] == xs[..i];
    var f := Filter(p, xs[..i]);
    if p(xs[i]) {
      assert (f + [xs[i]])[..|f|] == f;
    } else {
      assert f + [] == f;
    }
  }

  lemma ToSetLast(routes: Routes, required: seq<string>, i: nat, ns: string)
    requires i < |required|
    ensures ToSet(routes, required[..i + 1], ns) ==
            ToSet(routes, required[..i], ns) + (if NeedsRoute(routes, ns, required[i]) then {Trim(required[i])} else {})
  {
    hide Trim, NeedsRoute;
    var a, b := required[..i], required[..i + 1];
    assert b == a + [required[i]];
    forall k | k in ToSet(routes, b, ns)
      ensures k in ToSet(routes, a, ns) + (if NeedsRoute(routes, ns, required[i]) then {Trim(required[i])} else {})
    {
      var j :| 0 <= j < |b| && NeedsRoute(routes, ns, b[j]) && Trim(b[j]) == k;
      if j < i { assert a[j] == b[j]; }
    }
    forall k | k in ToSet(routes, a, ns) ensures k in ToSet(routes, b, ns) {
      var j :| 0 <= j < |a| && NeedsRoute(routes, ns, a[j]) && Trim(a[j]) == k;
      assert b[j] == a[j];
    }
    if NeedsRoute(routes, ns, required[i]) { assert b[i] == required[i]; }
  }

  // ---------- covering is the subdomain relation ----------

  predicate LabelSuffix(a: seq<string>, b: seq<string>) { |a| <= |b| && b[|b| - |a|..] == a }

  /** Section 3.1 of RFC 1034: a route covers exactly the names whose labels end with its own,
      whole labels compared without regard to case. */
  lemma CoversIsSubdomain(route: string, domain: string)
    ensures Covers(route, domain) <==>
            Norm(route) != "" && Norm(domain) != "" && LabelSuffix(Split(Norm(route), '.'), Split(Norm(domain), '.'))
  {
    hide Norm, Split;
    var r, d := Norm(route), Norm(domain);
    if r != "" && d != "" {
      if EndsWith(d, "." + r) {
        var head := d[..|d| - |r| - 1];
        assert d == head + ['.'] + r;
        SplitAppend(head, '.', r);
      }
      if LabelSuffix(Split(r, '.'), Split(d, '.')) { SuffixOfLabels(r, d); }
    }
  }

  lemma {:induction false} JoinAppend(a: seq<string>, b: seq<string>)
    requires a != [] && b != []
    ensures Join(a + b, '.') == Join(a, '.') + ['.'] + Join(b, '.')
  {
    if |a| == 1 {
      assert (a + b)[1..] == b;
    } else {
      assert (a + b)[1..] == a[1..] + b;
      JoinAppend(a[1..], b);
    }
  }

  lemma SuffixOfLabels(r: string, d: string)
    requires LabelSuffix(Split(r, '.'), Split(d, '.'))
    ensures d == r || EndsWith(d, "." + r)
  {
    hide Split, Join;
    var a, b := Split(r, '.'), Split(d, '.');
    JoinSplit(r, '.');
    JoinSplit(d, '.');
    var head := b[..|b| - |a|];
    assert b == head + a;
    if head == [] {
      assert a == b;
    } else {
      JoinAppend(head, a);
      assert d == Join(head, '.') + ("." + r);
    }
  }

  // ---------- the patch repairs the routes in one step ----------

  /** The partial update: set or clear per key, everything else unchanged. */
  function Patched(routes: Routes, patch: map<string, Option<seq<string>>>): Routes {
    map k | k in routes.Keys + patch.Keys && !(k in patch && patch[k].None?) ::
      if k in patch then patch[k].value else routes[k]
  }

  /** Normalising twice changes nothing: false only when white space stands before trailing dots. */
  predicate Stable(domain: string) { Norm(Norm(domain)) == Norm(domain) }

  lemma {:induction false} DropEndStops(p: char -> bool, s: string)
    requires s != "" ==> !p(s[|s| - 1])
    ensures DropEndWhile(p, s) == s
  {}

  lemma NormOfTrim(domain: string)
    ensures Norm(Trim(domain)) == Norm(domain)
  {
    StripTwice(domain);
  }

  lemma {:induction false} DropEndHead(p: char -> bool, s: string)
    ensures DropEndWhile(p, s) != "" ==> !p(DropEndWhile(p, s)[|DropEndWhile(p, s)| - 1]) && DropEndWhile(p, s)[0] == s[0]
  {
    if s != "" && p(s[|s| - 1]) { DropEndHead(p, s[..|s| - 1]); }
  }

  lemma StripTwice(s: string)
    ensures Strip(PySpace, Strip(PySpace, s)) == Strip(PySpace, s)
  {
    hide PySpace;
    var t := DropWhile(PySpace, s);
    DropWhileHead(PySpace, s);
    DropEndHead(PySpace, t);
    var u := DropEndWhile(PySpace, t);
    assert DropWhile(PySpace, u) == u;
    DropEndStops(PySpace, u);
  }

  lemma SelfCover(domain: string)
    requires Norm(domain) != "" && Stable(domain)
    ensures Covers(Trim(domain), Norm(domain))
  {
    hide Norm, Trim;
    NormOfTrim(domain);
  }

  ghost predicate AllStable(required: seq<string>) {
    forall i :: 0 <= i < |required| && Norm(required[i]) != "" ==> Stable(required[i])
  }

  /** A key the patch sets is never one it clears. */
  lemma SetIsNotCleared(routes: Routes, required: seq<string>, ns: string, k: string)
    requires AllStable(required) && k in ToSet(routes, required, ns)
    ensures k !in ToClear(routes, required, ns)
  {
    hide Norm, Trim, Covers, Uses;
    var i :| 0 <= i < |required| && NeedsRoute(routes, ns, required[i]) && Trim(required[i]) == k;
    SelfCover(required[i]);
  }

  lemma PatchedServes(routes: Routes, required: seq<string>, nameserver: string, i: nat)
    requires AllStable(required) && i < |required| && Norm(required[i]) != ""
    ensures IsServed(Patched(routes, PatchOf(routes, required, nameserver)), Norm(required[i]), Norm(nameserver))
  {
    hide Norm, Trim, Covers, ToClear;
    var ns, d := Norm(nameserver), Norm(required[i]);
    var patch := PatchOf(routes, required, nameserver);
    var after := Patched(routes, patch);
    OursUses(nameserver);
    if NeedsRoute(routes, ns, required[i]) {
      var k := Trim(required[i]);
      assert k in ToSet(routes, required, ns);
      SetIsNotCleared(routes, required, ns, k);
      SelfCover(required[i]);
      assert k in after && after[k] == [nameserver];
    } else {
      var r :| r in routes && Covers(r, d) && Uses(routes[r], ns);
      ServedIsNotCleared(routes, required, ns, r, i);
      assert r in after && Uses(after[r], ns);
    }
  }

  lemma ServedIsNotCleared(routes: Routes, required: seq<string>, ns: string, r: string, i: nat)
    requires i < |required| && Norm(required[i]) != "" && Covers(r, Norm(required[i]))
    ensures r !in ToClear(routes, required, ns)
  {
    hide Norm, Covers, Uses;
  }

  lemma PatchedHasNoStale(routes: Routes, required: seq<string>, nameserver: string, r: string)
    requires AllStable(required) && r in Patched(routes, PatchOf(routes, required, nameserver))
    ensures !IsStale(Patched(routes, PatchOf(routes, required, nameserver)), required, Norm(nameserver), r)
  {
    hide Norm, Trim, Covers, Uses;
    var ns := Norm(nameserver);
    if r in ToSet(routes, required, ns) {
      var i :| 0 <= i < |required| && NeedsRoute(routes, ns, required[i]) && Trim(required[i]) == r;
      SelfCover(required[i]);
    }
  }

  /** Applying the repair patch to any routes leaves nothing missing, misrouted or stale, and an
      empty patch, in whatever order the new table is walked. */
  lemma PatchConverges(routes: Routes, required: seq<string>, nameserver: string, order: seq<string>)
    requires AllStable(required) && Walks(order, Patched(routes, PatchOf(routes, required, nameserver)))
    ensures var v := Judge(Patched(routes, PatchOf(routes, required, nameserver)), order, required, nameserver);
            v.Ok() && v == Verdict([], [], [], map[])
  {
    hide Norm, Trim, Covers, Uses, Patched, PatchOf, IsServed, Stable, NoDup, Filter;
    var ns := Norm(nameserver);
    var after := Patched(routes, PatchOf(routes, required, nameserver));
    forall i | 0 <= i < |required| ensures !IsMissing(after, required[i]) && !IsMisrouted(after, required[i], ns) {
      if Norm(required[i]) != "" {
        PatchedServes(routes, required, nameserver, i);
        ServedIsCovered(after, Norm(required[i]), ns);
      }
    }
    forall r | r in after ensures !IsStale(after, required, ns, r) { PatchedHasNoStale(routes, required, nameserver, r); }
    FilterNone(d => IsMissing(after, d), required);
    FilterNone(d => IsMisrouted(after, d, ns), required);
    FilterNone(r => r in after && IsStale(after, required, ns, r), order);
    EmptyPatch(after, required, nameserver);
  }

  lemma ServedIsCovered(routes: Routes, d: string, ns: string)
    requires IsServed(routes, d, ns)
    ensures IsCovered(routes, d)
  {
    hide Covers;
  }

  lemma {:induction false} FilterNone(p: string -> bool, xs: seq<string>)
    requires forall i :: 0 <= i < |xs| ==> !p(xs[i])
    ensures Filter(p, xs) == []
  {
    if xs != [] { FilterNone(p, xs[..|xs| - 1]); }
  }

  lemma EmptyPatch(routes: Routes, required: seq<string>, nameserver: string)
    requires forall i :: 0 <= i < |required| ==> !IsMissing(routes, required[i]) && !IsMisrouted(routes, required[i], Norm(nameserver))
    requires forall r :: r in routes ==> !IsStale(routes, required, Norm(nameserver), r)
    ensures PatchOf(routes, required, nameserver) == map[]
  {
    hide Norm, Trim, IsMissing, IsMisrouted, IsStale;
    assert ToSet(routes, required, Norm(nameserver)) == {};
    assert ToClear(routes, required, Norm(nameserver)) == {};
  }

  /** A route that does not list our nameserver changes only if its name is a misrouted
      required domain; then it lists our nameserver alone. */
  ghost predicate ForeignStays(routes: Routes, required: seq<string>, nameserver: string, r: string)
    requires r in routes
  {
    var after := Patched(routes, PatchOf(routes, required, nameserver));
    !Uses(routes[r], Norm(nameserver)) ==>
      r in after && (after[r] == routes[r] || (after[r] == [nameserver] && NamesMisrouted(routes, required, Norm(nameserver), r)))
  }

  predicate NamesMisrouted(routes: Routes, required: seq<string>, ns: string, r: string) {
    exists i :: 0 <= i < |required| && Trim(required[i]) == r && IsMisrouted(routes, required[i], ns)
  }

  ghost predicate AllForeignStay(routes: Routes, required: seq<string>, nameserver: string) {
    forall r :: r in routes ==> ForeignStays(routes, required, nameserver, r)
  }

  lemma ForeignRoutesStay(routes: Routes, required: seq<string>, nameserver: string, r: string)
    requires AllStable(required) && r in routes
    ensures ForeignStays(routes, required, nameserver, r)
  {
    hide Norm, Trim, Covers, Uses;
    var ns := Norm(nameserver);
    if r in ToSet(routes, required, ns) {
      var i :| 0 <= i < |required| && NeedsRoute(routes, ns, required[i]) && Trim(required[i]) == r;
      SelfCover(required[i]);
      assert IsCovered(routes, Norm(required[i]));
    }
  }

  /** Foreign routes stay in this sense, in every route table, exactly when every required domain
      that is not blank normalises stably. */
  lemma ForeignRoutesStayExactly(required: seq<string>, nameserver: string)
    ensures (forall routes: Routes :: AllForeignStay(routes, required, nameserver)) <==> AllStable(required)
  {
    hide Norm, Trim, Stable, Uses, ForeignStays;
    if AllStable(required) {
      forall routes: Routes, r | r in routes ensures ForeignStays(routes, required, nameserver, r) {
        ForeignRoutesStay(routes, required, nameserver, r);
      }
    } else {
      var i :| 0 <= i < |required| && Norm(required[i]) != "" && !Stable(required[i]);
      var routes: Routes := map[Trim(required[i]) := []];
      EmptyRouteIsTaken(required, nameserver, i);
      assert Trim(required[i]) in routes;
      assert !AllForeignStay(routes, required, nameserver);
    }
  }

  /** An unstable required domain is missing even if a route has its name, which the patch takes. */
  lemma EmptyRouteIsTaken(required: seq<string>, nameserver: string, i: nat)
    requires i < |required| && Norm(required[i]) != "" && !Stable(required[i])
    ensures !ForeignStays(map[Trim(required[i]) := []], required, nameserver, Trim(required[i]))
  {
    hide Norm, Trim, Covers, Stable;
    var ns, r := Norm(nameserver), Trim(required[i]);
    var routes: Routes := map[r := []];
    EndOfNorm(required[i]);
    forall j | 0 <= j < |required| && Trim(required[j]) == r ensures IsMissing(routes, required[j]) {
      NormOfTrim(required[i]);
      NormOfTrim(required[j]);
      if Covers(r, Norm(required[j])) { CoversEnds(r, Norm(required[j])); }
    }
    assert r in ToSet(routes, required, ns);
    assert r !in ToClear(routes, required, ns);
  }

  // ---------- when the patch converges ----------

  /** The verdict on the patched routes, in whatever order they are walked, finds nothing. */
  ghost predicate Converges(routes: Routes, required: seq<string>, nameserver: string) {
    var after := Patched(routes, PatchOf(routes, required, nameserver));
    forall order :: Walks(order, after) ==> Judge(after, order, required, nameserver) == Verdict([], [], [], map[])
  }

  /** The patch converges from every route table exactly when every required domain that is not
      blank normalises stably. */
  lemma PatchConvergesExactly(required: seq<string>, nameserver: string)
    ensures (forall routes: Routes :: Converges(routes, required, nameserver)) <==> AllStable(required)
  {
    hide Norm, Trim, Covers, Patched, PatchOf, Judge, Walks, Stable, Claimed, Converges;
    if AllStable(required) {
      forall routes: Routes ensures Converges(routes, required, nameserver) { ConvergesFrom(routes, required, nameserver); }
    } else {
      var i :| 0 <= i < |required| && Norm(required[i]) != "" && !Stable(required[i]);
      if b :| 0 <= b < |required| && Stranded(required, b) {
        StrandedIsUnserved(required, nameserver, b);
        assert !Converges(StableRoutes(required, nameserver), required, nameserver);
      } else {
        UnstableIsStale(required, nameserver, i);
        assert !Converges(map[], required, nameserver);
      }
    }
  }

  lemma ConvergesFrom(routes: Routes, required: seq<string>, nameserver: string)
    requires AllStable(required)
    ensures Converges(routes, required, nameserver)
  {
    hide Patched, PatchOf, Judge, Walks, Stable;
    var after := Patched(routes, PatchOf(routes, required, nameserver));
    forall order | Walks(order, after) ensures Judge(after, order, required, nameserver) == Verdict([], [], [], map[]) {
      PatchConverges(routes, required, nameserver, order);
    }
  }

  /** An unserved requirement, or a stale route, shows in the verdict. */
  lemma Unfinished(routes: Routes, required: seq<string>, nameserver: string)
    requires var after := Patched(routes, PatchOf(routes, required, nameserver));
             || (exists i :: 0 <= i < |required| && Norm(required[i]) != "" && !IsServed(after, Norm(required[i]), Norm(nameserver)))
             || (exists r :: r in after && IsStale(after, required, Norm(nameserver), r))
    ensures !Converges(routes, required, nameserver)
  {
    hide Norm, Trim, Covers, Patched, PatchOf, IsServed, IsStale, Sorted, NoDup;
    var after, ns := Patched(routes, PatchOf(routes, required, nameserver)), Norm(nameserver);
    var order := OrderedKeys(after);
    assert Walks(order, after);
    OkMeansServed(after, order, required, nameserver);
    forall r | r in after && IsStale(after, required, ns, r) ensures Judge(after, order, required, nameserver).stale != [] {
      FilterIn(r => r in after && IsStale(after, required, ns, r), order, r);
    }
  }

  /** A normalised name is stable exactly when it does not end in white space; otherwise
      normalising it again makes it shorter. */
  lemma EndOfNorm(domain: string)
    requires Norm(domain) != ""
    ensures Stable(domain) <==> !PySpace(Norm(domain)[|Norm(domain)| - 1])
    ensures !Stable(domain) ==> |Norm(Norm(domain))| < |Norm(domain)|
  {
    hide PySpace;
    var t, n := Trim(domain), Norm(domain);
    var u := DropEndWhile(c => c == '.', t);
    DropWhileHead(PySpace, domain);
    DropEndHead(PySpace, DropWhile(PySpace, domain));
    DropEndHead(c => c == '.', t);
    LowerEnds(u);
    assert DropWhile(PySpace, n) == n;
    if PySpace(n[|n| - 1]) {
      LowerLength(DropEndWhile(c => c == '.', Strip(PySpace, n)));
    } else {
      DropEndStops(PySpace, n);
      DropEndStops(c => c == '.', n);
    }
  }

  lemma LowerEnds(u: string)
    requires u != ""
    ensures |Lower(u)| == |u| && Lower(Lower(u)) == Lower(u)
    ensures PySpace(Lower(u)[0]) == PySpace(u[0]) && PySpace(Lower(u)[|u| - 1]) == PySpace(u[|u| - 1])
    ensures Lower(u)[|u| - 1] == '.' <==> u[|u| - 1] == '.'
  {}

  /** A covering name is a suffix, so both end alike. */
  lemma CoversEnds(route: string, domain: string)
    requires Covers(route, domain)
    ensures Norm(route) != "" && |Norm(route)| <= |Norm(domain)| && Norm(route)[|Norm(route)| - 1] == Norm(domain)[|Norm(domain)| - 1]
  {
    hide Norm;
  }

  /** Required domain `i` is covered by the name of no stable required domain. */
  ghost predicate Stranded(required: seq<string>, i: int)
    requires 0 <= i < |required|
  {
    Norm(required[i]) != "" && forall j :: 0 <= j < |required| && IsStable(required[j]) ==> !Covers(Trim(required[j]), Norm(required[i]))
  }

  predicate IsStable(domain: string) { Norm(domain) != "" && Stable(domain) }

  /** Every stable required domain is routed to us, and nothing else is routed. */
  function StableRoutes(required: seq<string>, nameserver: string): Routes {
    map k | k in StableNames(required) :: [nameserver]
  }

  function StableNames(required: seq<string>): set<string> {
    set j | 0 <= j < |required| && IsStable(required[j]) :: Trim(required[j])
  }

  /** From these routes, some stranded domain is still not served after the patch: what covers a
      stranded domain could only be another one, with a shorter name. */
  lemma {:induction false} StrandedIsUnserved(required: seq<string>, nameserver: string, i: nat)
    requires i < |required| && Stranded(required, i)
    ensures !Converges(StableRoutes(required, nameserver), required, nameserver)
    decreases |Norm(Norm(required[i]))|
  {
    hide Norm, Trim, Covers, Stable, Converges, IsStale, Claimed, Uses;
    var routes, ns := StableRoutes(required, nameserver), Norm(nameserver);
    var after := Patched(routes, PatchOf(routes, required, nameserver));
    if IsServed(after, Norm(required[i]), ns) {
      var r :| r in after && Covers(r, Norm(required[i])) && Uses(after[r], ns);
      assert r !in routes;
      var k :| 0 <= k < |required| && NeedsRoute(routes, ns, required[k]) && Trim(required[k]) == r;
      StrandedIfNeeded(required, nameserver, k);
      UnstableIfStranded(required, k);
      EndOfNorm(required[k]);
      NormOfTrim(required[k]);
      CoversEnds(r, Norm(required[i]));
      StrandedIsUnserved(required, nameserver, k);
    } else {
      Unfinished(routes, required, nameserver);
    }
  }

  lemma StrandedIfNeeded(required: seq<string>, nameserver: string, k: nat)
    requires k < |required| && NeedsRoute(StableRoutes(required, nameserver), Norm(nameserver), required[k])
    ensures Stranded(required, k)
  {
    hide Norm, Trim, Covers, Stable, Uses;
    var routes, ns := StableRoutes(required, nameserver), Norm(nameserver);
    OursUses(nameserver);
    forall j | 0 <= j < |required| && IsStable(required[j]) ensures !Covers(Trim(required[j]), Norm(required[k])) {
      assert Trim(required[j]) in routes && routes[Trim(required[j])] == [nameserver];
      assert Covers(Trim(required[j]), Norm(required[k])) ==> IsServed(routes, Norm(required[k]), ns);
      if IsServed(routes, Norm(required[k]), ns) { ServedIsCovered(routes, Norm(required[k]), ns); }
    }
  }

  lemma OursUses(nameserver: string)
    ensures Uses([nameserver], Norm(nameserver))
  {
    hide Norm;
    assert Norm([nameserver][0]) == Norm(nameserver);
  }

  lemma UnstableIfStranded(required: seq<string>, k: nat)
    requires k < |required| && Stranded(required, k)
    ensures !Stable(required[k])
  {
    hide Norm, Trim, Covers, Stable;
    if Stable(required[k]) { SelfCover(required[k]); }
  }

  /** Without a stranded domain, from an empty table, the route set for an unstable domain is
      stale: no required name ends in white space when it is normalised twice. */
  lemma UnstableIsStale(required: seq<string>, nameserver: string, i: nat)
    requires i < |required| && Norm(required[i]) != "" && !Stable(required[i])
    requires forall b :: 0 <= b < |required| && Norm(required[b]) != "" ==> !Stranded(required, b)
    ensures !Converges(map[], required, nameserver)
  {
    hide Norm, Trim, Covers, Stable, Stranded, Converges, Uses;
    var ns, k := Norm(nameserver), Trim(required[i]);
    var after := Patched(map[], PatchOf(map[], required, nameserver));
    assert NeedsRoute(map[], ns, required[i]);
    assert k in ToSet(map[], required, ns) && k !in ToClear(map[], required, ns);
    assert k in after && after[k] == [nameserver];
    OursUses(nameserver);
    forall m | 0 <= m < |required| && Norm(required[m]) != ""
      ensures !Covers(k, Norm(required[m])) && !Covers(Norm(required[m]), k)
    {
      NoClaim(required, i, m);
    }
    assert IsStale(after, required, ns, k);
    Unfinished(map[], required, nameserver);
  }

  lemma NoClaim(required: seq<string>, i: nat, m: nat)
    requires i < |required| && m < |required| && Norm(required[i]) != "" && !Stable(required[i])
    requires Norm(required[m]) != "" && !Stranded(required, m)
    ensures !Covers(Trim(required[i]), Norm(required[m])) && !Covers(Norm(required[m]), Trim(required[i]))
  {
    hide Norm, Trim, Covers, Stable, PySpace;
    var j :| 0 <= j < |required| && IsStable(required[j]) && Covers(Trim(required[j]), Norm(required[m]));
    NormOfTrim(required[j]);
    NormOfTrim(required[i]);
    CoversEnds(Trim(required[j]), Norm(required[m]));
    EndOfNorm(required[j]);
    EndOfNorm(required[i]);
    if Covers(Trim(required[i]), Norm(required[m])) { CoversEnds(Trim(required[i]), Norm(required[m])); }
    if Covers(Norm(required[m]), Trim(required[i])) { CoversEnds(Norm(required[m]), Trim(required[i])); }
  }

  /** Such a domain exists: white space before the trailing dot. */
  lemma SpaceBeforeDotIsUnstable()
    ensures Norm("a .") != "" && !Stable("a .")
  {
    assert Strip(PySpace, "a .") == "a .";
    assert DropEndWhile(c => c == '.', "a .") == "a " by { assert "a ."[..2] == "a "; assert DropEndWhile(c => c == '.', "a ") == "a "; }
    assert Lower("a ") == "a ";
    assert Norm("a .") == "a ";
    assert Strip(PySpace, "a ") == "a" by { assert "a "[..1] == "a"; assert DropEndWhile(PySpace, "a") == "a"; }
    assert DropEndWhile(c => c == '.', "a") == "a";
    assert Lower("a") == "a";
  }

  lemma {:induction false} DropEndPrefix(p: char -> bool, s: string)
    ensures DropEndWhile(p, s) <= s
  {
    if s != "" && p(s[|s| - 1]) { DropEndPrefix(p, s[..|s| - 1]); }
  }

  lemma LowerKeeps(s: string)
    requires NoneOf(PySpace, s)
    ensures NoneOf(PySpace, Lower(s)) && Lower(Lower(s)) == Lower(s) && (s != "" && s[|s| - 1] != '.' ==> Lower(s)[|s| - 1] != '.')
  {}

  /** Names without inner white space are stable. */
  lemma NoInnerSpaceIsStable(domain: string)
    requires NoneOf(PySpace, Trim(domain))
    ensures Stable(domain)
  {
    hide Lower;
    var t := Trim(domain);
    var u := DropEndWhile(c => c == '.', t);
    DropEndPrefix(c => c == '.', t);
    DropEndHead(c => c == '.', t);
    assert NoneOf(PySpace, u) by { assert forall i :: 0 <= i < |u| ==> u[i] == t[i]; }
    LowerKeeps(u);
    var z := Lower(u);
    assert |z| == |u| by { LowerLength(u); }
    assert DropWhile(PySpace, z) == z;
    DropEndStops(PySpace, z);
    DropEndStops(c => c == '.', z);
  }

  lemma LowerLength(s: string)
    ensures |Lower(s)| == |s|
  {}

  /** The verdict is ok exactly when every required domain is served by a route that lists our
      nameserver; what is missing or misrouted is what is not. */
  lemma OkMeansServed(routes: Routes, order: seq<string>, required: seq<string>, nameserver: string)
    ensures Judge(routes, order, required, nameserver).Ok() <==>
            forall i :: 0 <= i < |required| && Norm(required[i]) != "" ==> IsServed(routes, Norm(required[i]), Norm(nameserver))
  {
    hide Norm, Trim, Covers, Uses, IsServed, PatchOf;
    var ns := Norm(nameserver);
    PickedNothing(d => IsMissing(routes, d), required);
    PickedNothing(d => IsMisrouted(routes, d, ns), required);
    forall i | 0 <= i < |required| && IsServed(routes, Norm(required[i]), ns) ensures IsCovered(routes, Norm(required[i])) {
      ServedIsCovered(routes, Norm(required[i]), ns);
    }
  }

  lemma {:induction false} PickedNothing(p: string -> bool, xs: seq<string>)
    ensures Trims(Filter(p, xs)) == [] <==> forall i :: 0 <= i < |xs| ==> !p(xs[i])
  {
    hide Trim;
    if xs != [] {
      var less := xs[..|xs| - 1];
      PickedNothing(p, less);
      FilterLast(p, xs, |xs| - 1);
      assert xs[..|xs|] == xs && xs[..|xs| - 1] == less;
      assert forall i :: 0 <= i < |less| ==> less[i] == xs[i];
    }
  }

  // ---------- what is served against what resolves ----------

  /** No covering route is more specific. Covering routes are suffixes of the name, so this is
      their length. */
  ghost predicate MostSpecific(routes: Routes, r: string, d: string) {
    r in routes && Covers(r, d) && forall o :: o in routes && Covers(o, d) ==> |Norm(o)| <= |Norm(r)|
  }

  /** The name is covered, and its most specific routes list our nameserver. */
  ghost predicate Resolves(routes: Routes, d: string, ns: string) {
    IsCovered(routes, d) && forall r :: MostSpecific(routes, r, d) ==> Uses(routes[r], ns)
  }

  /** A covering route of others is at least as specific as every covering route of ours. */
  ghost predicate Shadowed(routes: Routes, d: string, ns: string) { exists r :: Shadows(routes, r, d, ns) }

  ghost predicate Shadows(routes: Routes, r: string, d: string, ns: string) {
    && r in routes && Covers(r, d) && !Uses(routes[r], ns)
    && forall o :: o in routes && Covers(o, d) && Uses(routes[o], ns) ==> |Norm(o)| <= |Norm(r)|
  }

  lemma {:induction false} LongestExists(names: set<string>) returns (r: string)
    requires names != {}
    ensures r in names && forall o :: o in names ==> |Norm(o)| <= |Norm(r)|
  {
    hide Norm;
    var first :| first in names;
    var rest := names - {first};
    assert forall o :: o in names ==> o == first || o in rest;
    r := first;
    if rest != {} {
      var s := LongestExists(rest);
      if |Norm(first)| < |Norm(s)| { r := s; }
    }
  }

  /** The most specific among the covering routes that list our nameserver, or that do not. */
  lemma LongestOf(routes: Routes, d: string, ns: string, ours: bool, example: string) returns (r: string)
    requires example in routes && Covers(example, d) && Uses(routes[example], ns) == ours
    ensures r in routes && Covers(r, d) && Uses(routes[r], ns) == ours
    ensures forall o :: o in routes && Covers(o, d) && Uses(routes[o], ns) == ours ==> |Norm(o)| <= |Norm(r)|
  {
    hide Norm, Covers, Uses;
    var names := set o | o in routes && Covers(o, d) && Uses(routes[o], ns) == ours;
    assert example in names;
    r := LongestExists(names);
  }

  lemma ResolvesUnlessShadowed(routes: Routes, d: string, ns: string)
    ensures Resolves(routes, d, ns) <==> IsServed(routes, d, ns) && !Shadowed(routes, d, ns)
  {
    hide Norm, Covers, Uses;
    if IsCovered(routes, d) {
      var r :| r in routes && Covers(r, d);
      var top := LongestOf(routes, d, ns, Uses(routes[r], ns), r);
      if o :| o in routes && Covers(o, d) && Uses(routes[o], ns) != Uses(routes[r], ns) {
        var other := LongestOf(routes, d, ns, Uses(routes[o], ns), o);
        var ours, theirs := if Uses(routes[top], ns) then top else other, if Uses(routes[top], ns) then other else top;
        if |Norm(ours)| <= |Norm(theirs)| {
          assert MostSpecific(routes, theirs, d) && Shadows(routes, theirs, d, ns);
        } else {
          assert forall s :: Shadows(routes, s, d, ns) ==> |Norm(s)| <= |Norm(theirs)|;
        }
      } else {
        assert MostSpecific(routes, top, d);
        assert !Uses(routes[top], ns) ==> Shadows(routes, top, d, ns);
      }
    }
  }

  /** Every required domain resolves through our nameserver exactly when the verdict is ok and none
      of them is shadowed by a route of others. */
  lemma ResolvesExactly(routes: Routes, order: seq<string>, required: seq<string>, nameserver: string)
    ensures (forall i :: 0 <= i < |required| && Norm(required[i]) != "" ==> Resolves(routes, Norm(required[i]), Norm(nameserver))) <==>
              && Judge(routes, order, required, nameserver).Ok()
              && forall i :: 0 <= i < |required| && Norm(required[i]) != "" ==> !Shadowed(routes, Norm(required[i]), Norm(nameserver))
  {
    hide Norm, Judge, Resolves, Shadowed, IsServed;
    OkMeansServed(routes, order, required, nameserver);
    forall i | 0 <= i < |required|
      ensures Resolves(routes, Norm(required[i]), Norm(nameserver)) <==>
                IsServed(routes, Norm(required[i]), Norm(nameserver)) && !Shadowed(routes, Norm(required[i]), Norm(nameserver))
    {
      ResolvesUnlessShadowed(routes, Norm(required[i]), Norm(nameserver));
    }
  }

  lemma PlainName(s: string)
    requires s != "" && s[|s| - 1] != '.' && forall i :: 0 <= i < |s| ==> !PySpace(s[i]) && !('A' <= s[i] <= 'Z')
    ensures Norm(s) == s
  {
    assert Strip(PySpace, s) == s;
    DropEndStops(c => c == '.', s);
    assert Lower(s) == s;
  }

  /** An ok verdict with a shadowed domain: our route covers it from above, and others have a route
      of its own name. */
  lemma OwnRouteShadows(top: string, d: string, ours: string, theirs: string, order: seq<string>)
    requires top != "" && d != "" && Norm(top) == top && Norm(d) == d && EndsWith(d, "." + top) && Norm(ours) != Norm(theirs)
    ensures var routes := map[top := [ours], d := [theirs]];
            Judge(routes, order, [d], ours).Ok() && !Resolves(routes, d, Norm(ours))
  {
    var routes, ns := map[top := [ours], d := [theirs]], Norm(ours);
    assert Covers(top, d) && Covers(d, d);
    hide Norm, Judge, Covers, Resolves;
    assert |top| < |d| && routes[top] == [ours] && routes[d] == [theirs];
    OursUses(ours);
    assert !Uses([theirs], ns);
    assert IsServed(routes, d, ns);
    assert [d][0] == d;
    OkMeansServed(routes, order, [d], ours);
    assert Shadows(routes, d, d, ns);
    ResolvesUnlessShadowed(routes, d, ns);
  }

  /** Such names exist. */
  lemma ForeignRouteShadows(order: seq<string>)
    ensures var routes := map["internal" := ["pi"], "example.internal" := ["other"]];
            Judge(routes, order, ["example.internal"], "pi").Ok() && !Resolves(routes, "example.internal", Norm("pi"))
  {
    hide Norm, Judge, Resolves;
    PlainName("internal");
    PlainName("example.internal");
    PlainName("pi");
    PlainName("other");
    assert "example.internal"[7..] == "." + "internal";
    assert "pi"[0] != "other"[0];
    OwnRouteShadows("internal", "example.internal", "pi", "other", order);
  }

  // ---------- what normalising ignores ----------

  predicate CaseBlind(p: char -> bool) { forall c: char :: p(c) <==> p(Lower([c])[0]) }

  lemma LowerOf(s: string, i: nat)
    requires i < |s|
    ensures Lower(s)[i] == Lower([s[i]])[0] && Lower(s)[..i] == Lower(s[..i]) && Lower(s)[i + 1..] == Lower(s[i + 1..])
  {}

  lemma {:induction false} LowerDropWhile(p: char -> bool, s: string)
    requires CaseBlind(p)
    ensures DropWhile(p, Lower(s)) == Lower(DropWhile(p, s))
  {
    hide Lower;
    LowerLength(s);
    if s != "" {
      LowerOf(s, 0);
      if p(s[0]) { LowerDropWhile(p, s[1..]); }
    }
  }

  lemma {:induction false} LowerDropEnd(p: char -> bool, s: string)
    requires CaseBlind(p)
    ensures DropEndWhile(p, Lower(s)) == Lower(DropEndWhile(p, s))
  {
    hide Lower;
    LowerLength(s);
    if s != "" {
      LowerOf(s, |s| - 1);
      if p(s[|s| - 1]) { LowerDropEnd(p, s[..|s| - 1]); }
    }
  }

  lemma SpaceIsCaseBlind()
    ensures CaseBlind(PySpace) && CaseBlind(c => c == '.')
  {}

  /** Normalising ignores case, white space around the name, and a trailing dot; a name of other
      characters than capitals and white space that ends in none of these is left as it is. */
  lemma NormIgnores(s: string)
    ensures Norm(Lower(s)) == Norm(s)
    ensures Norm(Trim(s)) == Norm(s)
    ensures Trim(s) == s ==> Norm(s + ".") == Norm(s)
    ensures s != "" && s[|s| - 1] != '.' && (forall i :: 0 <= i < |s| ==> !PySpace(s[i]) && !('A' <= s[i] <= 'Z')) ==> Norm(s) == s
  {
    hide PySpace;
    LowerTwice(s);
    NormOfTrim(s);
    if Trim(s) == s { TrailingDot(s); }
    if s != "" && s[|s| - 1] != '.' && forall i :: 0 <= i < |s| ==> !PySpace(s[i]) && !('A' <= s[i] <= 'Z') { PlainName(s); }
  }

  lemma LowerTwice(s: string)
    ensures Norm(Lower(s)) == Norm(s)
  {
    hide PySpace, Lower;
    SpaceIsCaseBlind();
    LowerDropWhile(PySpace, s);
    LowerDropEnd(PySpace, DropWhile(PySpace, s));
    LowerDropEnd(c => c == '.', Strip(PySpace, s));
    LowerAgain(DropEndWhile(c => c == '.', Strip(PySpace, s)));
  }

  lemma LowerAgain(s: string)
    ensures Lower(Lower(s)) == Lower(s)
  {}

  lemma TrailingDot(s: string)
    requires Trim(s) == s
    ensures Norm(s + ".") == Norm(s)
  {
    hide Lower;
    var t := s + ".";
    DropWhileHead(PySpace, s);
    DropEndHead(PySpace, DropWhile(PySpace, s));
    assert DropWhile(PySpace, t) == t;
    assert !PySpace('.');
    assert t[..|t| - 1] == s;
  }

  // ---------- what the verdict means ----------

  /** `b` is `a` or a name below it: its labels end with those of `a`. */
  predicate AtOrBelow(b: string, a: string) {
    Norm(a) != "" && Norm(b) != "" && LabelSuffix(Split(Norm(a), '.'), Split(Norm(b), '.'))
  }

  predicate Required(required: seq<string>, i: int) { 0 <= i < |required| && Norm(required[i]) != "" }

  /** Every entry of the verdict, in terms of labels: missing is what is at or below no route;
      misrouted what is so only for routes without our nameserver; stale a route of ours that is
      neither at or below a required domain nor has one at or below it. */
  lemma VerdictExactly(routes: Routes, order: seq<string>, required: seq<string>, nameserver: string)
    requires Walks(order, routes)
    ensures var v, ns := Judge(routes, order, required, nameserver), Norm(nameserver);
            && (forall d :: d in v.missing <==> exists i :: Required(required, i) && Trim(required[i]) == d && IsUncovered(routes, Norm(required[i])))
            && (forall d :: d in v.misrouted <==> exists i :: Required(required, i) && Trim(required[i]) == d && IsForeign(routes, Norm(required[i]), ns))
            && (forall r :: r in v.stale <==> r in routes && Uses(routes[r], ns) && forall i :: Required(required, i) ==> IsApart(r, Norm(required[i])))
  {
    hide Norm, Trim, Covers, Uses, PatchOf, IsMissing, IsMisrouted, IsStale, Sorted, NoDup, AtOrBelow, IsUncovered, IsForeign, IsApart;
    var v, ns := Judge(routes, order, required, nameserver), Norm(nameserver);
    forall d ensures d in v.missing <==> exists i :: Required(required, i) && Trim(required[i]) == d && IsUncovered(routes, Norm(required[i])) {
      Listed(e => IsMissing(routes, e), required, d);
      MissingMeans(routes, required);
    }
    forall d ensures d in v.misrouted <==> exists i :: Required(required, i) && Trim(required[i]) == d && IsForeign(routes, Norm(required[i]), ns) {
      Listed(e => IsMisrouted(routes, e, ns), required, d);
      MisroutedMeans(routes, required, ns);
    }
    forall r ensures r in v.stale <==> r in routes && Uses(routes[r], ns) && forall i :: Required(required, i) ==> IsApart(r, Norm(required[i])) {
      FilterIn(r => r in routes && IsStale(routes, required, ns, r), order, r);
      if r in routes { StaleMeans(routes, required, ns, r); }
    }
  }

  /** The name is at or below no route. */
  predicate IsUncovered(routes: Routes, d: string) { forall r :: r in routes ==> !AtOrBelow(d, r) }

  /** The name is at or below some route, and no such route lists our nameserver. */
  predicate IsForeign(routes: Routes, d: string, ns: string) {
    (exists r :: r in routes && AtOrBelow(d, r)) && forall r :: r in routes && AtOrBelow(d, r) ==> !Uses(routes[r], ns)
  }

  /** Neither name is at or below the other. */
  predicate IsApart(r: string, d: string) { !AtOrBelow(d, r) && !AtOrBelow(r, d) }

  lemma CoversMeans(route: string, domain: string)
    ensures Covers(route, domain) <==> AtOrBelow(domain, route)
  {
    hide Norm, Split, LabelSuffix;
    CoversIsSubdomain(route, domain);
  }

  lemma {:induction false} Listed(p: string -> bool, xs: seq<string>, d: string)
    ensures d in Trims(Filter(p, xs)) <==> exists i :: 0 <= i < |xs| && p(xs[i]) && Trim(xs[i]) == d
  {
    hide Trim;
    if xs != [] {
      var less := xs[..|xs| - 1];
      Listed(p, less, d);
      FilterLast(p, xs, |xs| - 1);
      assert xs[..|xs|] == xs && xs[..|xs| - 1] == less;
      assert forall i :: 0 <= i < |less| ==> less[i] == xs[i];
    }
  }

  lemma MissingMeans(routes: Routes, required: seq<string>)
    ensures forall i :: 0 <= i < |required| ==> (IsMissing(routes, required[i]) <==> Required(required, i) && IsUncovered(routes, Norm(required[i])))
  {
    hide Norm, Covers, AtOrBelow;
    forall r, d ensures Covers(r, d) <==> AtOrBelow(d, r) { CoversMeans(r, d); }
  }

  lemma MisroutedMeans(routes: Routes, required: seq<string>, ns: string)
    ensures forall i :: 0 <= i < |required| ==>
              (IsMisrouted(routes, required[i], ns) <==> Required(required, i) && IsForeign(routes, Norm(required[i]), ns))
  {
    hide Norm, Covers, AtOrBelow, Uses;
    forall r, d ensures Covers(r, d) <==> AtOrBelow(d, r) { CoversMeans(r, d); }
  }

  lemma StaleMeans(routes: Routes, required: seq<string>, ns: string, r: string)
    requires r in routes
    ensures IsStale(routes, required, ns, r) <==> Uses(routes[r], ns) && forall i :: Required(required, i) ==> IsApart(r, Norm(required[i]))
  {
    hide Norm, Covers, AtOrBelow, Uses;
    forall r, d ensures Covers(r, d) <==> AtOrBelow(d, r) { CoversMeans(r, d); }
    if i :| 0 <= i < |required| && Norm(required[i]) != "" && (Covers(r, Norm(required[i])) || Covers(Norm(required[i]), r)) {
      assert Required(required, i) && !IsApart(r, Norm(required[i]));
    }
  }

  /** The patch clears what is stale, and points everything else that is missing or misrouted at our
      nameserver alone; it has no other keys. */
  lemma PatchExactly(routes: Routes, order: seq<string>, required: seq<string>, nameserver: string)
    requires Walks(order, routes)
    ensures var v := Judge(routes, order, required, nameserver);
            && (forall k :: k in v.patch <==> k in v.missing || k in v.misrouted || k in v.stale)
            && (forall k :: k in v.patch ==> v.patch[k] == if k in v.stale then None else Some([nameserver]))
  {
    hide Norm, Trim, Covers, Uses, IsMissing, IsMisrouted, IsStale, Sorted, NoDup;
    var v, ns := Judge(routes, order, required, nameserver), Norm(nameserver);
    forall k
      ensures k in v.stale <==> k in ToClear(routes, required, ns)
      ensures k in v.missing || k in v.misrouted <==> k in ToSet(routes, required, ns)
    {
      FilterIn(r => r in routes && IsStale(routes, required, ns, r), order, k);
      Listed(e => IsMissing(routes, e), required, k);
      Listed(e => IsMisrouted(routes, e, ns), required, k);
    }
  }

  /** A route is ours wherever our nameserver stands among the addresses, and however it is written. */
  lemma ExtraNameserversAreFine(before: seq<string>, ours: string, after: seq<string>, ns: string)
    ensures Norm(ours) == ns ==> Uses(before + [ours] + after, ns)
    ensures (forall i :: 0 <= i < |before| ==> Norm(before[i]) != ns) ==> !Uses(before, ns)
  {
    hide Norm;
    assert (before + [ours] + after)[|before|] == ours;
  }
}
