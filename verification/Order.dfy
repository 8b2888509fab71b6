/** Strings in code-point order (`sort.Strings`, Python's `sorted`). */
module Order {

  predicate Leq(a: string, b: string) {
    a == "" || (b != "" && (a[0] < b[0] || (a[0] == b[0] && Leq(a[1..], b[1..]))))
  }

  lemma {:induction false} LeqTotal(a: string, b: string)
    ensures Leq(a, b) || Leq(b, a)
    decreases |a|
  {
    if a != "" && b != "" && a[0] == b[0] { LeqTotal(a[1..], b[1..]); }
  }

  lemma {:induction false} LeqAntisymmetric(a: string, b: string)
    requires Leq(a, b) && Leq(b, a)
    ensures a == b
    decreases |a|
  {
    if a != "" {
      LeqAntisymmetric(a[1..], b[1..]);
      assert a == [a[0]] + a[1..] && b == [b[0]] + b[1..];
    }
  }

  lemma {:induction false} LeqTransitive(a: string, b: string, c: string)
    requires Leq(a, b) && Leq(b, c)
    ensures Leq(a, c)
    decreases |a|
  {
    if a != "" && a[0] == b[0] && b[0] == c[0] { LeqTransitive(a[1..], b[1..], c[1..]); }
  }

  ghost predicate Sorted(xs: seq<string>) {
    forall i, j :: 0 <= i < j < |xs| ==> Leq(xs[i], xs[j])
  }

  ghost predicate NoDup<T>(xs: seq<T>) {
    forall i, j :: 0 <= i < j < |xs| ==> xs[i] != xs[j]
  }

  function Insert(x: string, xs: seq<string>): (r: seq<string>)
    ensures multiset(r) == multiset{x} + multiset(xs)
  {
    if xs == [] then [x]
    else if Leq(x, xs[0]) then [x] + xs
    else
      assert xs == [xs[0]] + xs[1..];
      [xs[0]] + Insert(x, xs[1..])
  }

  function Sort(xs: seq<string>): (r: seq<string>)
    ensures multiset(r) == multiset(xs)
  {
    if xs == [] then [] else
      assert xs == [xs[0]] + xs[1..];
      Insert(xs[0], Sort(xs[1..]))
  }

  lemma {:induction false} InsertSorted(x: string, xs: seq<string>)
    requires Sorted(xs)
    ensures Sorted(Insert(x, xs))
  {
    if xs != [] {
      if Leq(x, xs[0]) {
        forall j | 0 <= j < |xs| ensures Leq(x, xs[j]) {
          if j > 0 { LeqTransitive(x, xs[0], xs[j]); }
        }
      } else {
        LeqTotal(x, xs[0]);
        InsertSorted(x, xs[1..]);
        var tail := Insert(x, xs[1..]);
        forall j | 0 <= j < |tail| ensures Leq(xs[0], tail[j]) {
          assert tail[j] in multiset(tail);
          assert tail[j] == x || tail[j] in xs[1..];
        }
      }
    }
  }

  lemma {:induction false} SortSorted(xs: seq<string>)
    ensures Sorted(Sort(xs))
  {
    if xs != [] {
      SortSorted(xs[1..]);
      InsertSorted(xs[0], Sort(xs[1..]));
    }
  }

  lemma SameElements<T>(xs: seq<T>, ys: seq<T>)
    requires multiset(xs) == multiset(ys)
    ensures |xs| == |ys|
    ensures forall x :: x in xs <==> x in ys
  {
    assert |multiset(xs)| == |xs| && |multiset(ys)| == |ys|;
    forall x ensures x in xs <==> x in ys {
      assert x in xs <==> x in multiset(xs);
      assert x in ys <==> x in multiset(ys);
    }
  }

  lemma HeadIsLeast(xs: seq<string>, x: string)
    requires Sorted(xs) && x in xs
    ensures Leq(xs[0], x)
  {
    var i :| 0 <= i < |xs| && xs[i] == x;
    if i == 0 { LeqTotal(x, x); }
  }

  lemma TailMultiset<T>(xs: seq<T>)
    requires xs != []
    ensures multiset(xs[1..]) == multiset(xs) - multiset{xs[0]}
  {
    assert xs == [xs[0]] + xs[1..];
  }

  /** The sorted list of a bag of strings does not depend on the order they came in. */
  lemma {:induction false} SortedUnique(xs: seq<string>, ys: seq<string>)
    requires Sorted(xs) && Sorted(ys) && multiset(xs) == multiset(ys)
    ensures xs == ys
    decreases |xs|
  {
    hide Leq;
    SameElements(xs, ys);
    if xs != [] {
      HeadIsLeast(xs, ys[0]);
      HeadIsLeast(ys, xs[0]);
      LeqAntisymmetric(xs[0], ys[0]);
      TailMultiset(xs);
      TailMultiset(ys);
      SortedUnique(xs[1..], ys[1..]);
      assert xs == [xs[0]] + xs[1..] && ys == [ys[0]] + ys[1..];
    }
  }

  lemma {:induction false} NoDupMultiset<T>(xs: seq<T>)
    requires NoDup(xs)
    ensures forall x :: multiset(xs)[x] == if x in xs then 1 else 0
  {
    if xs != [] {
      NoDupMultiset(xs[1..]);
      assert xs == [xs[0]] + xs[1..];
      assert multiset(xs) == multiset{xs[0]} + multiset(xs[1..]);
      assert xs[0] !in xs[1..];
    }
  }

  lemma {:induction false} MultisetNoDup<T>(xs: seq<T>)
    requires forall x :: multiset(xs)[x] <= 1
    ensures NoDup(xs)
  {
    if xs != [] {
      assert xs == [xs[0]] + xs[1..];
      assert multiset(xs) == multiset{xs[0]} + multiset(xs[1..]);
      forall x ensures multiset(xs[1..])[x] <= 1 { assert multiset(xs)[x] <= 1; }
      MultisetNoDup(xs[1..]);
      assert xs[0] !in xs[1..] by {
        assert multiset(xs)[xs[0]] <= 1;
        assert xs[0] in xs[1..] <==> xs[0] in multiset(xs[1..]);
      }
    }
  }

  lemma SortNoDup(xs: seq<string>)
    requires NoDup(xs)
    ensures NoDup(Sort(xs))
    ensures forall x :: x in Sort(xs) <==> x in xs
  {
    NoDupMultiset(xs);
    MultisetNoDup(Sort(xs));
    SameElements(Sort(xs), xs);
  }

  // ---------- the keys of a map ----------

  ghost predicate KeysInOrder<T>(names: seq<string>, m: map<string, T>) {
    Sorted(names) && NoDup(names) && forall n :: n in names <==> n in m
  }

  lemma KeysInOrderExist<T>(m: map<string, T>)
    ensures exists names :: KeysInOrder(names, m)
  {
    var list: seq<string> := [];
    var rest := m.Keys;
    while rest != {}
      invariant rest <= m.Keys && NoDup(list)
      invariant forall n :: n in list <==> n in m && n !in rest
    {
      var n :| n in rest;
      rest, list := rest - {n}, list + [n];
    }
    SortSorted(list);
    SortNoDup(list);
    assert KeysInOrder(Sort(list), m);
  }

  lemma KeysInOrderUnique<T>(a: seq<string>, b: seq<string>, m: map<string, T>)
    requires KeysInOrder(a, m) && KeysInOrder(b, m)
    ensures a == b
  {
    NoDupMultiset(a);
    NoDupMultiset(b);
    forall x ensures multiset(a)[x] == multiset(b)[x] { assert x in a <==> x in b; }
    SortedUnique(a, b);
  }

  ghost function OrderedKeys<T>(m: map<string, T>): (names: seq<string>)
    ensures KeysInOrder(names, m)
  {
    KeysInOrderExist(m);
    var names :| KeysInOrder(names, m);
    names
  }

  /** `sort.Strings` over the keys of a map: the same list for every iteration order. */
  method SortedKeys<T>(m: map<string, T>) returns (names: seq<string>)
    ensures names == OrderedKeys(m)
  {
    var rest := m.Keys;
    var list: seq<string> := [];
    while rest != {}
      invariant rest <= m.Keys && NoDup(list)
      invariant forall n :: n in list <==> n in m && n !in rest
      decreases |rest|
    {
      var n :| n in rest;
      rest := rest - {n};
      list := list + [n];
    }
    SortSorted(list);
    SortNoDup(list);
    names := Sort(list);
    KeysInOrderUnique(names, OrderedKeys(m), m);
  }
}
