/** Picking the elements of a list that satisfy a predicate. */
module Lists {
  import opened Order

  function Filter<T>(keep: T -> bool, xs: seq<T>): seq<T> {
    if xs == [] then [] else
      Filter(keep, xs[..|xs| - 1]) + (if keep(xs[|xs| - 1]) then [xs[|xs| - 1]] else [])
  }

  lemma {:induction false} FilterIn<T>(keep: T -> bool, xs: seq<T>, x: T)
    ensures x in Filter(keep, xs) <==> x in xs && keep(x)
  {
    if xs != [] {
      FilterIn(keep, xs[..|xs| - 1], x);
      assert xs == xs[..|xs| - 1] + [xs[|xs| - 1]];
    }
  }

  lemma {:induction false} FilterNoDup<T>(keep: T -> bool, xs: seq<T>)
    requires NoDup(xs)
    ensures NoDup(Filter(keep, xs))
  {
    if xs != [] {
      var less := xs[..|xs| - 1];
      FilterNoDup(keep, less);
      FilterIn(keep, less, xs[|xs| - 1]);
    }
  }

  lemma {:induction false} FilterTwice<T>(p: T -> bool, q: T -> bool, r: T -> bool, xs: seq<T>)
    requires forall x :: r(x) <==> p(x) && q(x)
    ensures Filter(q, Filter(p, xs)) == Filter(r, xs)
  {
    if xs != [] {
      var less := xs[..|xs| - 1];
      FilterTwice(p, q, r, less);
      if p(xs[|xs| - 1]) {
        assert (Filter(p, less) + [xs[|xs| - 1]])[..|Filter(p, less)|] == Filter(p, less);
      } else {
        assert Filter(p, less) + [] == Filter(p, less);
      }
    }
  }

  lemma {:induction false} FilterAll<T>(p: T -> bool, xs: seq<T>)
    requires forall i :: 0 <= i < |xs| ==> p(xs[i])
    ensures Filter(p, xs) == xs
  {
    if xs != [] {
      FilterAll(p, xs[..|xs| - 1]);
      assert xs == xs[..|xs| - 1] + [xs[|xs| - 1]];
    }
  }

  lemma {:induction false} FilterConcat<T>(p: T -> bool, xs: seq<T>, ys: seq<T>)
    ensures Filter(p, xs + ys) == Filter(p, xs) + Filter(p, ys)
  {
    if ys == [] {
      assert xs + ys == xs;
    } else {
      assert (xs + ys)[..|xs + ys| - 1] == xs + ys[..|ys| - 1];
      FilterConcat(p, xs, ys[..|ys| - 1]);
    }
  }

  lemma {:induction false} FilterSame<T>(p: T -> bool, q: T -> bool, xs: seq<T>)
    requires forall i :: 0 <= i < |xs| ==> p(xs[i]) == q(xs[i])
    ensures Filter(p, xs) == Filter(q, xs)
  {
    if xs != [] { FilterSame(p, q, xs[..|xs| - 1]); }
  }
}
