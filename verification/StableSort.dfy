/** Stable sorting: what a stable sort is, that it determines its result, and that filters commute with it. */
module StableSort {

  /** `less` orders the elements of `s`: not above in both directions, and "not above" is transitive. */
  ghost predicate Orders<T>(less: (T, T) -> bool, s: seq<T>) {
    && (forall x, y :: x in s && y in s ==> !(less(x, y) && less(y, x)))
    && (forall x, y, z :: x in s && y in s && z in s && !less(y, x) && !less(z, y) ==> !less(z, x))
  }

  ghost predicate Sorted<T>(less: (T, T) -> bool, s: seq<T>) {
    forall i, j :: 0 <= i < j < |s| ==> !less(s[j], s[i])
  }

  function Filter<T>(p: T -> bool, s: seq<T>): seq<T>
    decreases |s|
  {
    if s == [] then []
    else if p(s[|s| - 1]) then Filter(p, s[..|s| - 1]) + [s[|s| - 1]]
    else Filter(p, s[..|s| - 1])
  }

  function Tie<T>(less: (T, T) -> bool, x: T): T -> bool {
    y => !less(x, y) && !less(y, x)
  }

  /** The elements that tie with `x`, in their own order. */
  function Ties<T>(less: (T, T) -> bool, s: seq<T>, x: T): seq<T> {
    Filter(Tie(less, x), s)
  }

  /** `r` is sorted and keeps elements that tie in the order they have in `s`. */
  ghost predicate StablySorted<T(!new)>(less: (T, T) -> bool, s: seq<T>, r: seq<T>) {
    Sorted(less, r) && multiset(r) == multiset(s) && forall x :: x in s ==> Ties(less, r, x) == Ties(less, s, x)
  }

  /** `x` goes after everything it is not strictly below, seen from the end. */
  function Place<T>(less: (T, T) -> bool, s: seq<T>, x: T): seq<T>
    decreases |s|
  {
    if s != [] && less(x, s[|s| - 1]) then Place(less, s[..|s| - 1], x) + [s[|s| - 1]] else s + [x]
  }

  function Sort<T>(less: (T, T) -> bool, s: seq<T>): seq<T>
    decreases |s|
  {
    if s == [] then [] else Place(less, Sort(less, s[..|s| - 1]), s[|s| - 1])
  }

  lemma FilterSnoc<T>(p: T -> bool, s: seq<T>, x: T)
    ensures Filter(p, s + [x]) == if p(x) then Filter(p, s) + [x] else Filter(p, s)
  {
    assert (s + [x])[..|s|] == s;
  }

  lemma {:induction false} FilterElements<T>(p: T -> bool, s: seq<T>, x: T)
    ensures x in Filter(p, s) <==> x in s && p(x)
    decreases |s|
  {
    if s != [] {
      FilterElements(p, s[..|s| - 1], x);
      assert s == s[..|s| - 1] + [s[|s| - 1]];
    }
  }

  lemma {:induction false} FiltersCommute<T>(p: T -> bool, q: T -> bool, s: seq<T>)
    ensures Filter(p, Filter(q, s)) == Filter(q, Filter(p, s))
    decreases |s|
  {
    if s != [] {
      var n := |s| - 1;
      FiltersCommute(p, q, s[..n]);
      assert s == s[..n] + [s[n]];
      FilterSnoc(p, s[..n], s[n]);
      FilterSnoc(q, s[..n], s[n]);
      FilterSnoc(p, Filter(q, s[..n]), s[n]);
      FilterSnoc(q, Filter(p, s[..n]), s[n]);
    }
  }

  lemma {:induction false} FilterSorted<T>(less: (T, T) -> bool, p: T -> bool, s: seq<T>)
    requires Sorted(less, s)
    ensures Sorted(less, Filter(p, s))
    decreases |s|
  {
    if s != [] {
      var n := |s| - 1;
      var f := Filter(p, s[..n]);
      FilterSorted(less, p, s[..n]);
      forall i | 0 <= i < |f| ensures !less(s[n], f[i]) {
        FilterElements(p, s[..n], f[i]);
      }
    }
  }

  // Placing one element.

  lemma {:induction false} PlaceElements<T>(less: (T, T) -> bool, s: seq<T>, x: T)
    ensures multiset(Place(less, s, x)) == multiset(s) + multiset{x}
    decreases |s|
  {
    if s != [] && less(x, s[|s| - 1]) {
      PlaceElements(less, s[..|s| - 1], x);
      assert s == s[..|s| - 1] + [s[|s| - 1]];
    }
  }

  lemma InPlace<T>(less: (T, T) -> bool, s: seq<T>, x: T, y: T)
    ensures y in Place(less, s, x) <==> y in s || y == x
  {
    PlaceElements(less, s, x);
    assert y in Place(less, s, x) <==> y in multiset(Place(less, s, x));
  }

  lemma OrdersFewer<T>(less: (T, T) -> bool, s: seq<T>, t: seq<T>)
    requires Orders(less, s) && forall x :: x in t ==> x in s
    ensures Orders(less, t)
  {
  }

  lemma {:induction false} PlaceSorted<T>(less: (T, T) -> bool, s: seq<T>, x: T)
    requires Sorted(less, s) && Orders(less, s + [x])
    ensures Sorted(less, Place(less, s, x))
    decreases |s|
  {
    if s != [] {
      var n := |s| - 1;
      if less(x, s[n]) {
        var r := Place(less, s[..n], x);
        OrdersFewer(less, s + [x], s[..n] + [x]);
        PlaceSorted(less, s[..n], x);
        forall i | 0 <= i < |r| ensures !less(s[n], r[i]) {
          InPlace(less, s[..n], x, r[i]);
          assert x in s + [x] && s[n] in s + [x];
        }
      } else {
        forall i | 0 <= i < n ensures !less(x, s[i]) {
          assert s[i] in s + [x] && s[n] in s + [x] && x in s + [x];
        }
      }
    }
  }

  lemma {:induction false} PlaceTies<T>(less: (T, T) -> bool, all: seq<T>, s: seq<T>, x: T, y: T)
    requires Orders(less, all) && x in all && y in all && forall z :: z in s ==> z in all
    ensures Ties(less, Place(less, s, x), y) == Ties(less, s + [x], y)
    decreases |s|
  {
    var tie := Tie(less, y);
    FilterSnoc(tie, s, x);
    if s != [] && less(x, s[|s| - 1]) {
      var n := |s| - 1;
      var last := s[n];
      PlaceTies(less, all, s[..n], x, y);
      assert s == s[..n] + [last];
      FilterSnoc(tie, s[..n], last);
      FilterSnoc(tie, s[..n], x);
      FilterSnoc(tie, Place(less, s[..n], x), last);
      assert last in all;
      assert !(tie(x) && tie(last));
    }
  }

  // Sorting.

  lemma {:induction false} SortElements<T>(less: (T, T) -> bool, s: seq<T>)
    ensures multiset(Sort(less, s)) == multiset(s)
    decreases |s|
  {
    hide Place;
    if s != [] {
      var n := |s| - 1;
      SortElements(less, s[..n]);
      PlaceElements(less, Sort(less, s[..n]), s[n]);
      hide Sort;
      assert s == s[..n] + [s[n]];
    }
  }

  lemma InSort<T>(less: (T, T) -> bool, s: seq<T>, x: T)
    ensures x in Sort(less, s) <==> x in s
  {
    SortElements(less, s);
    assert x in s <==> x in multiset(s);
    assert x in Sort(less, s) <==> x in multiset(Sort(less, s));
  }

  lemma {:induction false} SortSorted<T(!new)>(less: (T, T) -> bool, s: seq<T>)
    requires Orders(less, s)
    ensures Sorted(less, Sort(less, s))
    decreases |s|
  {
    if s != [] {
      var n := |s| - 1;
      OrdersFewer(less, s, s[..n]);
      SortSorted(less, s[..n]);
      forall x | x in Sort(less, s[..n]) + [s[n]] ensures x in s { InSort(less, s[..n], x); }
      OrdersFewer(less, s, Sort(less, s[..n]) + [s[n]]);
      PlaceSorted(less, Sort(less, s[..n]), s[n]);
    }
  }

  /** Sorting one more element adds it to its own ties only. */
  lemma SortOneMoreTies<T(!new)>(less: (T, T) -> bool, all: seq<T>, front: seq<T>, x: T, y: T)
    requires Orders(less, all) && y in all && x in all && forall z :: z in front ==> z in all
    requires Ties(less, Sort(less, front), y) == Ties(less, front, y)
    ensures Ties(less, Place(less, Sort(less, front), x), y) == Ties(less, front + [x], y)
  {
    hide Orders, Sort, Place, Filter;
    var r := Sort(less, front);
    forall z | z in r ensures z in all { InSort(less, front, z); }
    PlaceTies(less, all, r, x, y);
    FilterSnoc(Tie(less, y), r, x);
    FilterSnoc(Tie(less, y), front, x);
  }

  lemma {:induction false} SortTies<T(!new)>(less: (T, T) -> bool, all: seq<T>, s: seq<T>, y: T)
    requires Orders(less, all) && y in all && forall z :: z in s ==> z in all
    ensures Ties(less, Sort(less, s), y) == Ties(less, s, y)
    decreases |s|
  {
    hide Orders, Ties, Place;
    if s != [] {
      var n := |s| - 1;
      assert s == s[..n] + [s[n]];
      SortTies(less, all, s[..n], y);
      SortOneMoreTies(less, all, s[..n], s[n], y);
    }
  }

  lemma SortIsStable<T(!new)>(less: (T, T) -> bool, s: seq<T>)
    requires Orders(less, s)
    ensures StablySorted(less, s, Sort(less, s))
  {
    SortElements(less, s);
    SortSorted(less, s);
    forall x | x in s ensures Ties(less, Sort(less, s), x) == Ties(less, s, x) {
      SortTies(less, s, s, x);
    }
  }

  /** The last elements of two sorted sequences with the same ties are equal. */
  lemma SameLast<T(!new)>(less: (T, T) -> bool, all: seq<T>, a: seq<T>, b: seq<T>)
    requires Orders(less, all) && Sorted(less, a) && Sorted(less, b) && a != [] && b != []
    requires forall x :: (x in a || x in b) ==> x in all
    requires forall x :: x in all ==> Ties(less, a, x) == Ties(less, b, x)
    ensures a[|a| - 1] == b[|b| - 1]
  {
    var x, y := a[|a| - 1], b[|b| - 1];
    assert x in all && y in all;
    FilterElements(Tie(less, x), a, x);
    FilterElements(Tie(less, x), b, x);
    FilterElements(Tie(less, y), a, y);
    FilterElements(Tie(less, y), b, y);
    assert Ties(less, a, x) == Ties(less, b, x) && Ties(less, a, y) == Ties(less, b, y);
    assert !less(x, x) && !less(y, y);
    assert x in b && y in a;
    LastIsHighest(less, a, y);
    LastIsHighest(less, b, x);
    FilterLast(Tie(less, x), a);
    FilterLast(Tie(less, x), b);
  }

  lemma LastIsHighest<T>(less: (T, T) -> bool, s: seq<T>, x: T)
    requires Sorted(less, s) && x in s && !less(x, x)
    ensures !less(s[|s| - 1], x)
  {
    var i :| 0 <= i < |s| && s[i] == x;
  }

  lemma FilterLast<T>(p: T -> bool, s: seq<T>)
    requires s != [] && p(s[|s| - 1])
    ensures Filter(p, s) != [] && Filter(p, s)[|Filter(p, s)| - 1] == s[|s| - 1]
  {
  }

  /** A stable sort determines its result: any stably sorted rearrangement is this one. */
  lemma {:induction false} SortedTiesDetermine<T(!new)>(less: (T, T) -> bool, all: seq<T>, a: seq<T>, b: seq<T>)
    requires Orders(less, all) && Sorted(less, a) && Sorted(less, b)
    requires forall x :: (x in a || x in b) ==> x in all
    requires forall x :: x in all ==> Ties(less, a, x) == Ties(less, b, x)
    ensures a == b
    decreases |a|
  {
    hide Ties, Orders;
    if a == [] {
      if b != [] { HasTies(less, all, b, a, b[0]); }
    } else if b == [] {
      HasTies(less, all, a, b, a[0]);
    } else {
      SameLast(less, all, a, b);
      var m, n := |a| - 1, |b| - 1;
      forall x | x in all ensures Ties(less, a[..m], x) == Ties(less, b[..n], x) {
        SameTiesBefore(less, a, b, x);
      }
      assert a == a[..m] + [a[m]] && b == b[..n] + [b[n]];
      SortedTiesDetermine(less, all, a[..m], b[..n]);
    }
  }

  lemma HasTies<T(!new)>(less: (T, T) -> bool, all: seq<T>, a: seq<T>, b: seq<T>, x: T)
    requires Orders(less, all) && x in a && x in all && Ties(less, a, x) == Ties(less, b, x)
    ensures b != []
  {
    FilterElements(Tie(less, x), a, x);
  }

  lemma SameTiesBefore<T>(less: (T, T) -> bool, a: seq<T>, b: seq<T>, x: T)
    requires a != [] && b != [] && a[|a| - 1] == b[|b| - 1] && Ties(less, a, x) == Ties(less, b, x)
    ensures Ties(less, a[..|a| - 1], x) == Ties(less, b[..|b| - 1], x)
  {
    var m, n := |a| - 1, |b| - 1;
    assert a == a[..m] + [a[m]] && b == b[..n] + [b[n]];
    FilterSnoc(Tie(less, x), a[..m], a[m]);
    FilterSnoc(Tie(less, x), b[..n], b[n]);
    if Tie(less, x)(a[m]) {
      assert Ties(less, a[..m], x) == Ties(less, a, x)[..|Ties(less, a, x)| - 1];
      assert Ties(less, b[..n], x) == Ties(less, b, x)[..|Ties(less, b, x)| - 1];
    }
  }

  lemma StableSortIsUnique<T(!new)>(less: (T, T) -> bool, s: seq<T>, r: seq<T>)
    requires Orders(less, s)
    ensures StablySorted(less, s, r) <==> r == Sort(less, s)
  {
    SortIsStable(less, s);
    if StablySorted(less, s, r) {
      forall x | x in r || x in Sort(less, s) ensures x in s {
        InSort(less, s, x);
        assert x in multiset(r) <==> x in multiset(s);
      }
      SortedTiesDetermine(less, s, r, Sort(less, s));
    }
  }

  /** Filtering the sorted sequence is sorting the filtered one. */
  lemma FilterOfSort<T(!new)>(less: (T, T) -> bool, p: T -> bool, s: seq<T>)
    requires Orders(less, s)
    ensures Filter(p, Sort(less, s)) == Sort(less, Filter(p, s))
  {
    var a, f := Filter(p, Sort(less, s)), Filter(p, s);
    forall x | x in f ensures x in s { FilterElements(p, s, x); }
    OrdersFewer(less, s, f);
    SortSorted(less, s);
    FilterSorted(less, p, Sort(less, s));
    SortSorted(less, f);
    forall x | x in a || x in Sort(less, f) ensures x in s {
      FilterElements(p, Sort(less, s), x);
      InSort(less, s, x);
      InSort(less, f, x);
    }
    forall x | x in s ensures Ties(less, a, x) == Ties(less, Sort(less, f), x) {
      FiltersCommute(Tie(less, x), p, Sort(less, s));
      SortTies(less, s, s, x);
      FiltersCommute(Tie(less, x), p, s);
      SortTies(less, s, f, x);
    }
    SortedTiesDetermine(less, s, a, Sort(less, f));
  }
}
