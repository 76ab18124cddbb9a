/** Array.prototype.filter, as a function, and what a caller may rely on. */
module Filtering {
  import opened StableSorting

  function Filter<T>(keep: T -> bool, s: seq<T>): seq<T> {
    if s == [] then []
    else Filter(keep, s[..|s| - 1]) + (if keep(s[|s| - 1]) then [s[|s| - 1]] else [])
  }

  /** One more element at the end. */
  lemma FilterNext<T>(keep: T -> bool, s: seq<T>, i: nat)
    requires i < |s|
    ensures Filter(keep, s[..i + 1]) == Filter(keep, s[..i]) + (if keep(s[i]) then [s[i]] else [])
  {
    assert s[..i + 1][..i] == s[..i];
  }

  lemma {:induction false} FilterMembers<T>(keep: T -> bool, s: seq<T>)
    ensures forall x :: x in Filter(keep, s) ==> x in s && keep(x)
    ensures forall x :: x in s && keep(x) ==> x in Filter(keep, s)
  {
    if s != [] {
      FilterMembers(keep, s[..|s| - 1]);
      assert s == s[..|s| - 1] + [s[|s| - 1]];
    }
  }

  /** What holds of every two elements, the earlier one first, still does. */
  lemma {:induction false} FilterPairs<T>(keep: T -> bool, r: (T, T) -> bool, s: seq<T>)
    requires Sorted(r, s)
    ensures Sorted(r, Filter(keep, s))
  {
    if s != [] {
      var front, last := s[..|s| - 1], s[|s| - 1];
      FilterPairs(keep, r, front);
      FilterMembers(keep, front);
      var f := Filter(keep, front);
      forall i | 0 <= i < |f| ensures r(f[i], last) {
        var y := f[i];
        assert y in f;
        var k :| 0 <= k < |front| && front[k] == y;
        assert s[k] == y;
      }
    }
  }

  lemma {:induction false} FilterConcat<T>(keep: T -> bool, a: seq<T>, b: seq<T>)
    ensures Filter(keep, a + b) == Filter(keep, a) + Filter(keep, b)
  {
    if b == [] {
      assert a + b == a;
    } else {
      assert (a + b)[..|a + b| - 1] == a + b[..|b| - 1];
      FilterConcat(keep, a, b[..|b| - 1]);
    }
  }

  /** Everything stays exactly when everything is kept. */
  lemma {:induction false} FilterSize<T>(keep: T -> bool, s: seq<T>)
    ensures |Filter(keep, s)| <= |s|
    ensures |Filter(keep, s)| == |s| <==> forall x :: x in s ==> keep(x)
    ensures |Filter(keep, s)| == |s| ==> Filter(keep, s) == s
    ensures Filter(keep, s) == [] <==> forall x :: x in s ==> !keep(x)
  {
    if s != [] {
      FilterSize(keep, s[..|s| - 1]);
      assert s == s[..|s| - 1] + [s[|s| - 1]];
    }
  }

  lemma {:induction false} FilterNone<T>(keep: T -> bool, s: seq<T>)
    requires forall x :: x in s ==> !keep(x)
    ensures Filter(keep, s) == []
  {
    if s != [] { FilterNone(keep, s[..|s| - 1]); }
  }

  lemma {:induction false} FilterAll<T>(keep: T -> bool, s: seq<T>)
    requires forall x :: x in s ==> keep(x)
    ensures Filter(keep, s) == s
  {
    if s != [] {
      var front, last := s[..|s| - 1], s[|s| - 1];
      assert s == front + [last];
      assert last in s;
      FilterAll(keep, front);
      assert Filter(keep, s) == front + [last];
    }
  }

  lemma FilterRest<T>(keep: T -> bool, a: seq<T>, b: seq<T>)
    requires (forall x :: x in a ==> !keep(x)) && (forall x :: x in b ==> keep(x))
    ensures Filter(keep, a + b) == b
  {
    FilterConcat(keep, a, b);
    FilterNone(keep, a);
    FilterAll(keep, b);
  }

  /** When exactly a slice passes, the slice is what filtering leaves. */
  lemma {:induction false} FilterSlice<T>(keep: T -> bool, s: seq<T>, lo: nat, hi: nat)
    requires lo <= hi <= |s| && forall i :: 0 <= i < |s| ==> (keep(s[i]) <==> lo <= i < hi)
    ensures Filter(keep, s) == s[lo..hi]
  {
    if s != [] {
      var n := |s| - 1;
      FilterSlice(keep, s[..n], if lo <= n then lo else n, if hi <= n then hi else n);
      if lo <= n < hi {
        assert s[..n][lo..n] + [s[n]] == s[lo..hi];
      } else if hi <= n {
        assert s[..n][lo..hi] == s[lo..hi];
      }
    }
  }

  /** When nothing that passes one test comes after what passes the other, filtering by either is filtering by each. */
  lemma {:induction false} FilterAdjoin<T>(early: T -> bool, late: T -> bool, either: T -> bool, s: seq<T>)
    requires forall i :: 0 <= i < |s| ==> (either(s[i]) <==> early(s[i]) || late(s[i]))
    requires forall i, j :: 0 <= i <= j < |s| && early(s[j]) ==> !late(s[i])
    ensures Filter(early, s) + Filter(late, s) == Filter(either, s)
  {
    if s != [] {
      var front, last := s[..|s| - 1], s[|s| - 1];
      FilterAdjoin(early, late, either, front);
      if early(last) {
        forall x | x in front ensures !late(x) { var i :| 0 <= i < |front| && s[i] == x; }
        FilterNone(late, front);
      }
      AdjoinLast(early, late, either, front, last);
      assert s == front + [last];
    }
  }

  lemma AdjoinLast<T>(early: T -> bool, late: T -> bool, either: T -> bool, front: seq<T>, last: T)
    requires Filter(early, front) + Filter(late, front) == Filter(either, front)
    requires either(last) <==> early(last) || late(last)
    requires early(last) ==> Filter(late, front) == [] && !late(last)
    ensures Filter(early, front + [last]) + Filter(late, front + [last]) == Filter(either, front + [last])
  {
    if early(last) { FilterKeepsLast(early, front, last); } else { FilterDropsLast(early, front, last); }
    if late(last) { FilterKeepsLast(late, front, last); } else { FilterDropsLast(late, front, last); }
    if either(last) { FilterKeepsLast(either, front, last); } else { FilterDropsLast(either, front, last); }
  }

  lemma {:induction false} FilterSame<T>(keep: T -> bool, keep': T -> bool, s: seq<T>)
    requires forall x :: x in s ==> (keep(x) <==> keep'(x))
    ensures Filter(keep, s) == Filter(keep', s)
  {
    if s != [] { FilterSame(keep, keep', s[..|s| - 1]); }
  }

  lemma {:induction false} FilterTwice<T>(p: T -> bool, q: T -> bool, both: T -> bool, s: seq<T>)
    requires forall x :: x in s ==> (both(x) <==> p(x) && q(x))
    ensures Filter(q, Filter(p, s)) == Filter(both, s)
  {
    if s != [] {
      var front, last := s[..|s| - 1], s[|s| - 1];
      FilterTwice(p, q, both, front);
      FilterConcat(q, Filter(p, front), if p(last) then [last] else []);
      assert [last][..0] == [];
    }
  }

  // ----- filtering and sorting -----

  lemma FilterKeepsLast<T>(keep: T -> bool, front: seq<T>, last: T)
    requires keep(last)
    ensures Filter(keep, front + [last]) == Filter(keep, front) + [last]
  {
    assert (front + [last])[..|front|] == front;
  }

  lemma FilterDropsLast<T>(keep: T -> bool, front: seq<T>, last: T)
    requires !keep(last)
    ensures Filter(keep, front + [last]) == Filter(keep, front)
  {
    assert (front + [last])[..|front|] == front;
  }

  lemma InsertBeforeLast<T>(le: (T, T) -> bool, front: seq<T>, last: T, x: T)
    requires !le(last, x)
    ensures Insert(le, front + [last], x) == Insert(le, front, x) + [last]
  {
    assert (front + [last])[..|front|] == front;
  }

  /** What a filtered insertion should be. */
  ghost predicate InsertCommutes<T>(le: (T, T) -> bool, keep: T -> bool, s: seq<T>, x: T) {
    Filter(keep, Insert(le, s, x)) == if keep(x) then Insert(le, Filter(keep, s), x) else Filter(keep, s)
  }

  lemma InsertCommutesBefore<T>(le: (T, T) -> bool, keep: T -> bool, front: seq<T>, last: T, x: T)
    requires InsertCommutes(le, keep, front, x) && !le(last, x)
    ensures InsertCommutes(le, keep, front + [last], x)
  {
    InsertBeforeLast(le, front, last, x);
    if keep(last) {
      FilterKeepsLast(keep, front, last);
      FilterKeepsLast(keep, Insert(le, front, x), last);
      InsertBeforeLast(le, Filter(keep, front), last, x);
    } else {
      FilterDropsLast(keep, front, last);
      FilterDropsLast(keep, Insert(le, front, x), last);
    }
  }

  lemma InsertCommutesBehind<T(!new)>(le: (T, T) -> bool, keep: T -> bool, s: seq<T>, x: T)
    requires TotalPreorder(le) && Sorted(le, s) && s != [] && le(s[|s| - 1], x)
    ensures InsertCommutes(le, keep, s, x)
  {
    if keep(x) {
      FilterKeepsLast(keep, s, x);
      LastFits(le, keep, s, x);
    } else {
      FilterDropsLast(keep, s, x);
    }
  }

  lemma {:induction false} InsertFiltered<T(!new)>(le: (T, T) -> bool, keep: T -> bool, s: seq<T>, x: T)
    requires TotalPreorder(le) && Sorted(le, s)
    ensures InsertCommutes(le, keep, s, x)
  {
    if s == [] {
      assert [x][..0] == [];
    } else if le(s[|s| - 1], x) {
      InsertCommutesBehind(le, keep, s, x);
    } else {
      InsertFiltered(le, keep, s[..|s| - 1], x);
      InsertCommutesBefore(le, keep, s[..|s| - 1], s[|s| - 1], x);
      assert s == s[..|s| - 1] + [s[|s| - 1]];
    }
  }

  /** What does not precede the last of an ascending list precedes none of the elements that are kept. */
  lemma LastFits<T(!new)>(le: (T, T) -> bool, keep: T -> bool, s: seq<T>, x: T)
    requires TotalPreorder(le) && Sorted(le, s) && s != [] && le(s[|s| - 1], x)
    ensures Insert(le, Filter(keep, s), x) == Filter(keep, s) + [x]
  {
    var f := Filter(keep, s);
    if f != [] {
      FilterMembers(keep, s);
      var y := f[|f| - 1];
      assert y in f;
      var i :| 0 <= i < |s| && s[i] == y;
      assert i == |s| - 1 || le(s[i], s[|s| - 1]);
    }
  }

  lemma SortLast<T>(le: (T, T) -> bool, front: seq<T>, last: T)
    ensures Sort(le, front + [last]) == Insert(le, Sort(le, front), last)
  {
    assert (front + [last])[..|front|] == front;
  }

  ghost predicate SortCommutes<T>(le: (T, T) -> bool, keep: T -> bool, s: seq<T>) {
    Filter(keep, Sort(le, s)) == Sort(le, Filter(keep, s))
  }

  lemma SortCommutesNext<T(!new)>(le: (T, T) -> bool, keep: T -> bool, front: seq<T>, last: T)
    requires TotalPreorder(le) && SortCommutes(le, keep, front)
    ensures SortCommutes(le, keep, front + [last])
  {
    SortOrders(le, front);
    SortLast(le, front, last);
    InsertFiltered(le, keep, Sort(le, front), last);
    if keep(last) {
      FilterKeepsLast(keep, front, last);
      SortLast(le, Filter(keep, front), last);
    } else {
      FilterDropsLast(keep, front, last);
    }
  }

  /** Filtering before or after the stable sort comes to the same. */
  lemma {:induction false} SortFiltered<T(!new)>(le: (T, T) -> bool, keep: T -> bool, s: seq<T>)
    requires TotalPreorder(le)
    ensures SortCommutes(le, keep, s)
  {
    if s != [] {
      var front, last := s[..|s| - 1], s[|s| - 1];
      assert s == front + [last];
      SortFiltered(le, keep, front);
      SortCommutesNext(le, keep, front, last);
      assert SortCommutes(le, keep, front + [last]);
    } else {
      assert Filter(keep, s) == [] && Sort(le, s) == [];
    }
  }

  lemma SortOrders<T(!new)>(le: (T, T) -> bool, s: seq<T>)
    requires TotalPreorder(le)
    ensures Sorted(le, Sort(le, s))
  {
    SortStable(le, Anything<T>, s);
  }

  predicate Anything<T>(a: T, b: T) {
    true
  }
}
