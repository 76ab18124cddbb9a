/** The stable sort behind Array.prototype.sort, as a function, and what a caller may rely on. */
module StableSorting {

  /** `le` is a total preorder: what a consistent comparator induces. */
  ghost predicate TotalPreorder<T(!new)>(le: (T, T) -> bool) {
    && (forall a, b :: le(a, b) || le(b, a))
    && (forall a, b, c :: le(a, b) && le(b, c) ==> le(a, c))
  }

  ghost predicate Sorted<T>(le: (T, T) -> bool, s: seq<T>) {
    forall i, j :: 0 <= i < j < |s| ==> le(s[i], s[j])
  }

  predicate Tie<T>(le: (T, T) -> bool, a: T, b: T) {
    le(a, b) && le(b, a)
  }

  /** Elements that compare equal stand in `before` order. */
  ghost predicate TiesInOrder<T>(le: (T, T) -> bool, before: (T, T) -> bool, s: seq<T>) {
    forall i, j :: 0 <= i < j < |s| && Tie(le, s[i], s[j]) ==> before(s[i], s[j])
  }

  /** Puts x behind every element it does not precede, looking from the back. */
  function Insert<T>(le: (T, T) -> bool, s: seq<T>, x: T): (r: seq<T>)
    ensures multiset(r) == multiset(s) + multiset{x}
    ensures |r| == |s| + 1
  {
    if s == [] then [x]
    else
      assert s == s[..|s| - 1] + [s[|s| - 1]];
      if le(s[|s| - 1], x) then s + [x]
      else Insert(le, s[..|s| - 1], x) + [s[|s| - 1]]
  }

  function Sort<T>(le: (T, T) -> bool, s: seq<T>): (r: seq<T>)
    ensures multiset(r) == multiset(s)
    ensures |r| == |s|
  {
    if s == [] then []
    else
      assert s == s[..|s| - 1] + [s[|s| - 1]];
      Insert(le, Sort(le, s[..|s| - 1]), s[|s| - 1])
  }

  lemma SameElements<T>(le: (T, T) -> bool, s: seq<T>)
    ensures forall x :: x in Sort(le, s) <==> x in s
  {
    forall x ensures x in Sort(le, s) <==> x in s {
      assert x in multiset(Sort(le, s)) <==> x in multiset(s);
    }
  }

  lemma InsertElements<T>(le: (T, T) -> bool, s: seq<T>, x: T)
    ensures forall y :: y in Insert(le, s, x) <==> y == x || y in s
  {
    forall y ensures y in Insert(le, s, x) <==> y == x || y in s {
      assert y in multiset(Insert(le, s, x)) <==> y in multiset(s) + multiset{x};
    }
  }

  lemma SortedAppend<T>(le: (T, T) -> bool, before: (T, T) -> bool, s: seq<T>, last: T)
    requires Sorted(le, s) && TiesInOrder(le, before, s)
    requires forall y :: y in s ==> le(y, last) && (Tie(le, y, last) ==> before(y, last))
    ensures Sorted(le, s + [last]) && TiesInOrder(le, before, s + [last])
  {
  }

  lemma {:induction false} InsertStable<T(!new)>(le: (T, T) -> bool, before: (T, T) -> bool, s: seq<T>, x: T)
    requires TotalPreorder(le) && Sorted(le, s) && TiesInOrder(le, before, s)
    requires forall y :: y in s && Tie(le, y, x) ==> before(y, x)
    ensures Sorted(le, Insert(le, s, x)) && TiesInOrder(le, before, Insert(le, s, x))
  {
    if s == [] {
    } else if le(s[|s| - 1], x) {
      forall y | y in s ensures le(y, x) {
        var i :| 0 <= i < |s| && s[i] == y;
        assert i < |s| - 1 ==> le(y, s[|s| - 1]);
      }
      SortedAppend(le, before, s, x);
    } else {
      var front, last := s[..|s| - 1], s[|s| - 1];
      InsertStable(le, before, front, x);
      InsertElements(le, front, x);
      forall y | y in Insert(le, front, x)
        ensures le(y, last) && (Tie(le, y, last) ==> before(y, last))
      {
        if y in front {
          var i :| 0 <= i < |front| && front[i] == y;
          assert s[i] == y;
        }
      }
      SortedAppend(le, before, Insert(le, front, x), last);
    }
  }

  /** Sorting orders by `le` and keeps every order that equal elements already had. */
  lemma {:induction false} SortStable<T(!new)>(le: (T, T) -> bool, before: (T, T) -> bool, s: seq<T>)
    requires TotalPreorder(le) && TiesInOrder(le, before, s)
    ensures Sorted(le, Sort(le, s)) && TiesInOrder(le, before, Sort(le, s))
  {
    if s != [] {
      var front, last := s[..|s| - 1], s[|s| - 1];
      SortStable(le, before, front);
      SameElements(le, front);
      forall y | y in Sort(le, front) && Tie(le, y, last)
        ensures before(y, last)
      {
        assert y in front;
        var k :| 0 <= k < |front| && front[k] == y;
        assert s[k] == y && Tie(le, s[k], s[|s| - 1]);
      }
      InsertStable(le, before, Sort(le, front), last);
    }
  }

  lemma Member<T>(s: seq<T>) returns (x: T)
    requires s != []
    ensures x in s
  {
    x := s[0];
  }

  /** Two strictly ascending sequences over the same elements are the same sequence. */
  lemma {:induction false} StrictlySortedUnique<T(!new)>(lt: (T, T) -> bool, s: seq<T>, t: seq<T>)
    requires forall a, b :: lt(a, b) ==> !lt(b, a)
    requires Sorted(lt, s) && Sorted(lt, t)
    requires forall x :: x in s <==> x in t
    ensures s == t
  {
    if s == [] {
      if t != [] {
        var x := Member(t);
      }
    } else {
      assert s[0] in t;
      assert t[0] in s;
      var i :| 0 <= i < |t| && t[i] == s[0];
      var j :| 0 <= j < |s| && s[j] == t[0];
      assert s[0] == t[0];
      forall x ensures x in s[1..] <==> x in t[1..] {
        if x in s[1..] {
          var k :| 0 < k < |s| && s[k] == x;
          assert lt(s[0], x) && x in t;
          var m :| 0 <= m < |t| && t[m] == x;
          assert m != 0;
          assert t[1..][m - 1] == x;
        }
        if x in t[1..] {
          var k :| 0 < k < |t| && t[k] == x;
          assert lt(t[0], x) && x in s;
          var m :| 0 <= m < |s| && s[m] == x;
          assert m != 0;
          assert s[1..][m - 1] == x;
        }
      }
      StrictlySortedUnique(lt, s[1..], t[1..]);
      assert s == [s[0]] + s[1..] && t == [t[0]] + t[1..];
    }
  }
}
