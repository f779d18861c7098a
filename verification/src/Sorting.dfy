/** The stable sort that the code relies on, as insertion from the left. */
module Sorting {
  ghost predicate TotalPreorder<T(!new)>(le: (T, T) -> bool) {
    && (forall x, y :: le(x, y) || le(y, x))
    && (forall x, y, z :: le(x, y) && le(y, z) ==> le(x, z))
  }

  ghost predicate Sorted<T>(s: seq<T>, le: (T, T) -> bool) {
    forall i, j :: 0 <= i < j < |s| ==> le(s[i], s[j])
  }

  ghost predicate NoneTwice<T(!new)>(xs: seq<T>) {
    forall i, j :: 0 <= i < j < |xs| ==> xs[i] != xs[j]
  }

  /** x goes behind everything that may stand before it. */
  function Insert<T>(s: seq<T>, x: T, le: (T, T) -> bool): seq<T> {
    if s == [] || le(s[|s| - 1], x) then s + [x]
    else Insert(s[..|s| - 1], x, le) + [s[|s| - 1]]
  }

  function Sort<T>(s: seq<T>, le: (T, T) -> bool): seq<T> {
    if s == [] then [] else Insert(Sort(s[..|s| - 1], le), s[|s| - 1], le)
  }

  function Filter<T>(s: seq<T>, keep: T -> bool): seq<T> {
    if s == [] then []
    else
      var front := Filter(s[..|s| - 1], keep);
      if keep(s[|s| - 1]) then front + [s[|s| - 1]] else front
  }

  lemma {:induction false} InsertPermutes<T>(s: seq<T>, x: T, le: (T, T) -> bool)
    ensures multiset(Insert(s, x, le)) == multiset(s) + multiset{x}
  {
    if s != [] {
      InsertPermutes(s[..|s| - 1], x, le);
      assert s == s[..|s| - 1] + [s[|s| - 1]];
    }
  }

  lemma {:induction false} InsertSorted<T(!new)>(s: seq<T>, x: T, le: (T, T) -> bool)
    requires TotalPreorder(le) && Sorted(s, le)
    ensures Sorted(Insert(s, x, le), le)
  {
    if s == [] {
    } else if le(s[|s| - 1], x) {
      forall i | 0 <= i < |s|
        ensures le(s[i], x)
      {
        assert i < |s| - 1 ==> le(s[i], s[|s| - 1]);
      }
    } else {
      var front := s[..|s| - 1];
      InsertSorted(front, x, le);
      InsertPermutes(front, x, le);
      var r := Insert(front, x, le);
      forall i | 0 <= i < |r|
        ensures le(r[i], s[|s| - 1])
      {
        assert r[i] in multiset(r);
        assert r[i] in front || r[i] == x;
      }
    }
  }

  /** A sort keeps the elements and puts them in order. */
  lemma {:induction false} SortCorrect<T(!new)>(s: seq<T>, le: (T, T) -> bool)
    requires TotalPreorder(le)
    ensures multiset(Sort(s, le)) == multiset(s)
    ensures Sorted(Sort(s, le), le)
  {
    if s != [] {
      var front := s[..|s| - 1];
      SortCorrect(front, le);
      InsertPermutes(Sort(front, le), s[|s| - 1], le);
      InsertSorted(Sort(front, le), s[|s| - 1], le);
      assert s == front + [s[|s| - 1]];
    }
  }

  lemma {:induction false} InsertStable<T(!new)>(s: seq<T>, x: T, le: (T, T) -> bool, tie: T -> bool)
    requires TotalPreorder(le) && Sorted(s, le)
    requires forall y, z :: tie(y) && tie(z) ==> le(y, z)
    ensures Filter(Insert(s, x, le), tie) == if tie(x) then Filter(s, tie) + [x] else Filter(s, tie)
  {
    if s == [] || le(s[|s| - 1], x) {
      assert (s + [x])[..|s|] == s;
    } else {
      var front, last := s[..|s| - 1], s[|s| - 1];
      InsertStable(front, x, le, tie);
      var r := Insert(front, x, le);
      assert (r + [last])[..|r|] == r;
    }
  }

  /** And this one is stable: the elements of a class of ties stay in their order. */
  lemma {:induction false} SortStable<T(!new)>(s: seq<T>, le: (T, T) -> bool, tie: T -> bool)
    requires TotalPreorder(le)
    requires forall y, z :: tie(y) && tie(z) ==> le(y, z)
    ensures Filter(Sort(s, le), tie) == Filter(s, tie)
  {
    if s != [] {
      var front := s[..|s| - 1];
      SortStable(front, le, tie);
      SortCorrect(front, le);
      InsertStable(Sort(front, le), s[|s| - 1], le, tie);
    }
  }

  lemma {:induction false} FilterMembers<T>(s: seq<T>, keep: T -> bool)
    ensures forall x :: x in Filter(s, keep) <==> x in s && keep(x)
  {
    if s != [] {
      FilterMembers(s[..|s| - 1], keep);
      assert s == s[..|s| - 1] + [s[|s| - 1]];
    }
  }

  /** A filter keeps the order: the places of what it keeps. */
  lemma {:induction false} FilterOrder<T>(s: seq<T>, keep: T -> bool) returns (at: seq<nat>)
    ensures |at| == |Filter(s, keep)|
    ensures forall k :: 0 <= k < |at| ==> at[k] < |s| && Filter(s, keep)[k] == s[at[k]]
    ensures forall j, k :: 0 <= j < k < |at| ==> at[j] < at[k]
    ensures forall i :: 0 <= i < |s| ==> (i in at <==> keep(s[i]))
  {
    at := [];
    if s != [] {
      at := FilterOrder(s[..|s| - 1], keep);
      if keep(s[|s| - 1]) {
        at := at + [|s| - 1];
      }
    }
  }

  /** A filter and its complement split the elements. */
  lemma {:induction false} FilterSplits<T>(s: seq<T>, keep: T -> bool)
    ensures multiset(Filter(s, keep)) + multiset(Filter(s, x => !keep(x))) == multiset(s)
  {
    if s != [] {
      FilterSplits(s[..|s| - 1], keep);
      assert s == s[..|s| - 1] + [s[|s| - 1]];
    }
  }

  ghost predicate NoTies<T(!new)>(all: set<T>, le: (T, T) -> bool) {
    forall x, y {:trigger le(x, y)} :: x in all && y in all && le(x, y) && le(y, x) ==> x == y
  }

  lemma LastIsUnique<T(!new)>(s: seq<T>, t: seq<T>, all: set<T>, le: (T, T) -> bool)
    requires s != [] && t != [] && Sorted(s, le) && Sorted(t, le)
    requires s[|s| - 1] in t && t[|t| - 1] in s
    requires NoTies(all, le) && s[|s| - 1] in all && t[|t| - 1] in all
    ensures s[|s| - 1] == t[|t| - 1]
  {
    var i :| 0 <= i < |t| && t[i] == s[|s| - 1];
    var j :| 0 <= j < |s| && s[j] == t[|t| - 1];
    assert i == |t| - 1 || le(t[i], t[|t| - 1]);
    assert j == |s| - 1 || le(s[j], s[|s| - 1]);
  }

  lemma DropLast<T>(s: seq<T>)
    requires s != []
    ensures multiset(s[..|s| - 1]) == multiset(s) - multiset{s[|s| - 1]}
    ensures s == s[..|s| - 1] + [s[|s| - 1]]
    ensures s[|s| - 1] in multiset(s)
  {
    assert s == s[..|s| - 1] + [s[|s| - 1]];
  }

  /** Where no two elements tie, there is one sorted arrangement. */
  lemma {:induction false} SortedUnique<T(!new)>(s: seq<T>, t: seq<T>, all: set<T>, le: (T, T) -> bool)
    requires Sorted(s, le) && Sorted(t, le) && multiset(s) == multiset(t)
    requires NoTies(all, le) && forall x :: x in multiset(s) ==> x in all
    ensures s == t
  {
    if s == [] || t == [] {
      assert |s| == |multiset(s)| == |multiset(t)| == |t|;
    } else {
      DropLast(s);
      DropLast(t);
      LastIsUnique(s, t, all, le);
      SortedUnique(s[..|s| - 1], t[..|t| - 1], all, le);
    }
  }
}
