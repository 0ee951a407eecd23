/** Sets of integers visited in ascending order, as an ordered set is iterated. */
module AscendingSets {

  predicate Ascending(xs: seq<int>) {
    forall i, j | 0 <= i < j < |xs| :: xs[i] < xs[j]
  }

  predicate IsLeast(x: int, s: set<int>) {
    x in s && forall other | other in s :: x <= other
  }

  lemma HasMember(s: set<int>) returns (x: int)
    requires s != {}
    ensures x in s
  {
    if forall y | y in s :: false {
      assert false;
    }
    x :| x in s;
  }

  lemma {:induction false} HasLeast(s: set<int>)
    requires s != {}
    ensures exists least :: IsLeast(least, s)
    decreases |s|
  {
    var x := HasMember(s);
    var rest := s - {x};
    if rest == {} {
      forall other | other in s
        ensures x <= other
      {
        assert other == x || other in rest;
      }
      assert IsLeast(x, s);
    } else {
      HasLeast(rest);
      var y :| IsLeast(y, rest);
      var least := if x < y then x else y;
      forall other | other in s
        ensures least <= other
      {
        assert other == x || other in rest;
      }
      assert IsLeast(least, s);
    }
  }

  /** The members in ascending order. */
  ghost function Sorted(s: set<int>): seq<int>
    decreases |s|
  {
    if s == {} then []
    else
      HasLeast(s);
      var x :| IsLeast(x, s);
      [x] + Sorted(s - {x})
  }

  lemma ConsAscending(x: int, rest: seq<int>)
    requires Ascending(rest) && forall i | 0 <= i < |rest| :: x < rest[i]
    ensures Ascending([x] + rest)
  {
  }

  /** The first of the sorted members, and the others. */
  lemma SortedFirst(s: set<int>) returns (x: int)
    requires s != {}
    ensures IsLeast(x, s) && Sorted(s) == [x] + Sorted(s - {x})
  {
    HasLeast(s);
    x := Sorted(s)[0];
  }

  lemma {:induction false} SortedLists(s: set<int>)
    ensures Ascending(Sorted(s))
    ensures forall x :: x in Sorted(s) <==> x in s
    decreases |s|
  {
    if s != {} {
      var x := SortedFirst(s);
      var others := s - {x};
      var rest := Sorted(others);
      SortedLists(others);
      forall i | 0 <= i < |rest|
        ensures x < rest[i]
      {
        assert rest[i] in others;
      }
      ConsAscending(x, rest);
      forall y
        ensures y in [x] + rest <==> y in s
      {
        assert y in s <==> y == x || y in others;
      }
    }
  }

  /** An ascending list is determined by its members. */
  lemma {:induction false} AscendingUnique(xs: seq<int>, s: set<int>)
    requires Ascending(xs) && forall x :: x in xs <==> x in s
    ensures xs == Sorted(s)
    decreases |xs|
  {
    if xs == [] {
      if s != {} {
        var x := HasMember(s);
        assert false;
      }
    } else {
      var x := xs[0];
      assert x in s;
      var least := SortedFirst(s);
      var k :| 0 <= k < |xs| && xs[k] == least;
      assert least == x;
      forall y
        ensures y in xs[1..] <==> y in s - {x}
      {
        assert y in xs[1..] ==> y in xs && y != x;
        assert y in xs ==> y == x || y in xs[1..];
      }
      AscendingUnique(xs[1..], s - {x});
    }
  }
}
