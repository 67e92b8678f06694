/** Small types and sequence facts shared by every other module. */
module Basics {
  datatype Option<+T> = None | Some(value: T)

  /** Node ids are compared and sorted, never looked into, so an id is its rank in string order. */
  type Id = nat

  predicate Distinct<T(==)>(s: seq<T>) {
    forall i, j | 0 <= i < j < |s| :: s[i] != s[j]
  }

  function Elements<T>(s: seq<T>): set<T> {
    set x | x in s
  }

  lemma AddElement<T>(s: seq<T>, x: T)
    ensures Elements(s + [x]) == Elements(s) + {x}
  {
    assert forall y :: y in s + [x] <==> y in s || y == x;
  }

  lemma {:induction false} DistinctCardinality<T>(s: seq<T>)
    requires Distinct(s)
    ensures |Elements(s)| == |s|
  {
    if s == [] {
      assert Elements(s) == {};
    } else {
      var front := s[..|s| - 1];
      var x := s[|s| - 1];
      assert s == front + [x];
      assert x !in front;
      DistinctCardinality(front);
      AddElement(front, x);
    }
  }

  lemma SubsetCardinality<T>(a: set<T>, b: set<T>)
    requires a <= b
    ensures |a| <= |b|
    ensures |a| == |b| ==> a == b
  {
    assert b == a + (b - a);
    assert |b| == |a| + |b - a|;
  }

  /** Insertion into a sorted list, and the sort built from it. */
  function Insert(x: Id, s: seq<Id>): (r: seq<Id>)
    ensures multiset(r) == multiset(s) + multiset{x}
  {
    if s == [] then [x]
    else if x <= s[0] then [x] + s
    else
      assert s == [s[0]] + s[1..];
      [s[0]] + Insert(x, s[1..])
  }

  function Sorted(s: seq<Id>): (r: seq<Id>)
    ensures multiset(r) == multiset(s)
  {
    if s == [] then []
    else
      assert s == [s[0]] + s[1..];
      Insert(s[0], Sorted(s[1..]))
  }

  lemma {:induction false} DistinctCounts<T>(s: seq<T>)
    ensures Distinct(s) <==> forall x | x in multiset(s) :: multiset(s)[x] == 1
  {
    if s != [] {
      var front, x := s[..|s| - 1], s[|s| - 1];
      assert s == front + [x];
      DistinctCounts(front);
      if Distinct(s) {
        assert x !in front;
      } else if Distinct(front) {
        assert x in front;
        assert multiset(s)[x] == multiset(front)[x] + 1;
      } else {
        var y :| y in multiset(front) && multiset(front)[y] != 1;
        assert multiset(s)[y] >= multiset(front)[y] > 1;
      }
    }
  }

  lemma SameMultisetSameElements<T>(a: seq<T>, b: seq<T>)
    requires multiset(a) == multiset(b)
    ensures forall x :: x in a <==> x in b
    ensures |a| == |b|
    ensures Distinct(b) ==> Distinct(a)
  {
    assert |a| == |multiset(a)| == |multiset(b)| == |b|;
    forall x ensures x in a <==> x in b {
      assert x in multiset(a) <==> x in multiset(b);
    }
    DistinctCounts(a);
    DistinctCounts(b);
  }

  lemma SortedKeepsElements(s: seq<Id>)
    ensures forall x :: x in Sorted(s) <==> x in s
    ensures |Sorted(s)| == |s|
    ensures Distinct(s) ==> Distinct(Sorted(s))
  {
    SameMultisetSameElements(Sorted(s), s);
  }

  // ----- a set in ascending order -----

  predicate Ascends(s: seq<Id>) {
    forall i, j | 0 <= i < j < |s| :: s[i] < s[j]
  }

  predicate IsLeast(s: set<Id>, m: Id) {
    m in s && forall x | x in s :: m <= x
  }

  lemma {:induction false} HasLeast(s: set<Id>)
    requires s != {}
    ensures exists m :: IsLeast(s, m)
    decreases |s|
  {
    var y :| y in s;
    if s == {y} {
      assert IsLeast(s, y);
    } else {
      HasLeast(s - {y});
      var rest :| IsLeast(s - {y}, rest);
      assert forall x | x in s :: x == y || x in s - {y};
      assert IsLeast(s, if y < rest then y else rest);
    }
  }

  ghost function Ascending(s: set<Id>): (r: seq<Id>)
    ensures Ascends(r) && forall x :: x in r <==> x in s
  {
    if s == {} then []
    else
      var m := Least(s);
      [m] + Ascending(s - {m})
  }

  ghost function Least(s: set<Id>): (m: Id)
    requires s != {}
    ensures IsLeast(s, m)
  {
    HasLeast(s);
    var m :| IsLeast(s, m);
    m
  }

  lemma TailMembers(s: seq<Id>)
    requires s != [] && Ascends(s)
    ensures forall x :: x in s[1..] <==> x in s && x != s[0]
    ensures Ascends(s[1..])
  {
    forall x ensures x in s[1..] <==> x in s && x != s[0] {
      assert s == [s[0]] + s[1..];
      if x in s[1..] {
        var i :| 0 <= i < |s[1..]| && s[1..][i] == x;
        assert s[i + 1] == x;
      }
    }
  }

  /** There is one ascending list of a set. */
  lemma {:induction false} OneAscending(a: seq<Id>, b: seq<Id>)
    requires Ascends(a) && Ascends(b) && forall x :: x in a <==> x in b
    ensures a == b
  {
    assert b != [] ==> b[0] in b;
    if a != [] {
      assert a[0] in b;
      assert b[0] in a;
      assert a[0] == b[0];
      TailMembers(a);
      TailMembers(b);
      OneAscending(a[1..], b[1..]);
      assert a == [a[0]] + a[1..] && b == [b[0]] + b[1..];
    }
  }

  lemma PrependAscends(x: Id, s: seq<Id>)
    requires Ascends(s) && forall y | y in s :: x < y
    ensures Ascends([x] + s)
  {
    assert forall j | 0 <= j < |s| :: s[j] in s;
  }

  lemma {:induction false} InsertAscends(x: Id, s: seq<Id>)
    requires Ascends(s) && x !in s
    ensures Ascends(Insert(x, s))
  {
    hide Ascends;
    if s == [] {
      PrependAscends(x, []);
      assert [x] + [] == [x];
    } else {
      TailMembers(s);
      HeadIsLeast(s);
      if x < s[0] {
        PrependAscends(x, s);
      } else {
        InsertAscends(x, s[1..]);
        InsertHolds(x, s[1..]);
        PrependAscends(s[0], Insert(x, s[1..]));
      }
    }
  }

  lemma InsertHolds(x: Id, s: seq<Id>)
    ensures forall y :: y in Insert(x, s) <==> y == x || y in s
  {
    forall y ensures y in Insert(x, s) <==> y == x || y in s {
      assert y in multiset(Insert(x, s)) <==> y in multiset(s) || y == x;
    }
  }

  lemma HeadIsLeast(s: seq<Id>)
    requires s != [] && Ascends(s)
    ensures forall y | y in s :: s[0] <= y
  {
  }

  /** Sorting distinct ids lists their set in ascending order. */
  lemma {:induction false} SortedAscends(s: seq<Id>)
    requires Distinct(s)
    ensures Sorted(s) == Ascending(Elements(s))
  {
    SortedIsAscending(s);
    SortedKeepsElements(s);
    OneAscending(Sorted(s), Ascending(Elements(s)));
  }

  lemma {:induction false} SortedIsAscending(s: seq<Id>)
    requires Distinct(s)
    ensures Ascends(Sorted(s))
  {
    if s != [] {
      SortedIsAscending(s[1..]);
      SortedKeepsElements(s[1..]);
      InsertAscends(s[0], Sorted(s[1..]));
    }
  }
}
