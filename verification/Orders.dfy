/** Orders in which the elements of a set may be visited. */
module Orders {

  ghost predicate Unique<T(!new)>(s: seq<T>) {
    forall i, j :: 0 <= i < j < |s| ==> s[i] != s[j]
  }

  lemma NotLast<T(!new)>(xs: seq<T>)
    requires Unique(xs) && xs != []
    ensures var front, x := xs[..|xs| - 1], xs[|xs| - 1];
      Unique(front) && x !in front && x in xs && forall y :: y in xs <==> y in front || y == x
  {
  }

  lemma AppendUnique<T(!new)>(s: seq<T>, x: T)
    requires Unique(s) && x !in s
    ensures Unique(s + [x])
  {
  }

  function AsSet<T>(s: seq<T>): set<T> {
    set x | x in s
  }

  /** The sequence lists every element of the set once. */
  ghost predicate IsOrder<T(!new)>(xs: seq<T>, ids: set<T>) {
    Unique(xs) && forall x :: x in xs <==> x in ids
  }

  lemma {:induction false} UniqueSize<T(!new)>(s: seq<T>)
    requires Unique(s)
    ensures |AsSet(s)| == |s|
  {
    if s != [] {
      var front, x := s[..|s| - 1], s[|s| - 1];
      NotLast(s);
      UniqueSize(front);
      assert AsSet(s) == AsSet(front) + {x};
    }
  }

  lemma {:induction false} FewerThan<T(!new)>(s: seq<T>, all: set<T>)
    requires Unique(s) && forall x :: x in s ==> x in all
    ensures |s| <= |all|
  {
    if s != [] {
      FewerThan(s[..|s| - 1], all - {s[|s| - 1]});
    }
  }

  lemma OrderSize<T(!new)>(xs: seq<T>, ids: set<T>)
    requires IsOrder(xs, ids)
    ensures |xs| == |ids|
  {
    UniqueSize(xs);
    assert AsSet(xs) == ids;
  }

  lemma SomeOrder<T(!new)>(ids: set<T>) returns (xs: seq<T>)
    ensures IsOrder(xs, ids) && |xs| == |ids|
  {
    xs := [];
    var left := ids;
    while left != {}
      invariant left <= ids && IsOrder(xs, ids - left) && |xs| + |left| == |ids|
      decreases left
    {
      var x :| x in left;
      left := left - {x};
      xs := xs + [x];
    }
    assert ids - left == ids;
  }

  lemma OrderOfBoth<T(!new)>(xs: seq<T>, ys: seq<T>, a: set<T>, b: set<T>)
    requires IsOrder(xs, a) && IsOrder(ys, b) && a !! b
    ensures IsOrder(xs + ys, a + b)
  {
    assert forall i, j :: 0 <= i < |xs| && 0 <= j < |ys| ==> xs[i] in a && ys[j] in b;
  }
}
