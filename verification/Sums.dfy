/** Sums over finite sets, independent of the order in which the elements are visited. */
module Sums {

  ghost function Sum<K>(s: set<K>, f: K -> nat): nat
    decreases |s|
  {
    if s == {} then 0 else var x :| x in s; f(x) + Sum(s - {x}, f)
  }

  /** Any element may be taken first: the choice made by `Sum` does not matter. */
  lemma {:induction false} SumPick<K>(s: set<K>, x: K, f: K -> nat)
    requires x in s
    ensures Sum(s, f) == f(x) + Sum(s - {x}, f)
    decreases |s|
  {
    var y :| y in s && Sum(s, f) == f(y) + Sum(s - {y}, f);
    if y != x {
      SumPick(s - {y}, x, f);
      SumPick(s - {x}, y, f);
      assert s - {y} - {x} == s - {x} - {y};
    }
  }

  lemma SumAdd<K>(s: set<K>, x: K, f: K -> nat)
    requires x !in s
    ensures Sum(s + {x}, f) == Sum(s, f) + f(x)
  {
    SumPick(s + {x}, x, f);
    assert s + {x} - {x} == s;
  }

  lemma {:induction false} SumCong<K>(s: set<K>, f: K -> nat, g: K -> nat)
    requires forall x :: x in s ==> f(x) == g(x)
    ensures Sum(s, f) == Sum(s, g)
    decreases |s|
  {
    if s != {} {
      var x :| x in s;
      SumPick(s, x, f);
      SumPick(s, x, g);
      SumCong(s - {x}, f, g);
    }
  }

  lemma {:induction false} SumUnion<K>(s: set<K>, t: set<K>, f: K -> nat)
    requires s !! t
    ensures Sum(s + t, f) == Sum(s, f) + Sum(t, f)
    decreases |s|
  {
    if s == {} {
      assert s + t == t;
    } else {
      var x :| x in s;
      SumPick(s, x, f);
      SumPick(s + t, x, f);
      assert s + t - {x} == (s - {x}) + t;
      SumUnion(s - {x}, t, f);
    }
  }

  lemma SumSubset<K>(s: set<K>, t: set<K>, f: K -> nat)
    requires s <= t
    ensures Sum(s, f) <= Sum(t, f)
  {
    assert t == s + (t - s);
    SumUnion(s, t - s, f);
  }

  /** Elements that contribute nothing may be left out. */
  lemma {:induction false} SumDropZeros<K>(s: set<K>, t: set<K>, f: K -> nat)
    requires s <= t
    requires forall x :: x in t - s ==> f(x) == 0
    ensures Sum(s, f) == Sum(t, f)
    decreases |t|
  {
    if t - s == {} {
      assert s == t;
    } else {
      var x :| x in t - s;
      SumPick(t, x, f);
      SumDropZeros(s, t - {x}, f);
    }
  }

  /** The sum of a pointwise sum. */
  lemma {:induction false} SumPointwise<K>(s: set<K>, f: K -> nat, g: K -> nat, h: K -> nat)
    requires forall x :: x in s ==> h(x) == f(x) + g(x)
    ensures Sum(s, h) == Sum(s, f) + Sum(s, g)
    decreases |s|
  {
    if s != {} {
      var x :| x in s;
      SumPick(s, x, f);
      SumPick(s, x, g);
      SumPick(s, x, h);
      SumPointwise(s - {x}, f, g, h);
    }
  }

  lemma SubsetSize<T>(a: set<T>, b: set<T>)
    requires a <= b
    ensures |a| <= |b|
  {
    assert b == a + (b - a);
  }
}
