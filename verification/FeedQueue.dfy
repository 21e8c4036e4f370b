/**
 * What the conflict feed's bounded map comes to when its sets arrive one after the other: a queue that lets its oldest
 * element go when it is full (plugins/dashboard/conflicts_livefeed.go, onConflictCreated and addConflictSet).
 */
module FeedQueue {
  import opened Orders

  /** An element that is not queued joins at the end; when there is no room the oldest makes way. */
  function Enqueue<T(==)>(q: seq<T>, x: T, max: nat): seq<T>
    requires 1 <= max
  {
    if x in q then q else if |q| < max then q + [x] else q[1..] + [x]
  }

  function Fill<T(==)>(q: seq<T>, xs: seq<T>, max: nat): seq<T>
    requires 1 <= max
  {
    if xs == [] then q else Enqueue(Fill(q, xs[..|xs| - 1], max), xs[|xs| - 1], max)
  }

  /** The elements that are not queued when it is their turn. */
  function Joining<T(==)>(q: seq<T>, xs: seq<T>, max: nat): seq<T>
    requires 1 <= max
  {
    if xs == [] then []
    else
      var front, x := xs[..|xs| - 1], xs[|xs| - 1];
      if x in Fill(q, front, max) then Joining(q, front, max) else Joining(q, front, max) + [x]
  }

  function LastOf<T>(s: seq<T>, max: nat): seq<T> {
    if |s| <= max then s else s[|s| - max..]
  }

  /** The queue holds the latest of all that was ever queued. */
  lemma {:induction false} FillIsLast<T>(q: seq<T>, xs: seq<T>, max: nat)
    requires 1 <= max && |q| <= max
    ensures Fill(q, xs, max) == LastOf(q + Joining(q, xs, max), max)
  {
    if xs == [] {
      assert q + [] == q;
    } else {
      var front, x := xs[..|xs| - 1], xs[|xs| - 1];
      FillIsLast(q, front, max);
      var s := q + Joining(q, front, max);
      if x !in Fill(q, front, max) {
        assert q + (Joining(q, front, max) + [x]) == s + [x];
        OneMoreIsLast(s, x, max);
      }
    }
  }

  lemma OneMoreIsLast<T>(s: seq<T>, x: T, max: nat)
    requires 1 <= max
    ensures LastOf(s + [x], max) == if |LastOf(s, max)| < max then LastOf(s, max) + [x] else LastOf(s, max)[1..] + [x]
  {
    if |s| >= max {
      var d := |s| - max;
      assert s[d..][1..] == s[d + 1..] && (s + [x])[d + 1..] == s[d + 1..] + [x];
      assert d == 0 ==> s[d..] == s;
    }
  }

  lemma {:induction false} JoiningAre<T(!new)>(q: seq<T>, xs: seq<T>, max: nat)
    requires 1 <= max && Unique(xs)
    ensures Unique(Joining(q, xs, max)) && forall x :: x in Joining(q, xs, max) ==> x in xs
  {
    if xs != [] {
      var front := xs[..|xs| - 1];
      JoiningAre(q, front, max);
      NotLast(xs);
      AppendUnique(Joining(q, front, max), xs[|xs| - 1]);
    }
  }

  lemma {:induction false} JoinsIff<T(!new)>(q: seq<T>, xs: seq<T>, max: nat, j: nat)
    requires 1 <= max && Unique(xs) && j < |xs|
    ensures xs[j] in Joining(q, xs, max) <==> xs[j] !in Fill(q, xs[..j], max)
  {
    var front := xs[..|xs| - 1];
    JoiningAre(q, front, max);
    if j < |front| {
      JoinsIff(q, front, max, j);
      assert front[j] == xs[j] && front[..j] == xs[..j];
    }
  }

  /** The oldest that have to make way for `n` more. */
  function MakingWay<T>(q: seq<T>, n: nat, max: nat): seq<T> {
    if |q| + n <= max then [] else if n >= max then q else q[..|q| + n - max]
  }

  /** Some element is queued at the end or not, according to where it is in all that was ever queued. */
  lemma LastOfHolds<T(!new)>(q: seq<T>, joining: seq<T>, max: nat, x: T)
    requires |q| <= max && Unique(q)
    ensures |joining| <= max && x in joining ==> x in LastOf(q + joining, max)
    ensures x !in joining ==> (x in LastOf(q + joining, max) <==> x in q && x !in MakingWay(q, |joining|, max))
  {
    var s := q + joining;
    if |joining| <= max && x in joining {
      var k :| 0 <= k < |joining| && joining[k] == x;
      IsInLast(s, max, |q| + k);
    }
    if x !in joining && x in q {
      var r :| 0 <= r < |q| && q[r] == x;
      if r >= |s| - max {
        IsInLast(s, max, r);
      }
    }
  }

  lemma IsInLast<T(!new)>(s: seq<T>, max: nat, k: nat)
    requires |s| - max <= k < |s|
    ensures s[k] in LastOf(s, max)
  {
    var d := if |s| <= max then 0 else |s| - max;
    assert LastOf(s, max)[k - d] == s[k];
  }

  ghost predicate AllQueued<T(!new)>(xs: seq<T>, q: seq<T>) {
    forall x :: x in xs ==> x in q
  }

  /** No more join than there is room for, and none that is queued when it is its turn is among those that make way. */
  ghost predicate StayQueued<T(!new)>(q: seq<T>, xs: seq<T>, max: nat)
    requires 1 <= max
  {
    && |Joining(q, xs, max)| <= max
    && (forall j :: 0 <= j < |xs| && xs[j] in Fill(q, xs[..j], max) ==> xs[j] !in MakingWay(q, |Joining(q, xs, max)|, max))
  }

  lemma FirstIsLost<T(!new)>(q: seq<T>, joining: seq<T>, max: nat)
    requires Unique(joining) && max < |joining|
    ensures joining[0] !in LastOf(q + joining, max)
  {
    var s := q + joining;
    forall k | 0 <= k < max ensures LastOf(s, max)[k] != joining[0] {
      assert LastOf(s, max)[k] == joining[|joining| - max + k];
    }
  }

  /** Whether an element is queued in the end is decided when it is its turn. */
  lemma QueuedIff<T(!new)>(q: seq<T>, xs: seq<T>, max: nat, j: nat)
    requires 1 <= max && |q| <= max && Unique(q) && Unique(xs) && j < |xs|
    requires |Joining(q, xs, max)| <= max
    ensures xs[j] in Fill(q, xs, max) <==>
      (xs[j] in Fill(q, xs[..j], max) ==> xs[j] !in MakingWay(q, |Joining(q, xs, max)|, max))
  {
    FillIsLast(q, xs, max);
    JoinsIff(q, xs, max, j);
    LastOfHolds(q, Joining(q, xs, max), max, xs[j]);
    if xs[j] in Fill(q, xs[..j], max) {
      QueuedBefore(q, xs, max, j);
    }
  }

  /** Elements that come in a given order are all queued in the end if and only if they stay queued. */
  lemma AllQueuedIff<T(!new)>(q: seq<T>, xs: seq<T>, max: nat)
    requires 1 <= max && |q| <= max && Unique(q) && Unique(xs)
    ensures AllQueued(xs, Fill(q, xs, max)) <==> StayQueued(q, xs, max)
  {
    var joining := Joining(q, xs, max);
    if |joining| > max {
      FillIsLast(q, xs, max);
      JoiningAre(q, xs, max);
      FirstIsLost(q, joining, max);
      assert joining[0] in joining;
    } else {
      forall j | 0 <= j < |xs| ensures xs[j] in Fill(q, xs, max) <==>
        (xs[j] in Fill(q, xs[..j], max) ==> xs[j] !in MakingWay(q, |joining|, max))
      {
        QueuedIff(q, xs, max, j);
      }
    }
  }

  /** What is queued when it is its turn was queued from the start. */
  lemma QueuedBefore<T(!new)>(q: seq<T>, xs: seq<T>, max: nat, j: nat)
    requires 1 <= max && |q| <= max && Unique(q) && Unique(xs) && j < |xs| && xs[j] in Fill(q, xs[..j], max)
    ensures xs[j] in q
  {
    var before := xs[..j];
    FillIsLast(q, before, max);
    JoiningAre(q, before, max);
    assert xs[j] !in before;
    LastOfHolds(q, Joining(q, before, max), max, xs[j]);
  }

  // ---- Any order --------------------------------------------------------------------------------------------

  /** There is room for those that are not queued, and none of those that make way for them is asked for. */
  ghost predicate Fits<T(!new)>(q: seq<T>, ids: set<T>, max: nat) {
    var n := |ids - AsSet(q)|;
    n <= max && forall x :: x in MakingWay(q, n, max) ==> x !in ids
  }

  /** If they fit, only those that are not queued join, whatever the order. */
  lemma {:induction false} OnlyNewJoin<T(!new)>(q: seq<T>, xs: seq<T>, ids: set<T>, max: nat)
    requires 1 <= max && |q| <= max && Unique(q) && Unique(xs) && (forall x :: x in xs ==> x in ids) && Fits(q, ids, max)
    ensures forall x :: x in Joining(q, xs, max) ==> x !in q
    ensures |Joining(q, xs, max)| <= |ids - AsSet(q)|
  {
    if xs != [] {
      var front, x := xs[..|xs| - 1], xs[|xs| - 1];
      assert forall y :: y in front ==> y in xs;
      OnlyNewJoin(q, front, ids, max);
      FillIsLast(q, front, max);
      LastOfHolds(q, Joining(q, front, max), max, x);
      FewerMakeWay(q, |Joining(q, front, max)|, |ids - AsSet(q)|, max);
      assert x in xs;
    }
    JoiningAre(q, xs, max);
    FewerThan(Joining(q, xs, max), ids - AsSet(q));
  }

  lemma FewerMakeWay<T(!new)>(q: seq<T>, m: nat, n: nat, max: nat)
    requires m <= n
    ensures forall x :: x in MakingWay(q, m, max) ==> x in MakingWay(q, n, max)
  {
    assert MakingWay(q, m, max) <= MakingWay(q, n, max);
  }

  lemma FitsQueuesAll<T(!new)>(q: seq<T>, xs: seq<T>, ids: set<T>, max: nat)
    requires 1 <= max && |q| <= max && Unique(q) && IsOrder(xs, ids) && Fits(q, ids, max)
    ensures AllQueued(xs, Fill(q, xs, max))
  {
    OnlyNewJoin(q, xs, ids, max);
    FewerMakeWay(q, |Joining(q, xs, max)|, |ids - AsSet(q)|, max);
    AllQueuedIff(q, xs, max);
  }

  lemma {:induction false} QueuedStay<T(!new)>(q: seq<T>, xs: seq<T>, max: nat)
    requires 1 <= max && forall x :: x in xs ==> x in q
    ensures Fill(q, xs, max) == q && Joining(q, xs, max) == []
  {
    if xs != [] {
      QueuedStay(q, xs[..|xs| - 1], max);
      assert xs[|xs| - 1] in xs;
    }
  }

  lemma NewestJoins<T(!new)>(q: seq<T>, xs: seq<T>, joining: seq<T>, x: T, max: nat)
    requires 1 <= max && |q| <= max && Joining(q, xs, max) == joining && x !in q && x !in joining
    ensures Joining(q, xs + [x], max) == joining + [x]
  {
    FillIsLast(q, xs, max);
    assert (xs + [x])[..|xs|] == xs;
    assert x !in LastOf(q + joining, max);
  }

  /** If those come first that are queued, all others join. */
  lemma {:induction false} NewJoin<T(!new)>(q: seq<T>, queued: seq<T>, others: seq<T>, max: nat)
    requires 1 <= max && |q| <= max && (forall x :: x in queued ==> x in q)
    requires Unique(others) && forall x :: x in others ==> x !in q
    ensures Joining(q, queued + others, max) == others
  {
    if others == [] {
      assert queued + others == queued;
      QueuedStay(q, queued, max);
    } else {
      var front, x := others[..|others| - 1], others[|others| - 1];
      NotLast(others);
      NewJoin(q, queued, front, max);
      NewestJoins(q, queued + front, front, x, max);
      assert queued + others == queued + front + [x];
    }
  }

  /** Something of what is asked for is lost if those come first that are queued. */
  lemma SomethingIsLost<T(!new)>(q: seq<T>, others: seq<T>, ids: set<T>, max: nat) returns (x: T)
    requires 1 <= max && |q| <= max && Unique(q) && !Fits(q, ids, max)
    requires IsOrder(others, ids - AsSet(q)) && |others| == |ids - AsSet(q)|
    ensures x in ids && x !in LastOf(q + others, max)
  {
    if max < |others| {
      x := others[0];
      FirstIsLost(q, others, max);
      assert x in others;
    } else {
      x :| x in MakingWay(q, |others|, max) && x in ids;
      assert x in q;
      LastOfHolds(q, others, max, x);
    }
  }

  lemma QueuedFirst<T(!new)>(q: seq<T>, queued: seq<T>, others: seq<T>, max: nat)
    requires 1 <= max && |q| <= max && (forall x :: x in queued ==> x in AsSet(q))
    requires Unique(others) && forall x :: x in others ==> x !in AsSet(q)
    ensures Fill(q, queued + others, max) == LastOf(q + others, max)
  {
    NewJoin(q, queued, others, max);
    FillIsLast(q, queued + others, max);
  }

  /** If they do not fit, there is an order in which not all of them are queued in the end. */
  lemma LosingOrder<T(!new)>(q: seq<T>, ids: set<T>, max: nat) returns (xs: seq<T>)
    requires 1 <= max && |q| <= max && Unique(q) && !Fits(q, ids, max)
    ensures IsOrder(xs, ids) && !AllQueued(xs, Fill(q, xs, max))
  {
    var here := AsSet(q);
    var queued := SomeOrder(ids * here);
    var others := SomeOrder(ids - here);
    xs := queued + others;
    OrderOfBoth(queued, others, ids * here, ids - here);
    assert ids * here + (ids - here) == ids;
    QueuedFirst(q, queued, others, max);
    var x := SomethingIsLost(q, others, ids, max);
    assert x in xs;
  }

  /** Elements are all queued in the end, in whatever order they come, if and only if they fit. */
  lemma AllQueuedInEveryOrderIff<T(!new)>(q: seq<T>, ids: set<T>, max: nat)
    requires 1 <= max && |q| <= max && Unique(q)
    ensures Fits(q, ids, max) <==> forall xs :: IsOrder(xs, ids) ==> AllQueued(xs, Fill(q, xs, max))
  {
    if Fits(q, ids, max) {
      forall xs | IsOrder(xs, ids) ensures AllQueued(xs, Fill(q, xs, max)) {
        FitsQueuesAll(q, xs, ids, max);
      }
    } else {
      var xs := LosingOrder(q, ids, max);
    }
  }

  /** Two cases in which they fit: there is room for all at once, or none is queued and they are not too many. */
  lemma FewFit<T(!new)>(q: seq<T>, ids: set<T>, max: nat)
    requires |q| <= max && Unique(q)
    requires |AsSet(q) + ids| <= max || (AsSet(q) !! ids && |ids| <= max)
    ensures Fits(q, ids, max)
  {
    FewerThan(q, AsSet(q));
    if |AsSet(q) + ids| <= max {
      assert AsSet(q) + ids == AsSet(q) + (ids - AsSet(q));
    } else {
      assert ids - AsSet(q) == ids;
      forall x | x in MakingWay(q, |ids|, max) ensures x !in ids {
        assert x in q && x in AsSet(q);
      }
    }
  }
}
