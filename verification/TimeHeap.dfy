/** A binary heap ordered by arrival time (plugins/dashboard/conflicts_livefeed.go, with container/heap written out). */
module TimeHeaps {
  import opened Ledger

  datatype HeapElement = HeapElement(conflictID: OutputID, arrivalTime: Time)

  predicate IsChild(parent: nat, child: nat) {
    child == 2 * parent + 1 || child == 2 * parent + 2
  }

  ghost predicate InOrder(h: seq<HeapElement>, parent: nat, child: nat) {
    parent < |h| && child < |h| && h[parent].arrivalTime <= h[child].arrivalTime
  }

  /** Within the first `n` elements, no element is newer than its children. */
  ghost predicate Heap(h: seq<HeapElement>, n: nat) {
    n <= |h| && forall p: nat, c: nat :: IsChild(p, c) && c < n ==> InOrder(h, p, c)
  }

  /** A heap but for the element at `j`, which may be older than its parent. */
  ghost predicate HeapButUp(h: seq<HeapElement>, j: nat) {
    && j < |h|
    && (forall p: nat, c: nat :: IsChild(p, c) && c < |h| && c != j ==> InOrder(h, p, c))
    && (forall p: nat, c: nat :: IsChild(p, j) && IsChild(j, c) && c < |h| ==> InOrder(h, p, c))
  }

  /** A heap but for the element at `i`, which may be newer than its children. */
  ghost predicate HeapButDown(h: seq<HeapElement>, i: nat, n: nat) {
    && n <= |h|
    && (forall p: nat, c: nat :: IsChild(p, c) && c < n && p != i ==> InOrder(h, p, c))
    && (forall p: nat, c: nat :: IsChild(p, i) && IsChild(i, c) && c < n ==> InOrder(h, p, c))
  }

  function Swapped(h: seq<HeapElement>, i: nat, j: nat): seq<HeapElement>
    requires i < |h| && j < |h|
  {
    h[i := h[j]][j := h[i]]
  }

  lemma SwapKeepsElements(h: seq<HeapElement>, i: nat, j: nat)
    requires i < |h| && j < |h|
    ensures multiset(Swapped(h, i, j)) == multiset(h)
  {
  }

  /** The root is among the oldest. */
  lemma {:induction false} RootIsOldest(h: seq<HeapElement>, n: nat, i: nat)
    requires Heap(h, n) && i < n
    ensures h[0].arrivalTime <= h[i].arrivalTime
  {
    if i > 0 {
      var p := (i - 1) / 2;
      assert IsChild(p, i) && InOrder(h, p, i);
      RootIsOldest(h, n, p);
    }
  }

  lemma UpStep(h: seq<HeapElement>, p: nat, j: nat)
    requires HeapButUp(h, j) && IsChild(p, j) && h[j].arrivalTime < h[p].arrivalTime
    ensures HeapButUp(Swapped(h, p, j), p)
  {
    var s := Swapped(h, p, j);
    forall q: nat, c: nat | IsChild(q, c) && c < |s| && c != p ensures InOrder(s, q, c) {
      if c != j { assert InOrder(h, q, c); }
      if q == j { assert InOrder(h, p, c); }
    }
    forall q: nat, c: nat | IsChild(q, p) && IsChild(p, c) && c < |s| ensures InOrder(s, q, c) {
      assert InOrder(h, q, p);
      if c != j { assert InOrder(h, p, c); }
    }
  }

  lemma DownStep(h: seq<HeapElement>, i: nat, j: nat, n: nat)
    requires HeapButDown(h, i, n) && IsChild(i, j) && j < n
    requires forall c: nat :: IsChild(i, c) && c < n ==> InOrder(h, j, c)
    requires h[j].arrivalTime < h[i].arrivalTime
    ensures HeapButDown(Swapped(h, i, j), j, n)
  {
    var s := Swapped(h, i, j);
    forall p: nat, c: nat | IsChild(p, c) && c < n && p != j ensures InOrder(s, p, c) {
      if p == i {
        assert InOrder(h, j, c);
      } else {
        assert InOrder(h, p, c);
        if c == i { assert InOrder(h, p, j); }
      }
    }
    forall p: nat, c: nat | IsChild(p, j) && IsChild(j, c) && c < n ensures InOrder(s, p, c) {
      assert p == i;
      assert InOrder(h, j, c);
    }
  }

  lemma RootIsOldestOfAll(h: seq<HeapElement>)
    requires Heap(h, |h|) && h != []
    ensures forall e :: e in h ==> h[0].arrivalTime <= e.arrivalTime
  {
    forall e | e in h ensures h[0].arrivalTime <= e.arrivalTime {
      var i :| 0 <= i < |h| && h[i] == e;
      RootIsOldest(h, |h|, i);
    }
  }

  lemma RootGoesLast(h: seq<HeapElement>)
    requires Heap(h, |h|) && h != []
    ensures var n := |h| - 1; HeapButDown(Swapped(h, 0, n), 0, n) && Swapped(h, 0, n)[n] == h[0]
  {
    var n := |h| - 1;
    var s := Swapped(h, 0, n);
    forall p: nat, c: nat | IsChild(p, c) && c < n && p != 0 ensures InOrder(s, p, c) {
      assert InOrder(h, p, c);
    }
  }

  lemma FrontIsHeap(h: seq<HeapElement>, n: nat)
    requires Heap(h, n) && |h| == n + 1
    ensures Heap(h[..n], n) && multiset(h[..n]) + multiset{h[n]} == multiset(h)
  {
    assert h == h[..n] + [h[n]];
    forall p: nat, c: nat | IsChild(p, c) && c < n ensures InOrder(h[..n], p, c) {
      assert InOrder(h, p, c);
    }
  }

  class TimeHeap {
    var elements: seq<HeapElement>

    ghost predicate Valid()
      reads this
    {
      Heap(elements, |elements|)
    }

    constructor ()
      ensures elements == []
    {
      elements := [];
    }

    predicate Less(i: nat, j: nat)
      requires i < |elements| && j < |elements|
      reads this
    {
      elements[i].arrivalTime < elements[j].arrivalTime
    }

    method Swap(i: nat, j: nat)
      requires i < |elements| && j < |elements|
      modifies this
      ensures elements == Swapped(old(elements), i, j)
      ensures multiset(elements) == multiset(old(elements))
    {
      SwapKeepsElements(elements, i, j);
      elements := elements[i := elements[j]][j := elements[i]];
    }

    /** Sifts the element at `start` up. */
    method Up(start: nat)
      requires HeapButUp(elements, start)
      modifies this
      ensures Valid() && multiset(elements) == multiset(old(elements))
    {
      var j := start;
      while true
        invariant HeapButUp(elements, j)
        invariant multiset(elements) == multiset(old(elements))
        decreases j
      {
        var i := if j == 0 then 0 else (j - 1) / 2;
        if i == j || !Less(j, i) {
          assert j > 0 ==> IsChild(i, j);
          break;
        }
        assert IsChild(i, j);
        UpStep(elements, i, j);
        Swap(i, j);
        j := i;
      }
      forall p: nat, c: nat | IsChild(p, c) && c < |elements| ensures InOrder(elements, p, c) {
        if c == j { assert p == (j - 1) / 2; }
      }
    }

    /** Sifts the root down within the first `n` elements; those behind them stay where they are. */
    method Down(n: nat)
      requires HeapButDown(elements, 0, n)
      modifies this
      ensures Heap(elements, n) && multiset(elements) == multiset(old(elements))
      ensures |elements| == |old(elements)| && forall k :: n <= k < |elements| ==> elements[k] == old(elements[k])
    {
      var i := 0;
      while true
        invariant HeapButDown(elements, i, n)
        invariant multiset(elements) == multiset(old(elements))
        invariant |elements| == |old(elements)| && forall k :: n <= k < |elements| ==> elements[k] == old(elements[k])
        decreases n - i
      {
        var j1 := 2 * i + 1;
        if j1 >= n {
          break;
        }
        var j := j1;
        if j1 + 1 < n && Less(j1 + 1, j1) {
          j := j1 + 1;
        }
        if !Less(j, i) {
          break;
        }
        DownStep(elements, i, j, n);
        Swap(i, j);
        i := j;
      }
    }

    method Push(x: HeapElement)
      requires Valid()
      modifies this
      ensures Valid() && multiset(elements) == multiset(old(elements)) + multiset{x}
    {
      elements := elements + [x];
      assert HeapButUp(elements, |elements| - 1) by {
        forall p: nat, c: nat | IsChild(p, c) && c < |elements| - 1 ensures InOrder(elements, p, c) {
          assert InOrder(old(elements), p, c);
        }
      }
      Up(|elements| - 1);
    }

    /** Takes out one of the oldest elements. */
    method Pop() returns (x: HeapElement)
      requires Valid() && elements != []
      modifies this
      ensures Valid() && multiset(elements) + multiset{x} == multiset(old(elements))
      ensures forall e :: e in old(elements) ==> x.arrivalTime <= e.arrivalTime
    {
      RootIsOldestOfAll(elements);
      RootGoesLast(elements);
      var n := |elements| - 1;
      Swap(0, n);
      Down(n);
      x := elements[n];
      FrontIsHeap(elements, n);
      elements := elements[..n];
    }
  }
}
