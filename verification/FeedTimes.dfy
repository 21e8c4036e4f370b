/** When the sets of a conflict are stored, whatever the times at which they arrive. */
module FeedTimes {
  import opened Ledger
  import opened Sums
  import opened Orders
  import opened ConflictFeed
  import opened FeedRuns

  /** The stored sets that had arrived before the given time. */
  ghost function Before(sets: ConflictSets, time: Time): set<OutputID> {
    set k | k in sets && sets[k].arrivalTime < time
  }

  /** How many sets have to make way if those that are not stored are added. */
  ghost function Overflow(sets: ConflictSets, ids: set<OutputID>, max: nat): int {
    |sets| + |ids - sets.Keys| - max
  }

  /** Sets older than any that is asked for make way. */
  ghost predicate SparesStored(sets: ConflictSets, ids: set<OutputID>, max: nat) {
    forall p :: p in ids && p in sets ==> Overflow(sets, ids, max) <= |Before(sets, sets[p].arrivalTime)|
  }

  /** The same with those that are added, if it is more than one: the first may arrive together with others. */
  ghost predicate SparesAdded(sets: ConflictSets, ids: set<OutputID>, from: Time, max: nat) {
    |ids - sets.Keys| <= 1 || Overflow(sets, ids, max) <= |Before(sets, from)|
  }

  ghost predicate FitsAtAnyTimes(sets: ConflictSets, ids: set<OutputID>, from: Time, max: nat) {
    Overflow(sets, ids, max) <= 0 || (SparesStored(sets, ids, max) && SparesAdded(sets, ids, from, max))
  }

  ghost predicate StoredAtAnyTimes(sets: ConflictSets, ids: set<OutputID>, from: Time, max: nat) {
    forall order, clock, states ::
      IsOrder(order, ids) && NonDecreasing(from, clock) && IsRun(states, order, clock, max) && states[0] == sets ==>
        AllStored(order, states[|order|])
  }

  // ---- Steps ------------------------------------------------------------------------------------------------

  lemma AddedSize(sets: ConflictSets, c: ConflictSet, ids: set<OutputID>)
    requires c.id !in sets && c.id in ids
    ensures |sets[c.id := c]| == |sets| + 1 && |ids - sets[c.id := c].Keys| == |ids - sets.Keys| - 1
  {
    assert ids - sets.Keys == (ids - sets[c.id := c].Keys) + {c.id};
  }

  lemma DroppedSize(sets: ConflictSets, e: OutputID, ids: set<OutputID>)
    requires e in sets && e !in ids
    ensures |sets - {e}| == |sets| - 1 && |ids - (sets - {e}).Keys| == |ids - sets.Keys|
  {
    assert (sets - {e}).Keys == sets.Keys - {e};
    assert ids - (sets - {e}).Keys == ids - sets.Keys;
  }

  lemma BeforeAdded(sets: ConflictSets, c: ConflictSet, time: Time)
    requires c.id !in sets && time <= c.arrivalTime
    ensures Before(sets[c.id := c], time) == Before(sets, time)
  {
  }

  lemma BeforeDropped(sets: ConflictSets, e: OutputID, time: Time)
    requires e in sets
    ensures |Before(sets, time)| - 1 <= |Before(sets - {e}, time)|
    ensures e in Before(sets, time) ==> |Before(sets - {e}, time)| == |Before(sets, time)| - 1
  {
    assert Before(sets - {e}, time) == Before(sets, time) - {e};
  }

  lemma MoreBefore(sets: ConflictSets, from: Time, time: Time)
    requires from <= time
    ensures |Before(sets, from)| <= |Before(sets, time)|
  {
    SubsetSize(Before(sets, from), Before(sets, time));
  }

  lemma OldestIsBefore(sets: ConflictSets, e: OutputID, time: Time)
    requires IsOldest(sets, e)
    ensures Before(sets, time) != {} ==> e in Before(sets, time)
    ensures Before(sets, sets[e].arrivalTime) == {}
  {
    if Before(sets, time) != {} {
      var k :| k in Before(sets, time);
    }
  }

  /** What is added to a map with room still fits. */
  lemma AddingFits(sets: ConflictSets, ids: set<OutputID>, from: Time, max: nat, c: ConflictSet)
    requires FitsAtAnyTimes(sets, ids, from, max) && c.id in ids && c.id !in sets && |sets| < max
    requires from <= c.arrivalTime && ArrivedBy(sets, c.arrivalTime)
    ensures FitsAtAnyTimes(sets[c.id := c], ids, from, max)
  {
    var next := sets[c.id := c];
    AddedSize(sets, c, ids);
    BeforeAdded(sets, c, from);
    MoreBefore(sets, from, c.arrivalTime);
    forall p | p in ids && p in next && Overflow(sets, ids, max) > 0
      ensures Overflow(sets, ids, max) <= |Before(next, next[p].arrivalTime)|
    {
      BeforeAdded(sets, c, next[p].arrivalTime);
    }
  }

  lemma OldestIsSpared(sets: ConflictSets, ids: set<OutputID>, from: Time, max: nat, e: OutputID, id: OutputID)
    requires FitsAtAnyTimes(sets, ids, from, max) && IsOldest(sets, e) && |sets| == max && id in ids && id !in sets
    ensures e !in ids && Overflow(sets, ids, max) == |ids - sets.Keys| > 0
  {
    assert id in ids - sets.Keys;
    OldestIsBefore(sets, e, from);
  }

  /** So is what is added in place of the oldest. */
  lemma ReplacingFits(sets: ConflictSets, ids: set<OutputID>, from: Time, max: nat, e: OutputID, c: ConflictSet)
    requires FitsAtAnyTimes(sets, ids, from, max) && c.id in ids && c.id !in sets && |sets| == max && IsOldest(sets, e)
    requires from <= c.arrivalTime && ArrivedBy(sets, c.arrivalTime)
    ensures e !in ids && FitsAtAnyTimes((sets - {e})[c.id := c], ids, from, max)
  {
    var rest, next := sets - {e}, (sets - {e})[c.id := c];
    OldestIsSpared(sets, ids, from, max, e, c.id);
    DroppedSize(sets, e, ids);
    AddedSize(rest, c, ids);
    BeforeDropped(sets, e, from);
    BeforeAdded(rest, c, from);
    MoreBefore(rest, from, c.arrivalTime);
    forall p | p in ids && p in next && Overflow(next, ids, max) > 0
      ensures Overflow(next, ids, max) <= |Before(next, next[p].arrivalTime)|
    {
      BeforeAdded(rest, c, next[p].arrivalTime);
      BeforeDropped(sets, e, next[p].arrivalTime);
    }
  }

  lemma StepFits(sets: ConflictSets, ids: set<OutputID>, from: Time, max: nat, id: OutputID, time: Time,
                 next: ConflictSets)
    requires FitsAtAnyTimes(sets, ids, from, max) && |sets| <= max && Adds(sets, id, time, max, next)
    requires id in ids && from <= time && ArrivedBy(sets, time)
    ensures FitsAtAnyTimes(next, ids, from, max) && |next| <= max && ArrivedBy(next, time)
    ensures id in next && forall p :: p in ids && p in sets ==> p in next
  {
    NewArrived(sets, id, time, max, next);
    if id !in sets {
      var c := NewSet(id, time);
      if |sets| < max {
        AddingFits(sets, ids, from, max, c);
        AddedSize(sets, c, ids);
      } else {
        var e :| IsOldest(sets, e) && next == (sets - {e})[id := c];
        ReplacingFits(sets, ids, from, max, e, c);
        DroppedSize(sets, e, ids);
        AddedSize(sets - {e}, c, ids);
      }
    }
  }

  lemma {:induction false} RunFits(states: seq<ConflictSets>, order: seq<OutputID>, clock: seq<Time>,
                                   ids: set<OutputID>,
                                   from: Time, max: nat)
    requires IsRun(states, order, clock, max) && NonDecreasing(from, clock) && forall x :: x in order ==> x in ids
    requires FitsAtAnyTimes(states[0], ids, from, max) && |states[0]| <= max && ArrivedBy(states[0], from)
    ensures FitsAtAnyTimes(states[|order|], ids, from, max) && |states[|order|]| <= max
    ensures ArrivedBy(states[|order|], End(from, clock)) && AllStored(order, states[|order|])
  {
    if order != [] {
      var n := |order| - 1;
      assert IsRun(states[..n + 1], order[..n], clock[..n], max);
      assert order == order[..n] + [order[n]];
      RunFits(states[..n + 1], order[..n], clock[..n], ids, from, max);
      assert Adds(states[n], order[n], clock[n], max, states[n + 1]);
      assert End(from, clock[..n]) <= clock[n];
      StepFits(states[n], ids, from, max, order[n], clock[n], states[n + 1]);
    }
  }

  // ---- Runs that lose a set ---------------------------------------------------------------------------------

  function Same(time: Time, n: nat): (clock: seq<Time>)
    ensures |clock| == n && forall i :: 0 <= i < n ==> clock[i] == time
  {
    if n == 0 then [] else [time] + Same(time, n - 1)
  }

  lemma RunFromStep(sets: ConflictSets, ids: seq<OutputID>, time: Time, max: nat, next: ConflictSets,
                    states: seq<ConflictSets>)
    requires ids != [] && Adds(sets, ids[0], time, max, next)
    requires IsRun(states, ids[1..], Same(time, |ids| - 1), max) && states[0] == next
    ensures IsRun([sets] + states, ids, Same(time, |ids|), max)
    ensures ([sets] + states)[|ids|] == states[|ids| - 1]
  {
    var all := [sets] + states;
    forall i | 0 <= i < |ids| ensures Adds(all[i], ids[i], time, max, all[i + 1]) {
      if i > 0 {
        assert Adds(states[i - 1], ids[1..][i - 1], Same(time, |ids| - 1)[i - 1], max, states[i]);
      }
    }
  }

  lemma {:induction false} StaysOut(states: seq<ConflictSets>, ids: seq<OutputID>, clock: seq<Time>, max: nat,
                                    p: OutputID)
    requires IsRun(states, ids, clock, max) && p !in states[0] && p !in ids
    ensures p !in states[|ids|]
  {
    if ids != [] {
      var n := |ids| - 1;
      assert IsRun(states[..n + 1], ids[..n], clock[..n], max);
      StaysOut(states[..n + 1], ids[..n], clock[..n], max, p);
      assert Adds(states[n], ids[n], clock[n], max, states[n + 1]);
      assert p != ids[n];
    }
  }

  ghost predicate AllAbsent(ids: seq<OutputID>, sets: ConflictSets) {
    forall i :: 0 <= i < |ids| ==> ids[i] !in sets
  }

  /** `p` is among the oldest that make way for what is still to be added. */
  ghost predicate Doomed(sets: ConflictSets, p: OutputID, others: nat, max: nat) {
    p in sets && |Before(sets, sets[p].arrivalTime)| < |sets| + others - max
  }

  lemma DoomedWithRoom(sets: ConflictSets, p: OutputID, others: nat, max: nat, c: ConflictSet)
    requires Doomed(sets, p, others, max) && others > 0 && c.id !in sets && ArrivedBy(sets, c.arrivalTime)
    ensures Doomed(sets[c.id := c], p, others - 1, max)
  {
    BeforeAdded(sets, c, sets[p].arrivalTime);
    AddedSize(sets, c, {c.id});
  }

  lemma DoomedWithoutRoom(sets: ConflictSets, p: OutputID, others: nat, max: nat, e: OutputID, c: ConflictSet)
    requires Doomed(sets, p, others, max) && others > 0 && c.id !in sets && ArrivedBy(sets, c.arrivalTime)
    requires IsOldest(sets, e) && Before(sets, sets[p].arrivalTime) != {}
    ensures Doomed((sets - {e})[c.id := c], p, others - 1, max) && |(sets - {e})[c.id := c]| == |sets|
  {
    var time := sets[p].arrivalTime;
    OldestIsBefore(sets, e, time);
    BeforeDropped(sets, e, time);
    DroppedSize(sets, e, {});
    BeforeAdded(sets - {e}, c, time);
    AddedSize(sets - {e}, c, {c.id});
  }

  lemma RestIsAbsent(ids: seq<OutputID>, sets: ConflictSets, next: ConflictSets)
    requires ids != [] && Unique(ids) && AllAbsent(ids, sets) && forall k :: k in next ==> k in sets || k == ids[0]
    ensures Unique(ids[1..]) && AllAbsent(ids[1..], next)
  {
    forall i | 0 <= i < |ids| - 1 ensures ids[1..][i] !in next {
      assert ids[1..][i] == ids[i + 1] && ids[0] != ids[i + 1];
    }
  }

  lemma MakeWay(sets: ConflictSets, p: OutputID, others: nat, max: nat, c: ConflictSet) returns (e: OutputID)
    requires 1 <= max && Doomed(sets, p, others, max) && others > 0 && c.id !in sets && ArrivedBy(sets, c.arrivalTime)
    ensures IsOldest(sets, e) && (e == p || Doomed((sets - {e})[c.id := c], p, others - 1, max))
  {
    if Before(sets, sets[p].arrivalTime) == {} {
      NothingIsOlder(sets, p);
      e := p;
    } else {
      e := OldestExists(sets);
      DoomedWithoutRoom(sets, p, others, max, e, c);
    }
  }

  /** The step that brings `p` closer to its turn, or evicts it when that has come. */
  lemma NextStep(sets: ConflictSets, p: OutputID, others: nat, time: Time, max: nat,
                 id: OutputID) returns (next: ConflictSets)
    requires 1 <= max && Doomed(sets, p, others, max) && others > 0 && |sets| <= max && ArrivedBy(sets, time)
    requires id !in sets
    ensures Adds(sets, id, time, max, next) && |next| <= max && ArrivedBy(next, time)
    ensures forall k :: k in next ==> k in sets || k == id
    ensures p !in next || Doomed(next, p, others - 1, max)
  {
    var c := NewSet(id, time);
    if |sets| < max {
      next := sets[id := c];
      DoomedWithRoom(sets, p, others, max, c);
      AddedSize(sets, c, {id});
    } else {
      var e := MakeWay(sets, p, others, max, c);
      next := (sets - {e})[id := c];
      DroppedSize(sets, e, {});
      AddedSize(sets - {e}, c, {id});
    }
    NewArrived(sets, id, time, max, next);
  }

  lemma NothingIsOlder(sets: ConflictSets, p: OutputID)
    requires p in sets && Before(sets, sets[p].arrivalTime) == {}
    ensures IsOldest(sets, p)
  {
    forall k | k in sets ensures sets[p].arrivalTime <= sets[k].arrivalTime {
      assert k !in Before(sets, sets[p].arrivalTime);
    }
  }

  /** What is lost and not added again stays so. */
  lemma StaysLost(sets: ConflictSets, ids: seq<OutputID>, time: Time, max: nat,
                  p: OutputID) returns (states: seq<ConflictSets>)
    requires 1 <= max && p !in sets && p !in ids
    ensures Loses(states, sets, ids, time, max, p)
  {
    states := SomeRun(sets, ids, Same(time, |ids|), max);
    StaysOut(states, ids, Same(time, |ids|), max, p);
  }

  /** A run in which `ids` arrive together and `p` is lost. */
  ghost predicate Loses(states: seq<ConflictSets>, sets: ConflictSets, ids: seq<OutputID>, time: Time, max: nat,
                        p: OutputID) {
    IsRun(states, ids, Same(time, |ids|), max) && states[0] == sets && p !in states[|ids|]
  }

  lemma LosesFromStep(states: seq<ConflictSets>, sets: ConflictSets, next: ConflictSets, ids: seq<OutputID>, time: Time,
                      max: nat, p: OutputID)
    requires ids != [] && Adds(sets, ids[0], time, max, next) && Loses(states, next, ids[1..], time, max, p)
    ensures Loses([sets] + states, sets, ids, time, max, p)
  {
    RunFromStep(sets, ids, time, max, next, states);
  }

  /** What is doomed is lost in some run in which all others arrive together. */
  lemma {:induction false} LosingRun(sets: ConflictSets, p: OutputID, others: seq<OutputID>, time: Time, max: nat)
    returns (states: seq<ConflictSets>)
    requires 1 <= max && Doomed(sets, p, |others|, max) && |sets| <= max && ArrivedBy(sets, time)
    requires Unique(others) && AllAbsent(others, sets)
    ensures Loses(states, sets, others, time, max, p)
    decreases |others|
  {
    var next := NextStep(sets, p, |others|, time, max, others[0]);
    var rest := others[1..];
    RestIsAbsent(others, sets, next);
    NotAmong(others, sets, p);
    var tail;
    if p in next {
      tail := LosingRun(next, p, rest, time, max);
    } else {
      tail := StaysLost(next, rest, time, max, p);
    }
    LosesFromStep(tail, sets, next, others, time, max, p);
    states := [sets] + tail;
  }

  lemma NotAmong(ids: seq<OutputID>, sets: ConflictSets, p: OutputID)
    requires p in sets && AllAbsent(ids, sets) && ids != []
    ensures p !in ids && p !in ids[1..]
  {
  }

  /** Adding first what is stored changes nothing. */
  lemma {:induction false} StoredFirst(sets: ConflictSets, stored: seq<OutputID>, others: seq<OutputID>, time: Time,
                                       max: nat,
                                       states: seq<ConflictSets>)
    returns (all: seq<ConflictSets>)
    requires AllStored(stored, sets) && IsRun(states, others, Same(time, |others|), max) && states[0] == sets
    ensures IsRun(all, stored + others, Same(time, |stored| + |others|), max) && all[0] == sets
    ensures all[|stored| + |others|] == states[|others|]
    decreases |stored|
  {
    if stored == [] {
      assert stored + others == others;
      all := states;
    } else {
      assert stored[0] in stored && (stored + others)[1..] == stored[1..] + others;
      var tail := StoredFirst(sets, stored[1..], others, time, max, states);
      RunFromStep(sets, stored + others, time, max, sets, tail);
      all := [sets] + tail;
    }
  }

  lemma DoomedOnceAdded(sets: ConflictSets, from: Time, others: nat, max: nat, c: ConflictSet)
    requires others > 0 && c.id !in sets && c.arrivalTime == from && |Before(sets, from)| < |sets| + others - max
    ensures Doomed(sets[c.id := c], c.id, others - 1, max) && |sets[c.id := c]| == |sets| + 1
  {
    BeforeAdded(sets, c, from);
    AddedSize(sets, c, {c.id});
  }

  lemma FewerWithout(sets: ConflictSets, e: OutputID, from: Time, others: nat, max: nat)
    requires IsOldest(sets, e) && |sets| == max && others > 1 && |Before(sets, from)| < others
    ensures |Before(sets - {e}, from)| < |sets - {e}| + others - max && |sets - {e}| == max - 1
  {
    OldestIsBefore(sets, e, from);
    BeforeDropped(sets, e, from);
    DroppedSize(sets, e, {});
    BeforeOfRest(sets, e, from);
  }

  lemma BeforeOfRest(sets: ConflictSets, e: OutputID, from: Time)
    ensures Before(sets, from) == {} ==> Before(sets - {e}, from) == {}
  {
    assert Before(sets - {e}, from) <= Before(sets, from);
  }

  /** Two or more that are added together may be the oldest themselves: then the first of them can be evicted. */
  lemma FirstIsDoomed(sets: ConflictSets, id: OutputID, others: nat, from: Time, max: nat) returns (next: ConflictSets)
    requires 1 <= max && others > 1 && id !in sets
    requires |sets| <= max && ArrivedBy(sets, from) && |Before(sets, from)| < |sets| + others - max
    ensures Adds(sets, id, from, max, next) && |next| <= max && ArrivedBy(next, from)
    ensures Doomed(next, id, others - 1, max) && forall k :: k in next ==> k in sets || k == id
  {
    var c := NewSet(id, from);
    if |sets| < max {
      next := sets[id := c];
      DoomedOnceAdded(sets, from, others, max, c);
    } else {
      var e := OldestExists(sets);
      next := (sets - {e})[id := c];
      FewerWithout(sets, e, from, others, max);
      DoomedOnceAdded(sets - {e}, from, others, max, c);
    }
    NewArrived(sets, id, from, max, next);
  }

  lemma LosesAdded(sets: ConflictSets, others: seq<OutputID>, from: Time, max: nat) returns (states: seq<ConflictSets>)
    requires 1 <= max && |others| > 1 && Unique(others) && AllAbsent(others, sets)
    requires |sets| <= max && ArrivedBy(sets, from) && |Before(sets, from)| < |sets| + |others| - max
    ensures IsRun(states, others, Same(from, |others|), max) && states[0] == sets && !AllStored(others, states[|others|])
  {
    var next := FirstIsDoomed(sets, others[0], |others|, from, max);
    RestIsAbsent(others, sets, next);
    var tail := LosingRun(next, others[0], others[1..], from, max);
    RunFromStep(sets, others, from, max, next, tail);
    states := [sets] + tail;
    assert others[0] in others;
  }

  /** If they do not fit, there are an order, times and a run in which not all are stored in the end. */
  lemma LosingTimes(sets: ConflictSets, ids: set<OutputID>, from: Time, max: nat)
    returns (order: seq<OutputID>, states: seq<ConflictSets>)
    requires 1 <= max && |sets| <= max && ArrivedBy(sets, from) && !FitsAtAnyTimes(sets, ids, from, max)
    ensures IsOrder(order, ids) && IsRun(states, order, Same(from, |order|), max) && states[0] == sets
    ensures !AllStored(order, states[|order|])
  {
    var here, missing := ids * sets.Keys, ids - sets.Keys;
    assert ids == here + missing;
    var stored := SomeOrder(here);
    var others := SomeOrder(missing);
    var tail := LosingTail(sets, ids, others, from, max);
    order, states := PutFirst(sets, stored, others, here, missing, from, max, tail);
    assert exists p :: p in order && p !in states[|order|];
  }

  lemma PutFirst(sets: ConflictSets, stored: seq<OutputID>, others: seq<OutputID>, here: set<OutputID>,
                 missing: set<OutputID>, from: Time, max: nat, tail: seq<ConflictSets>)
    returns (order: seq<OutputID>, states: seq<ConflictSets>)
    requires IsOrder(stored, here) && IsOrder(others, missing) && here !! missing && AllStored(stored, sets)
    requires IsRun(tail, others, Same(from, |others|), max) && tail[0] == sets
    ensures IsOrder(order, here + missing) && IsRun(states, order, Same(from, |order|), max)
    ensures states[0] == sets && states[|order|] == tail[|others|]
  {
    order := stored + others;
    OrderOfBoth(stored, others, here, missing);
    states := StoredFirst(sets, stored, others, from, max, tail);
  }

  lemma LosingTail(sets: ConflictSets, ids: set<OutputID>, others: seq<OutputID>, from: Time, max: nat)
    returns (tail: seq<ConflictSets>)
    requires 1 <= max && |sets| <= max && ArrivedBy(sets, from) && !FitsAtAnyTimes(sets, ids, from, max)
    requires IsOrder(others, ids - sets.Keys) && |others| == |ids - sets.Keys|
    ensures IsRun(tail, others, Same(from, |others|), max) && tail[0] == sets
    ensures exists p :: p in ids && p !in tail[|others|]
  {
    assert AllAbsent(others, sets) by {
      forall i | 0 <= i < |others| ensures others[i] !in sets {
        assert others[i] in others;
      }
    }
    if !SparesStored(sets, ids, max) {
      var p :| p in ids && p in sets && |Before(sets, sets[p].arrivalTime)| < Overflow(sets, ids, max);
      tail := LosingRun(sets, p, others, from, max);
    } else {
      tail := LosesAdded(sets, others, from, max);
      var p :| p in others && p !in tail[|others|];
    }
  }

  /**
   * All sets of a conflict are stored in the end, in whatever order and at whatever times they arrive, and whichever of
   * several oldest ones is evicted, if and only if they fit at any times.
   */
  lemma StoredAtAnyTimesIff(sets: ConflictSets, ids: set<OutputID>, from: Time, max: nat)
    requires 1 <= max && |sets| <= max && ArrivedBy(sets, from)
    ensures StoredAtAnyTimes(sets, ids, from, max) <==> FitsAtAnyTimes(sets, ids, from, max)
  {
    if FitsAtAnyTimes(sets, ids, from, max) {
      forall order, clock, states |
        IsOrder(order, ids) && NonDecreasing(from, clock) && IsRun(states, order, clock, max) && states[0] == sets
        ensures AllStored(order, states[|order|])
      {
        RunFits(states, order, clock, ids, from, max);
      }
    } else {
      var order, states := LosingTimes(sets, ids, from, max);
      assert NonDecreasing(from, Same(from, |order|));
    }
  }
}
