/** Whole runs of the conflict feed, and when the sets a conflict mentions are stored. */
module FeedRuns {
  import opened Ledger
  import Sums
  import opened FeedQueue
  import opened Orders
  import opened ConflictFeed
  import opened TimeHeaps

  // ---- The map as a queue -----------------------------------------------------------------------------------

  /** `q` lists the stored sets in the order of their arrival. */
  ghost predicate IsQueue(sets: ConflictSets, q: seq<OutputID>) {
    Lists(sets, q) && InOrderOfArrival(sets, q)
  }

  ghost predicate Lists(sets: ConflictSets, q: seq<OutputID>) {
    |q| == |sets| && (forall k :: k in sets ==> k in q) && (forall i :: 0 <= i < |q| ==> q[i] in sets)
  }

  ghost predicate InOrderOfArrival(sets: ConflictSets, q: seq<OutputID>)
    requires Lists(sets, q)
  {
    forall i, j :: 0 <= i < j < |q| ==> sets[q[i]].arrivalTime < sets[q[j]].arrivalTime
  }

  ghost predicate ArrivedBy(sets: ConflictSets, time: int) {
    forall k :: k in sets ==> sets[k].arrivalTime <= time
  }

  ghost predicate Rises(from: int, clock: seq<Time>) {
    (clock != [] ==> from < clock[0]) && forall i, j :: 0 <= i < j < |clock| ==> clock[i] < clock[j]
  }

  lemma QueueIsUnique(sets: ConflictSets, q: seq<OutputID>)
    requires IsQueue(sets, q)
    ensures Unique(q)
  {
  }

  lemma OldestIsFirst(sets: ConflictSets, q: seq<OutputID>, e: OutputID)
    requires IsQueue(sets, q) && IsOldest(sets, e)
    ensures q != [] && q[0] == e
  {
    var i :| 0 <= i < |q| && q[i] == e;
    assert q[0] in sets;
  }

  lemma InTail(q: seq<OutputID>, k: OutputID)
    requires q != [] && k in q && k != q[0]
    ensures k in q[1..]
  {
    assert q == [q[0]] + q[1..];
  }

  lemma RestIsListed(sets: ConflictSets, q: seq<OutputID>)
    requires Lists(sets, q) && Unique(q) && q != []
    ensures Lists(sets - {q[0]}, q[1..])
  {
    var rest := sets - {q[0]};
    forall k | k in rest ensures k in q[1..] {
      InTail(q, k);
    }
    assert rest.Keys == sets.Keys - {q[0]};
  }

  lemma RestIsQueue(sets: ConflictSets, q: seq<OutputID>)
    requires IsQueue(sets, q) && q != []
    ensures IsQueue(sets - {q[0]}, q[1..])
  {
    QueueIsUnique(sets, q);
    RestIsListed(sets, q);
  }

  lemma JoinsQueue(sets: ConflictSets, q: seq<OutputID>, c: ConflictSet)
    requires IsQueue(sets, q) && c.id !in sets && forall k :: k in sets ==> sets[k].arrivalTime < c.arrivalTime
    ensures IsQueue(sets[c.id := c], q + [c.id])
  {
    var next := sets[c.id := c];
    forall k | k in next ensures k in q + [c.id] {
      assert k == c.id || k in q;
    }
    assert (q + [c.id])[|q|] == c.id;
  }

  lemma ReplacesOldest(sets: ConflictSets, q: seq<OutputID>, e: OutputID, c: ConflictSet)
    requires IsQueue(sets, q) && IsOldest(sets, e)
    requires c.id !in sets && forall k :: k in sets ==> sets[k].arrivalTime < c.arrivalTime
    ensures q != [] && IsQueue((sets - {e})[c.id := c], q[1..] + [c.id])
  {
    OldestIsFirst(sets, q, e);
    RestIsQueue(sets, q);
    JoinsQueue(sets - {e}, q[1..], c);
  }

  lemma NewArrived(sets: ConflictSets, id: OutputID, time: Time, max: nat, next: ConflictSets)
    requires Adds(sets, id, time, max, next) && ArrivedBy(sets, time)
    ensures ArrivedBy(next, time)
  {
  }

  /** Adding a set to the map adds it to the queue. */
  lemma AddingEnqueues(sets: ConflictSets, q: seq<OutputID>, id: OutputID, time: Time, max: nat, next: ConflictSets)
    requires 1 <= max && IsQueue(sets, q) && Adds(sets, id, time, max, next) && ArrivedBy(sets, time as int - 1)
    ensures IsQueue(next, Enqueue(q, id, max)) && ArrivedBy(next, time)
  {
    NewArrived(sets, id, time, max, next);
    assert id in sets <==> id in q;
    if id !in sets {
      var c := NewSet(id, time);
      if |sets| < max {
        JoinsQueue(sets, q, c);
      } else {
        var e :| IsOldest(sets, e) && next == (sets - {e})[id := c];
        ReplacesOldest(sets, q, e, c);
      }
    }
  }

  /** While sets arrive one after the other, the map with its heap is a queue. */
  lemma {:induction false} RunIsQueue(states: seq<ConflictSets>, ids: seq<OutputID>, clock: seq<Time>, max: nat,
                                      q: seq<OutputID>, from: int)
    requires 1 <= max && IsRun(states, ids, clock, max)
    requires IsQueue(states[0], q) && ArrivedBy(states[0], from) && Rises(from, clock)
    ensures IsQueue(states[|ids|], Fill(q, ids, max)) && ArrivedBy(states[|ids|], End(from, clock))
  {
    if ids != [] {
      var n := |ids| - 1;
      assert IsRun(states[..n + 1], ids[..n], clock[..n], max);
      RunIsQueue(states[..n + 1], ids[..n], clock[..n], max, q, from);
      assert Adds(states[n], ids[n], clock[n], max, states[n + 1]);
      assert End(from, clock[..n]) < clock[n];
      AddingEnqueues(states[n], Fill(q, ids[..n], max), ids[n], clock[n], max, states[n + 1]);
    }
  }

  // ---- When all sets of a conflict are stored ---------------------------------------------------------------

  /**
   * Sets that are added in a given order are all stored in the end if and only if no more are added than there is room
   * for, and none that is stored when it is its turn is among the oldest, which make way for what is added.
   */
  lemma AllStoredIff(states: seq<ConflictSets>, ids: seq<OutputID>, clock: seq<Time>, max: nat, q: seq<OutputID>,
                     from: int)
    requires 1 <= max && IsRun(states, ids, clock, max) && Unique(ids)
    requires IsQueue(states[0], q) && |q| <= max && ArrivedBy(states[0], from) && Rises(from, clock)
    ensures AllStored(ids, states[|ids|]) <==> StayQueued(q, ids, max)
  {
    RunIsQueue(states, ids, clock, max, q, from);
    QueueIsUnique(states[0], q);
    AllQueuedIff(q, ids, max);
  }

  ghost predicate StoredInAnyOrder(sets: ConflictSets, ids: set<OutputID>, clock: seq<Time>, max: nat) {
    forall order, states :: IsOrder(order, ids) && IsRun(states, order, clock, max) && states[0] == sets ==>
      AllStored(order, states[|order|])
  }

  /** They are stored in whatever order they are added, if and only if they fit. */
  lemma StoredInAnyOrderIff(sets: ConflictSets, ids: set<OutputID>, clock: seq<Time>, max: nat, q: seq<OutputID>,
                            from: int)
    requires 1 <= max && |clock| == |ids|
    requires IsQueue(sets, q) && |q| <= max && ArrivedBy(sets, from) && Rises(from, clock)
    ensures StoredInAnyOrder(sets, ids, clock, max) <==> Fits(q, ids, max)
  {
    QueueIsUnique(sets, q);
    if Fits(q, ids, max) {
      forall order, states | IsOrder(order, ids) && IsRun(states, order, clock, max) && states[0] == sets
        ensures AllStored(order, states[|order|])
      {
        FitsQueuesAll(q, order, ids, max);
        RunIsQueue(states, order, clock, max, q, from);
      }
    } else {
      var order := LosingOrder(q, ids, max);
      OrderSize(order, ids);
      var states := SomeRun(sets, order, clock, max);
      RunIsQueue(states, order, clock, max, q, from);
      assert !AllStored(order, states[|order|]);
    }
  }

  lemma {:induction false} OldestExists(sets: ConflictSets) returns (e: OutputID)
    requires sets != map[]
    ensures IsOldest(sets, e)
    decreases |sets|
  {
    var some :| some in sets;
    var rest := sets - {some};
    assert rest.Keys == sets.Keys - {some};
    e := some;
    if rest != map[] {
      var f := OldestExists(rest);
      if sets[f].arrivalTime < sets[some].arrivalTime {
        e := f;
      }
    }
    forall k | k in sets ensures sets[e].arrivalTime <= sets[k].arrivalTime {
      assert k == some || k in rest;
    }
  }

  lemma SomeStep(sets: ConflictSets, id: OutputID, time: Time, max: nat) returns (next: ConflictSets)
    requires 1 <= max
    ensures Adds(sets, id, time, max, next)
  {
    if id in sets {
      next := sets;
    } else if |sets| < max {
      next := sets[id := NewSet(id, time)];
    } else {
      var e := OldestExists(sets);
      next := (sets - {e})[id := NewSet(id, time)];
    }
  }

  lemma SomeRun(sets: ConflictSets, ids: seq<OutputID>, clock: seq<Time>, max: nat) returns (states: seq<ConflictSets>)
    requires 1 <= max && |clock| == |ids|
    ensures IsRun(states, ids, clock, max) && states[0] == sets
  {
    states := [sets];
    for i := 0 to |ids|
      invariant |states| == i + 1 && IsRunTo(states, ids[..i], clock[..i], max, sets, states[i])
    {
      var last := states[i];
      var next := SomeStep(last, ids[i], clock[i], max);
      RunGoesOn(states, ids, clock, max, i, sets, last, next);
      states := states + [next];
    }
    assert ids[..|ids|] == ids && clock[..|clock|] == clock;
  }

  lemma RoomForOne(sets: ConflictSets, id: OutputID, time: Time, max: nat, all: set<OutputID>, next: ConflictSets)
    requires Adds(sets, id, time, max, next) && sets.Keys <= all && id in all && |all| <= max
    ensures next.Keys == sets.Keys + {id}
  {
    if id !in sets {
      Sums.SubsetSize(sets.Keys + {id}, all);
      assert |sets.Keys| == |sets|;
    }
  }

  /** Whatever the times are, nothing is evicted while there is room for all. */
  lemma {:induction false} NothingDropped(states: seq<ConflictSets>, ids: seq<OutputID>, clock: seq<Time>, max: nat,
                                          all: set<OutputID>)
    requires IsRun(states, ids, clock, max) && states[0].Keys <= all && AllIn(ids, all) && |all| <= max
    ensures Dropped(states) == {} && AllStored(ids, states[|ids|]) && states[|ids|].Keys <= all
  {
    if ids != [] {
      var n := |ids| - 1;
      assert IsRun(states[..n + 1], ids[..n], clock[..n], max);
      NothingDropped(states[..n + 1], ids[..n], clock[..n], max, all);
      assert Adds(states[n], ids[n], clock[n], max, states[n + 1]);
      RoomForOne(states[n], ids[n], clock[n], max, all, states[n + 1]);
      assert states[..n + 2] == states && ids == ids[..n] + [ids[n]];
    }
  }

  ghost predicate AllIn(ids: seq<OutputID>, all: set<OutputID>) {
    forall i :: 0 <= i < |ids| ==> ids[i] in all
  }

  // ---- Whole runs -------------------------------------------------------------------------------------------

  datatype Event =
    | Created(id: ConflictID, conflictSetIDs: seq<OutputID>, members: Members, clock: seq<Time>, now: Time)
    | WasAccepted(id: ConflictID, now: Time)
    | WasRejected(id: ConflictID, now: Time)

  ghost predicate WellFormed(e: Event) {
    e.Created? ==> |e.clock| == |e.conflictSetIDs| && Unique(e.conflictSetIDs)
  }

  ghost function TimeAfter(from: int, e: Event): int {
    if e.Created? then End(from, e.clock) else from
  }

  /** The time of the last arrival, or the one before all others. */
  ghost function Latest(events: seq<Event>): int {
    if events == [] then -1 else TimeAfter(Latest(events[..|events| - 1]), events[|events| - 1])
  }

  /** The sets arrive in the order of their times. */
  ghost predicate InOrder(events: seq<Event>) {
    forall i :: 0 <= i < |events| && events[i].Created? ==> NonDecreasing(Latest(events[..i]), events[i].clock)
  }

  /** No two sets arrive at the same time. */
  ghost predicate InTurn(events: seq<Event>) {
    forall i :: 0 <= i < |events| && events[i].Created? ==> Rises(Latest(events[..i]), events[i].clock)
  }

  function Enqueued(q: seq<OutputID>, e: Event, max: nat): seq<OutputID>
    requires 1 <= max
  {
    if e.Created? then Fill(q, e.conflictSetIDs, max) else q
  }

  /** The queue that a run comes to. */
  function QueueAfter(events: seq<Event>, max: nat): seq<OutputID>
    requires 1 <= max
  {
    if events == [] then [] else Enqueued(QueueAfter(events[..|events| - 1], max), events[|events| - 1], max)
  }

  /** The sets of every new conflict stay queued while they are added. */
  ghost predicate AllStayQueued(events: seq<Event>, max: nat)
    requires 1 <= max
  {
    forall i :: 0 <= i < |events| && events[i].Created? ==> StayQueued(QueueAfter(events[..i], max), events[i].conflictSetIDs, max)
  }

  /** The map is the given queue, and nothing in it arrived later than the given time. */
  ghost predicate Holds(sets: ConflictSets, q: seq<OutputID>, time: int) {
    IsQueue(sets, q) && ArrivedBy(sets, time)
  }

  lemma ResolvingHolds(sets: ConflictSets, ids: set<OutputID>, now: Time, q: seq<OutputID>, time: int)
    requires Holds(sets, q, time)
    ensures Holds(ResolvedIn(sets, ids, now), q, time)
  {
    assert ResolvedIn(sets, ids, now).Keys == sets.Keys;
    assert |ResolvedIn(sets, ids, now)| == |ResolvedIn(sets, ids, now).Keys| && |sets| == |sets.Keys|;
  }

  /** Creating a conflict leaves a queue, and nothing dangles if the sets stay queued. */
  lemma CreatingHolds(states: seq<ConflictSets>, ids: seq<OutputID>, clock: seq<Time>, max: nat, sets: ConflictSets,
                      next: ConflictSets, q: seq<OutputID>, time: int)
    requires 1 <= max && |sets| <= max && IsRunTo(states, ids, clock, max, sets, next) && Unique(ids)
    requires Holds(sets, q, time) && Rises(time, clock)
    ensures Holds(next, Fill(q, ids, max), End(time, clock))
    ensures AllStored(ids, next) <==> StayQueued(q, ids, max)
  {
    RunIsQueue(states, ids, clock, max, q, time);
    AllStoredIff(states, ids, clock, max, q, time);
  }

  /** `states` are the stored sets from step to step while an event is handled. */
  ghost predicate IsRunOf(e: Event, states: seq<ConflictSets>, max: nat) {
    match e
    case Created(_, ids, _, clock, _) => IsRun(states, ids, clock, max)
    case WasAccepted(_, now) => |states| == 2 && exists ids :: states[1] == ResolvedIn(states[0], ids, now)
    case WasRejected(_, _) => |states| == 1
  }

  ghost predicate Leads(e: Event, states: seq<ConflictSets>, max: nat, first: ConflictSets, last: ConflictSets) {
    IsRunOf(e, states, max) && states != [] && states[0] == first && states[|states| - 1] == last
  }

  lemma ResolvingLosesNothing(sets: ConflictSets, ids: set<OutputID>, now: Time)
    ensures Evictions([sets, ResolvedIn(sets, ids, now)]) == {}
  {
    var next := ResolvedIn(sets, ids, now);
    forall x | x in ConflictFeed.Elements(sets) ensures x in ConflictFeed.Elements(next) {
      assert x.conflictID in next;
    }
    assert [sets, next][..1] == [sets];
  }

  /** One run for each event, each from where the one before ended. */
  ghost predicate Recorded(runs: seq<seq<ConflictSets>>, events: seq<Event>, max: nat, sets: ConflictSets) {
    |runs| == |events| &&
      if runs == [] then sets == map[]
      else
        var n := |runs| - 1;
        runs[n] != [] && Leads(events[n], runs[n], max, runs[n][0], sets) && Recorded(runs[..n], events[..n], max, runs[n][0])
  }

  /** All that was evicted in the course of the runs. */
  ghost function EvictedIn(runs: seq<seq<ConflictSets>>): set<HeapElement> {
    if runs == [] then {} else EvictedIn(runs[..|runs| - 1]) + Evictions(runs[|runs| - 1])
  }

  lemma RecordOne(runs: seq<seq<ConflictSets>>, events: seq<Event>, i: nat, max: nat, sets: ConflictSets,
                  next: ConflictSets,
                  states: seq<ConflictSets>)
    requires i < |events| && Recorded(runs, events[..i], max, sets) && Leads(events[i], states, max, sets, next)
    ensures Recorded(runs + [states], events[..i + 1], max, next)
    ensures EvictedIn(runs + [states]) == EvictedIn(runs) + Evictions(states)
  {
    assert (runs + [states])[..|runs|] == runs && events[..i + 1][..i] == events[..i];
  }

  lemma {:induction false} StoredOrEvicted(states: seq<ConflictSets>, j: nat, e: HeapElement)
    requires j < |states| && e in ConflictFeed.Elements(states[j])
    ensures e in Evictions(states) || e in ConflictFeed.Elements(states[|states| - 1])
  {
    if j < |states| - 1 {
      StoredOrEvicted(states[..|states| - 1], j, e);
    }
  }

  /** Whatever was stored at any point is stored still, or it is among the evicted. */
  lemma {:induction false} NothingVanishes(runs: seq<seq<ConflictSets>>, events: seq<Event>, max: nat,
                                           sets: ConflictSets,
                                           i: nat, j: nat, e: HeapElement)
    requires Recorded(runs, events, max, sets) && i < |runs| && j < |runs[i]| && e in ConflictFeed.Elements(runs[i][j])
    ensures e in EvictedIn(runs) || e in ConflictFeed.Elements(sets)
  {
    var n := |runs| - 1;
    if i < n {
      NothingVanishes(runs[..n], events[..n], max, runs[n][0], i, j, e);
      if e in ConflictFeed.Elements(runs[n][0]) {
        StoredOrEvicted(runs[n], 0, e);
      }
    } else {
      StoredOrEvicted(runs[n], j, e);
    }
  }

  /** Nothing that is kept is older than anything that was evicted. */
  ghost predicate NoneOutlived(evicted: set<HeapElement>, sets: ConflictSets) {
    forall e, k :: e in evicted && k in sets ==> e.arrivalTime <= sets[k].arrivalTime
  }

  /** `q` and `time` say what the map is like before, if the sets have arrived in turn. */
  method Create(m: BoundedConflictMap, id: ConflictID, ids: seq<OutputID>, members: Members, clock: seq<Time>,
                now: Time,
                ghost q: seq<OutputID>, ghost time: int)
    returns (ghost states: seq<ConflictSets>, ghost others: Conflicts)
    requires m.Valid() && |clock| == |ids| && Unique(ids)
    modifies m, m.conflictHeap
    ensures m.Valid() && IsRunTo(states, ids, clock, m.maxCount, old(m.conflictSets), m.conflictSets)
    ensures m.evicted == old(m.evicted) + Evictions(states)
    ensures m.conflicts == others[id := Conflict(id, IDs(ids), Undecided, now)]
    ensures Touched(old(m.conflicts), others, MembersOf(IDs(ids), members), now)
    ensures old(m.Chronological()) && NonDecreasing(old(m.latest), clock) ==> m.Chronological() && m.latest <= End(old(m.latest), clock)
    ensures old(Holds(m.conflictSets, q, time)) && Rises(time, clock) ==>
      && Holds(m.conflictSets, Fill(q, ids, m.maxCount), End(time, clock))
      && (old(m.NothingDangles()) ==> (m.NothingDangles() <==> StayQueued(q, ids, m.maxCount)))
  {
    ghost var sets := m.conflictSets;
    states, others := m.OnConflictCreated(id, ids, members, clock, now);
    if Holds(sets, q, time) && Rises(time, clock) {
      CreatingHolds(states, ids, clock, m.maxCount, sets, m.conflictSets, q, time);
    }
  }

  method Accept(m: BoundedConflictMap, id: ConflictID, now: Time, ghost q: seq<OutputID>, ghost time: int)
    returns (ghost states: seq<ConflictSets>)
    requires m.Valid()
    modifies m, m.conflictHeap
    ensures m.Valid() && Leads(WasAccepted(id, now), states, m.maxCount, old(m.conflictSets), m.conflictSets)
    ensures m.evicted == old(m.evicted) && Evictions(states) == {} && m.latest == old(m.latest)
    ensures old(m.Chronological()) ==> m.Chronological()
    ensures old(Holds(m.conflictSets, q, time)) ==> Holds(m.conflictSets, q, time)
    ensures old(m.NothingDangles()) ==> m.NothingDangles()
    ensures m.conflicts == Decided(old(m.conflicts), WasAccepted(id, now))
  {
    ghost var sets, ids := m.conflictSets, if id in m.conflicts then m.conflicts[id].conflictSetIDs else {};
    m.OnConflictAccepted(id, now);
    if Holds(sets, q, time) {
      ResolvingHolds(sets, ids, now, q, time);
    }
    states := [sets, m.conflictSets];
    ResolvingLosesNothing(sets, ids, now);
  }

  method Handle(m: BoundedConflictMap, e: Event, ghost q: seq<OutputID>,
                ghost time: int) returns (ghost states: seq<ConflictSets>)
    requires m.Valid() && WellFormed(e)
    modifies m, m.conflictHeap
    ensures m.Valid() && Leads(e, states, m.maxCount, old(m.conflictSets), m.conflictSets)
    ensures m.evicted == old(m.evicted) + Evictions(states)
    ensures Yields(e, old(m.conflicts), m.conflicts)
    ensures old(m.Chronological()) && (e.Created? ==> NonDecreasing(old(m.latest), e.clock)) ==>
      m.Chronological() && m.latest <= TimeAfter(old(m.latest), e)
    ensures old(Holds(m.conflictSets, q, time)) && (e.Created? ==> Rises(time, e.clock)) ==>
      && Holds(m.conflictSets, Enqueued(q, e, m.maxCount), TimeAfter(time, e))
      && (old(m.NothingDangles()) ==>
        (m.NothingDangles() <==> (e.Created? ==> StayQueued(q, e.conflictSetIDs, m.maxCount))))
  {
    ghost var before := m.conflicts;
    match e {
      case Created(id, conflictSetIDs, members, clock, now) =>
        ghost var others;
        states, others := Create(m, id, conflictSetIDs, members, clock, now, q, time);
        CreatingYields(e, before, others, m.conflicts);
      case WasAccepted(id, now) =>
        states := Accept(m, id, now, q, time);
        DecidingYields(e, before);
      case WasRejected(id, now) =>
        m.OnConflictRejected(id, now);
        DecidingYields(e, before);
        states := [m.conflictSets];
    }
  }

  /**
   * Whatever happens, the feed never holds more than `maxCount` sets and its heap holds one element for each. `runs` are
   * the stored sets from step to step, event by event; what they evict is all that is ever lost. If the sets arrive in
   * the order of their times, nothing that is evicted is newer than anything that is kept. If they arrive in turn, the
   * feed is a queue, and if the sets of every new conflict stay queued, no mention ever dangles.
   */
  method Replay(maxCount: nat, events: seq<Event>) returns (m: BoundedConflictMap, ghost runs: seq<seq<ConflictSets>>)
    requires 1 <= maxCount && forall e :: e in events ==> WellFormed(e)
    ensures m.Valid() && m.maxCount == maxCount && |m.conflictSets| <= maxCount
    ensures multiset(m.conflictHeap.elements) == multiset(ConflictFeed.Elements(m.conflictSets))
    ensures Recorded(runs, events, maxCount, m.conflictSets)
    ensures InOrder(events) ==> NoneOutlived(EvictedIn(runs), m.conflictSets)
    ensures InTurn(events) ==> IsQueue(m.conflictSets, QueueAfter(events, maxCount))
    ensures InTurn(events) && AllStayQueued(events, maxCount) ==> m.NothingDangles()
    ensures Shows(m.conflicts, events)
  {
    m := new BoundedConflictMap(maxCount);
    runs := [];
    for i := 0 to |events|
      invariant fresh(m) && fresh(m.conflictHeap) && m.Valid() && m.maxCount == maxCount
      invariant Recorded(runs, events[..i], maxCount, m.conflictSets) && m.evicted == EvictedIn(runs)
      invariant InOrder(events) ==> m.Chronological() && (m.latest == 0 || m.latest <= Latest(events[..i]))
      invariant InTurn(events) ==> Holds(m.conflictSets, QueueAfter(events[..i], maxCount), Latest(events[..i]))
      invariant InTurn(events) && AllStayQueued(events, maxCount) ==> m.NothingDangles()
      invariant Shows(m.conflicts, events[..i])
    {
      assert events[..i + 1][..i] == events[..i] && events[i] in events;
      ghost var sets, conflicts := m.conflictSets, m.conflicts;
      ghost var states := Handle(m, events[i], QueueAfter(events[..i], maxCount), Latest(events[..i]));
      RecordOne(runs, events, i, maxCount, sets, m.conflictSets, states);
      ShowsOneMore(conflicts, m.conflicts, events, i);
      runs := runs + [states];
    }
    assert events[..|events|] == events;
  }

  // ---- States and times -------------------------------------------------------------------------------------

  function StateGiven(e: Event): ConfirmationState {
    match e
    case Created(_, _, _, _, _) => Undecided
    case WasAccepted(_, _) => Accepted
    case WasRejected(_, _) => Rejected
  }

  /** The state that the last event for a conflict gives it. */
  function StateOf(events: seq<Event>, k: ConflictID): ConfirmationState {
    if events == [] then Undecided
    else var e := events[|events| - 1]; if e.id == k then StateGiven(e) else StateOf(events[..|events| - 1], k)
  }

  predicate WasCreated(events: seq<Event>, k: ConflictID) {
    events != [] && ((events[|events| - 1].Created? && events[|events| - 1].id == k) || WasCreated(events[..|events| - 1], k))
  }

  /** An event is for a conflict, or creates another one that shares a set with it. */
  predicate Concerns(e: Event, k: ConflictID) {
    e.id == k || (e.Created? && exists s :: s in e.conflictSetIDs && IsMember(e.members, s, k))
  }

  /** The time of the last event that concerns a conflict. */
  function UpdateOf(events: seq<Event>, k: ConflictID): Time {
    if events == [] then 0
    else var e := events[|events| - 1]; if Concerns(e, k) then e.now else UpdateOf(events[..|events| - 1], k)
  }

  /**
   * Every stored conflict was created, is in the state of the last event for it,
   * and was updated by the last one that concerns it.
   */
  ghost predicate Shows(conflicts: Conflicts, events: seq<Event>) {
    forall k :: k in conflicts ==>
      && conflicts[k].id == k && WasCreated(events, k)
      && conflicts[k].state == StateOf(events, k) && conflicts[k].updatedTime == UpdateOf(events, k)
  }

  /** What an event does to a conflict that is stored afterwards. */
  ghost predicate Yields(e: Event, before: Conflicts, after: Conflicts) {
    forall k :: k in after ==> after[k].id == k && Became(e, k, before, after[k])
  }

  ghost predicate Became(e: Event, k: ConflictID, before: Conflicts, after: Conflict) {
    && (e.id == k ==> (e.Created? || k in before) && after.state == StateGiven(e) && after.updatedTime == e.now)
    && (e.id != k ==> k in before && after.state == before[k].state
                      && after.updatedTime == if Concerns(e, k) then e.now else before[k].updatedTime)
  }

  /** A conflict is decided if it is stored. */
  function Decided(conflicts: Conflicts, e: Event): Conflicts {
    if e.id !in conflicts then conflicts
    else conflicts[e.id := conflicts[e.id].(state := StateGiven(e), updatedTime := e.now)]
  }

  lemma DecidingYields(e: Event, conflicts: Conflicts)
    requires !e.Created? && forall k :: k in conflicts ==> conflicts[k].id == k
    ensures Yields(e, conflicts, Decided(conflicts, e))
  {
    var after := Decided(conflicts, e);
    forall k | k in after ensures after[k].id == k && Became(e, k, conflicts, after[k]) {
    }
  }

  lemma CreatingYields(e: Event, before: Conflicts, others: Conflicts, after: Conflicts)
    requires e.Created? && Touched(before, others, MembersOf(IDs(e.conflictSetIDs), e.members), e.now)
    requires after == others[e.id := Conflict(e.id, IDs(e.conflictSetIDs), Undecided, e.now)]
    requires forall k :: k in after ==> after[k].id == k
    ensures Yields(e, before, after)
  {
    forall k | k in after ensures Became(e, k, before, after[k]) {
      if k != e.id {
        assert IsTouched(before[k], others[k], k in MembersOf(IDs(e.conflictSetIDs), e.members), e.now);
        assert k in MembersOf(IDs(e.conflictSetIDs), e.members) <==> Concerns(e, k);
      }
    }
  }

  lemma ShowsOneMore(before: Conflicts, after: Conflicts, events: seq<Event>, i: nat)
    requires i < |events| && Shows(before, events[..i]) && Yields(events[i], before, after)
    ensures Shows(after, events[..i + 1])
  {
    assert events[..i + 1][..i] == events[..i] && events[..i + 1][i] == events[i];
    forall k | k in after
      ensures WasCreated(events[..i + 1], k)
      ensures after[k].state == StateOf(events[..i + 1], k) && after[k].updatedTime == UpdateOf(events[..i + 1], k)
    {
      assert Became(events[i], k, before, after[k]);
    }
  }

  // ---- A mention that dangles -------------------------------------------------------------------------------

  lemma TwoInTurn(a: OutputID, b: OutputID)
    requires a != b
    ensures Fill([], [a, b], 2) == [a, b] && Unique([a, b]) && StayQueued([], [a, b], 2)
  {
    assert [a, b][..1] == [a] && [a][..0] == [];
    assert Fill([], [a], 2) == [a];
    AllQueuedIff([], [a, b], 2);
  }

  lemma StoredSetMakesWay(a: OutputID, b: OutputID, c: OutputID)
    requires a != b && b != c && a != c
    ensures Fill([a, b], [a, c], 2) == [b, c] && !StayQueued([a, b], [a, c], 2)
  {
    assert [a, c][..1] == [a] && [a][..0] == [];
    assert Fill([a, b], [a], 2) == [a, b];
    AllQueuedIff([a, b], [a, c], 2);
    assert a in [a, c];
  }

  lemma NothingYet()
    ensures Holds(map[], [], 0) && Grounded(map[], map[])
  {
  }

  /** A feed that holds the sets of one conflict. */
  method NewFeed(max: nat, ids: seq<OutputID>, clock: seq<Time>) returns (m: BoundedConflictMap)
    requires 1 <= max && |clock| == |ids| && Unique(ids) && Rises(0, clock) && StayQueued([], ids, max)
    ensures fresh(m) && fresh(m.conflictHeap) && m.Valid() && m.maxCount == max && m.NothingDangles()
    ensures Holds(m.conflictSets, Fill([], ids, max), End(0, clock))
  {
    m := new BoundedConflictMap(max);
    NothingYet();
    assert m.NothingDangles() && Holds(m.conflictSets, [], 0);
    ghost var states, others := Create(m, ConflictID(1), ids, map[], clock, 0, [], 0);
  }

  lemma RiseInTurn(from: nat)
    ensures Rises(from, [from + 1, from + 2]) && End(from, [from + 1, from + 2]) == from + 2
  {
  }

  method TwoStored(a: OutputID, b: OutputID) returns (m: BoundedConflictMap)
    requires a != b
    ensures fresh(m) && fresh(m.conflictHeap) && m.Valid() && m.maxCount == 2 && m.NothingDangles()
    ensures Holds(m.conflictSets, [a, b], 2)
  {
    TwoInTurn(a, b);
    RiseInTurn(0);
    m := NewFeed(2, [a, b], [1, 2]);
  }

  /**
   * With room for two sets, both taken, a conflict about the first of them and a new one: the first is stored already,
   * adding the second evicts it, and the new conflict mentions a set that is not stored.
   */
  method MentionDangles(a: OutputID, b: OutputID, c: OutputID) returns (m: BoundedConflictMap)
    requires a != b && b != c && a != c
    ensures m.Valid() && m.maxCount == 2 && !m.NothingDangles()
    ensures ConflictID(2) in m.conflicts && m.conflicts[ConflictID(2)].conflictSetIDs == {a, c}
    ensures a !in m.conflictSets
  {
    m := TwoStored(a, b);
    StoredSetMakesWay(a, b, c);
    RiseInTurn(2);
    ghost var states, others := Create(m, ConflictID(2), [a, c], map[], [3, 4], 4, [a, b], 2);
    IsQueued(m.conflictSets, [b, c], a);
    assert IDs([a, c]) == {a, c};
  }

  lemma IsQueued(sets: ConflictSets, q: seq<OutputID>, id: OutputID)
    requires IsQueue(sets, q)
    ensures id in sets <==> id in q
  {
  }
}
