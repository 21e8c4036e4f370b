/** The bounded map behind the dashboard's conflict feed (plugins/dashboard/conflicts_livefeed.go). */
module ConflictFeed {
  import opened Ledger
  import opened Sums
  import opened TimeHeaps
  import opened Orders

  datatype ConflictID = ConflictID(bytes: nat)

  /** A new conflict is undecided, which is the zero value of its state. */
  datatype ConfirmationState = Undecided | Accepted | Rejected

  datatype ConflictSet = ConflictSet(id: OutputID, arrivalTime: Time, resolved: bool, timeToResolve: int, updatedTime: Time)

  datatype Conflict = Conflict(id: ConflictID, conflictSetIDs: set<OutputID>, state: ConfirmationState, updatedTime: Time)

  type ConflictSets = map<OutputID, ConflictSet>
  type Conflicts = map<ConflictID, Conflict>
  type Members = map<OutputID, set<ConflictID>>

  function ElementOf(c: ConflictSet): HeapElement {
    HeapElement(c.id, c.arrivalTime)
  }

  /** The elements the heap should hold: one for every stored set. */
  ghost function Elements(sets: ConflictSets): set<HeapElement> {
    set k | k in sets :: HeapElement(k, sets[k].arrivalTime)
  }

  lemma ElementsGrow(sets: ConflictSets, c: ConflictSet)
    requires c.id !in sets
    ensures multiset(Elements(sets[c.id := c])) == multiset(Elements(sets)) + multiset{ElementOf(c)}
  {
    var grown := sets[c.id := c];
    forall e ensures e in Elements(grown) <==> e in Elements(sets) || e == ElementOf(c) {
      if e in Elements(sets) { assert e.conflictID in grown; }
      if e == ElementOf(c) { assert c.id in grown; }
    }
    assert Elements(grown) == Elements(sets) + {ElementOf(c)};
  }

  lemma ElementsShrink(sets: ConflictSets, e: HeapElement)
    requires e in Elements(sets)
    ensures e.conflictID in sets && sets[e.conflictID].arrivalTime == e.arrivalTime
    ensures multiset(Elements(sets - {e.conflictID})) + multiset{e} == multiset(Elements(sets))
  {
    var rest := sets - {e.conflictID};
    forall d ensures d in Elements(rest) <==> d in Elements(sets) && d != e {
      if d in Elements(sets) && d != e { assert d.conflictID in rest; }
    }
    assert Elements(rest) + {e} == Elements(sets);
  }

  /** What is stored before but not after. */
  ghost function Lost(before: ConflictSets, after: ConflictSets): set<HeapElement> {
    Elements(before) - Elements(after)
  }

  lemma NothingLost(sets: ConflictSets, c: ConflictSet)
    requires c.id !in sets
    ensures Lost(sets, sets[c.id := c]) == {}
  {
    forall e | e in Elements(sets) ensures e in Elements(sets[c.id := c]) {
      assert e.conflictID in sets[c.id := c];
    }
  }

  lemma OneLost(sets: ConflictSets, e: HeapElement, c: ConflictSet)
    requires e in Elements(sets) && c.id !in sets
    ensures Lost(sets, (sets - {e.conflictID})[c.id := c]) == {e}
  {
    var next := (sets - {e.conflictID})[c.id := c];
    forall x | x in Elements(sets) ensures x in Elements(next) <==> x != e {
      if x != e {
        assert x.conflictID in next;
      }
    }
  }

  lemma HeapHoldsAll(h: seq<HeapElement>, sets: ConflictSets)
    requires multiset(h) == multiset(Elements(sets))
    ensures forall k :: k in sets ==> HeapElement(k, sets[k].arrivalTime) in h
    ensures forall e :: e in h ==> e in Elements(sets)
  {
    forall k | k in sets ensures HeapElement(k, sets[k].arrivalTime) in h {
      assert HeapElement(k, sets[k].arrivalTime) in multiset(Elements(sets));
    }
    forall e | e in h ensures e in Elements(sets) {
      assert e in multiset(h);
    }
  }

  lemma TakeOut<T(!new)>(a: multiset<T>, b: multiset<T>, x: T)
    requires a + multiset{x} == b + multiset{x}
    ensures a == b
  {
    forall y ensures a[y] == b[y] {
      assert (a + multiset{x})[y] == (b + multiset{x})[y];
    }
  }

  /** What is left of the conflicts when a set is evicted: conflicts that mention nothing else go with it. */
  function Cleaned(conflicts: Conflicts, evicted: OutputID): Conflicts {
    map k | k in conflicts && conflicts[k].conflictSetIDs - {evicted} != {} ::
      conflicts[k].(conflictSetIDs := conflicts[k].conflictSetIDs - {evicted})
  }

  function Resolved(c: ConflictSet, now: Time): ConflictSet {
    c.(resolved := true, timeToResolve := now - c.arrivalTime, updatedTime := now)
  }

  function ResolvedIn(sets: ConflictSets, ids: set<OutputID>, now: Time): ConflictSets {
    map k | k in sets :: if k in ids && !sets[k].resolved then Resolved(sets[k], now) else sets[k]
  }

  function ResolvedOne(sets: ConflictSets, id: OutputID, now: Time): ConflictSets {
    if id in sets && !sets[id].resolved then sets[id := Resolved(sets[id], now)] else sets
  }

  /** The sets among `ids` are resolved now if they were not before; everything else about the sets is as it was. */
  ghost predicate Resolves(before: ConflictSets, after: ConflictSets, ids: set<OutputID>, now: Time) {
    && after.Keys == before.Keys
    && forall s :: s in before ==>
      && after[s].id == before[s].id && after[s].arrivalTime == before[s].arrivalTime
      && (after[s].resolved <==> before[s].resolved || s in ids)
      && (after[s].resolved && !before[s].resolved ==>
        after[s].updatedTime == now && after[s].timeToResolve == now - after[s].arrivalTime)
      && (after[s].resolved == before[s].resolved ==> after[s] == before[s])
  }

  lemma ResolveOneMore(sets: ConflictSets, done: set<OutputID>, id: OutputID, now: Time)
    ensures ResolvedIn(sets, done + {id}, now) == ResolvedOne(ResolvedIn(sets, done, now), id, now)
  {
  }

  function Max(a: Time, b: Time): Time {
    if a < b then b else a
  }

  function IDs(ids: seq<OutputID>): (r: set<OutputID>)
    ensures forall s :: s in r <==> s in ids
  {
    if ids == [] then {} else IDs(ids[..|ids| - 1]) + {ids[|ids| - 1]}
  }

  lemma OneMoreID(ids: seq<OutputID>, i: nat)
    requires i < |ids| && Unique(ids)
    ensures ids[i] !in IDs(ids[..i]) && IDs(ids[..i + 1]) == IDs(ids[..i]) + {ids[i]}
  {
    assert ids[..i + 1][..i] == ids[..i];
  }

  class BoundedConflictMap {
    const maxCount: nat
    var conflictSets: ConflictSets
    var conflicts: Conflicts
    const conflictHeap: TimeHeap
    /** All elements evicted so far, and the latest arrival. */
    ghost var evicted: set<HeapElement>
    ghost var latest: Time

    /** The heap holds one element for each stored set. */
    ghost predicate HeapInStep()
      reads this`conflictSets, conflictHeap
    {
      && 1 <= maxCount && |conflictSets| <= maxCount
      && conflictHeap.Valid()
      && multiset(conflictHeap.elements) == multiset(Elements(conflictSets))
      && (forall k :: k in conflictSets ==> conflictSets[k].id == k)
    }

    ghost predicate ConflictsFiled()
      reads this`conflicts
    {
      forall k :: k in conflicts ==> conflicts[k].id == k
    }

    ghost predicate Valid()
      reads this`conflictSets, this`conflicts, conflictHeap
    {
      HeapInStep() && ConflictsFiled()
    }

    /** Nothing that was evicted is newer than anything that is kept, and nothing is newer than the latest arrival. */
    ghost predicate Chronological()
      reads this`conflictSets, this`evicted, this`latest
    {
      && (forall k :: k in conflictSets ==> conflictSets[k].arrivalTime <= latest)
      && (forall e :: e in evicted ==> e.arrivalTime <= latest)
      && (forall e, k :: e in evicted && k in conflictSets ==> e.arrivalTime <= conflictSets[k].arrivalTime)
    }

    constructor (maxCount: nat)
      requires 1 <= maxCount
      ensures Valid() && Chronological() && fresh(conflictHeap)
      ensures conflictSets == map[] && conflicts == map[] && this.maxCount == maxCount && evicted == {} && latest == 0
    {
      this.maxCount := maxCount;
      conflictSets, conflicts := map[], map[];
      conflictHeap := new TimeHeap();
      evicted, latest := {}, 0;
      new;
      assert Elements(conflictSets) == {};
      assert multiset(conflictHeap.elements) == multiset{};
    }

    /** Evicts one of the oldest sets, and with it every mention of it. */
    method Evict() returns (element: HeapElement)
      requires Valid() && conflictSets != map[]
      modifies this, conflictHeap
      ensures Valid() && IsOldest(old(conflictSets), element.conflictID)
      ensures element.arrivalTime == old(conflictSets)[element.conflictID].arrivalTime
      ensures conflictSets == old(conflictSets) - {element.conflictID}
      ensures conflicts == Cleaned(old(conflicts), element.conflictID)
      ensures evicted == old(evicted) + {element} && latest == old(latest) && (old(Chronological()) ==> Chronological())
    {
      element := TakeOldest();
      CleanUp(element.conflictID);
      evicted := evicted + {element};
    }

    method TakeOldest() returns (element: HeapElement)
      requires HeapInStep() && conflictSets != map[]
      modifies this`conflictSets, conflictHeap
      ensures HeapInStep() && IsOldest(old(conflictSets), element.conflictID)
      ensures element.arrivalTime == old(conflictSets)[element.conflictID].arrivalTime
      ensures conflictSets == old(conflictSets) - {element.conflictID}
    {
      HeapHoldsAll(conflictHeap.elements, conflictSets);
      ghost var some :| some in conflictSets;
      assert HeapElement(some, conflictSets[some].arrivalTime) in conflictHeap.elements;
      element := PopOldest(conflictSets);
      ElementsShrink(conflictSets, element);
      TakeOut(multiset(conflictHeap.elements), multiset(Elements(conflictSets - {element.conflictID})), element);
      conflictSets := conflictSets - {element.conflictID};
    }

    method PopOldest(ghost sets: ConflictSets) returns (element: HeapElement)
      requires conflictHeap.Valid() && conflictHeap.elements != []
      requires multiset(conflictHeap.elements) == multiset(Elements(sets))
      modifies conflictHeap
      ensures conflictHeap.Valid() && element in Elements(sets)
      ensures multiset(conflictHeap.elements) + multiset{element} == multiset(Elements(sets))
      ensures forall k :: k in sets ==> element.arrivalTime <= sets[k].arrivalTime
    {
      HeapHoldsAll(conflictHeap.elements, sets);
      ghost var before := conflictHeap.elements;
      element := conflictHeap.Pop();
      assert element in multiset(before);
      forall k | k in sets ensures element.arrivalTime <= sets[k].arrivalTime {
        assert HeapElement(k, sets[k].arrivalTime) in before;
      }
    }

    /** Removes every mention of a set; a conflict whose last mention this was is deleted during the loop. */
    method CleanUp(id: OutputID)
      requires ConflictsFiled()
      modifies this`conflicts
      ensures conflicts == Cleaned(old(conflicts), id)
    {
      ghost var before := conflicts;
      var left := conflicts.Keys;
      while left != {}
        invariant forall k :: k in left ==> k in before
        invariant forall k :: k in conflicts ==> k in before
        invariant forall k :: k in left ==> k in conflicts && conflicts[k] == before[k]
        invariant forall k :: k in before && k !in left ==>
          (k in conflicts <==> before[k].conflictSetIDs - {id} != {}) &&
          (k in conflicts ==> conflicts[k] == before[k].(conflictSetIDs := before[k].conflictSetIDs - {id}))
        decreases left
      {
        var k :| k in left;
        left := left - {k};
        var conflict := conflicts[k].(conflictSetIDs := conflicts[k].conflictSetIDs - {id});
        conflicts := conflicts[k := conflict];
        if conflict.conflictSetIDs == {} {
          conflicts := conflicts - {conflict.id};
        }
      }
    }

    method Store(c: ConflictSet)
      requires HeapInStep() && c.id !in conflictSets && |conflictSets| < maxCount
      modifies this`conflictSets, this`latest, conflictHeap
      ensures HeapInStep() && latest == Max(old(latest), c.arrivalTime)
      ensures conflictSets == old(conflictSets)[c.id := c]
      ensures old(Chronological()) && old(latest) <= c.arrivalTime ==> Chronological()
    {
      ElementsGrow(conflictSets, c);
      conflictSets := conflictSets[c.id := c];
      conflictHeap.Push(HeapElement(c.id, c.arrivalTime));
      latest := Max(latest, c.arrivalTime);
    }

    method AddConflictSet(c: ConflictSet)
      requires Valid() && c.id !in conflictSets
      modifies this, conflictHeap
      ensures Valid() && latest == Max(old(latest), c.arrivalTime)
      ensures AddsNew(Snapshot(old(conflictSets), old(conflicts)), c, maxCount, Snapshot(conflictSets, conflicts))
      ensures evicted == old(evicted) + Lost(old(conflictSets), conflictSets)
      ensures old(Chronological()) && old(latest) <= c.arrivalTime ==> Chronological()
    {
      ghost var was := Snapshot(conflictSets, conflicts);
      if |conflictSets| < maxCount {
        NothingLost(conflictSets, c);
      } else {
        var element := Evict();
        OneLost(was.sets, element, c);
        assert Replaced(element.conflictID, c, was, Snapshot(conflictSets[c.id := c], conflicts));
      }
      Store(c);
    }

    method AddConflict(br: Conflict)
      requires ConflictsFiled()
      modifies this`conflicts
      ensures ConflictsFiled() && conflicts == old(conflicts)[br.id := br]
    {
      conflicts := conflicts[br.id := br];
    }

    /** Only conflicts that are stored take on a new set. */
    method AddConflictMember(conflictID: ConflictID, resourceID: OutputID, now: Time)
      requires ConflictsFiled()
      modifies this`conflicts
      ensures ConflictsFiled() && conflicts.Keys == old(conflicts).Keys
      ensures conflicts == if conflictID in old(conflicts) then old(conflicts)[conflictID :=
        old(conflicts)[conflictID].(conflictSetIDs := old(conflicts)[conflictID].conflictSetIDs + {resourceID}, updatedTime := now)]
        else old(conflicts)
    {
      if conflictID in conflicts {
        var conflict := conflicts[conflictID];
        conflicts := conflicts[conflictID :=
          conflict.(conflictSetIDs := conflict.conflictSetIDs + {resourceID}, updatedTime := now)];
      }
    }

    method AddConflictMembers(members: set<ConflictID>, resourceID: OutputID, now: Time)
      requires ConflictsFiled()
      modifies this`conflicts
      ensures ConflictsFiled() && Mentioned(old(conflicts), conflicts, members, resourceID)
      ensures Touched(old(conflicts), conflicts, members, now)
    {
      var left := members;
      while left != {}
        invariant ConflictsFiled() && Mentioned(old(conflicts), conflicts, members - left, resourceID)
        invariant Touched(old(conflicts), conflicts, members - left, now)
        invariant left <= members
        decreases left
      {
        var k :| k in left;
        left := left - {k};
        AddConflictMember(k, resourceID, now);
      }
      assert members - left == members;
    }

    /** A resolved set stays what it was but for the resolution: its place in the heap does not change. */
    method ResolveConflict(id: OutputID, now: Time)
      requires HeapInStep()
      modifies this`conflictSets
      ensures HeapInStep() && (old(Chronological()) ==> Chronological())
      ensures conflictSets == ResolvedOne(old(conflictSets), id, now)
    {
      if id in conflictSets && !conflictSets[id].resolved {
        var c := Resolved(conflictSets[id], now);
        SameElements(conflictSets, id, c);
        conflictSets := conflictSets[id := c];
      }
    }

    /** Nothing mentions a set that is not stored. */
    ghost predicate NothingDangles()
      reads this
    {
      Grounded(conflictSets, conflicts)
    }

    /** Adds one of a new conflict's sets unless it is stored already. */
    method AddIfAbsent(setID: OutputID, time: Time)
      requires Valid()
      modifies this, conflictHeap
      ensures Valid() && AddsTo(Snapshot(old(conflictSets), old(conflicts)), setID, time, maxCount, Snapshot(conflictSets, conflicts))
      ensures setID in conflictSets && conflictSets[setID] == if setID in old(conflictSets) then old(conflictSets)[setID]
        else ConflictSet(setID, time, false, 0, time)
      ensures evicted == old(evicted) + Lost(old(conflictSets), conflictSets)
      ensures latest == old(latest) || latest == time
      ensures old(Chronological()) && old(latest) <= time ==> Chronological()
    {
      if setID !in conflictSets {
        AddConflictSet(NewSet(setID, time));
      }
    }

    /** Adds a set and has its members mention it. */
    method AddSet(setID: OutputID, setMembers: set<ConflictID>, time: Time, now: Time, ghost was: Snapshot,
                  ghost gone: set<OutputID>, ghost done: set<OutputID>, ghost members: Members)
      requires Valid() && Follows(was, conflictSets, conflicts, gone, done, members) && setID !in done
      requires forall k :: k in setMembers <==> IsMember(members, setID, k)
      requires Touched(was.conflicts, conflicts, MembersOf(done, members), now)
      modifies this, conflictHeap
      ensures Touched(was.conflicts, conflicts, MembersOf(done + {setID}, members), now)
      ensures Valid() && Adds(old(conflictSets), setID, time, maxCount, conflictSets)
      ensures evicted == old(evicted) + Lost(old(conflictSets), conflictSets)
      ensures Follows(was, conflictSets, conflicts, gone + (old(conflictSets).Keys - conflictSets.Keys), done + {setID}, members)
      ensures old(NothingDangles()) ==> NothingDangles()
      ensures latest == old(latest) || latest == time
      ensures old(Chronological()) && old(latest) <= time ==> Chronological()
    {
      ghost var before := Snapshot(conflictSets, conflicts);
      AddIfAbsent(setID, time);
      ghost var between := Snapshot(conflictSets, conflicts);
      AddConflictMembers(setMembers, setID, now);
      OneMoreFollows(was, before, between, conflicts, setID, setMembers, time, maxCount, gone, done, members);
      StepTouches(was.conflicts, before, between, conflicts, setID, setMembers, time, maxCount, done, members, now);
    }

    /** Adds the next set. */
    method AddNext(conflictSetIDs: seq<OutputID>, i: nat, members: Members, clock: seq<Time>, now: Time,
                   ghost states: seq<ConflictSets>, ghost was: Snapshot, ghost since: set<HeapElement>)
      requires Valid() && i < |conflictSetIDs| == |clock| && Unique(conflictSetIDs)
      requires Underway(states, conflictSetIDs[..i], members, clock[..i], maxCount, was, since, Snapshot(conflictSets, conflicts), evicted)
      requires Touched(was.conflicts, conflicts, MembersOf(IDs(conflictSetIDs[..i]), members), now)
      modifies this, conflictHeap
      ensures Touched(was.conflicts, conflicts, MembersOf(IDs(conflictSetIDs[..i + 1]), members), now)
      ensures Valid()
      ensures Underway(states + [conflictSets], conflictSetIDs[..i + 1], members, clock[..i + 1], maxCount, was, since,
                Snapshot(conflictSets, conflicts), evicted)
      ensures old(NothingDangles()) ==> NothingDangles()
      ensures latest == old(latest) || latest == clock[i]
      ensures old(Chronological()) && old(latest) <= clock[i] ==> Chronological()
    {
      var setID := conflictSetIDs[i];
      OneMoreID(conflictSetIDs, i);
      ghost var before := conflictSets;
      AddSet(setID, if setID in members then members[setID] else {}, clock[i], now, was, Dropped(states),
        IDs(conflictSetIDs[..i]), members);
      RunGoesOn(states, conflictSetIDs, clock, maxCount, i, was.sets, before, conflictSets);
    }

    /**
     * Each set that is not stored yet is added, which may evict another, possibly one of the same conflict. `states` are
     * the stored sets from step to step; `Dropped(states)` and `Evictions(states)` are what was evicted.
     */
    method AddSets(conflictSetIDs: seq<OutputID>, members: Members, clock: seq<Time>, now: Time)
      returns (ghost states: seq<ConflictSets>)
      requires Valid() && |clock| == |conflictSetIDs| && Unique(conflictSetIDs)
      modifies this, conflictHeap
      ensures Valid()
      ensures Underway(states, conflictSetIDs, members, clock, maxCount, Snapshot(old(conflictSets), old(conflicts)),
                old(evicted), Snapshot(conflictSets, conflicts), evicted)
      ensures Touched(old(conflicts), conflicts, MembersOf(IDs(conflictSetIDs), members), now)
      ensures old(NothingDangles()) ==> NothingDangles()
      ensures old(Chronological()) && NonDecreasing(old(latest), clock) ==> Chronological() && latest <= End(old(latest), clock)
    {
      ghost var was := Snapshot(conflictSets, conflicts);
      ghost var ordered := Chronological() && NonDecreasing(latest, clock);
      states := [conflictSets];
      for i := 0 to |conflictSetIDs|
        invariant Valid() && |states| == i + 1
        invariant Underway(states, conflictSetIDs[..i], members, clock[..i], maxCount, was, old(evicted),
                    Snapshot(conflictSets, conflicts), evicted)
        invariant Touched(was.conflicts, conflicts, MembersOf(IDs(conflictSetIDs[..i]), members), now)
        invariant old(NothingDangles()) ==> NothingDangles()
        invariant ordered ==> Chronological() && latest <= (if i == 0 then old(latest) else clock[i - 1])
      {
        AddNext(conflictSetIDs, i, members, clock, now, states, was, old(evicted));
        states := states + [conflictSets];
      }
      assert conflictSetIDs[..|conflictSetIDs|] == conflictSetIDs && clock[..|clock|] == clock;
    }

    /**
     * A new conflict is stored once all its sets are. `clock` gives the time at which each set is added, `states` the
     * sets from step to step, and `others` are the conflicts before the new one is stored. Whether a mention of a set
     * that is not stored comes about depends on whether all its own sets are stored in the end.
     */
    method OnConflictCreated(id: ConflictID, conflictSetIDs: seq<OutputID>, members: Members,
                             clock: seq<Time>, now: Time)
      returns (ghost states: seq<ConflictSets>, ghost others: Conflicts)
      requires Valid() && |clock| == |conflictSetIDs| && Unique(conflictSetIDs)
      modifies this, conflictHeap
      ensures Valid() && IsRunTo(states, conflictSetIDs, clock, maxCount, old(conflictSets), conflictSets)
      ensures evicted == old(evicted) + Evictions(states)
      ensures conflicts == others[id := Conflict(id, IDs(conflictSetIDs), Undecided, now)]
      ensures Follows(Snapshot(old(conflictSets), old(conflicts)), conflictSets, others, Dropped(states), IDs(conflictSetIDs), members)
      ensures Touched(old(conflicts), others, MembersOf(IDs(conflictSetIDs), members), now)
      ensures old(NothingDangles()) ==> (NothingDangles() <==> AllStored(conflictSetIDs, conflictSets))
      ensures old(Chronological()) && NonDecreasing(old(latest), clock) ==> Chronological() && latest <= End(old(latest), clock)
    {
      states := AddSets(conflictSetIDs, members, clock, now);
      others := conflicts;
      AddConflict(Conflict(id, IDs(conflictSetIDs), Undecided, now));
      if Grounded(conflictSets, others) {
        NewMentions(conflictSets, others, id, conflictSetIDs, now);
      }
    }

    method ResolveAll(ids: set<OutputID>, now: Time)
      requires HeapInStep()
      modifies this`conflictSets
      ensures HeapInStep() && (old(Chronological()) ==> Chronological())
      ensures conflictSets == ResolvedIn(old(conflictSets), ids, now)
    {
      ghost var sets := conflictSets;
      var left := ids;
      while left != {}
        invariant HeapInStep() && (old(Chronological()) ==> Chronological())
        invariant left <= ids && conflictSets == ResolvedIn(sets, ids - left, now)
        decreases left
      {
        var k :| k in left;
        ResolveOneMore(sets, ids - left, k, now);
        assert ids - left + {k} == ids - (left - {k});
        left := left - {k};
        ResolveConflict(k, now);
      }
      assert ids - left == ids;
    }

    /** Confirming a conflict resolves the sets it mentions, and nothing else. */
    method OnConflictAccepted(id: ConflictID, now: Time)
      requires Valid()
      modifies this`conflicts, this`conflictSets
      ensures Valid() && (old(Chronological()) ==> Chronological())
      ensures conflicts == if id !in old(conflicts) then old(conflicts)
        else old(conflicts)[id := old(conflicts)[id].(state := Accepted, updatedTime := now)]
      ensures conflictSets ==
        ResolvedIn(old(conflictSets), if id in old(conflicts) then old(conflicts)[id].conflictSetIDs else {}, now)
      ensures Resolves(old(conflictSets), conflictSets,
                if id in old(conflicts) then old(conflicts)[id].conflictSetIDs else {}, now)
    {
      if id !in conflicts {
        return;
      }
      AddConflict(conflicts[id].(state := Accepted, updatedTime := now));
      ResolveAll(conflicts[id].conflictSetIDs, now);
    }

    method OnConflictRejected(id: ConflictID, now: Time)
      requires ConflictsFiled()
      modifies this`conflicts
      ensures ConflictsFiled()
      ensures conflicts == if id !in old(conflicts) then old(conflicts)
        else old(conflicts)[id := old(conflicts)[id].(state := Rejected, updatedTime := now)]
    {
      if id in conflicts {
        AddConflict(conflicts[id].(state := Rejected, updatedTime := now));
      }
    }
  }

  // ---- What becomes of sets and mentions while a conflict is added ------------------------------------------

  datatype Snapshot = Snapshot(sets: ConflictSets, conflicts: Conflicts)

  predicate IsMember(members: Members, s: OutputID, k: ConflictID) {
    s in members && k in members[s]
  }

  /** No set is lost that is not `gone`: neither those there were nor those `done`; and none comes from elsewhere. */
  ghost predicate SetsFollow(was: ConflictSets, sets: ConflictSets, gone: set<OutputID>, done: set<OutputID>) {
    && (forall s :: s in was && s !in gone ==> s in sets && sets[s] == was[s])
    && (forall s :: s in done && s !in gone ==> s in sets)
    && (forall s :: s in sets ==> s in was || s in done)
  }

  /** No mention is lost but those of sets that are `gone`. */
  ghost predicate MentionsKept(was: Conflicts, conflicts: Conflicts, gone: set<OutputID>) {
    forall k, s :: k in was && s in was[k].conflictSetIDs && s !in gone ==> k in conflicts && s in conflicts[k].conflictSetIDs
  }

  /** The members of the stored sets that are `done` mention them. */
  ghost predicate MembersMention(sets: ConflictSets, conflicts: Conflicts, done: set<OutputID>, members: Members) {
    forall k, s :: k in conflicts && s in done && s in sets && IsMember(members, s, k) ==> s in conflicts[k].conflictSetIDs
  }

  /** Every mention was there before, or is that of a member of a set that is `done`. */
  ghost predicate MentionsFounded(was: Conflicts, conflicts: Conflicts, done: set<OutputID>, members: Members) {
    && (forall k :: k in conflicts ==> k in was)
    && (forall k, s :: k in conflicts && s in conflicts[k].conflictSetIDs ==>
      (s in was[k].conflictSetIDs || (s in done && IsMember(members, s, k))))
  }

  /** What is true once the first sets are added; `was` and `since` are the sets, conflicts and evictions before. */
  ghost predicate Underway(states: seq<ConflictSets>, ids: seq<OutputID>, members: Members, clock: seq<Time>, max: nat,
                           was: Snapshot, since: set<HeapElement>, now: Snapshot, evicted: set<HeapElement>)
  {
    && IsRunTo(states, ids, clock, max, was.sets, now.sets)
    && Follows(was, now.sets, now.conflicts, Dropped(states), IDs(ids), members)
    && evicted == since + Evictions(states)
  }

  ghost predicate Follows(was: Snapshot, sets: ConflictSets, conflicts: Conflicts, gone: set<OutputID>,
                          done: set<OutputID>,
                          members: Members)
  {
    && SetsFollow(was.sets, sets, gone, done)
    && MentionsKept(was.conflicts, conflicts, gone)
    && MembersMention(sets, conflicts, done, members)
    && MentionsFounded(was.conflicts, conflicts, done, members)
  }

  /** The same, when the set with the given ID has been added but its members do not mention it yet. */
  ghost predicate HalfFollows(was: Snapshot, sets: ConflictSets, conflicts: Conflicts, gone: set<OutputID>,
                              done: set<OutputID>,
                              members: Members, id: OutputID)
  {
    && SetsFollow(was.sets, sets, gone, done + {id})
    && MentionsKept(was.conflicts, conflicts, gone)
    && MembersMention(sets, conflicts, done, members)
    && MentionsFounded(was.conflicts, conflicts, done, members)
  }

  lemma EvictingFollows(was: Snapshot, sets: ConflictSets, conflicts: Conflicts, gone: set<OutputID>,
                        done: set<OutputID>,
                        members: Members, id: OutputID)
    requires Follows(was, sets, conflicts, gone, done, members)
    ensures Follows(was, sets - {id}, Cleaned(conflicts, id), gone + {id}, done, members)
  {
    EvictedIsForgotten(conflicts, id);
    var rest := Cleaned(conflicts, id);
    assert MentionsKept(was.conflicts, rest, gone + {id});
    assert MembersMention(sets - {id}, rest, done, members);
    assert MentionsFounded(was.conflicts, rest, done, members);
  }

  lemma AddingFollows(was: Snapshot, sets: ConflictSets, conflicts: Conflicts, gone: set<OutputID>,
                      done: set<OutputID>, members: Members, c: ConflictSet)
    requires Follows(was, sets, conflicts, gone, done, members) && c.id !in done
    ensures c.id !in sets ==> HalfFollows(was, sets[c.id := c], conflicts, gone, done, members, c.id)
    ensures c.id in sets ==> HalfFollows(was, sets, conflicts, gone, done, members, c.id)
  {
  }

  lemma StepFollows(was: Snapshot, a: Snapshot, b: Snapshot, id: OutputID, time: Time, max: nat, gone: set<OutputID>,
                    done: set<OutputID>, members: Members)
    requires Follows(was, a.sets, a.conflicts, gone, done, members) && id !in done && AddsTo(a, id, time, max, b)
    ensures HalfFollows(was, b.sets, b.conflicts, gone + (a.sets.Keys - b.sets.Keys), done, members, id)
    ensures Adds(a.sets, id, time, max, b.sets)
  {
    var c := NewSet(id, time);
    if id in a.sets || |a.sets| < max {
      AddingFollows(was, a.sets, a.conflicts, gone, done, members, c);
      assert gone + (a.sets.Keys - b.sets.Keys) == gone;
    } else {
      var e :| Replaced(e, c, a, b);
      EvictingFollows(was, a.sets, a.conflicts, gone, done, members, e);
      AddingFollows(was, a.sets - {e}, b.conflicts, gone + {e}, done, members, c);
      assert a.sets.Keys - b.sets.Keys == {e};
    }
  }

  /** The conflicts among `members` mention the set in addition, and nothing else is mentioned. */
  ghost predicate Mentioned(before: Conflicts, after: Conflicts, members: set<ConflictID>, id: OutputID) {
    && after.Keys == before.Keys
    && forall k :: k in after ==> after[k].conflictSetIDs == before[k].conflictSetIDs + if k in members then {id} else {}
  }

  /** The members of the sets that are `done`. */
  ghost function MembersOf(done: set<OutputID>, members: Members): set<ConflictID> {
    set s, k | s in done && s in members && k in members[s] :: k
  }

  /** Every conflict that is still stored is in the state it was in, and only those that are touched are updated. */
  ghost predicate Touched(before: Conflicts, after: Conflicts, touched: set<ConflictID>, now: Time) {
    forall k :: k in after ==> k in before && IsTouched(before[k], after[k], k in touched, now)
  }

  ghost predicate IsTouched(before: Conflict, after: Conflict, touched: bool, now: Time) {
    after.id == before.id && after.state == before.state && after.updatedTime == if touched then now else before.updatedTime
  }

  lemma AddingTouchesNone(a: Snapshot, b: Snapshot, id: OutputID, time: Time, max: nat, now: Time)
    requires AddsTo(a, id, time, max, b)
    ensures Touched(a.conflicts, b.conflicts, {}, now)
  {
    if id !in a.sets && |a.sets| >= max {
      var e :| Replaced(e, NewSet(id, time), a, b);
      assert b.conflicts == Cleaned(a.conflicts, e);
    }
  }

  lemma TouchedInTurn(a: Conflicts, b: Conflicts, c: Conflicts, first: set<ConflictID>, second: set<ConflictID>, now: Time)
    requires Touched(a, b, first, now) && Touched(b, c, second, now)
    ensures Touched(a, c, first + second, now)
  {
    forall k | k in c ensures k in a && IsTouched(a[k], c[k], k in first + second, now) {
      assert IsTouched(b[k], c[k], k in second, now) && IsTouched(a[k], b[k], k in first, now);
    }
  }

  /** Adding a set touches its members only. */
  lemma StepTouches(was: Conflicts, a: Snapshot, b: Snapshot, conflicts: Conflicts, id: OutputID, ms: set<ConflictID>,
                    time: Time, max: nat, done: set<OutputID>, members: Members, now: Time)
    requires Touched(was, a.conflicts, MembersOf(done, members), now) && AddsTo(a, id, time, max, b)
    requires Touched(b.conflicts, conflicts, ms, now) && forall k :: k in ms <==> IsMember(members, id, k)
    ensures Touched(was, conflicts, MembersOf(done + {id}, members), now)
  {
    AddingTouchesNone(a, b, id, time, max, now);
    TouchedInTurn(a.conflicts, b.conflicts, conflicts, {}, ms, now);
    assert {} + ms == ms;
    TouchedInTurn(was, a.conflicts, conflicts, MembersOf(done, members), ms, now);
    assert MembersOf(done, members) + ms == MembersOf(done + {id}, members);
  }

  lemma MentioningFollows(was: Snapshot, sets: ConflictSets, before: Conflicts, conflicts: Conflicts,
                          gone: set<OutputID>, done: set<OutputID>, members: Members, id: OutputID, ms: set<ConflictID>)
    requires HalfFollows(was, sets, before, gone, done, members, id)
    requires Mentioned(before, conflicts, ms, id) && forall k :: k in ms <==> IsMember(members, id, k)
    ensures Follows(was, sets, conflicts, gone, done + {id}, members)
  {
  }

  lemma OneMoreFollows(was: Snapshot, a: Snapshot, b: Snapshot, conflicts: Conflicts, id: OutputID, ms: set<ConflictID>,
                       time: Time, max: nat, gone: set<OutputID>, done: set<OutputID>, members: Members)
    requires Follows(was, a.sets, a.conflicts, gone, done, members) && id !in done && AddsTo(a, id, time, max, b)
    requires Mentioned(b.conflicts, conflicts, ms, id) && forall k :: k in ms <==> IsMember(members, id, k)
    ensures Follows(was, b.sets, conflicts, gone + (a.sets.Keys - b.sets.Keys), done + {id}, members)
    ensures Adds(a.sets, id, time, max, b.sets)
    ensures Grounded(a.sets, a.conflicts) ==> Grounded(b.sets, conflicts)
  {
    StepFollows(was, a, b, id, time, max, gone, done, members);
    MentioningFollows(was, b.sets, b.conflicts, conflicts, gone + (a.sets.Keys - b.sets.Keys), done, members, id, ms);
    StepGrounded(a, b, id, time, max);
    MentioningGrounded(b, conflicts, id, ms);
  }

  lemma MentioningGrounded(b: Snapshot, conflicts: Conflicts, id: OutputID, ms: set<ConflictID>)
    requires Mentioned(b.conflicts, conflicts, ms, id) && id in b.sets
    ensures Grounded(b.sets, b.conflicts) ==> Grounded(b.sets, conflicts)
  {
  }

  lemma SameElements(sets: ConflictSets, id: OutputID, c: ConflictSet)
    requires id in sets && c.id == id && c.arrivalTime == sets[id].arrivalTime
    ensures Elements(sets[id := c]) == Elements(sets) && |sets[id := c]| == |sets|
  {
    var changed := sets[id := c];
    assert changed.Keys == sets.Keys;
    assert |changed| == |changed.Keys| && |sets| == |sets.Keys|;
    forall e ensures e in Elements(changed) <==> e in Elements(sets) {
      if e in Elements(sets) { assert e.conflictID in changed; }
      if e in Elements(changed) { assert e.conflictID in sets; }
    }
  }

  ghost predicate NonDecreasing(from: int, clock: seq<Time>) {
    && (clock != [] ==> from <= clock[0])
    && forall i, j :: 0 <= i < j < |clock| ==> clock[i] <= clock[j]
  }

  ghost function End(from: int, clock: seq<Time>): int {
    if clock == [] then from else clock[|clock| - 1]
  }

  /** After an eviction nothing mentions the evicted set, nothing mentions no set, and no other mention is lost. */
  lemma EvictedIsForgotten(conflicts: Conflicts, evicted: OutputID)
    ensures var rest := Cleaned(conflicts, evicted);
      && (forall k :: k in rest ==> evicted !in rest[k].conflictSetIDs && rest[k].conflictSetIDs != {})
      && (forall k, s :: k in conflicts && s in conflicts[k].conflictSetIDs && s != evicted ==>
            k in rest && s in rest[k].conflictSetIDs)
      && (forall k, s :: k in rest && s in rest[k].conflictSetIDs ==> s in conflicts[k].conflictSetIDs)
  {
    var rest := Cleaned(conflicts, evicted);
    forall k, s | k in conflicts && s in conflicts[k].conflictSetIDs && s != evicted
      ensures k in rest && s in rest[k].conflictSetIDs
    {
      assert s in conflicts[k].conflictSetIDs - {evicted};
    }
  }

  // ---- Steps of a run ---------------------------------------------------------------------------------------

  function NewSet(id: OutputID, time: Time): ConflictSet {
    ConflictSet(id, time, false, 0, time)
  }

  ghost predicate IsOldest(sets: ConflictSets, id: OutputID) {
    id in sets && forall k :: k in sets ==> sets[id].arrivalTime <= sets[k].arrivalTime
  }

  /** One of the oldest sets has made way for `c`, and all mention of it is gone. */
  ghost predicate Replaced(e: OutputID, c: ConflictSet, was: Snapshot, now: Snapshot) {
    IsOldest(was.sets, e) && now == Snapshot((was.sets - {e})[c.id := c], Cleaned(was.conflicts, e))
  }

  ghost predicate AddsNew(was: Snapshot, c: ConflictSet, max: nat, now: Snapshot) {
    if |was.sets| < max then now == Snapshot(was.sets[c.id := c], was.conflicts)
    else exists e :: Replaced(e, c, was, now)
  }

  ghost predicate AddsTo(was: Snapshot, id: OutputID, time: Time, max: nat, now: Snapshot) {
    if id in was.sets then now == was else AddsNew(was, NewSet(id, time), max, now)
  }

  /** What that does to the sets. */
  ghost predicate Adds(sets: ConflictSets, id: OutputID, time: Time, max: nat, next: ConflictSets) {
    if id in sets then next == sets
    else if |sets| < max then next == sets[id := NewSet(id, time)]
    else exists e :: IsOldest(sets, e) && next == (sets - {e})[id := NewSet(id, time)]
  }

  /** `states` holds the sets at the start and after each addition. */
  ghost predicate IsRun(states: seq<ConflictSets>, ids: seq<OutputID>, clock: seq<Time>, max: nat) {
    && |states| == |ids| + 1 && |clock| == |ids|
    && forall i :: 0 <= i < |ids| ==> Adds(states[i], ids[i], clock[i], max, states[i + 1])
  }

  ghost predicate IsRunTo(states: seq<ConflictSets>, ids: seq<OutputID>, clock: seq<Time>, max: nat,
                          first: ConflictSets, last: ConflictSets)
  {
    IsRun(states, ids, clock, max) && states[0] == first && states[|ids|] == last
  }

  /** What is evicted in the course of a run. */
  ghost function Dropped(states: seq<ConflictSets>): set<OutputID> {
    if |states| <= 1 then {}
    else Dropped(states[..|states| - 1]) + (states[|states| - 2].Keys - states[|states| - 1].Keys)
  }

  /** The same with the times at which they had arrived. */
  ghost function Evictions(states: seq<ConflictSets>): set<HeapElement> {
    if |states| <= 1 then {}
    else Evictions(states[..|states| - 1]) + Lost(states[|states| - 2], states[|states| - 1])
  }

  lemma RunGoesOn(states: seq<ConflictSets>, ids: seq<OutputID>, clock: seq<Time>, max: nat, i: nat,
                  first: ConflictSets, last: ConflictSets, next: ConflictSets)
    requires i < |ids| == |clock| && IsRunTo(states, ids[..i], clock[..i], max, first, last)
    requires Adds(last, ids[i], clock[i], max, next)
    ensures IsRunTo(states + [next], ids[..i + 1], clock[..i + 1], max, first, next)
    ensures Dropped(states + [next]) == Dropped(states) + (last.Keys - next.Keys)
    ensures Evictions(states + [next]) == Evictions(states) + Lost(last, next)
  {
    assert (states + [next])[..|states|] == states;
    forall j | 0 <= j < i + 1
      ensures Adds((states + [next])[j], ids[..i + 1][j], clock[..i + 1][j], max, (states + [next])[j + 1])
    {
      if j < i {
        assert Adds(states[j], ids[..i][j], clock[..i][j], max, states[j + 1]);
      }
    }
  }

  // ---- Mentions of sets that are not stored -----------------------------------------------------------------

  /** Every set that is mentioned is stored. */
  ghost predicate Grounded(sets: ConflictSets, conflicts: Conflicts) {
    forall k, s :: k in conflicts && s in conflicts[k].conflictSetIDs ==> s in sets
  }

  ghost predicate AllStored(ids: seq<OutputID>, sets: ConflictSets) {
    forall s :: s in ids ==> s in sets
  }

  lemma StepGrounded(a: Snapshot, b: Snapshot, id: OutputID, time: Time, max: nat)
    requires AddsTo(a, id, time, max, b)
    ensures id in b.sets && (Grounded(a.sets, a.conflicts) ==> Grounded(b.sets, b.conflicts))
  {
    if id !in a.sets && |a.sets| >= max {
      var e :| Replaced(e, NewSet(id, time), a, b);
      EvictedIsForgotten(a.conflicts, e);
    }
  }

  lemma NewMentions(sets: ConflictSets, others: Conflicts, id: ConflictID, ids: seq<OutputID>, now: Time)
    requires Grounded(sets, others)
    ensures Grounded(sets, others[id := Conflict(id, IDs(ids), Undecided, now)]) <==> AllStored(ids, sets)
  {
    var conflicts := others[id := Conflict(id, IDs(ids), Undecided, now)];
    if Grounded(sets, conflicts) {
      forall s | s in ids ensures s in sets {
        assert s in conflicts[id].conflictSetIDs;
      }
    }
  }
}
