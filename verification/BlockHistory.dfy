/** The history of blocks shown by the visualizer (plugins/dashboard/visualizer.go, addToHistory). */
module BlockHistory {

  const MAX_BLK_HISTORY_SIZE: nat := 1000
  const NUM_HISTORY_TO_REMOVE: nat := 100

  datatype BlockID = BlockID(base58: nat)

  datatype Block = Block(id: BlockID, content: nat)

  /** A block as it is shown, with its flag. */
  datatype Entry = Entry(block: Block, finalized: bool)

  ghost predicate DistinctIDs(shown: seq<Entry>) {
    forall i, j :: 0 <= i < j < |shown| ==> shown[i].block.id != shown[j].block.id
  }

  ghost predicate Known(shown: seq<Entry>, id: BlockID) {
    exists i :: 0 <= i < |shown| && shown[i].block.id == id
  }

  /** The entries stand in `history` in their order, and `flags` has exactly their IDs and their flags. */
  ghost predicate Matches(shown: seq<Entry>, history: seq<Block>, flags: map<BlockID, bool>) {
    && |shown| <= |history|
    && DistinctIDs(shown)
    && (forall i :: 0 <= i < |shown| ==>
      (shown[i].block == history[i] && history[i].id in flags && flags[history[i].id] == shown[i].finalized))
    && (forall id :: id in flags ==> Known(shown, id))
  }

  /** Sets the flag of the block with the given ID and leaves everything else as it is. */
  ghost function Flagged(shown: seq<Entry>, id: BlockID, finalized: bool): (after: seq<Entry>)
    ensures |after| == |shown|
    ensures forall i :: 0 <= i < |shown| ==>
      after[i] == Entry(shown[i].block, if shown[i].block.id == id then finalized else shown[i].finalized)
  {
    if shown == [] then []
    else
      Flagged(shown[..|shown| - 1], id, finalized) +
      [var last := shown[|shown| - 1]; Entry(last.block, if last.block.id == id then finalized else last.finalized)]
  }

  /** When the history is full the oldest entries make way. */
  ghost function WithRoom(shown: seq<Entry>): seq<Entry> {
    if |shown| < MAX_BLK_HISTORY_SIZE then shown else shown[NUM_HISTORY_TO_REMOVE..]
  }

  /** What is shown after a block was added: a known block only gets the new flag, a new one goes to the end. */
  ghost function Added(shown: seq<Entry>, blk: Block, finalized: bool): seq<Entry> {
    if Known(shown, blk.id) then Flagged(shown, blk.id, finalized) else WithRoom(shown) + [Entry(blk, finalized)]
  }

  class History {
    const blkHistory: array<Block>
    var length: nat
    var blkFinalized: map<BlockID, bool>
    ghost var shown: seq<Entry>

    ghost predicate Valid()
      reads this, blkHistory
    {
      && blkHistory.Length == MAX_BLK_HISTORY_SIZE && length == |shown|
      && Matches(shown, blkHistory[..], blkFinalized)
    }

    constructor ()
      ensures Valid() && shown == [] && fresh(blkHistory)
    {
      blkHistory := new Block[MAX_BLK_HISTORY_SIZE];
      length, blkFinalized, shown := 0, map[], [];
    }

    /** Drops the flags of the oldest blocks. */
    method ForgetOldest()
      requires Valid() && length == MAX_BLK_HISTORY_SIZE
      modifies `blkFinalized
      ensures forall id :: id in blkFinalized <==> (id in old(blkFinalized) && !Known(shown[..NUM_HISTORY_TO_REMOVE], id))
      ensures forall id :: id in blkFinalized ==> blkFinalized[id] == old(blkFinalized)[id]
    {
      for i := 0 to NUM_HISTORY_TO_REMOVE
        invariant forall id :: id in blkFinalized <==> (id in old(blkFinalized) && !Known(shown[..i], id))
        invariant forall id :: id in blkFinalized ==> blkFinalized[id] == old(blkFinalized)[id]
      {
        KnownStep(shown, i);
        blkFinalized := blkFinalized - {blkHistory[i].id};
      }
    }

    /** Moves the other blocks to the front, in their order. */
    method MoveToFront()
      requires blkHistory.Length == MAX_BLK_HISTORY_SIZE
      modifies blkHistory
      ensures blkHistory[..MAX_BLK_HISTORY_SIZE - NUM_HISTORY_TO_REMOVE] == old(blkHistory[NUM_HISTORY_TO_REMOVE..])
    {
      for i := 0 to MAX_BLK_HISTORY_SIZE - NUM_HISTORY_TO_REMOVE
        invariant forall k :: 0 <= k < i ==> blkHistory[k] == old(blkHistory[k + NUM_HISTORY_TO_REMOVE])
        invariant forall k :: i <= k < MAX_BLK_HISTORY_SIZE ==> blkHistory[k] == old(blkHistory[k])
      {
        blkHistory[i] := blkHistory[i + NUM_HISTORY_TO_REMOVE];
      }
    }

    /** Removes the oldest blocks if the history is full. */
    method MakeRoom()
      requires Valid()
      modifies this, blkHistory
      ensures Valid() && shown == WithRoom(old(shown)) && length < MAX_BLK_HISTORY_SIZE
      ensures forall id :: id in blkFinalized ==> id in old(blkFinalized)
    {
      if length >= MAX_BLK_HISTORY_SIZE {
        ghost var history, flags := blkHistory[..], blkFinalized;
        ForgetOldest();
        MoveToFront();
        length := MAX_BLK_HISTORY_SIZE - NUM_HISTORY_TO_REMOVE;
        DroppedMatches(shown, history, flags, blkHistory[..], blkFinalized);
        shown := shown[NUM_HISTORY_TO_REMOVE..];
      }
    }

    method Append(blk: Block, finalized: bool)
      requires Valid() && length < MAX_BLK_HISTORY_SIZE && blk.id !in blkFinalized
      modifies this, blkHistory
      ensures Valid() && shown == old(shown) + [Entry(blk, finalized)]
    {
      AppendedMatches(shown, blkHistory[..], blkFinalized, blk, finalized);
      ghost var history := blkHistory[..];
      blkHistory[length] := blk;
      assert blkHistory[..] == history[length := blk];
      length := length + 1;
      blkFinalized := blkFinalized[blk.id := finalized];
      shown := shown + [Entry(blk, finalized)];
    }

    method AddToHistory(blk: Block, finalized: bool)
      requires Valid()
      modifies this, blkHistory
      ensures Valid() && shown == Added(old(shown), blk, finalized)
    {
      KeysAreKnown(shown, blkHistory[..], blkFinalized, blk.id);
      if blk.id in blkFinalized {
        FlaggedMatches(shown, blkHistory[..], blkFinalized, blk.id, finalized);
        blkFinalized := blkFinalized[blk.id := finalized];
        shown := Flagged(shown, blk.id, finalized);
        return;
      }
      MakeRoom();
      Append(blk, finalized);
    }
  }

  lemma KnownStep(shown: seq<Entry>, i: nat)
    requires i < |shown|
    ensures forall id :: Known(shown[..i + 1], id) <==> Known(shown[..i], id) || id == shown[i].block.id
  {
    forall id ensures Known(shown[..i + 1], id) <==> Known(shown[..i], id) || id == shown[i].block.id {
      assert shown[..i + 1][i] == shown[i];
      assert forall k :: 0 <= k < i ==> shown[..i + 1][k] == shown[..i][k];
    }
  }

  /** The code looks a block up among the flags. */
  lemma KeysAreKnown(shown: seq<Entry>, history: seq<Block>, flags: map<BlockID, bool>, id: BlockID)
    requires Matches(shown, history, flags)
    ensures id in flags <==> Known(shown, id)
  {
    if Known(shown, id) {
      var i :| 0 <= i < |shown| && shown[i].block.id == id;
      assert history[i].id in flags;
    }
  }

  lemma FlaggedMatches(shown: seq<Entry>, history: seq<Block>, flags: map<BlockID, bool>, id: BlockID,
                       finalized: bool)
    requires Matches(shown, history, flags) && id in flags
    ensures Matches(Flagged(shown, id, finalized), history, flags[id := finalized])
  {
    var after := Flagged(shown, id, finalized);
    forall other | other in flags ensures Known(after, other) {
      var i :| 0 <= i < |shown| && shown[i].block.id == other;
      assert after[i].block.id == other;
    }
  }

  lemma DroppedMatches(shown: seq<Entry>, history: seq<Block>, flags: map<BlockID, bool>, history': seq<Block>,
                       flags': map<BlockID, bool>)
    requires Matches(shown, history, flags) && |shown| == |history| == |history'| == MAX_BLK_HISTORY_SIZE
    requires forall id :: id in flags' <==> (id in flags && !Known(shown[..NUM_HISTORY_TO_REMOVE], id))
    requires forall id :: id in flags' ==> flags'[id] == flags[id]
    requires history'[..MAX_BLK_HISTORY_SIZE - NUM_HISTORY_TO_REMOVE] == history[NUM_HISTORY_TO_REMOVE..]
    ensures Matches(shown[NUM_HISTORY_TO_REMOVE..], history', flags')
  {
    var kept := shown[NUM_HISTORY_TO_REMOVE..];
    forall i | 0 <= i < |kept|
      ensures kept[i].block == history'[i] && history'[i].id in flags' && flags'[history'[i].id] == kept[i].finalized
    {
      assert history'[i] == history'[..MAX_BLK_HISTORY_SIZE - NUM_HISTORY_TO_REMOVE][i] == history[i + NUM_HISTORY_TO_REMOVE];
    }
    forall id | id in flags' ensures Known(kept, id) {
      var i :| 0 <= i < |shown| && shown[i].block.id == id;
      assert forall k {:trigger shown[k]} :: 0 <= k < NUM_HISTORY_TO_REMOVE ==> shown[..NUM_HISTORY_TO_REMOVE][k] == shown[k];
      assert kept[i - NUM_HISTORY_TO_REMOVE].block.id == id;
    }
  }

  lemma AppendedMatches(shown: seq<Entry>, history: seq<Block>, flags: map<BlockID, bool>, blk: Block,
                        finalized: bool)
    requires Matches(shown, history, flags) && |shown| < |history| && blk.id !in flags
    ensures Matches(shown + [Entry(blk, finalized)], history[|shown| := blk], flags[blk.id := finalized])
  {
    var after := shown + [Entry(blk, finalized)];
    forall id | id in flags || id == blk.id ensures Known(after, id) {
      if id == blk.id {
        assert after[|shown|].block.id == id;
      } else {
        var i :| 0 <= i < |shown| && shown[i].block.id == id;
        assert after[i].block.id == id;
      }
    }
  }

  // ----- whole runs -----

  datatype Add = Add(blk: Block, finalized: bool)

  ghost function Run(shown: seq<Entry>, adds: seq<Add>): seq<Entry> {
    if adds == [] then shown
    else var last := adds[|adds| - 1]; Added(Run(shown, adds[..|adds| - 1]), last.blk, last.finalized)
  }

  /** Every run of the program's calls does what Run says. */
  method Replay(adds: seq<Add>) returns (history: History)
    ensures fresh(history) && history.Valid() && history.shown == Run([], adds)
  {
    history := new History();
    for i := 0 to |adds|
      invariant fresh(history) && fresh(history.blkHistory) && history.Valid() && history.shown == Run([], adds[..i])
    {
      assert adds[..i + 1][..i] == adds[..i];
      history.AddToHistory(adds[i].blk, adds[i].finalized);
    }
    assert adds[..|adds|] == adds;
  }

  lemma AddedStaysDistinct(shown: seq<Entry>, blk: Block, finalized: bool)
    requires DistinctIDs(shown) && |shown| <= MAX_BLK_HISTORY_SIZE
    ensures DistinctIDs(Added(shown, blk, finalized)) && |Added(shown, blk, finalized)| <= MAX_BLK_HISTORY_SIZE
  {
    if !Known(shown, blk.id) {
      var kept := WithRoom(shown);
      var from := |shown| - |kept|;
      assert forall i :: 0 <= i < |kept| ==> kept[i] == shown[from + i];
    }
  }

  lemma {:induction false} RunIsBounded(shown: seq<Entry>, adds: seq<Add>)
    requires |shown| <= MAX_BLK_HISTORY_SIZE && DistinctIDs(shown)
    ensures |Run(shown, adds)| <= MAX_BLK_HISTORY_SIZE && DistinctIDs(Run(shown, adds))
  {
    if adds != [] {
      var last := adds[|adds| - 1];
      RunIsBounded(shown, adds[..|adds| - 1]);
      AddedStaysDistinct(Run(shown, adds[..|adds| - 1]), last.blk, last.finalized);
    }
  }

  /** The last call for this ID. */
  ghost predicate IsLatest(adds: seq<Add>, j: int, id: BlockID) {
    0 <= j < |adds| && adds[j].blk.id == id && forall k :: j < k < |adds| ==> adds[k].blk.id != id
  }

  /** The flag of a call that no later call for the same ID has overtaken. */
  ghost predicate HasLatestFlag(adds: seq<Add>, entry: Entry) {
    exists j :: IsLatest(adds, j, entry.block.id) && adds[j].finalized == entry.finalized
  }

  /** Every shown block was added, and has the flag that was last given for its ID. */
  lemma {:induction false} FlagsAreLatest(adds: seq<Add>)
    ensures forall i :: 0 <= i < |Run([], adds)| ==> HasLatestFlag(adds, Run([], adds)[i])
  {
    if adds != [] {
      var init, last := adds[..|adds| - 1], adds[|adds| - 1];
      var before, after := Run([], init), Run([], adds);
      FlagsAreLatest(init);
      forall i | 0 <= i < |after| ensures HasLatestFlag(adds, after[i]) {
        if after[i].block.id == last.blk.id {
          assert IsLatest(adds, |adds| - 1, after[i].block.id);
        } else {
          var from := if Known(before, last.blk.id) then i else i + |before| - |WithRoom(before)|;
          assert HasLatestFlag(init, before[from]) && before[from] == after[i];
          var j :| IsLatest(init, j, after[i].block.id) && init[j].finalized == after[i].finalized;
          assert IsLatest(adds, j, after[i].block.id);
        }
      }
    }
  }

  ghost predicate WasAdded(adds: seq<Add>, blk: Block) {
    exists j :: 0 <= j < |adds| && adds[j].blk == blk
  }

  /** Every shown block is, content and all, one that was added. */
  lemma {:induction false} ShownWasAdded(adds: seq<Add>)
    ensures forall i :: 0 <= i < |Run([], adds)| ==> WasAdded(adds, Run([], adds)[i].block)
  {
    if adds != [] {
      var init, last := adds[..|adds| - 1], adds[|adds| - 1];
      var before, after := Run([], init), Run([], adds);
      ShownWasAdded(init);
      forall i | 0 <= i < |after| ensures WasAdded(adds, after[i].block) {
        var from := if Known(before, last.blk.id) then i else i + |before| - |WithRoom(before)|;
        if from < |before| {
          assert after[i].block == before[from].block && WasAdded(init, before[from].block);
          var j :| 0 <= j < |init| && init[j].blk == before[from].block;
          assert adds[j].blk == after[i].block;
        } else {
          assert adds[|adds| - 1].blk == after[i].block;
        }
      }
    }
  }

  /** Of two blocks that an addition leaves in the history the older one stays in front. */
  lemma AddedKeepsOrder(shown: seq<Entry>, blk: Block, finalized: bool, i: nat, j: nat, i': nat, j': nat)
    requires DistinctIDs(shown) && |shown| <= MAX_BLK_HISTORY_SIZE && i < j < |shown|
    requires i' < |Added(shown, blk, finalized)| && Added(shown, blk, finalized)[i'].block == shown[i].block
    requires j' < |Added(shown, blk, finalized)| && Added(shown, blk, finalized)[j'].block == shown[j].block
    ensures j' - i' == j - i
  {
    var after := Added(shown, blk, finalized);
    AddedStaysDistinct(shown, blk, finalized);
    if Known(shown, blk.id) {
      assert after[i].block == shown[i].block && after[j].block == shown[j].block;
    } else {
      var from := |shown| - |WithRoom(shown)|;
      assert forall k :: 0 <= k < |after| - 1 ==> after[k] == shown[k + from];
      assert shown[i].block.id != blk.id && shown[j].block.id != blk.id;
    }
  }

  /** Where a block stands, counted from the end. */
  ghost predicate ShownBehind(shown: seq<Entry>, id: BlockID, newer: nat) {
    exists i :: 0 <= i < |shown| && shown[i].block.id == id && |shown| - 1 - i <= newer
  }

  lemma OneMoreBehind(shown: seq<Entry>, id: BlockID, newer: nat, blk: Block, finalized: bool)
    requires ShownBehind(shown, id, newer) && |shown| <= MAX_BLK_HISTORY_SIZE
    requires newer < MAX_BLK_HISTORY_SIZE - NUM_HISTORY_TO_REMOVE
    ensures ShownBehind(Added(shown, blk, finalized), id, newer + 1)
  {
    var i :| 0 <= i < |shown| && shown[i].block.id == id && |shown| - 1 - i <= newer;
    var after := Added(shown, blk, finalized);
    var i' := if Known(shown, blk.id) then i else i - (|shown| - |WithRoom(shown)|);
    assert after[i'].block.id == id;
  }

  lemma NewBlockComesLast(shown: seq<Entry>, blk: Block, finalized: bool)
    requires !Known(shown, blk.id)
    ensures ShownBehind(Added(shown, blk, finalized), blk.id, 0)
  {
    var after := Added(shown, blk, finalized);
    assert after[|after| - 1].block.id == blk.id;
  }

  /** A block that is new to the history stays in it for at least the next 900 calls. */
  lemma {:induction false} NewBlockStays(shown: seq<Entry>, added: Add, later: seq<Add>)
    requires DistinctIDs(shown) && |shown| <= MAX_BLK_HISTORY_SIZE
    requires !Known(shown, added.blk.id)
    requires |later| <= 900
    ensures ShownBehind(Run(Added(shown, added.blk, added.finalized), later), added.blk.id, |later|)
  {
    var start := Added(shown, added.blk, added.finalized);
    AddedStaysDistinct(shown, added.blk, added.finalized);
    if later == [] {
      NewBlockComesLast(shown, added.blk, added.finalized);
    } else {
      var init, last := later[..|later| - 1], later[|later| - 1];
      NewBlockStays(shown, added, init);
      RunIsBounded(start, init);
      OneMoreBehind(Run(start, init), added.blk.id, |init|, last.blk, last.finalized);
    }
  }
}
