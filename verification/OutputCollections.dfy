/** Grouping, filtering, totalling and chunking of outputs (client/wallet/output.go). */
module OutputCollections {
  import opened Ledger
  import opened Sums

  const MAX_INPUT_COUNT: nat := 127

  /** `sub` holds some of the entries of `o`, unchanged and filed where they were. */
  ghost predicate PartOf(sub: Outputs, o: Outputs) {
    forall r :: r in sub ==> r in o && sub[r] == o[r]
  }

  // ---- Grouping ---------------------------------------------------------------------------------------------

  ghost predicate IsGrouping(byID: map<OutputID, Output>, o: Outputs) {
    && (forall id :: id in byID ==> Ref(byID[id].address, id) in o)
    && (forall r :: r in o ==> r.id in byID && r.addr == byID[r.id].address && o[r] == byID[r.id])
  }

  /** Every identifier is kept, with one of the outputs filed under it. */
  ghost predicate IsFlattening(o: Outputs, byID: map<OutputID, Output>) {
    && (forall r :: r in o ==> r.id in byID)
    && (forall id :: id in byID ==> exists a :: Ref(a, id) in o && o[Ref(a, id)] == byID[id])
  }

  method OutputsByAddressAndOutputID(byID: map<OutputID, Output>) returns (o: Outputs)
    ensures IsGrouping(byID, o)
  {
    o := map[];
    var left := byID.Keys;
    while left != {}
      invariant forall id :: id in left ==> id in byID
      invariant forall id :: id in byID && id !in left ==> Ref(byID[id].address, id) in o
      invariant forall r :: r in o ==> r.id in byID && r.addr == byID[r.id].address && o[r] == byID[r.id]
      decreases left
    {
      var id :| id in left;
      o := o[Ref(byID[id].address, id) := byID[id]];
      left := left - {id};
    }
  }

  method OutputsByID(o: Outputs) returns (byID: map<OutputID, Output>)
    ensures IsFlattening(o, byID)
  {
    byID := map[];
    var left := o.Keys;
    while left != {}
      invariant forall r :: r in left ==> r in o
      invariant forall r :: r in o && r !in left ==> r.id in byID
      invariant forall id :: id in byID ==> exists a :: Ref(a, id) in o && o[Ref(a, id)] == byID[id]
      decreases left
    {
      var r :| r in left;
      assert r == Ref(r.addr, r.id);
      byID := byID[r.id := o[r]];
      left := left - {r};
    }
  }

  /** Flattening undoes grouping. */
  lemma FlattenGroup(byID: map<OutputID, Output>, o: Outputs, back: map<OutputID, Output>)
    requires IsGrouping(byID, o) && IsFlattening(o, back)
    ensures back == byID
  {
    forall id | id in byID ensures id in back {
      assert Ref(byID[id].address, id) in o;
    }
  }

  /** No identifier is filed under two addresses, and every output is filed under its own. */
  ghost predicate FiledAtHome(o: Outputs) {
    && (forall r :: r in o ==> o[r].address == r.addr)
    && (forall q, r :: q in o && r in o && q.id == r.id ==> q.addr == r.addr)
  }

  /** Grouping undoes flattening exactly when every output is filed at home. */
  lemma GroupFlatten(o: Outputs, byID: map<OutputID, Output>, back: Outputs)
    requires IsFlattening(o, byID) && IsGrouping(byID, back)
    ensures back == o <==> FiledAtHome(o)
  {
    if FiledAtHome(o) {
      forall r | r in o ensures r in back && back[r] == o[r] {
        var a :| Ref(a, r.id) in o && o[Ref(a, r.id)] == byID[r.id];
        assert Ref(byID[r.id].address, r.id) in back;
      }
      forall r | r in back ensures r in o {
        var a :| Ref(a, r.id) in o && o[Ref(a, r.id)] == byID[r.id];
      }
    }
  }

  // ---- Filtering and totals ---------------------------------------------------------------------------------

  method ValueOutputsOnly(o: Outputs) returns (result: Outputs)
    ensures PartOf(result, o)
    ensures forall r :: r in o ==> (r in result <==> !o[r].kind.Alias?)
  {
    result := map[];
    var left := o.Keys;
    while left != {}
      invariant forall r :: r in left ==> r in o
      invariant PartOf(result, o)
      invariant forall r :: r in o ==> (r in result <==> r !in left && !o[r].kind.Alias?)
      decreases left
    {
      var r :| r in left;
      if !o[r].kind.Alias? {
        result := result[r := o[r]];
      }
      left := left - {r};
    }
  }

  method TotalFundsInOutputs(o: Outputs) returns (funds: Balances)
    ensures forall c :: Get(funds, c) == Total(o, c)
    ensures forall c :: c in funds <==> exists r :: r in o && c in o[r].kind.Funds()
  {
    funds := map[];
    var left := o.Keys;
    ghost var done: set<Ref> := {};
    while left != {}
      invariant forall r :: r in o <==> r in left || r in done
      invariant left !! done
      invariant forall c :: Get(funds, c) == Sum(done, FundsAt(o, c))
      invariant forall c :: c in funds <==> exists r :: r in done && c in o[r].kind.Funds()
      decreases left
    {
      var r :| r in left;
      funds := AddBalances(funds, o[r].kind.Funds());
      forall c ensures Sum(done + {r}, FundsAt(o, c)) == Sum(done, FundsAt(o, c)) + FundsAt(o, c)(r) {
        SumAdd(done, r, FundsAt(o, c));
      }
      left := left - {r};
      done := done + {r};
    }
    assert done == o.Keys;
  }

  method OutputCount(o: Outputs) returns (n: nat)
    ensures n == |o|
  {
    n := 0;
    var left := o.Keys;
    while left != {}
      invariant n + |left| == |o|
      decreases left
    {
      var r :| r in left;
      left := left - {r};
      n := n + 1;
    }
  }

  // ---- Chunks -----------------------------------------------------------------------------------------------

  /** The chunks partition the entries named by `owner`, which says of each in which chunk it is. */
  ghost predicate Partition(chunks: seq<Outputs>, owner: map<Ref, nat>) {
    && (forall r :: r in owner ==> owner[r] < |chunks|)
    && (forall i, r :: 0 <= i < |chunks| ==> (r in chunks[i] <==> r in owner && owner[r] == i))
  }

  ghost predicate PartsOf(chunks: seq<Outputs>, o: Outputs) {
    forall i :: 0 <= i < |chunks| ==> PartOf(chunks[i], o)
  }

  /** How many of `n` outputs, dealt out in order, end up in chunk `i`. */
  function ChunkSize(n: nat, i: nat): nat {
    if n <= MAX_INPUT_COUNT * i then 0
    else if n <= MAX_INPUT_COUNT * (i + 1) then n - MAX_INPUT_COUNT * i
    else MAX_INPUT_COUNT
  }

  ghost predicate Sizes(chunks: seq<Outputs>, n: nat) {
    forall i :: 0 <= i < |chunks| ==> |chunks[i]| == ChunkSize(n, i)
  }

  /** The chunks partition the outputs, `MAX_INPUT_COUNT` of them to a chunk until they run out. */
  method SplitIntoChunksOfMaxInputCount(o: Outputs) returns (chunks: seq<Outputs>, ghost owner: map<Ref, nat>)
    ensures Partition(chunks, owner) && owner.Keys == o.Keys && PartsOf(chunks, o)
    ensures if |o| <= MAX_INPUT_COUNT then chunks == [o]
      else |chunks| == |o| / MAX_INPUT_COUNT + 1 && Sizes(chunks, |o|)
  {
    var outputCount := OutputCount(o);
    if outputCount <= MAX_INPUT_COUNT {
      chunks := [o];
      owner := map r | r in o :: 0;
      return;
    }
    chunks, owner := DealOut(o, outputCount / MAX_INPUT_COUNT + 1);
  }

  /** Goes on to the next chunk whenever one is full. */
  method DealOut(o: Outputs, count: nat) returns (chunks: seq<Outputs>, ghost owner: map<Ref, nat>)
    requires |o| < MAX_INPUT_COUNT * count
    ensures |chunks| == count && Partition(chunks, owner) && owner.Keys == o.Keys && PartsOf(chunks, o) && Sizes(chunks, |o|)
  {
    chunks := seq(count, _ => map[]);
    owner := map[];
    var left := o.Keys;
    var processedCount: nat := 0;
    var chunkCount: int := -1;
    while left != {}
      invariant |chunks| == count && processedCount + |left| == |o|
      invariant Current(processedCount, chunkCount) && Dealing(chunks, o, owner, left, processedCount)
      decreases left
    {
      var r :| r in left;
      NextChunk(processedCount, chunkCount, |o|, count);
      if processedCount % MAX_INPUT_COUNT == 0 {
        chunkCount := chunkCount + 1;
      }
      DealOne(chunks, o, owner, left, processedCount, chunkCount, r);
      chunks := chunks[chunkCount := chunks[chunkCount][r := o[r]]];
      owner := owner[r := chunkCount];
      left := left - {r};
      processedCount := processedCount + 1;
    }
    assert owner.Keys == o.Keys;
  }

  /** Chunk `k` is the one that the last of `n` outputs went to. */
  predicate Current(n: nat, k: int) {
    MAX_INPUT_COUNT * k < n <= MAX_INPUT_COUNT * (k + 1)
  }

  lemma NextChunk(n: nat, k: int, total: nat, count: nat)
    requires Current(n, k) && n < total < MAX_INPUT_COUNT * count
    ensures var next := if n % MAX_INPUT_COUNT == 0 then k + 1 else k;
      0 <= next < count && Current(n + 1, next)
  {
  }

  /** The first `n` outputs are dealt out, and those `left` are not. */
  ghost predicate Dealing(chunks: seq<Outputs>, o: Outputs, owner: map<Ref, nat>, left: set<Ref>, n: nat) {
    && (forall r :: r in o <==> r in left || r in owner)
    && (forall r :: r in left ==> r !in owner)
    && Partition(chunks, owner) && PartsOf(chunks, o) && Sizes(chunks, n)
  }

  lemma DealOne(chunks: seq<Outputs>, o: Outputs, owner: map<Ref, nat>, left: set<Ref>, n: nat, k: nat, r: Ref)
    requires Dealing(chunks, o, owner, left, n) && r in left
    requires k < |chunks| && Current(n + 1, k)
    ensures r in o && Dealing(chunks[k := chunks[k][r := o[r]]], o, owner[r := k], left - {r}, n + 1)
  {
    forall i | 0 <= i < |chunks|
      ensures ChunkSize(n + 1, i) == ChunkSize(n, i) + if i == k then 1 else 0
    {
      DealtSize(n, k, i);
    }
  }

  lemma DealtSize(n: nat, k: nat, i: nat)
    requires Current(n + 1, k)
    ensures ChunkSize(n + 1, i) == ChunkSize(n, i) + if i == k then 1 else 0
  {
  }

  /** Above the maximum, every chunk but the last is full and the last holds the remainder, possibly nothing. */
  lemma FinalSizes(chunks: seq<Outputs>, n: nat)
    requires MAX_INPUT_COUNT < n && |chunks| == n / MAX_INPUT_COUNT + 1 && Sizes(chunks, n)
    ensures forall i :: 0 <= i < |chunks| - 1 ==> |chunks[i]| == MAX_INPUT_COUNT
    ensures |chunks[|chunks| - 1]| == n % MAX_INPUT_COUNT
  {
    var q := n / MAX_INPUT_COUNT;
    assert n == MAX_INPUT_COUNT * q + n % MAX_INPUT_COUNT;
    forall i | 0 <= i < q ensures ChunkSize(n, i) == MAX_INPUT_COUNT {
      assert MAX_INPUT_COUNT * (i + 1) <= MAX_INPUT_COUNT * q;
    }
  }

  ghost function SumTotals(chunks: seq<Outputs>, c: Color): nat {
    if chunks == [] then 0 else SumTotals(chunks[..|chunks| - 1], c) + Total(chunks[|chunks| - 1], c)
  }

  /** Nothing is gained or lost by chunking: per colour, the chunks' totals add up to the total of the whole. */
  lemma {:induction false} ChunksKeepTotals(chunks: seq<Outputs>, o: Outputs, owner: map<Ref, nat>, c: Color)
    requires Partition(chunks, owner) && PartsOf(chunks, o)
    ensures SumTotals(chunks, c) == Sum(owner.Keys, FundsAt(o, c))
  {
    if chunks == [] {
      assert owner.Keys == {};
    } else {
      var n := |chunks| - 1;
      var front := map r | r in owner && owner[r] < n :: owner[r];
      assert Partition(chunks[..n], front);
      ChunksKeepTotals(chunks[..n], o, front, c);
      PartTotal(chunks[n], o, c);
      SumUnion(front.Keys, chunks[n].Keys, FundsAt(o, c));
      assert front.Keys + chunks[n].Keys == owner.Keys;
    }
  }

  lemma PartTotal(part: Outputs, o: Outputs, c: Color)
    requires PartOf(part, o)
    ensures Total(part, c) == Sum(part.Keys, FundsAt(o, c))
  {
    SumCong(part.Keys, FundsAt(part, c), FundsAt(o, c));
  }
}
