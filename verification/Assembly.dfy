/** From chosen outputs to a checked transaction (client/wallet/wallet.go, SendFunds). */
module Assembly {
  import opened Ledger
  import opened Sums
  import opened OutputCollections
  import opened CoinSelection
  import opened Transactions
  import opened BalanceCheck
  import opened UnlockBlocks

  ghost predicate UniqueIDs(o: Outputs) {
    forall q, r :: q in o && r in o && q.id == r.id ==> q == r
  }

  /**
   * `NewInputs` lists every identifier once. (It also sorts them; the order plays no part in what follows.)
   * `refs` says where each input was found.
   */
  method BuildInputs(consumed: Outputs) returns (inputs: seq<OutputID>, ghost refs: seq<Ref>)
    ensures Distinct(inputs) && |refs| == |inputs| && Distinct(refs)
    ensures forall k :: 0 <= k < |refs| ==> refs[k] in consumed && refs[k].id == inputs[k]
    ensures forall r :: r in consumed ==> r.id in inputs
    ensures UniqueIDs(consumed) ==> forall r :: r in consumed ==> r in refs
  {
    inputs, refs := [], [];
    var left := consumed.Keys;
    while left != {}
      invariant forall r :: r in left ==> r in consumed
      invariant Distinct(inputs) && |refs| == |inputs| && Distinct(refs)
      invariant forall k :: 0 <= k < |refs| ==> refs[k] in consumed && refs[k] !in left && refs[k].id == inputs[k]
      invariant forall r :: r in consumed && r !in left ==> r.id in inputs
      invariant UniqueIDs(consumed) ==> forall r :: r in consumed && r !in left ==> r in refs
      decreases left
    {
      var r :| r in left;
      left := left - {r};
      if r.id !in inputs {
        AppendDistinct(refs, r);
        AppendDistinct(inputs, r.id);
        inputs := inputs + [r.id];
        refs := refs + [r];
      } else {
        var k :| 0 <= k < |inputs| && inputs[k] == r.id;
        assert UniqueIDs(consumed) ==> refs[k] == r;
      }
    }
  }

  /** No sum over what is consumed overflows: neither that of a colour nor that of IOTA and Mint. */
  ghost predicate CanBeCounted(consumed: Outputs) {
    (forall c :: Total(consumed, c) <= MAX_UINT64) && Total(consumed, IOTA) + Total(consumed, Mint) <= MAX_UINT64
  }

  /** The inputs of a transaction hold what is consumed, provided that no identifier is consumed twice. */
  lemma {:induction false} InputsHold(kinds: seq<LedgerOutput>, refs: seq<Ref>, consumed: Outputs, c: Color)
    requires |kinds| == |refs|
    requires forall k :: 0 <= k < |refs| ==> refs[k] in consumed && kinds[k] == consumed[refs[k]].kind
    ensures Out(kinds, c) == SeqSum(refs, FundsAt(consumed, c))
  {
    if kinds != [] {
      InputsHold(kinds[..|kinds| - 1], refs[..|refs| - 1], consumed, c);
    }
  }

  lemma InputsHoldTotal(kinds: seq<LedgerOutput>, refs: seq<Ref>, consumed: Outputs)
    requires |kinds| == |refs| && Distinct(refs)
    requires forall k :: 0 <= k < |refs| ==> refs[k] in consumed && kinds[k] == consumed[refs[k]].kind
    requires forall r :: r in consumed ==> r in refs
    ensures forall c :: Out(kinds, c) == Total(consumed, c)
  {
    assert (set r | r in refs) == consumed.Keys;
    forall c ensures Out(kinds, c) == Total(consumed, c) {
      InputsHold(kinds, refs, consumed, c);
      SumOfDistinct(refs, FundsAt(consumed, c));
    }
  }

  /** The input side of a transaction: what it spends and how that is unlocked. */
  datatype Spending = Spending(inputs: seq<OutputID>, kinds: seq<LedgerOutput>, unlocks: seq<UnlockBlock>)

  /** The k-th input refers to the consumed output at `r` and is unlocked by the signature of its owner. */
  ghost predicate Unlocked(s: Spending, consumed: Outputs, k: nat, r: Ref) {
    && k < |s.inputs| == |s.kinds| == |s.unlocks|
    && r in consumed && r.id == s.inputs[k] && s.kinds[k] == consumed[r].kind
    && Resolve(s.unlocks, k) == Some(Signature(consumed[r].address))
  }

  ghost predicate AllUnlocked(s: Spending, consumed: Outputs) {
    forall k :: 0 <= k < |s.inputs| ==> HasUnlock(s, consumed, k)
  }

  ghost predicate HasUnlock(s: Spending, consumed: Outputs, k: nat) {
    exists r :: Unlocked(s, consumed, k, r)
  }

  ghost predicate AllHold(consumed: Outputs) {
    forall r :: r in consumed ==> consumed[r].kind.Funds() != map[]
  }

  /** What is spent is what is consumed, colour by colour. */
  ghost predicate HoldsAll(kinds: seq<LedgerOutput>, consumed: Outputs) {
    forall c :: Out(kinds, c) == Total(consumed, c)
  }

  /** Inputs, what they spend and their unlock blocks agree position by position, and everything consumed is spent. */
  ghost predicate IsSpending(s: Spending, consumed: Outputs) {
    && |s.inputs| == |s.kinds| == |s.unlocks| <= |consumed| && Distinct(s.inputs)
    && (forall r :: r in consumed ==> r.id in s.inputs)
    && (|consumed| <= 0x1_0000 ==> AllUnlocked(s, consumed))
    && (UniqueIDs(consumed) ==> HoldsAll(s.kinds, consumed))
    && (consumed != map[] ==> s.kinds != [])
    && (AllHold(consumed) ==> AllFunded(s.kinds))
  }

  method BuildSpending(consumed: Outputs) returns (s: Spending)
    ensures IsSpending(s, consumed)
  {
    var inputs;
    ghost var refs;
    inputs, refs := BuildInputs(consumed);
    var outputsByID := OutputsByID(consumed);
    var unlocks, inputsInOrder := BuildUnlockBlocks(inputs, outputsByID);
    s := Spending(inputs, inputsInOrder, unlocks);
    SpendingIsRight(s, refs, outputsByID, consumed);
  }

  lemma SpendingIsRight(s: Spending, refs: seq<Ref>, byID: map<OutputID, Output>, consumed: Outputs)
    requires Distinct(s.inputs) && |refs| == |s.inputs| == |s.kinds| == |s.unlocks| && Distinct(refs)
    requires forall k :: 0 <= k < |refs| ==> refs[k] in consumed && refs[k].id == s.inputs[k]
    requires forall r :: r in consumed ==> r.id in s.inputs
    requires UniqueIDs(consumed) ==> forall r :: r in consumed ==> r in refs
    requires IsFlattening(consumed, byID)
    requires forall k :: 0 <= k < |s.inputs| ==> s.inputs[k] in byID && s.kinds[k] == byID[s.inputs[k]].kind
    requires SignedOnFirstUse(s.unlocks, OwnersOf(s.inputs, byID))
    ensures IsSpending(s, consumed)
  {
    FewerInputs(s.inputs, refs, consumed);
    KindsAreConsumed(s.inputs, s.kinds, byID, consumed);
    KindsHoldTotal(s.inputs, s.kinds, refs, byID, consumed);
    if |consumed| <= 0x1_0000 {
      SpendingIsUnlocked(s, byID, consumed);
    }
  }

  lemma KindsHoldTotal(inputs: seq<OutputID>, kinds: seq<LedgerOutput>, refs: seq<Ref>, byID: map<OutputID, Output>,
                       consumed: Outputs)
    requires |inputs| == |kinds| == |refs| && IsFlattening(consumed, byID) && Distinct(refs)
    requires forall k :: 0 <= k < |inputs| ==> inputs[k] in byID && kinds[k] == byID[inputs[k]].kind
    requires forall k :: 0 <= k < |refs| ==> refs[k] in consumed && refs[k].id == inputs[k]
    requires UniqueIDs(consumed) ==> forall r :: r in consumed ==> r in refs
    ensures UniqueIDs(consumed) ==> HoldsAll(kinds, consumed)
  {
    if UniqueIDs(consumed) {
      forall k | 0 <= k < |refs| ensures kinds[k] == consumed[refs[k]].kind {
        assert inputs[k] in byID;
        var a :| Ref(a, inputs[k]) in consumed && consumed[Ref(a, inputs[k])] == byID[inputs[k]];
      }
      InputsHoldTotal(kinds, refs, consumed);
    }
  }

  lemma KindsAreConsumed(inputs: seq<OutputID>, kinds: seq<LedgerOutput>, byID: map<OutputID, Output>,
                         consumed: Outputs)
    requires |inputs| == |kinds| && IsFlattening(consumed, byID)
    requires forall k :: 0 <= k < |inputs| ==> inputs[k] in byID && kinds[k] == byID[inputs[k]].kind
    ensures AllHold(consumed) ==> AllFunded(kinds)
  {
    forall k | 0 <= k < |kinds| && AllHold(consumed) ensures kinds[k].Funds() != map[] {
      assert inputs[k] in byID;
      var a :| Ref(a, inputs[k]) in consumed && consumed[Ref(a, inputs[k])] == byID[inputs[k]];
    }
  }

  lemma SpendingIsUnlocked(s: Spending, byID: map<OutputID, Output>, consumed: Outputs)
    requires |s.inputs| == |s.kinds| == |s.unlocks| <= 0x1_0000 && IsFlattening(consumed, byID)
    requires forall k :: 0 <= k < |s.inputs| ==> s.inputs[k] in byID && s.kinds[k] == byID[s.inputs[k]].kind
    requires SignedOnFirstUse(s.unlocks, OwnersOf(s.inputs, byID))
    ensures AllUnlocked(s, consumed)
  {
    var owners := OwnersOf(s.inputs, byID);
    forall k | 0 <= k < |s.inputs| ensures HasUnlock(s, consumed, k) {
      EveryInputIsSignedFor(s.unlocks, owners, k);
      var a :| Ref(a, s.inputs[k]) in consumed && consumed[Ref(a, s.inputs[k])] == byID[s.inputs[k]];
      assert Unlocked(s, consumed, k, Ref(a, s.inputs[k]));
    }
  }

  lemma FewerInputs(inputs: seq<OutputID>, refs: seq<Ref>, consumed: Outputs)
    requires |inputs| == |refs| && Distinct(refs) && forall k :: 0 <= k < |refs| ==> refs[k] in consumed
    requires forall r :: r in consumed ==> r.id in inputs
    ensures |refs| <= |consumed|
    ensures consumed != map[] ==> inputs != []
  {
    SumOfDistinct(refs, _ => 0);
    SubsetSize((set r | r in refs), consumed.Keys);
    if consumed != map[] {
      var r :| r in consumed;
      assert r.id in inputs;
    }
  }

  // ---- The output side --------------------------------------------------------------------------------------

  ghost function Plus(a: Balances, b: Balances): Balances {
    map c | c in a.Keys + b.Keys :: Get(a, c) + Get(b, c)
  }

  lemma PlusAdds(a: Balances, out: LedgerOutput)
    ensures NoZeros(a) ==> NoZeros(Plus(a, out.Funds()))
    ensures forall c :: Get(Plus(a, out.Funds()), c) == Get(a, c) + Get(out.Funds(), c)
  {
    assert NoZeros(out.Funds());
  }

  lemma OneLess(consumed: Outputs, r: Ref)
    requires r in consumed
    ensures forall c :: Total(consumed, c) == Total(consumed - {r}, c) + Get(consumed[r].kind.Funds(), c)
  {
    var rest := consumed - {r};
    assert rest.Keys == consumed.Keys - {r};
    forall c ensures Total(consumed, c) == Total(rest, c) + Get(consumed[r].kind.Funds(), c) {
      SumPick(consumed.Keys, r, FundsAt(consumed, c));
      SumCong(rest.Keys, FundsAt(rest, c), FundsAt(consumed, c));
    }
  }

  ghost predicate AreTotals(funds: Balances, consumed: Outputs) {
    NoZeros(funds) && forall c :: Get(funds, c) == Total(consumed, c)
  }

  lemma OneMore(funds: Balances, consumed: Outputs, r: Ref)
    requires r in consumed && AreTotals(funds, consumed - {r})
    ensures AreTotals(Plus(funds, consumed[r].kind.Funds()), consumed)
  {
    PlusAdds(funds, consumed[r].kind);
    OneLess(consumed, r);
  }

  /** The totals of what is consumed, colour by colour. */
  ghost function FundsOf(consumed: Outputs): (funds: Balances)
    decreases |consumed|
  {
    if consumed.Keys == {} then map[]
    else var r :| r in consumed; Plus(FundsOf(consumed - {r}), consumed[r].kind.Funds())
  }

  lemma {:induction false} FundsOfTotals(consumed: Outputs)
    ensures AreTotals(FundsOf(consumed), consumed)
    decreases |consumed|
  {
    if consumed.Keys != {} {
      var r :| r in consumed && FundsOf(consumed) == Plus(FundsOf(consumed - {r}), consumed[r].kind.Funds());
      FundsOfTotals(consumed - {r});
      OneMore(FundsOf(consumed - {r}), consumed, r);
    }
  }

  /** What is consumed in excess of what is required. */
  ghost function Leftover(consumed: Outputs, d: Destinations): Balances {
    Excess(FundsOf(consumed), d)
  }

  lemma SameFunds(a: Balances, b: Balances)
    requires NoZeros(a) && NoZeros(b) && forall c :: Get(a, c) == Get(b, c)
    ensures a == b
  {
    forall c ensures c in a <==> c in b {
      assert Get(a, c) == Get(b, c);
    }
    forall c | c in a ensures a[c] == b[c] {
      assert Get(a, c) == Get(b, c);
    }
  }

  lemma FundsAreTotals(funds: Balances, consumed: Outputs)
    requires forall c :: Get(funds, c) == Total(consumed, c)
    requires forall c :: c in funds <==> exists r :: r in consumed && c in consumed[r].kind.Funds()
    ensures funds == FundsOf(consumed)
  {
    forall c | c in funds ensures funds[c] > 0 {
      assert Get(funds, c) == funds[c];
      var r :| r in consumed && c in consumed[r].kind.Funds();
      SumPick(consumed.Keys, r, FundsAt(consumed, c));
    }
    FundsOfTotals(consumed);
    SameFunds(funds, FundsOf(consumed));
  }

  /** The request can be met from what is consumed, and nothing empty is sent. */
  ghost predicate Sound(consumed: Outputs, d: Destinations) {
    && UniqueIDs(consumed) && consumed != map[]
    && AllHold(consumed)
    && (forall c :: Required(d, c) <= Total(consumed, c))
    && AllPositive(d) && d != map[]
  }

  /**
   * The outputs of a sound request are exactly those for the destinations and the rest. They are worth what is spent
   * if and only if no two of them are identical.
   */
  ghost predicate Meets(outputs: seq<LedgerOutput>, spends: seq<LedgerOutput>, d: Destinations, lock: LockOptions,
                        rest: Balances, to: LedgerAddress)
  {
    && AllFunded(outputs)
    && (forall out :: out in outputs <==> out in TransferOutputs(d, lock, rest, to))
    && (Balanced(spends, outputs) <==> NoIdentical(d, lock, rest, to))
    && (NoIdentical(d, lock, rest, to) ==> Aside(outputs) == Aside(spends))
  }

  lemma AsideIsKept(spends: seq<LedgerOutput>, listed: seq<LedgerOutput>, kept: seq<LedgerOutput>, funds: Balances,
                    minted: nat)
    requires Out(spends, IOTA) == Get(funds, IOTA) && Out(spends, Mint) == Get(funds, Mint)
    requires Conserved(listed, funds, minted) && Deduplicated(listed, kept) && AllFunded(listed) && Distinct(listed)
    ensures Aside(kept) == Aside(spends)
  {
    DeduplicationLoses(listed, kept);
  }

  lemma TransferMeets(spends: seq<LedgerOutput>, listed: seq<LedgerOutput>, kept: seq<LedgerOutput>, d: Destinations,
                      lock: LockOptions, funds: Balances, to: LedgerAddress)
    requires forall c :: Out(spends, c) == Get(funds, c)
    requires IsTransfer(listed, d, lock, funds, to) && Deduplicated(listed, kept) && AllFunded(listed)
    ensures Meets(kept, spends, d, lock, Excess(funds, d), to)
  {
    PassesIffNoIdenticalOutputs(spends, listed, kept, funds, Sent(d, Mint));
    if Distinct(listed) {
      AsideIsKept(spends, listed, kept, funds, Sent(d, Mint));
    }
    assert forall out :: out in kept <==> out in listed;
  }

  /** What the output side of a sound request is. */
  ghost predicate SideMeets(outputs: Option<seq<LedgerOutput>>, spends: seq<LedgerOutput>, d: Destinations,
                            lock: LockOptions,
                            rest: Balances, to: LedgerAddress)
  {
    if outputs.None? then MAX_OUTPUT_COUNT < |TransferOutputs(d, lock, rest, to)|
    else |TransferOutputs(d, lock, rest, to)| <= MAX_OUTPUT_COUNT && Meets(outputs.value, spends, d, lock, rest, to)
  }

  /** The output side of a transaction; `None` is the panic on a list of outputs of impossible length. */
  method BuildOutputSide(consumed: Outputs, d: Destinations, lock: LockOptions, remainderAddress: LedgerAddress,
                         ghost spends: seq<LedgerOutput>)
    returns (outputs: Option<seq<LedgerOutput>>)
    requires UniqueIDs(consumed) ==> HoldsAll(spends, consumed)
    ensures outputs.Some? ==>
      && AllPaid(outputs.value, d, lock)
      && Distinct(outputs.value) && 1 <= |outputs.value| <= MAX_OUTPUT_COUNT
    ensures Sound(consumed, d) ==> SideMeets(outputs, spends, d, lock, Leftover(consumed, d), remainderAddress)
  {
    var totalConsumedFunds := TotalFundsInOutputs(consumed);
    FundsAreTotals(totalConsumedFunds, consumed);
    FundsOfTotals(consumed);
    var outputsSlice := BuildOutputs(d, lock, totalConsumedFunds, remainderAddress);
    outputs := NewOutputs(outputsSlice);
    if outputs.Some? {
      StillPaid(outputsSlice, outputs.value, d, lock);
    }
    if Sound(consumed, d) {
      SoundSide(outputsSlice, outputs, consumed, spends, d, lock, remainderAddress);
    }
  }

  lemma StillPaid(listed: seq<LedgerOutput>, kept: seq<LedgerOutput>, d: Destinations, lock: LockOptions)
    requires Deduplicated(listed, kept) && AllPaid(listed, d, lock)
    ensures AllPaid(kept, d, lock)
  {
    forall a | a in d ensures HasPayment(kept, a, d, lock) {
      assert HasPayment(listed, a, d, lock);
      var out :| out in listed && Pays(out, a.ledger, d[a], lock);
      assert out in kept;
    }
  }

  lemma SoundSide(listed: seq<LedgerOutput>, outputs: Option<seq<LedgerOutput>>, consumed: Outputs,
                  spends: seq<LedgerOutput>,
                  d: Destinations, lock: LockOptions, to: LedgerAddress)
    requires Sound(consumed, d) && HoldsAll(spends, consumed)
    requires Covered(d, FundsOf(consumed)) ==> IsTransfer(listed, d, lock, FundsOf(consumed), to)
    requires AllFunded(listed) && (forall a :: a in d ==> OutputFor(d, lock, a) in listed)
    requires outputs.Some? ==> Deduplicated(listed, outputs.value)
    requires outputs.Some? <==> 1 <= |set out | out in listed| <= MAX_OUTPUT_COUNT
    ensures SideMeets(outputs, spends, d, lock, Leftover(consumed, d), to)
  {
    var funds := FundsOf(consumed);
    FundsOfTotals(consumed);
    assert Covered(d, funds);
    var all := TransferOutputs(d, lock, Excess(funds, d), to);
    var a :| a in d;
    assert OutputFor(d, lock, a) in listed;
    assert OutputFor(d, lock, a) in all;
    if outputs.Some? {
      TransferMeets(spends, listed, outputs.value, d, lock, funds, to);
    }
  }

  // ---- The transaction --------------------------------------------------------------------------------------

  datatype Built = NotBuilt | Refused | Checked(tx: Spending, outputs: seq<LedgerOutput>)

  /** What is true of every transaction that passes the wallet's checks. */
  ghost predicate InOrder(tx: Spending, outputs: seq<LedgerOutput>, consumed: Outputs, d: Destinations,
                          lock: LockOptions) {
    && Balanced(tx.kinds, outputs)
    && |tx.inputs| <= MAX_INPUT_COUNT && Distinct(tx.inputs)
    && 1 <= |outputs| <= MAX_OUTPUT_COUNT && Distinct(outputs)
    && AllUnlocked(tx, consumed)
    && (forall r :: r in consumed ==> r.id in tx.inputs)
    && AllPaid(outputs, d, lock)
  }

  ghost predicate IsChecked(built: Built, passes: bool, consumed: Outputs, d: Destinations, lock: LockOptions) {
    built.Checked? ==> passes && InOrder(built.tx, built.outputs, consumed, d, lock)
  }

  /**
   * What becomes of a sound request: building it panics exactly when there are too many outputs, and it then passes
   * the checks exactly when no two of the outputs are identical, its sums do not overflow and the checks outside agree.
   */
  ghost predicate DecidedBy(built: Built, passes: bool, consumed: Outputs, d: Destinations, lock: LockOptions,
                            to: LedgerAddress) {
    var rest := Leftover(consumed, d);
    var all := TransferOutputs(d, lock, rest, to);
    && (built.NotBuilt? <==> MAX_OUTPUT_COUNT < |all|)
    && (built.Checked? ==> HoldsAll(built.tx.kinds, consumed) && forall out :: out in built.outputs <==> out in all)
    && (built.Checked? ==> Settles(built.outputs, d, lock, FundsOf(consumed), to))
    && (built.Checked? <==> !built.NotBuilt? && passes && NoIdentical(d, lock, rest, to) && CanBeCounted(consumed))
  }

  lemma CountsIff(kinds: seq<LedgerOutput>, outputs: seq<LedgerOutput>, consumed: Outputs, d: Destinations,
                  lock: LockOptions, rest: Balances, to: LedgerAddress)
    requires HoldsAll(kinds, consumed) && Meets(outputs, kinds, d, lock, rest, to)
    ensures Balanced(kinds, outputs) && Countable(kinds, outputs) <==> NoIdentical(d, lock, rest, to) && CanBeCounted(consumed)
  {
  }

  /** The check of a sound request. */
  lemma PassesIff(spending: Spending, outputs: seq<LedgerOutput>, valid: bool, consumed: Outputs, d: Destinations,
                  lock: LockOptions, to: LedgerAddress)
    requires Sound(consumed, d) && IsSpending(spending, consumed)
    requires Meets(outputs, spending.kinds, d, lock, Leftover(consumed, d), to)
    requires spending.kinds != [] && AllFunded(spending.kinds) && AllFunded(outputs) ==>
      (valid <==> Balanced(spending.kinds, outputs) && Countable(spending.kinds, outputs))
    ensures HoldsAll(spending.kinds, consumed)
    ensures valid <==> NoIdentical(d, lock, Leftover(consumed, d), to) && CanBeCounted(consumed)
    ensures Settles(outputs, d, lock, FundsOf(consumed), to)
  {
    FundsOfTotals(consumed);
    TransferSettles(outputs, d, lock, FundsOf(consumed), to);
    CountsIff(spending.kinds, outputs, consumed, d, lock, Leftover(consumed, d), to);
  }

  /** Builds and checks a transaction. `passes` is the outcome of serialisation and of unlocking. */
  method BuildTransaction(consumed: Outputs, d: Destinations, lock: LockOptions, remainderAddress: LedgerAddress,
                          passes: bool)
    returns (built: Built)
    requires |consumed| <= MAX_INPUT_COUNT
    ensures IsChecked(built, passes, consumed, d, lock)
    ensures Sound(consumed, d) ==> DecidedBy(built, passes, consumed, d, lock, remainderAddress)
  {
    var spending := BuildSpending(consumed);
    var outputs := BuildOutputSide(consumed, d, lock, remainderAddress, spending.kinds);
    if outputs.None? {
      return NotBuilt;
    }
    var balancesValid := TransactionBalancesValid(spending.kinds, outputs.value);
    if Sound(consumed, d) {
      PassesIff(spending, outputs.value, balancesValid, consumed, d, lock, remainderAddress);
    }
    if balancesValid && passes {
      built := Checked(spending, outputs.value);
    } else {
      built := Refused;
    }
  }
}
