/** Moving funds into and out of NFTs (client/wallet/wallet.go). */
module NftFunds {
  import opened Ledger
  import opened CoinSelection
  import opened OutputCollections
  import opened Transactions
  import opened BalanceCheck
  import opened UnlockBlocks

  /** What an alias has to hold: `SetBalances` and `NewAliasOutputMint` refuse less. */
  predicate AboveDustThreshold(b: Balances) {
    IOTA in b && DUST_THRESHOLD <= b[IOTA]
  }

  lemma OutOfTwo(a: LedgerOutput, b: LedgerOutput, c: Color)
    ensures Out([a, b], c) == Get(a.Funds(), c) + Get(b.Funds(), c)
    ensures Out([a], c) == Get(a.Funds(), c)
  {
    assert [a] == [] + [a] && [a, b] == [a] + [b];
    OutAppend([], a, c);
    OutAppend([a], b, c);
  }

  lemma PositiveKeepsFunds(b: Balances, c: Color)
    ensures Get(Positive(b), c) == Get(b, c)
  {
  }

  // ---- Withdrawing ------------------------------------------------------------------------------------------

  /** Of every colour that the old balance holds, the new one holds what is not withdrawn; of others nothing. */
  ghost predicate AreWithdrawn(now: Balances, was: Balances, withdrawn: Balances) {
    forall c :: Get(now, c) + (if c in was then Get(withdrawn, c) else 0) == Get(was, c)
  }

  /** The alias's balance after a withdrawal; `None` when it is refused. */
  method BalanceAfterWithdrawal(balancesOfAlias: Balances, withdrawBalances: Balances) returns (r: Option<Balances>)
    ensures r.Some? <==>
      && (forall c :: c in balancesOfAlias ==> Get(withdrawBalances, c) <= balancesOfAlias[c])
      && IOTA in balancesOfAlias && Get(withdrawBalances, IOTA) + DUST_THRESHOLD <= balancesOfAlias[IOTA]
    ensures r.Some? ==> AboveDustThreshold(r.value) && AreWithdrawn(r.value, balancesOfAlias, withdrawBalances)
  {
    var newAliasBalance: Balances := map[];
    var left := balancesOfAlias.Keys;
    while left != {}
      invariant forall c :: c in left ==> c in balancesOfAlias
      invariant forall c :: c in balancesOfAlias && c !in left ==>
        && Get(withdrawBalances, c) <= balancesOfAlias[c]
        && Get(newAliasBalance, c) == balancesOfAlias[c] - Get(withdrawBalances, c)
        && (c == IOTA ==> DUST_THRESHOLD <= Get(newAliasBalance, c))
      invariant forall c :: c in newAliasBalance ==> c in balancesOfAlias && c !in left && newAliasBalance[c] > 0
      decreases left
    {
      var c :| c in left;
      left := left - {c};
      if balancesOfAlias[c] < Get(withdrawBalances, c) {
        return None;
      }
      newAliasBalance := newAliasBalance[c := balancesOfAlias[c] - Get(withdrawBalances, c)];
      if newAliasBalance[c] == 0 {
        newAliasBalance := newAliasBalance - {c};
      }
      if c == IOTA && Get(newAliasBalance, c) < DUST_THRESHOLD {
        return None;
      }
    }
    if !AboveDustThreshold(newAliasBalance) {
      return None;
    }
    r := Some(newAliasBalance);
  }

  /** No colour is withdrawn that the alias does not hold. */
  ghost predicate HeldByAlias(withdrawBalances: Balances, balancesOfAlias: Balances) {
    forall c :: Get(withdrawBalances, c) > 0 ==> c in balancesOfAlias
  }

  /**
   * The colours that the alias does not hold escape the check of a withdrawal. The transaction it leads to balances
   * exactly when there are none, and then every colour is conserved.
   */
  lemma WithdrawalBalancesIffHeld(oldAlias: LedgerOutput, nextAlias: LedgerOutput, withdrawal: LedgerOutput,
                                  withdrawBalances: Balances)
    requires forall c :: Get(withdrawal.Funds(), c) == Get(withdrawBalances, c)
    requires AreWithdrawn(nextAlias.Funds(), oldAlias.Funds(), withdrawBalances)
    ensures Balanced([oldAlias], [withdrawal, nextAlias]) <==> HeldByAlias(withdrawBalances, oldAlias.Funds())
    ensures HeldByAlias(withdrawBalances, oldAlias.Funds()) ==>
      forall c :: Get(nextAlias.Funds(), c) + Get(withdrawBalances, c) == Get(oldAlias.Funds(), c)
  {
    var spends, outputs := [oldAlias], [withdrawal, nextAlias];
    forall c
      ensures Out(spends, c) == Get(oldAlias.Funds(), c)
      ensures Out(outputs, c) == Get(withdrawBalances, c) + Get(nextAlias.Funds(), c)
      ensures Out(spends, c) <= Out(outputs, c)
      ensures Out(spends, c) == Out(outputs, c) <==> Get(withdrawBalances, c) == 0 || c in oldAlias.Funds()
    {
      OutOfTwo(oldAlias, nextAlias, c);
      OutOfTwo(withdrawal, nextAlias, c);
    }
    WorthCompares(spends, outputs);
  }

  // ---- Depositing -------------------------------------------------------------------------------------------

  /** Subtracts what goes into an alias from what is consumed; `None` when that is too little. */
  method DeductAll(funds: Balances, amounts: Balances) returns (r: Option<Balances>)
    ensures r.Some? <==> forall c :: c in amounts ==> amounts[c] <= Get(funds, c)
    ensures r.Some? ==> forall c :: Get(r.value, c) == Get(funds, c) - Get(amounts, c)
    ensures r.Some? && NoZeros(funds) ==> NoZeros(r.value)
  {
    var rest := funds;
    var left := amounts.Keys;
    while left != {}
      invariant forall c :: c in left ==> c in amounts
      invariant forall c :: c in amounts && c !in left ==> amounts[c] <= Get(funds, c)
      invariant forall c :: Get(rest, c) == Get(funds, c) - (if c in left then 0 else Get(amounts, c))
      invariant NoZeros(funds) ==> NoZeros(rest)
      decreases left
    {
      var c :| c in left;
      if Get(rest, c) < amounts[c] {
        return None;
      }
      rest := Deduct(rest, c, amounts[c]);
      left := left - {c};
    }
    r := Some(rest);
  }

  /** The alias's new balance and what remains of the consumed funds. */
  method BalancesAfterDeposit(balancesOfAlias: Balances, depositBalances: Balances, totalConsumed: Balances)
    returns (r: Option<(Balances, Balances)>)
    ensures r.Some? <==>
      && DUST_THRESHOLD <= Get(balancesOfAlias, IOTA) + Get(depositBalances, IOTA)
      && forall c :: c in depositBalances ==> depositBalances[c] <= Get(totalConsumed, c)
    ensures r.Some? ==> forall c ::
      && Get(r.value.0, c) == Get(balancesOfAlias, c) + Get(depositBalances, c)
      && Get(balancesOfAlias, c) + Get(totalConsumed, c) == Get(r.value.0, c) + Get(r.value.1, c)
  {
    var newAliasBalance := AddBalances(balancesOfAlias, depositBalances);
    if !AboveDustThreshold(newAliasBalance) {
      return None;
    }
    var rest := DeductAll(totalConsumed, depositBalances);
    if rest.None? {
      return None;
    }
    r := Some((newAliasBalance, rest.value));
  }

  // ---- Creating ---------------------------------------------------------------------------------------------

  /** What remains of the consumed funds when an NFT is created; nothing checks that they suffice. */
  method RemainderOfCreation(totalConsumedFunds: Balances, nft: Balances) returns (rest: Balances)
    ensures (forall c :: Get(nft, c) <= Get(totalConsumedFunds, c)) ==>
      forall c :: Get(totalConsumedFunds, c) == Get(nft, c) + Get(rest, c)
    ensures NoZeros(totalConsumedFunds) ==> NoZeros(rest)
  {
    rest := totalConsumedFunds;
    var left := nft.Keys;
    while left != {}
      invariant forall c :: c in left ==> c in nft
      invariant (forall c :: Get(nft, c) <= Get(totalConsumedFunds, c)) ==>
        forall c :: Get(rest, c) == Get(totalConsumedFunds, c) - (if c in left then 0 else Get(nft, c))
      invariant NoZeros(totalConsumedFunds) ==> NoZeros(rest)
      decreases left
    {
      var c :| c in left;
      left := left - {c};
      rest := Deduct(rest, c, nft[c]);
    }
  }

  /** A new alias and, if anything remains, an output for the remainder. */
  function WithChange(main: LedgerOutput, rest: Balances, to: LedgerAddress): seq<LedgerOutput> {
    if Positive(rest) == map[] then [main] else [main, SigLockedColored(Positive(rest), to)]
  }

  /** Creating an NFT or depositing to one conserves every colour, with or without an output for the remainder. */
  lemma ChangeConserves(spends: seq<LedgerOutput>, main: LedgerOutput, rest: Balances, to: LedgerAddress)
    requires forall c :: Out(spends, c) == Get(main.Funds(), c) + Get(rest, c)
    ensures forall c :: Out(WithChange(main, rest, to), c) == Out(spends, c)
    ensures Balanced(spends, WithChange(main, rest, to))
    ensures var outputs := WithChange(main, rest, to);
      && 1 <= |outputs| <= 2 && outputs[0] == main
      && (|outputs| == 2 <==> exists c :: Get(rest, c) > 0)
      && (|outputs| == 2 ==>
        && outputs[1].SigLockedColored? && outputs[1].address == to
        && forall c :: Get(outputs[1].Funds(), c) == Get(rest, c))
  {
    var outputs := WithChange(main, rest, to);
    forall c ensures Out(outputs, c) == Out(spends, c) {
      var change := SigLockedColored(Positive(rest), to);
      OutOfTwo(main, change, c);
      PositiveKeepsFunds(Positive(rest), c);
      PositiveKeepsFunds(rest, c);
    }
    WorthCompares(spends, outputs);
    ChangeIsRest(main, rest, to);
  }

  lemma ChangeIsRest(main: LedgerOutput, rest: Balances, to: LedgerAddress)
    ensures |WithChange(main, rest, to)| == 2 <==> exists c :: Get(rest, c) > 0
    ensures forall c :: Get(SigLockedColored(Positive(rest), to).Funds(), c) == Get(rest, c)
  {
    if c :| c in Positive(rest) {
      assert Get(rest, c) > 0;
    }
    if c :| Get(rest, c) > 0 {
      assert c in Positive(rest);
    }
  }

  // ---- Sweeping ---------------------------------------------------------------------------------------------

  datatype OwnedOutput = OwnedOutput(id: OutputID, kind: LedgerOutput)

  /** The outputs that are not aliases, in order. */
  ghost function NonAliases(owned: seq<OwnedOutput>): seq<OwnedOutput> {
    if owned == [] then [] else
      var n := |owned| - 1;
      NonAliases(owned[..n]) + if owned[n].kind.Alias? then [] else [owned[n]]
  }

  ghost function Kinds(owned: seq<OwnedOutput>): (kinds: seq<LedgerOutput>)
    ensures |kinds| == |owned| && forall i :: 0 <= i < |owned| ==> kinds[i] == owned[i].kind
  {
    if owned == [] then [] else Kinds(owned[..|owned| - 1]) + [owned[|owned| - 1].kind]
  }

  lemma {:induction false} NonAliasesGrow(owned: seq<OwnedOutput>, i: nat)
    requires i <= |owned|
    ensures NonAliases(owned[..i]) <= NonAliases(owned)
  {
    if i < |owned| {
      NonAliasesGrow(owned[..|owned| - 1], i);
      assert owned[..|owned| - 1][..i] == owned[..i];
    } else {
      assert owned[..i] == owned;
    }
  }

  /** `at` lists the positions of exactly the outputs that are not aliases, in ascending order. */
  ghost predicate ArePositions(at: seq<nat>, owned: seq<OwnedOutput>) {
    && (forall i, j :: 0 <= i < j < |at| ==> at[i] < at[j])
    && (forall k :: 0 <= k < |at| ==> at[k] < |owned|)
    && forall i: nat :: i < |owned| ==> (i in at <==> !owned[i].kind.Alias?)
  }

  /** What is `taken` stands at the given positions. */
  ghost predicate AreAt(taken: seq<OwnedOutput>, at: seq<nat>, owned: seq<OwnedOutput>) {
    |taken| == |at| && forall k :: 0 <= k < |at| ==> at[k] < |owned| && taken[k] == owned[at[k]]
  }

  lemma PositionsOn(at: seq<nat>, owned: seq<OwnedOutput>, taken: seq<OwnedOutput>, last: OwnedOutput)
    requires ArePositions(at, owned) && AreAt(taken, at, owned)
    ensures ArePositions(at + if last.kind.Alias? then [] else [|owned|], owned + [last])
    ensures AreAt(taken + if last.kind.Alias? then [] else [last],
              at + if last.kind.Alias? then [] else [|owned|], owned + [last])
  {
    var next := at + if last.kind.Alias? then [] else [|owned|];
    assert forall i :: i in next <==> i in at || (!last.kind.Alias? && i == |owned|);
    assert |owned| !in at;
  }

  /** Every output that is not an alias is there, in the order they had. */
  lemma {:induction false} NonAliasesAre(owned: seq<OwnedOutput>) returns (at: seq<nat>)
    ensures ArePositions(at, owned) && AreAt(NonAliases(owned), at, owned)
  {
    at := [];
    if owned != [] {
      var n := |owned| - 1;
      var front := NonAliasesAre(owned[..n]);
      PositionsOn(front, owned[..n], NonAliases(owned[..n]), owned[n]);
      assert owned[..n] + [owned[n]] == owned;
      at := front + if owned[n].kind.Alias? then [] else [n];
    }
  }

  /** Sweeps the first outputs that are not aliases, leaving one input free for the alias itself. */
  method CollectForSweep(owned: seq<OwnedOutput>) returns (toBeConsumed: seq<OwnedOutput>, totalConsumed: Balances)
    ensures toBeConsumed <= NonAliases(owned) && |toBeConsumed| + 1 <= MAX_INPUT_COUNT
    ensures toBeConsumed == NonAliases(owned) || |toBeConsumed| + 1 == MAX_INPUT_COUNT
    ensures forall c :: Get(totalConsumed, c) == Out(Kinds(toBeConsumed), c)
  {
    toBeConsumed, totalConsumed := [], map[];
    for i := 0 to |owned|
      invariant toBeConsumed == NonAliases(owned[..i]) && |toBeConsumed| + 1 <= MAX_INPUT_COUNT
      invariant forall c :: Get(totalConsumed, c) == Out(Kinds(toBeConsumed), c)
    {
      if |toBeConsumed| == MAX_OUTPUT_COUNT - 1 {
        NonAliasesGrow(owned, i);
        return;
      }
      OneMoreOwned(owned, toBeConsumed, i);
      if !owned[i].kind.Alias? {
        totalConsumed := AddBalances(totalConsumed, owned[i].kind.Funds());
        toBeConsumed := toBeConsumed + [owned[i]];
      }
    }
    assert owned[..|owned|] == owned;
  }

  lemma OneMoreOwned(owned: seq<OwnedOutput>, taken: seq<OwnedOutput>, i: nat)
    requires i < |owned|
    ensures NonAliases(owned[..i + 1]) == NonAliases(owned[..i]) + if owned[i].kind.Alias? then [] else [owned[i]]
    ensures forall c :: Out(Kinds(taken + [owned[i]]), c) == Out(Kinds(taken), c) + Get(owned[i].kind.Funds(), c)
  {
    assert owned[..i + 1][..i] == owned[..i];
    assert (taken + [owned[i]])[..|taken|] == taken;
    forall c ensures Out(Kinds(taken + [owned[i]]), c) == Out(Kinds(taken), c) + Get(owned[i].kind.Funds(), c) {
      OutAppend(Kinds(taken), owned[i].kind, c);
    }
  }

  /** A sweep moves what it consumes, colour by colour, and leaves the alias's funds alone. */
  lemma SweepConserves(consumed: seq<LedgerOutput>, oldAlias: LedgerOutput, nextAlias: LedgerOutput,
                       swept: LedgerOutput, totalConsumed: Balances)
    requires forall c :: Get(totalConsumed, c) == Out(consumed, c)
    requires swept.SigLockedColored? && swept.balances == Positive(totalConsumed)
    requires nextAlias.Funds() == oldAlias.Funds()
    ensures forall c :: Out([nextAlias, swept], c) == Out(consumed + [oldAlias], c)
    ensures Balanced(consumed + [oldAlias], [nextAlias, swept])
  {
    forall c ensures Out([nextAlias, swept], c) == Out(consumed + [oldAlias], c) {
      OutOfTwo(nextAlias, swept, c);
      OutAppend(consumed, oldAlias, c);
    }
    WorthCompares(consumed + [oldAlias], [nextAlias, swept]);
  }

  /** The k-th block is a signature, and all others refer to it. */
  ghost predicate UnlockedAt(unlocks: seq<UnlockBlock>, k: nat, signer: WalletAddress) {
    forall i :: 0 <= i < |unlocks| ==> (unlocks[i] == if i == k then Signature(signer) else AliasReference(Uint16(k)))
  }

  /**
   * The alias is unlocked by signature, and everything it owns by reference to it. What is spent is listed in the order
   * of the inputs, which were made from it.
   */
  method UnlockByAlias(inputs: seq<OutputID>, toBeConsumedByID: map<OutputID, LedgerOutput>, alias: OutputID,
                       signer: WalletAddress)
    returns (r: Option<seq<UnlockBlock>>, inputsInOrder: seq<LedgerOutput>)
    requires forall id :: id in inputs ==> id in toBeConsumedByID
    ensures |inputsInOrder| == |inputs|
    ensures forall k :: 0 <= k < |inputs| ==> inputsInOrder[k] == toBeConsumedByID[inputs[k]]
    ensures r.Some? <==> alias in inputs
    ensures r.Some? ==> |r.value| == |inputs|
    ensures r.Some? ==> exists k :: 0 <= k < |inputs| && inputs[k] == alias && UnlockedAt(r.value, k, signer)
  {
    var aliasInputIndex := -1;
    inputsInOrder := [];
    var unlockBlocks := seq(|inputs|, _ => AliasReference(0));
    for index := 0 to |inputs|
      invariant |unlockBlocks| == |inputs| && -1 <= aliasInputIndex < index
      invariant aliasInputIndex < 0 <==> alias !in inputs[..index]
      invariant aliasInputIndex >= 0 ==>
        inputs[aliasInputIndex] == alias && unlockBlocks[aliasInputIndex] == Signature(signer)
      invariant |inputsInOrder| == index
      invariant forall k :: 0 <= k < index ==> inputsInOrder[k] == toBeConsumedByID[inputs[k]]
    {
      if inputs[index] == alias {
        unlockBlocks := unlockBlocks[index := Signature(signer)];
        aliasInputIndex := index;
      }
      inputsInOrder := inputsInOrder + [toBeConsumedByID[inputs[index]]];
    }
    assert inputs[..|inputs|] == inputs;
    if aliasInputIndex < 0 {
      return None, inputsInOrder;
    }
    var filled := ReferToAlias(unlockBlocks, aliasInputIndex, signer);
    r := Some(filled);
  }

  /** Fills in the rest of the unlock blocks. */
  method ReferToAlias(blocks: seq<UnlockBlock>, aliasInputIndex: nat,
                      signer: WalletAddress) returns (unlockBlocks: seq<UnlockBlock>)
    requires aliasInputIndex < |blocks| && blocks[aliasInputIndex] == Signature(signer)
    ensures |unlockBlocks| == |blocks| && UnlockedAt(unlockBlocks, aliasInputIndex, signer)
  {
    unlockBlocks := blocks;
    for i := 0 to |blocks|
      invariant |unlockBlocks| == |blocks|
      invariant unlockBlocks[aliasInputIndex] == Signature(signer)
      invariant forall j :: 0 <= j < i && j != aliasInputIndex ==> unlockBlocks[j] == AliasReference(Uint16(aliasInputIndex))
    {
      if i != aliasInputIndex {
        unlockBlocks := unlockBlocks[i := AliasReference(Uint16(aliasInputIndex))];
      }
    }
  }
}
