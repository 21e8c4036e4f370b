/** What a transfer leaves behind that the node does not accept (client/wallet/wallet.go, SendFunds). */
module FailedSend {
  import opened Ledger
  import opened Sums
  import opened AddressManagement
  import opened OutputCollections
  import opened OutputManagement
  import opened CoinSelection
  import opened Transactions
  import opened BalanceCheck
  import opened Assembly
  import opened WalletModule
  import opened Orders

  /** What is taken can be made into a transaction that passes: few enough outputs, no two identical, no overflow. */
  ghost predicate WouldPass(taken: Outputs, d: Destinations, lock: LockOptions, to: LedgerAddress, passes: bool) {
    var rest := Leftover(taken, d);
    && |TransferOutputs(d, lock, rest, to)| <= MAX_OUTPUT_COUNT && NoIdentical(d, lock, rest, to)
    && CanBeCounted(taken) && passes
  }

  /** What a caller asks for, the addresses that change may go to, and the outcome of the checks outside the wallet. */
  datatype Terms = Terms(d: Destinations, lock: LockOptions, choices: Choices, remainderAddress: Option<WalletAddress>,
                         reusableAddress: bool, passes: bool)
  {
    /** What is selected can be paid for: it passes with change at the address that is chosen for it. */
    ghost predicate Pass(taken: Outputs) {
      WouldPass(taken, d, lock, choices.Remainder(taken, remainderAddress, reusableAddress).ledger, passes)
    }
  }

  /** What is taken is what the transaction spends. */
  ghost predicate SpendsAll(outcome: Outcome)
    requires !outcome.Unfunded?
  {
    outcome.built.Checked? && forall r :: r in outcome.Taken() ==> r.id in outcome.built.tx.inputs
  }

  /** How a request on the given terms can end. */
  ghost predicate Ends(outcome: Outcome, from: Sources, t: Terms, now: Time, sent: bool) {
    && IsSelected(outcome.selection, from, now) && outcome.IsConsistent(sent)
    && (outcome.Passed() <==> !outcome.Unfunded? && t.Pass(outcome.Taken()))
    && (outcome.Passed() ==> SpendsAll(outcome))
  }

  lemma PassedIff(outcome: Outcome, d: Destinations, lock: LockOptions, to: LedgerAddress, passes: bool, sent: bool)
    requires !outcome.Unfunded? && outcome.IsConsistent(sent)
    requires outcome.IsSound(passes, d, lock) && outcome.IsDecided(passes, d, lock, to)
    ensures outcome.Passed() <==> WouldPass(outcome.Taken(), d, lock, to, passes)
    ensures outcome.Passed() ==> SpendsAll(outcome)
  {
  }

  /** What is said of the outcome, with change going to `to`. */
  ghost predicate EndsWith(outcome: Outcome, d: Destinations, lock: LockOptions, to: LedgerAddress, passes: bool) {
    && (outcome.Passed() <==> !outcome.Unfunded? && WouldPass(outcome.Taken(), d, lock, to, passes))
    && (outcome.Passed() ==> SpendsAll(outcome))
  }

  lemma EndsLikeThis(outcome: Outcome, d: Destinations, lock: LockOptions, to: LedgerAddress, passes: bool, sent: bool,
                     sane: bool)
    requires outcome.IsConsistent(sent) && outcome.IsSound(passes, d, lock)
    requires !outcome.Unfunded? && sane ==> outcome.IsDecided(passes, d, lock, to)
    ensures sane ==> EndsWith(outcome, d, lock, to, passes)
  {
    if !outcome.Unfunded? && sane {
      PassedIff(outcome, d, lock, to, passes, sent);
    }
  }

  lemma EndsOnTerms(outcome: Outcome, from: Sources, t: Terms, to: LedgerAddress, now: Time, sent: bool)
    requires IsSelected(outcome.selection, from, now) && outcome.IsConsistent(sent)
    requires EndsWith(outcome, t.d, t.lock, to, t.passes)
    requires !outcome.Unfunded? ==> to == t.choices.Remainder(outcome.Taken(), t.remainderAddress, t.reusableAddress).ledger
    ensures Ends(outcome, from, t, now, sent)
  {
  }

  /** A proper request on a store that is well filed ends like this, with change going to `to`. */
  method SendTo(wallet: Wallet, d: Destinations, lock: LockOptions, usePending: bool, sources: seq<WalletAddress>,
                remainderAddress: Option<WalletAddress>, reply: Option<Outputs>, now: Time, passes: bool, sent: bool)
    returns (outcome: Outcome, ghost from: Sources, ghost to: WalletAddress)
    requires wallet.Valid() && (reply.Some? ==> wallet.OwnAll(reply.value))
    modifies wallet, wallet.addressManager, wallet.outputManager
    ensures wallet.Valid() && old(wallet.AreSources(from, d, usePending, sources, reply))
    ensures wallet.outputManager.unspentOutputs == outcome.StoreAfter(from.store)
    ensures IsSelected(outcome.selection, from, now) && outcome.IsConsistent(sent)
    ensures !outcome.Unfunded? ==>
      to == old(wallet.ChoicesNow()).Remainder(outcome.Taken(), remainderAddress, wallet.reusableAddress)
    ensures IsSane(d, sources, from, wallet.addressManager.seed) ==> EndsWith(outcome, d, lock, to.ledger, passes)
  {
    outcome, from, to := wallet.SendFunds(d, lock, usePending, sources, remainderAddress, reply, now, passes, sent);
    EndsLikeThis(outcome, d, lock, to.ledger, passes, sent, IsSane(d, sources, from, wallet.addressManager.seed));
  }

  /** The same on the terms of the request. */
  method Send(wallet: Wallet, d: Destinations, lock: LockOptions, usePending: bool, sources: seq<WalletAddress>,
              remainderAddress: Option<WalletAddress>, reply: Option<Outputs>, now: Time, passes: bool, sent: bool)
    returns (outcome: Outcome, ghost from: Sources, ghost t: Terms)
    requires wallet.Valid() && (reply.Some? ==> wallet.OwnAll(reply.value))
    modifies wallet, wallet.addressManager, wallet.outputManager
    ensures wallet.Valid() && old(wallet.AreSources(from, d, usePending, sources, reply))
    ensures t == Terms(d, lock, old(wallet.ChoicesNow()), remainderAddress, wallet.reusableAddress, passes)
    ensures wallet.outputManager.unspentOutputs == outcome.StoreAfter(from.store)
    ensures IsSane(d, sources, from, wallet.addressManager.seed) ==> Ends(outcome, from, t, now, sent)
  {
    t := Terms(d, lock, wallet.ChoicesNow(), remainderAddress, wallet.reusableAddress, passes);
    ghost var to;
    outcome, from, to := SendTo(wallet, d, lock, usePending, sources, remainderAddress, reply, now, passes, sent);
    if IsSane(d, sources, from, wallet.addressManager.seed) {
      EndsOnTerms(outcome, from, t, to.ledger, now, sent);
    }
  }

  lemma FailureShows(outcome: Outcome, from: Sources, now: Time, sent: bool)
    requires IsFunding(outcome.selection, from, now) && outcome.IsConsistent(sent) && !outcome.Submitted?
    ensures outcome.StoreAfter(from.store) == from.store <==> !outcome.SendFailed?
  {
    if outcome.SendFailed? {
      assert |outcome.Taken().Keys| >= 1;
      var r :| r in outcome.Taken();
      assert MarkAll(from.store, outcome.Taken().Keys)[r].spent;
    }
  }

  /** However the request ends, an error leaves the store as the refresh left it. */
  ghost predicate ErrorsKeepStore(from: Sources, t: Terms, now: Time, sent: bool) {
    forall outcome :: Ends(outcome, from, t, now, sent) && !outcome.Submitted? ==> outcome.StoreAfter(from.store) == from.store
  }

  /** In some order of going through the outputs, a selection is made that passes. */
  ghost predicate CanPass(from: Sources, t: Terms, now: Time) {
    exists selection :: IsSelected(selection, from, now) && selection.Collected? && t.Pass(selection.outputs)
  }

  lemma SelectedIsFunding(selection: Selection, from: Sources, d: Destinations, usePending: bool, now: Time)
    requires from.view == ViewOf(from.store, usePending, from.addresses) && from.request == Request(d)
    requires IsSelected(selection, from, now)
    ensures IsFunding(selection, from, now)
    ensures IsProper(d, from.addresses) ==> IsExactFunding(selection, from, now)
  {
    var picks :|
      Justified(selection, picks, from.view, from.addresses, from.request, Eligible(from.view, from.request, now));
    IsInView(from.store, usePending, from.addresses);
    SelectionIsFunding(selection, picks, d, from, now);
  }

  /** A transaction that spends what is selected, and is refused by the node. */
  lemma Refusal(selection: Selection) returns (outcome: Outcome)
    requires selection.Collected?
    ensures outcome.SendFailed? && outcome.selection == selection && SpendsAll(outcome)
  {
    var ids := set r | r in selection.outputs :: r.id;
    var inputs := SomeOrder(ids);
    outcome := SendFailed(selection, Checked(Spending(inputs, [], []), []));
  }

  lemma ErrorShows(selection: Selection, from: Sources, t: Terms, usePending: bool,
                   now: Time) returns (outcome: Outcome)
    requires from.view == ViewOf(from.store, usePending, from.addresses) && from.request == Request(t.d)
    requires IsSelected(selection, from, now) && selection.Collected? && t.Pass(selection.outputs)
    ensures Ends(outcome, from, t, now, false) && !outcome.Submitted? && outcome.StoreAfter(from.store) != from.store
  {
    outcome := Refusal(selection);
    SelectedIsFunding(selection, from, t.d, usePending, now);
    FailureShows(outcome, from, now, false);
  }

  lemma NoErrorShows(outcome: Outcome, from: Sources, t: Terms, now: Time, sent: bool)
    requires Ends(outcome, from, t, now, sent) && !outcome.Submitted?
    ensures sent || !CanPass(from, t, now) ==> outcome.StoreAfter(from.store) == from.store
  {
    if outcome.Passed() {
      assert outcome.selection.Collected?;
      assert CanPass(from, t, now);
    }
  }

  /**
   * That an error leaves the store as it is does not hold. For a proper request on a store that is well filed it holds if
   * and only if the node takes what is sent, or no selection that can be made passes the wallet's own checks.
   */
  lemma ErrorKeepsStoreIff(from: Sources, t: Terms, usePending: bool, sources: seq<WalletAddress>,
                           seed: nat -> LedgerAddress, now: Time, sent: bool)
    requires IsSane(t.d, sources, from, seed)
    requires from.view == ViewOf(from.store, usePending, from.addresses) && from.request == Request(t.d)
    ensures ErrorsKeepStore(from, t, now, sent) <==> sent || !CanPass(from, t, now)
  {
    if sent || !CanPass(from, t, now) {
      forall outcome | Ends(outcome, from, t, now, sent) && !outcome.Submitted?
        ensures outcome.StoreAfter(from.store) == from.store
      {
        NoErrorShows(outcome, from, t, now, sent);
      }
    } else {
      var selection :| IsSelected(selection, from, now) && selection.Collected? && t.Pass(selection.outputs);
      var outcome := ErrorShows(selection, from, t, usePending, now);
    }
  }

  /** What was consumed is never on offer again in a stateful wallet, whatever the node replies from then on. */
  lemma {:induction false} ConsumedIsLost(outcome: Outcome, store: Outputs, events: seq<Event>, r: Ref)
    requires outcome.SendFailed? && r in outcome.Taken() && r in store
    ensures r in SpentRefs(After(outcome.StoreAfter(store), events, false))
  {
    SpentStaysSpent(outcome.StoreAfter(store), events, r);
  }
}
