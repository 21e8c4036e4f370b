/** The wallet: picking change addresses, marking what is spent, and sending funds (client/wallet/wallet.go). */
module WalletModule {
  import opened Ledger
  import opened Sums
  import opened AddressManagement
  import opened BitMasks
  import opened OutputCollections
  import opened OutputManagement
  import opened CoinSelection
  import opened Transactions
  import opened BalanceCheck
  import opened Assembly

  /** What was consumed is marked in the store, and no two transactions consumed the same entry. */
  ghost predicate Remembered(history: seq<set<Ref>>, store: Outputs) {
    history == [] ||
      var n := |history| - 1;
      Remembered(history[..n], store) && history[n] <= SpentRefs(store) && forall i :: 0 <= i < n ==> history[i] !! history[n]
  }

  /** In a wallet that remembers, no two transactions consume the same entry. */
  lemma {:induction false} RememberedIsDisjoint(history: seq<set<Ref>>, store: Outputs, i: nat, j: nat)
    requires Remembered(history, store) && i < j < |history|
    ensures history[i] !! history[j]
  {
    var n := |history| - 1;
    if j < n {
      RememberedIsDisjoint(history[..n], store, i, j);
    }
  }

  lemma {:induction false} StillRemembered(history: seq<set<Ref>>, store: Outputs, later: Outputs)
    requires Remembered(history, store) && SpentRefs(store) <= SpentRefs(later)
    ensures Remembered(history, later)
    ensures forall i :: 0 <= i < |history| ==> history[i] <= SpentRefs(store)
  {
    if history != [] {
      StillRemembered(history[..|history| - 1], store, later);
    }
  }

  lemma MergeRemembers(history: seq<set<Ref>>, store: Outputs, reply: Outputs)
    requires Remembered(history, store)
    ensures Remembered(history, Merge(store, reply, false))
  {
    StillRemembered(history, store, Merge(store, reply, false));
  }

  lemma MarkRemembers(history: seq<set<Ref>>, store: Outputs, taken: set<Ref>)
    requires Remembered(history, store) && Offered(store, taken)
    ensures Remembered(history + [taken], MarkAll(store, taken))
  {
    MarkedAreSpent(store, taken);
    StillRemembered(history, store, MarkAll(store, taken));
    assert (history + [taken])[..|history|] == history;
    forall i | 0 <= i < |history| ensures history[i] !! taken {
      assert history[i] <= SpentRefs(store);
    }
  }

  lemma MarkedAreSpent(store: Outputs, taken: set<Ref>)
    requires Offered(store, taken)
    ensures SpentRefs(MarkAll(store, taken)) == SpentRefs(store) + taken && taken !! SpentRefs(store)
  {
  }

  /** The addresses that change may go to. */
  datatype Choices = Choices(remainder: WalletAddress, receive: WalletAddress, generated: WalletAddress, generatedIsSpent: bool) {
    /** The order of preference: the first unspent address, the last one, and only then one that is generated. */
    ghost function Preferred(consumed: Outputs): WalletAddress {
      if remainder !in Addresses(consumed) then remainder
      else if receive !in Addresses(consumed) then receive
      else generated
    }

    /** Only a generated address can be spent already, and only in a wallet imported with a spent bit ahead. */
    ghost predicate RunsIntoSpent(consumed: Outputs) {
      remainder in Addresses(consumed) && receive in Addresses(consumed) && generatedIsSpent
    }

    ghost function Remainder(consumed: Outputs, optionsRemainder: Option<WalletAddress>,
                             reusableAddress: bool): WalletAddress {
      match optionsRemainder
      case Some(chosen) => chosen
      case None => if reusableAddress then remainder else Preferred(consumed)
    }
  }

  /** The last index once an address is chosen: only a generated address moves it. */
  function LastIndex(last: nat, a: WalletAddress, options: Option<WalletAddress>, reusableAddress: bool): nat {
    if options.Some? || reusableAddress then last else Max(last, a.index)
  }

  class Wallet {
    const addressManager: AddressManager
    const outputManager: OutputManager
    const reusableAddress: bool
    /** What each transaction so far has consumed. */
    ghost var history: seq<set<Ref>>

    ghost predicate Own(a: WalletAddress)
      reads addressManager
    {
      a == addressManager.WalletAddressOf(a.index) && a.index <= addressManager.lastAddressIndex
    }

    ghost predicate OwnAll(o: Outputs)
      reads addressManager
    {
      forall r :: r in o ==> Own(r.addr)
    }

    ghost predicate Valid()
      reads this, addressManager, outputManager
    {
      && outputManager.addressManager == addressManager
      && addressManager.Swept()
      && OwnAll(outputManager.unspentOutputs)
      && (!outputManager.stateless ==> Remembered(history, outputManager.unspentOutputs))
    }

    /**
     * A new or imported wallet. The node is asked twice about the wallet's addresses; its replies are arbitrary but
     * for naming only addresses it was asked about.
     */
    constructor (seed: nat -> LedgerAddress, lastAddressIndex: nat, spentAddresses: seq<BitMask>, reusableAddress: bool,
                 stateless: bool, reply1: Outputs, reply2: Outputs)
      requires forall r :: r in reply1 || r in reply2 ==>
        r.addr == WalletAddress(seed(r.addr.index), r.addr.index) &&
        r.addr.index <= Max(lastAddressIndex, ScanUp(SpentIn(spentAddresses), 0))
      ensures Valid() && fresh(addressManager) && fresh(outputManager) && history == []
      ensures this.reusableAddress == reusableAddress && outputManager.stateless == stateless && addressManager.seed == seed
      ensures addressManager.Spent() == SpentIn(spentAddresses)
      ensures addressManager.lastAddressIndex == Max(lastAddressIndex, ScanUp(SpentIn(spentAddresses), 0))
      ensures (forall i :: i in SpentIn(spentAddresses) ==> i <= lastAddressIndex) ==> addressManager.NoneSpentAhead()
      ensures outputManager.unspentOutputs == Merge(Merge(map[], reply1, stateless), reply2, stateless)
    {
      var manager := new AddressManager(seed, lastAddressIndex, spentAddresses);
      FirstIsUnique(manager.Spent(), manager.firstUnspentAddressIndex, ScanUp(SpentIn(spentAddresses), 0));
      var outputs := new OutputManager(manager, stateless, reply1);
      addressManager := manager;
      outputManager := outputs;
      this.reusableAddress := reusableAddress;
      history := [];
      new;
      var _ := outputs.Refresh(Some(reply2));
    }

    // ---- Change addresses -----------------------------------------------------------------------------------

    ghost function ChoicesNow(): Choices
      reads addressManager
    {
      Choices(addressManager.WalletAddressOf(addressManager.firstUnspentAddressIndex),
        addressManager.WalletAddressOf(addressManager.lastUnspentAddressIndex),
        addressManager.WalletAddressOf(addressManager.lastAddressIndex + 1),
        addressManager.lastAddressIndex + 1 in addressManager.Spent())
    }

    /** An address that a transaction consuming `consumed` does not spend from. */
    ghost predicate NotUsed(a: WalletAddress, consumed: Outputs)
      reads addressManager
    {
      Own(a) && a !in Addresses(consumed)
    }

    /** The first unspent address, unless it is spent from; then the last one, unless that is; then a new one. */
    ghost predicate IsNextBest(a: WalletAddress, consumed: Outputs)
      reads addressManager
    {
      var m := addressManager;
      var first, last := m.WalletAddressOf(m.firstUnspentAddressIndex), m.WalletAddressOf(m.lastUnspentAddressIndex);
      && (first !in Addresses(consumed) ==> a == first)
      && (first in Addresses(consumed) && last !in Addresses(consumed) ==> a == last)
      && (first in Addresses(consumed) && last in Addresses(consumed) ==> a == m.WalletAddressOf(m.lastAddressIndex + 1))
    }

    /** Change goes where the caller says, else to the first unspent address of a wallet that reuses it, else to the next best. */
    ghost predicate TakesChange(a: WalletAddress, consumed: Outputs, optionsRemainder: Option<WalletAddress>)
      reads addressManager
    {
      && (optionsRemainder.Some? ==> a == optionsRemainder.value)
      && (optionsRemainder.None? && reusableAddress ==>
        a == addressManager.WalletAddressOf(addressManager.firstUnspentAddressIndex))
      && (optionsRemainder.None? && !reusableAddress ==> IsNextBest(a, consumed))
    }

    /** The address chosen for change, in the terms of the wallet. */
    lemma ChangeIsTaken(a: WalletAddress, consumed: Outputs, optionsRemainder: Option<WalletAddress>)
      ensures a == ChoicesNow().Remainder(consumed, optionsRemainder, reusableAddress) <==>
        TakesChange(a, consumed, optionsRemainder)
    {
    }

    method NotSpentFrom(consumed: Outputs) returns (a: WalletAddress)
      requires addressManager.Swept() && OwnAll(consumed)
      modifies addressManager
      ensures addressManager.Swept() && addressManager.Spent() == old(addressManager.Spent())
      ensures addressManager.lastAddressIndex == Max(old(addressManager.lastAddressIndex), a.index)
      ensures old(addressManager.NoneSpentAhead()) ==> addressManager.NoneSpentAhead() && !old(ChoicesNow()).RunsIntoSpent(consumed)
      ensures a == old(ChoicesNow()).Preferred(consumed) && NotUsed(a, consumed) && old(IsNextBest(a, consumed))
      ensures a.index in addressManager.Spent() <==> old(ChoicesNow()).RunsIntoSpent(consumed)
    {
      var remainder := addressManager.FirstUnspentAddress();
      var receive := addressManager.LastUnspentAddress();
      var spendFromRemainderAddress := remainder in Addresses(consumed);
      var spendFromReceiveAddress := receive in Addresses(consumed);
      if spendFromRemainderAddress && spendFromReceiveAddress {
        a := addressManager.NewAddress();
      } else if spendFromRemainderAddress && !spendFromReceiveAddress {
        a := receive;
      } else {
        a := remainder;
      }
    }

    method ChooseRemainderAddress(consumed: Outputs, optionsRemainder: Option<WalletAddress>) returns (a: WalletAddress)
      requires addressManager.Swept() && OwnAll(consumed)
      modifies addressManager
      ensures addressManager.Swept() && addressManager.Spent() == old(addressManager.Spent())
      ensures addressManager.lastAddressIndex == LastIndex(old(addressManager.lastAddressIndex), a, optionsRemainder, reusableAddress)
      ensures old(addressManager.NoneSpentAhead()) ==> addressManager.NoneSpentAhead()
      ensures a == old(ChoicesNow()).Remainder(consumed, optionsRemainder, reusableAddress)
      ensures old(TakesChange(a, consumed, optionsRemainder))
      ensures optionsRemainder.None? && !reusableAddress ==>
        NotUsed(a, consumed) && (a.index in addressManager.Spent() <==> old(ChoicesNow()).RunsIntoSpent(consumed))
    {
      match optionsRemainder {
        case Some(chosen) => a := chosen;
        case None =>
          if reusableAddress {
            a := addressManager.FirstUnspentAddress();
          } else {
            a := NotSpentFrom(consumed);
          }
      }
    }

    method ChooseToAddress(consumed: Outputs, optionsToAddress: Option<WalletAddress>) returns (a: WalletAddress)
      requires addressManager.Swept() && OwnAll(consumed)
      modifies addressManager
      ensures addressManager.Swept() && addressManager.Spent() == old(addressManager.Spent())
      ensures addressManager.lastAddressIndex == LastIndex(old(addressManager.lastAddressIndex), a, optionsToAddress, reusableAddress)
      ensures old(addressManager.NoneSpentAhead()) ==> addressManager.NoneSpentAhead()
      ensures match optionsToAddress
        case Some(chosen) => a == chosen
        case None => if reusableAddress then
            a == addressManager.WalletAddressOf(addressManager.lastUnspentAddressIndex)
          else a == old(ChoicesNow()).Preferred(consumed) && old(IsNextBest(a, consumed))
      ensures optionsToAddress.None? && !reusableAddress ==>
        NotUsed(a, consumed) && (a.index in addressManager.Spent() <==> old(ChoicesNow()).RunsIntoSpent(consumed))
    {
      match optionsToAddress {
        case Some(chosen) => a := chosen;
        case None =>
          if reusableAddress {
            a := addressManager.LastUnspentAddress();
          } else {
            a := NotSpentFrom(consumed);
          }
      }
    }

    /** Marking what is consumed does not touch an address chosen in this way. */
    lemma NotUsedIsNotMarked(a: WalletAddress, consumed: Outputs)
      requires OwnAll(consumed) && NotUsed(a, consumed)
      ensures a.index !in set x | x in Addresses(consumed) :: x.index
    {
      forall x | x in Addresses(consumed) ensures x.index != a.index {
        assert Own(x) && Own(a);
      }
    }

    // ---- Marking --------------------------------------------------------------------------------------------

    method MarkOutputsSpent(consumed: Outputs)
      modifies outputManager
      ensures outputManager.unspentOutputs == MarkAll(old(outputManager.unspentOutputs), consumed.Keys)
      ensures Marks(outputManager.unspentOutputs, old(outputManager.unspentOutputs), consumed.Keys)
    {
      var left := consumed.Keys;
      ghost var store := outputManager.unspentOutputs;
      while left != {}
        invariant forall r :: r in left ==> r in consumed
        invariant outputManager.unspentOutputs == MarkAll(store, consumed.Keys - left)
        decreases left
      {
        var r :| r in left;
        outputManager.MarkOutputSpent(r);
        left := left - {r};
      }
      assert consumed.Keys - left == consumed.Keys;
    }

    method MarkAddressesSpent(consumed: Outputs)
      requires addressManager.Swept() && OwnAll(consumed)
      modifies addressManager
      ensures addressManager.Swept() && (old(addressManager.NoneSpentAhead()) ==> addressManager.NoneSpentAhead())
      ensures addressManager.Spent() == old(addressManager.Spent()) + set a | a in Addresses(consumed) :: a.index
      ensures addressManager.lastAddressIndex == Max(old(addressManager.lastAddressIndex), addressManager.firstUnspentAddressIndex)
    {
      var left := Addresses(consumed);
      while left != {}
        invariant addressManager.Swept() && (old(addressManager.NoneSpentAhead()) ==> addressManager.NoneSpentAhead())
        invariant forall a :: a in left ==> a in Addresses(consumed) && a.index <= old(addressManager.lastAddressIndex)
        invariant forall i :: i in addressManager.Spent() <==>
          (i in old(addressManager.Spent()) || exists a :: a in Addresses(consumed) && a !in left && a.index == i)
        invariant addressManager.lastAddressIndex == Max(old(addressManager.lastAddressIndex), addressManager.firstUnspentAddressIndex)
        decreases left
      {
        var a :| a in left;
        addressManager.MarkAddressSpent(a.index);
        left := left - {a};
      }
    }

    /** Marks what a transaction consumes, and in a wallet that does not reuse its address also where it was. */
    method MarkOutputsAndAddressesSpent(consumed: Outputs)
      requires Valid() && Offered(outputManager.unspentOutputs, consumed.Keys)
      modifies this, addressManager, outputManager
      ensures Valid() && (old(addressManager.NoneSpentAhead()) ==> addressManager.NoneSpentAhead())
      ensures outputManager.unspentOutputs == MarkAll(old(outputManager.unspentOutputs), consumed.Keys)
      ensures Marks(outputManager.unspentOutputs, old(outputManager.unspentOutputs), consumed.Keys)
      ensures addressManager.Spent() == old(addressManager.Spent()) +
        if reusableAddress then {} else set a | a in Addresses(consumed) :: a.index
      ensures history == old(history) + [consumed.Keys]
      ensures addressManager.lastAddressIndex == Max(old(addressManager.lastAddressIndex), addressManager.firstUnspentAddressIndex)
    {
      if !outputManager.stateless {
        MarkRemembers(history, outputManager.unspentOutputs, consumed.Keys);
      }
      MarkOutputsSpent(consumed);
      if !reusableAddress {
        MarkAddressesSpent(consumed);
      }
      history := history + [consumed.Keys];
    }

    // ---- Sending funds --------------------------------------------------------------------------------------

    /** What the store holds once the node's reply, if any, is merged. */
    ghost function Refreshed(reply: Option<Outputs>): Outputs
      reads outputManager
    {
      if reply.Some? then Merge(outputManager.unspentOutputs, reply.value, outputManager.stateless)
      else outputManager.unspentOutputs
    }

    /** The addresses funds are taken from: those given, or all. */
    ghost function SourceAddresses(sources: seq<WalletAddress>): seq<WalletAddress>
      reads addressManager
    {
      if sources != [] then sources else AllAddresses(addressManager.seed, addressManager.lastAddressIndex + 1)
    }

    /** Looking at the addresses leaves everything about them as it is. */
    twostate predicate SameAddresses()
      reads addressManager
    {
      && addressManager.Spent() == old(addressManager.Spent())
      && addressManager.lastAddressIndex == old(addressManager.lastAddressIndex)
      && ChoicesNow() == old(ChoicesNow())
    }

    /** Once all addresses have been swept, what is spent and the last index determine the rest. */
    twostate lemma SweptIsSame()
      requires old(addressManager.Swept()) && addressManager.Swept()
      requires addressManager.Spent() == old(addressManager.Spent())
      requires addressManager.lastAddressIndex == old(addressManager.lastAddressIndex)
      ensures SameAddresses()
    {
      var m := addressManager;
      FirstIsUnique(m.Spent(), old(m.firstUnspentAddressIndex), m.firstUnspentAddressIndex);
      LastIsUnique(m.Spent(), m.lastAddressIndex, old(m.lastUnspentAddressIndex), m.lastUnspentAddressIndex);
    }

    method Refresh(reply: Option<Outputs>) returns (ok: bool)
      requires Valid() && (reply.Some? ==> OwnAll(reply.value))
      modifies addressManager, outputManager
      ensures Valid() && SameAddresses() && ok == reply.Some?
      ensures outputManager.unspentOutputs == old(Refreshed(reply))
    {
      if reply.Some? && !outputManager.stateless {
        MergeRemembers(history, outputManager.unspentOutputs, reply.value);
      }
      ok := outputManager.Refresh(reply);
      SweptIsSame();
    }

    method AddressesOf(sources: seq<WalletAddress>) returns (addresses: seq<WalletAddress>)
      requires addressManager.Swept()
      modifies addressManager
      ensures addressManager.Swept() && SameAddresses() && addresses == old(SourceAddresses(sources))
      ensures sources != [] ==> addresses == sources
      ensures sources == [] ==> forall a :: Own(a) ==> a in addresses
    {
      addresses := sources;
      if |addresses| == 0 {
        addresses := addressManager.Addresses();
      }
      SweptIsSame();
    }

    /** The value outputs on offer. */
    method ValueOutputsAt(includePending: bool, addresses: seq<WalletAddress>) returns (view: Outputs)
      requires addressManager.Swept() && outputManager.addressManager == addressManager && addresses != []
      modifies addressManager
      ensures addressManager.Swept() && SameAddresses()
      ensures view == ViewOf(outputManager.unspentOutputs, includePending, addresses)
    {
      var outputs := outputManager.GetOutputs(includePending, addresses);
      view := ValueOutputsOnly(outputs);
      IsTheView(view, outputManager.unspentOutputs, includePending, addresses);
      SweptIsSame();
    }

    /** The value outputs that funds may be taken from; a failed refresh is ignored. */
    method ViewForFunding(includePending: bool, sources: seq<WalletAddress>, reply: Option<Outputs>)
      returns (view: Outputs, addresses: seq<WalletAddress>)
      requires Valid() && (reply.Some? ==> OwnAll(reply.value))
      modifies addressManager, outputManager
      ensures Valid() && SameAddresses() && outputManager.unspentOutputs == old(Refreshed(reply))
      ensures addresses == old(SourceAddresses(sources))
      ensures view == ViewOf(outputManager.unspentOutputs, includePending, addresses)
    {
      var _ := Refresh(reply);
      addresses := AddressesOf(sources);
      view := ValueOutputsAt(includePending, addresses);
    }

    ghost predicate AreSources(from: Sources, d: Destinations, usePending: bool, sources: seq<WalletAddress>,
                               reply: Option<Outputs>)
      reads addressManager, outputManager
    {
      && from.store == Refreshed(reply)
      && from.addresses == SourceAddresses(sources)
      && from.view == ViewOf(from.store, usePending, from.addresses)
      && from.request == Request(d)
    }

    /** Without sources, every stored value output that is not spent, and is confirmed or may be pending, may be taken. */
    lemma OwnIsInView(usePending: bool, r: Ref)
      requires Valid() && r in outputManager.unspentOutputs
      ensures r in ViewOf(outputManager.unspentOutputs, usePending, SourceAddresses([])) <==>
        var out := outputManager.unspentOutputs[r];
        !out.kind.Alias? && !out.spent && (out.confirmed || usePending)
    {
      IsListed(addressManager.seed, addressManager.lastAddressIndex + 1, r.addr.index);
      assert Own(r.addr);
    }

    /** Collects the funds for a transfer. */
    method CollectFor(d: Destinations, usePending: bool, sources: seq<WalletAddress>, reply: Option<Outputs>, now: Time)
      returns (selection: Selection, ghost from: Sources)
      requires Valid() && (reply.Some? ==> OwnAll(reply.value))
      modifies addressManager, outputManager
      ensures Valid() && SameAddresses() && outputManager.unspentOutputs == from.store
      ensures old(AreSources(from, d, usePending, sources, reply))
      ensures PartOf(from.view, from.store) && forall r :: r in from.view ==> !from.view[r].kind.Alias?
      ensures IsSelected(selection, from, now) && IsFunding(selection, from, now)
      ensures IsProper(d, sources) ==> IsExactFunding(selection, from, now)
    {
      var requiredFunds := RequiredFunds(d);
      SourcesDiffer(sources);
      var view, addresses := ViewForFunding(usePending, sources, reply);
      ghost var picks;
      selection, picks := CoinSelection.CollectOutputsForFunding(Some(requiredFunds), view, addresses, now);
      from := Sources(outputManager.unspentOutputs, view, addresses, requiredFunds);
      IsInView(from.store, usePending, from.addresses);
      SelectionIsFunding(selection, picks, d, from, now);
    }

    /** The same; what is collected for a proper request meets it. */
    method CollectToSend(d: Destinations, usePending: bool, sources: seq<WalletAddress>, reply: Option<Outputs>,
                         now: Time)
      returns (selection: Selection, ghost from: Sources)
      requires Valid() && (reply.Some? ==> OwnAll(reply.value))
      modifies addressManager, outputManager
      ensures Valid() && SameAddresses() && outputManager.unspentOutputs == from.store
      ensures old(AreSources(from, d, usePending, sources, reply))
      ensures IsSelected(selection, from, now) && IsFunding(selection, from, now)
      ensures IsProper(d, sources) ==> IsExactFunding(selection, from, now)
      ensures IsSane(d, sources, from, addressManager.seed) && selection.Collected? ==> Sound(selection.outputs, d)
    {
      selection, from := CollectFor(d, usePending, sources, reply, now);
      OwnIsOwned(from.store);
      CollectedIsSound(selection, d, sources, from, now, addressManager.seed);
    }

    lemma OwnIsOwned(store: Outputs)
      requires OwnAll(store)
      ensures OwnedBy(store, addressManager.seed)
    {
    }

    lemma SourcesDiffer(sources: seq<WalletAddress>)
      ensures Distinct(sources) ==> Distinct(SourceAddresses(sources))
    {
      AllAddressesDiffer(addressManager.seed, addressManager.lastAddressIndex + 1);
    }

    /**
     * Makes a transaction of what is collected, with an address for what is left over. `passes` is the outcome of the
     * checks outside the wallet.
     */
    method MakeTransaction(taken: Outputs, d: Destinations, lock: LockOptions,
                           remainderAddress: Option<WalletAddress>, passes: bool)
      returns (built: Built, ghost to: WalletAddress)
      requires Valid() && TakenFrom(taken, outputManager.unspentOutputs)
      modifies addressManager
      ensures Valid() && OwnAll(taken) && (old(addressManager.NoneSpentAhead()) ==> addressManager.NoneSpentAhead())
      ensures addressManager.Spent() == old(addressManager.Spent())
      ensures addressManager.lastAddressIndex == LastIndex(old(addressManager.lastAddressIndex), to, remainderAddress, reusableAddress)
      ensures to == old(ChoicesNow()).Remainder(taken, remainderAddress, reusableAddress)
      ensures remainderAddress.None? && !reusableAddress ==>
        NotUsed(to, taken) && (to.index in addressManager.Spent() <==> old(ChoicesNow()).RunsIntoSpent(taken))
      ensures IsChecked(built, passes, taken, d, lock)
      ensures Sound(taken, d) ==> DecidedBy(built, passes, taken, d, lock, to.ledger)
    {
      TakenIsOwn(taken, outputManager.unspentOutputs);
      var chosen := ChooseRemainderAddress(taken, remainderAddress);
      to := chosen;
      built := BuildTransaction(taken, d, lock, chosen.ledger, passes);
    }

    /** Makes a transaction of what is collected, marks what it consumes and sends it. */
    method Finish(selection: Selection, d: Destinations, lock: LockOptions, remainderAddress: Option<WalletAddress>,
                  passes: bool, sent: bool)
      returns (outcome: Outcome, ghost to: WalletAddress)
      requires Valid() && selection.Collected? && TakenFrom(selection.outputs, outputManager.unspentOutputs)
      modifies this, addressManager, outputManager
      ensures Valid() && (old(addressManager.NoneSpentAhead()) ==> addressManager.NoneSpentAhead())
      ensures !outcome.Unfunded? && outcome.selection == selection && outcome.IsConsistent(sent)
      ensures IsChecked(outcome.built, passes, selection.outputs, d, lock)
      ensures Sound(selection.outputs, d) ==> DecidedBy(outcome.built, passes, selection.outputs, d, lock, to.ledger)
      ensures to == old(ChoicesNow()).Remainder(selection.outputs, remainderAddress, reusableAddress)
      ensures outputManager.unspentOutputs == outcome.StoreAfter(old(outputManager.unspentOutputs))
      ensures history == old(history) + if outcome.Passed() then [selection.outputs.Keys] else []
      ensures addressManager.Spent() == old(addressManager.Spent()) + if reusableAddress then {} else outcome.NewlySpent()
      ensures addressManager.lastAddressIndex == Max(
        LastIndex(old(addressManager.lastAddressIndex), to, remainderAddress, reusableAddress), addressManager.firstUnspentAddressIndex)
      ensures remainderAddress.None? && !reusableAddress ==>
        to !in Addresses(selection.outputs) && (to.index in addressManager.Spent() <==> old(ChoicesNow()).RunsIntoSpent(selection.outputs))
    {
      var built;
      built, to := MakeTransaction(selection.outputs, d, lock, remainderAddress, passes);
      if !built.Checked? {
        return Invalid(selection, built), to;
      }
      if remainderAddress.None? && !reusableAddress {
        NotUsedIsNotMarked(to, selection.outputs);
      }
      MarkOutputsAndAddressesSpent(selection.outputs);
      outcome := if sent then Submitted(selection, built) else SendFailed(selection, built);
    }

    /** What becomes of a selection: a request that is not funded leaves everything as it is. */
    method Conclude(selection: Selection, d: Destinations, lock: LockOptions, remainderAddress: Option<WalletAddress>,
                    passes: bool, sent: bool)
      returns (outcome: Outcome, ghost to: WalletAddress)
      requires Valid() && (selection.Collected? ==> TakenFrom(selection.outputs, outputManager.unspentOutputs))
      modifies this, addressManager, outputManager
      ensures Valid() && (old(addressManager.NoneSpentAhead()) ==> addressManager.NoneSpentAhead())
      ensures outcome.selection == selection && outcome.IsConsistent(sent)
      ensures outcome.IsSound(passes, d, lock)
      ensures Sound(outcome.Taken(), d) ==> outcome.IsDecided(passes, d, lock, to.ledger)
      ensures !outcome.Unfunded? ==> to == old(ChoicesNow()).Remainder(outcome.Taken(), remainderAddress, reusableAddress)
      ensures outputManager.unspentOutputs == outcome.StoreAfter(old(outputManager.unspentOutputs))
      ensures history == old(history) + if outcome.Passed() then [outcome.Taken().Keys] else []
      ensures addressManager.Spent() == old(addressManager.Spent()) + if reusableAddress then {} else outcome.NewlySpent()
      ensures addressManager.lastAddressIndex == Max(addressManager.firstUnspentAddressIndex,
        outcome.LastIndexWith(old(addressManager.lastAddressIndex), to, remainderAddress, reusableAddress))
      ensures !outcome.Unfunded? && remainderAddress.None? && !reusableAddress ==>
        to !in Addresses(outcome.Taken()) && (to.index in addressManager.Spent() <==> old(ChoicesNow()).RunsIntoSpent(outcome.Taken()))
    {
      to := WalletAddress(LedgerAddress(0), 0);
      if selection.Collected? {
        outcome, to := Finish(selection, d, lock, remainderAddress, passes, sent);
      } else {
        outcome := Unfunded(selection);
      }
    }

    /**
     * Sends funds. `passes` is the outcome of the checks outside the wallet, `sent` the node's answer to the
     * transaction. `from` is what the funds are taken from, `to` where what is left over goes.
     */
    method SendFunds(d: Destinations, lock: LockOptions, usePending: bool, sources: seq<WalletAddress>,
                     remainderAddress: Option<WalletAddress>, reply: Option<Outputs>, now: Time, passes: bool, sent: bool)
      returns (outcome: Outcome, ghost from: Sources, ghost to: WalletAddress)
      requires Valid() && (reply.Some? ==> OwnAll(reply.value))
      modifies this, addressManager, outputManager
      ensures Valid() && (old(addressManager.NoneSpentAhead()) ==> addressManager.NoneSpentAhead())
      ensures old(AreSources(from, d, usePending, sources, reply))
      ensures !outcome.Unfunded? ==> to == old(ChoicesNow()).Remainder(outcome.Taken(), remainderAddress, reusableAddress)
      // the request is funded, or refused for want of funds or for too many outputs; for a proper one it is said when
      ensures IsSelected(outcome.selection, from, now) && IsFunding(outcome.selection, from, now)
      ensures IsProper(d, sources) ==> IsExactFunding(outcome.selection, from, now)
      // a transaction that passes the checks balances, is signed for, and pays everyone; the node decides whether it is sent
      ensures outcome.IsConsistent(sent)
      ensures outcome.IsSound(passes, d, lock)
      // what becomes of a proper request that is funded is decided by its outputs
      ensures !outcome.Unfunded? && IsSane(d, sources, from, addressManager.seed) ==>
        Sound(outcome.Taken(), d) && outcome.IsDecided(passes, d, lock, to.ledger)
      // what is consumed is marked exactly when the checks are passed, whether or not the transaction is sent
      ensures outputManager.unspentOutputs == outcome.StoreAfter(from.store)
      ensures history == old(history) + if outcome.Passed() then [outcome.Taken().Keys] else []
      ensures addressManager.Spent() == old(addressManager.Spent()) + if reusableAddress then {} else outcome.NewlySpent()
      // the last address moves only to one that is generated for change, or to one that is the first left unspent
      ensures addressManager.lastAddressIndex == Max(addressManager.firstUnspentAddressIndex,
        outcome.LastIndexWith(old(addressManager.lastAddressIndex), to, remainderAddress, reusableAddress))
      // change goes to an address that is not spent from, and is unspent before and afterwards unless a spent one was generated
      ensures !outcome.Unfunded? && remainderAddress.None? && !reusableAddress ==>
        to !in Addresses(outcome.Taken()) && (to.index in addressManager.Spent() <==> old(ChoicesNow()).RunsIntoSpent(outcome.Taken()))
    {
      var selection;
      selection, from := CollectToSend(d, usePending, sources, reply, now);
      outcome, to := Conclude(selection, d, lock, remainderAddress, passes, sent);
    }

    lemma TakenIsOwn(taken: Outputs, store: Outputs)
      requires OwnAll(store) && PartOf(taken, store)
      ensures OwnAll(taken)
    {
    }
  }

  lemma FirstIsUnique(spent: set<nat>, i: nat, j: nat)
    requires IsFirstUnspent(spent, i) && IsFirstUnspent(spent, j)
    ensures i == j
  {
  }

  lemma LastIsUnique(spent: set<nat>, last: nat, i: nat, j: nat)
    requires IsLastUnspent(spent, last, i) && IsLastUnspent(spent, last, j)
    ensures i == j
  {
  }

  // ---- What becomes of a request ----------------------------------------------------------------------------

  datatype Outcome =
    | Unfunded(selection: Selection)
    | Invalid(selection: Selection, built: Built)
    | SendFailed(selection: Selection, built: Built)
    | Submitted(selection: Selection, built: Built)
  {
    /** The wallet's own checks are passed. */
    predicate Passed() {
      SendFailed? || Submitted?
    }

    /** The outcome says what was reached, and the node decides whether a transaction that passes is sent. */
    predicate IsConsistent(sent: bool) {
      && (Unfunded? <==> !selection.Collected?)
      && (!Unfunded? ==> (Passed() <==> built.Checked?))
      && (Submitted? <==> Passed() && sent)
    }

    function Taken(): Outputs {
      if selection.Collected? then selection.outputs else map[]
    }

    /** What is consumed is marked as soon as the checks are passed. */
    ghost function StoreAfter(store: Outputs): Outputs {
      if Passed() then MarkAll(store, Taken().Keys) else store
    }

    function LastIndexWith(last: nat, to: WalletAddress, options: Option<WalletAddress>, reusableAddress: bool): nat {
      if Unfunded? then last else LastIndex(last, to, options, reusableAddress)
    }

    /** What is true of the transaction, if one was made. */
    ghost predicate IsSound(passes: bool, d: Destinations, lock: LockOptions) {
      !Unfunded? ==> IsChecked(built, passes, Taken(), d, lock)
    }

    ghost predicate IsDecided(passes: bool, d: Destinations, lock: LockOptions, to: LedgerAddress) {
      !Unfunded? ==> DecidedBy(built, passes, Taken(), d, lock, to)
    }

    ghost function NewlySpent(): set<nat> {
      if Passed() then set a | a in Addresses(Taken()) :: a.index else {}
    }
  }

  /** The value outputs on offer at the given addresses. */
  ghost function ViewOf(store: Outputs, includePending: bool, addresses: seq<WalletAddress>): Outputs {
    map r | r in store && r.addr in addresses && OnOffer(store[r], includePending) && !store[r].kind.Alias? :: store[r]
  }

  lemma IsListed(seed: nat -> LedgerAddress, n: nat, i: nat)
    requires i < n
    ensures WalletAddress(seed(i), i) in AllAddresses(seed, n)
  {
  }

  lemma IsTheView(view: Outputs, store: Outputs, includePending: bool, addresses: seq<WalletAddress>)
    requires PartOf(view, Unspent(store, includePending, addresses))
    requires forall r :: r in Unspent(store, includePending, addresses) ==>
      (r in view <==> !Unspent(store, includePending, addresses)[r].kind.Alias?)
    ensures view == ViewOf(store, includePending, addresses)
  {
  }

  /** Between one and the permitted number of entries of the store, none of them spent. */
  ghost predicate TakenFrom(consumed: Outputs, store: Outputs) {
    PartOf(consumed, store) && Offered(store, consumed.Keys) && 1 <= |consumed| <= MAX_INPUT_COUNT
  }

  /** What a request is funded from: the store, what of it may be taken, from which addresses, and what is asked for. */
  datatype Sources = Sources(store: Outputs, view: Outputs, addresses: seq<WalletAddress>, request: Balances)

  /** What is collected can be unlocked now, holds something asked for, and is on offer at one of the addresses. */
  ghost predicate IsFunding(selection: Selection, from: Sources, now: Time) {
    && !selection.NoRequest?
    && (selection.Collected? ==>
      TakenFrom(selection.outputs, from.store) && selection.outputs.Keys <= Eligible(from.view, from.request, now))
  }

  /** Whatever is asked for, the selection comes from going through what is eligible, address by address. */
  ghost predicate IsSelected(selection: Selection, from: Sources, now: Time) {
    exists picks :: Justified(selection, picks, from.view, from.addresses, from.request, Eligible(from.view, from.request, now))
  }

  /** Someone is sent something, no one is sent nothing, and no source is listed twice. */
  ghost predicate IsProper(d: Destinations, sources: seq<WalletAddress>) {
    AllPositive(d) && d != map[] && Distinct(sources)
  }

  /**
   * A proper request is refused for want of funds exactly when the eligible outputs do not cover it, and for too many
   * outputs only when there are too many of them. What is collected covers it, and not without one of its outputs.
   */
  ghost predicate IsExactFunding(selection: Selection, from: Sources, now: Time) {
    && (selection.NotEnoughFunds? <==> !IsCovered(from.view, from.addresses, from.request, now))
    && (selection.TooManyOutputs? ==> MAX_INPUT_COUNT < |EligibleAt(from.view, from.addresses, from.request, now)|)
    && (selection.Collected? ==> CoversFunding(selection.outputs, from.request) && IsMinimal(selection.outputs, from.request))
  }

  ghost predicate IsMinimal(outputs: Outputs, request: Balances) {
    exists r :: r in outputs && !CoversFunding(outputs - {r}, request)
  }

  lemma SelectionIsFunding(selection: Selection, picks: seq<Ref>, d: Destinations, from: Sources, now: Time)
    requires PartOf(from.view, from.store) && forall r :: r in from.view ==> !from.store[r].spent
    requires from.request == Request(d)
    requires Justified(selection, picks, from.view, from.addresses, from.request, Eligible(from.view, from.request, now))
    ensures IsSelected(selection, from, now) && IsFunding(selection, from, now)
    ensures IsProper(d, from.addresses) ==> IsExactFunding(selection, from, now)
  {
    if selection.Collected? {
      PicksAreTaken(selection.outputs, picks, from.view, from.store, from.addresses, from.request, now);
    }
    if IsProper(d, from.addresses) {
      var c := SomethingIsRequired(d);
      NotAskedNotRequired(d, c);
      SelectionIsExact(selection, picks, from, now, c);
    }
  }

  lemma IsInView(store: Outputs, includePending: bool, addresses: seq<WalletAddress>)
    ensures PartOf(ViewOf(store, includePending, addresses), store)
    ensures forall r :: r in ViewOf(store, includePending, addresses) ==> !store[r].spent && !store[r].kind.Alias?
  {
  }

  lemma PicksAreTaken(outputs: Outputs, picks: seq<Ref>, view: Outputs, store: Outputs, addresses: seq<WalletAddress>,
                      request: Balances, now: Time)
    requires Visited(picks, Eligible(view, request, now), addresses) && ArePicked(outputs, picks, view)
    requires 1 <= |picks| <= MAX_INPUT_COUNT && PartOf(view, store) && forall r :: r in view ==> !store[r].spent
    ensures TakenFrom(outputs, store) && outputs.Keys <= Eligible(view, request, now)
  {
    FewPicks(outputs, picks, view);
    forall r | r in outputs ensures r in Eligible(view, request, now) {
      assert multiset(picks)[r] > 0;
    }
  }

  lemma SelectionIsExact(selection: Selection, picks: seq<Ref>, from: Sources, now: Time, c: Color)
    requires Distinct(from.addresses) && c in from.request && from.request[c] > 0
    requires Justified(selection, picks, from.view, from.addresses, from.request, Eligible(from.view, from.request, now))
    ensures IsExactFunding(selection, from, now)
  {
    SelectionIsComplete(selection, picks, from.view, from.addresses, from.request, now);
    if selection.Collected? {
      SelectionIsSound(selection, picks, from.view, from.addresses, from.request, now);
    }
  }

  lemma FewPicks(outputs: Outputs, picks: seq<Ref>, unspent: Outputs)
    requires ArePicked(outputs, picks, unspent) && picks != []
    ensures 1 <= |outputs| <= |picks|
  {
    assert picks[0] in outputs;
    NoMoreKeysThan(outputs.Keys, picks);
  }

  lemma {:induction false} NoMoreKeysThan<T>(keys: set<T>, s: seq<T>)
    requires forall x :: x in keys ==> x in s
    ensures |keys| <= |s|
  {
    if s != [] {
      NoMoreKeysThan(keys - {s[|s| - 1]}, s[..|s| - 1]);
    }
  }

  lemma SomethingIsRequired(d: Destinations) returns (c: Color)
    requires AllPositive(d) && d != map[]
    ensures Required(d, c) > 0
  {
    var a :| a in d;
    var sent :| sent in Positive(d[a]);
    c := if sent == Mint then IOTA else sent;
    SumPick(d.Keys, a, PaidAt(d, c));
  }

  lemma NotAskedNotRequired(d: Destinations, c: Color)
    ensures c !in AskedColors(d) ==> Required(d, c) == 0
  {
    if c !in AskedColors(d) {
      forall a | a in d ensures PaidAt(d, c)(a) == 0 {
        assert forall x :: x in d[a] ==> PaidIn(x) in AskedColors(d);
        assert c != Mint ==> c !in d[a];
        assert c == IOTA ==> Mint !in d[a];
      }
      SumDropZeros({}, d.Keys, PaidAt(d, c));
    }
  }

  // ---- When a request is sound ------------------------------------------------------------------------------

  /** Every index has an address of its own. */
  ghost predicate Injective(seed: nat -> LedgerAddress) {
    forall i, j :: seed(i) == seed(j) ==> i == j
  }

  /** The node gives an identifier one output only, and files what an address can sign for under that address. */
  ghost predicate WellFiled(store: Outputs, seed: nat -> LedgerAddress) {
    && Injective(seed)
    && (forall q, r :: q in store && r in store && q.id == r.id ==> store[q].kind == store[r].kind)
    && (forall r :: r in store && (store[r].kind.SigLockedSingle? || store[r].kind.SigLockedColored?) ==>
      store[r].kind.address == r.addr.ledger)
  }

  /** Everything is filed under addresses of the wallet. */
  ghost predicate OwnedBy(store: Outputs, seed: nat -> LedgerAddress) {
    forall r :: r in store ==> r.addr == WalletAddress(seed(r.addr.index), r.addr.index)
  }

  /** A proper request on a store that is well filed. */
  ghost predicate IsSane(d: Destinations, sources: seq<WalletAddress>, from: Sources, seed: nat -> LedgerAddress) {
    IsProper(d, sources) && WellFiled(from.store, seed)
  }

  /** In a store that is well filed no identifier can be consumed twice: what can be unlocked belongs to one address. */
  lemma TakenOnce(taken: Outputs, view: Outputs, store: Outputs, funding: Balances, now: Time,
                  seed: nat -> LedgerAddress)
    requires WellFiled(store, seed) && OwnedBy(store, seed)
    requires PartOf(view, store) && (forall r :: r in view ==> !view[r].kind.Alias?)
    requires taken.Keys <= Eligible(view, funding, now)
    ensures UniqueIDs(taken)
  {
    forall q, r | q in taken && r in taken && q.id == r.id ensures q == r {
      assert q in Eligible(view, funding, now) && r in Eligible(view, funding, now);
      assert view[q].kind == view[r].kind && Unlockable(view[q], q.addr, now) && Unlockable(view[r], r.addr, now);
      assert q.addr.ledger == r.addr.ledger;
      assert seed(q.addr.index) == seed(r.addr.index);
    }
  }

  lemma FundingIsSound(taken: Outputs, d: Destinations, from: Sources, now: Time, seed: nat -> LedgerAddress)
    requires IsFunding(Collected(taken), from, now) && IsExactFunding(Collected(taken), from, now)
    requires AllPositive(d) && d != map[] && from.request == Request(d)
    requires PartOf(from.view, from.store) && forall r :: r in from.view ==> !from.view[r].kind.Alias?
    requires WellFiled(from.store, seed) && OwnedBy(from.store, seed)
    ensures Sound(taken, d)
  {
    TakenOnce(taken, from.view, from.store, from.request, now, seed);
    forall r | r in taken ensures taken[r].kind.Funds() != map[] {
      assert r in Eligible(from.view, from.request, now);
    }
    forall c ensures Required(d, c) <= Total(taken, c) {
      NotAskedNotRequired(d, c);
      assert c in from.request ==> from.request[c] <= Total(taken, c);
    }
  }

  /** What is collected for a proper request meets it. */
  lemma CollectedIsSound(selection: Selection, d: Destinations, sources: seq<WalletAddress>, from: Sources, now: Time,
                         seed: nat -> LedgerAddress)
    requires OwnedBy(from.store, seed) && from.request == Request(d)
    requires PartOf(from.view, from.store) && forall r :: r in from.view ==> !from.view[r].kind.Alias?
    requires IsFunding(selection, from, now) && (IsProper(d, sources) ==> IsExactFunding(selection, from, now))
    ensures IsSane(d, sources, from, seed) && selection.Collected? ==> Sound(selection.outputs, d)
  {
    if IsSane(d, sources, from, seed) && selection.Collected? {
      FundingIsSound(selection.outputs, d, from, now, seed);
    }
  }
}
