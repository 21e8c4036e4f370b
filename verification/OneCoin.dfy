/** Payments from a single coin (client/wallet/wallet.go, SendFunds). */
module OneCoins {
  import opened Ledger
  import opened Sums
  import opened OutputCollections
  import opened OutputManagement
  import opened CoinSelection
  import opened Transactions
  import opened BalanceCheck
  import opened Assembly
  import opened WalletModule
  import opened FailedSend

  const PAYEE: WalletAddress := WalletAddress(LedgerAddress(9), 9)

  function OneIota(a: WalletAddress): Destinations {
    map[a := map[IOTA := 1]]
  }

  /** One entry that holds `n` IOTA and nothing else. */
  ghost predicate IsCoin(coin: Outputs, r: Ref, n: nat) {
    coin.Keys == {r} && coin[r].kind.Funds() == map[IOTA := n]
  }

  lemma OneSum<K>(k: K, f: K -> nat)
    ensures Sum({k}, f) == f(k)
  {
    SumPick({k}, k, f);
    assert {k} - {k} == {};
  }

  lemma OneIsRequired(a: WalletAddress, c: Color)
    ensures Required(OneIota(a), c) == if c == IOTA then 1 else 0
  {
    OneSum(a, PaidAt(OneIota(a), c));
    assert OneIota(a).Keys == {a};
  }

  lemma OneIsRequested(a: WalletAddress)
    ensures Request(OneIota(a)) == map[IOTA := 1]
  {
    var d := OneIota(a);
    OneIsRequired(a, IOTA);
    assert a in d && IOTA in d[a] && PaidIn(IOTA) == IOTA;
    assert AskedColors(d) == {IOTA};
  }

  lemma CoinHas(coin: Outputs, r: Ref, n: nat, c: Color)
    requires IsCoin(coin, r, n)
    ensures Total(coin, c) == if c == IOTA then n else 0
  {
    OneSum(r, FundsAt(coin, c));
  }

  lemma CoinIsCounted(coin: Outputs, r: Ref, n: nat)
    requires IsCoin(coin, r, n) && n <= MAX_UINT64
    ensures CanBeCounted(coin)
  {
    forall c ensures Total(coin, c) == if c == IOTA then n else 0 {
      CoinHas(coin, r, n, c);
    }
  }

  lemma ExcessOfOne(funds: Balances, a: WalletAddress, n: nat)
    requires n > 0 && forall c :: Get(funds, c) == if c == IOTA then n else 0
    ensures Excess(funds, OneIota(a)) == if n == 1 then map[] else map[IOTA := n - 1]
  {
    var rest := Excess(funds, OneIota(a));
    forall c ensures c in rest <==> c == IOTA && n > 1 {
      OneIsRequired(a, c);
      assert c in funds ==> funds[c] == Get(funds, c);
      assert c == IOTA ==> Get(funds, c) == n;
    }
    OneIsRequired(a, IOTA);
    assert Get(funds, IOTA) == n;
  }

  /** What a payment of one IOTA leaves over. */
  lemma CoinLeaves(coin: Outputs, r: Ref, n: nat, a: WalletAddress)
    requires IsCoin(coin, r, n) && n > 0
    ensures Leftover(coin, OneIota(a)) == if n == 1 then map[] else map[IOTA := n - 1]
  {
    var funds := FundsOf(coin);
    FundsOfTotals(coin);
    forall c ensures Get(funds, c) == if c == IOTA then n else 0 {
      CoinHas(coin, r, n, c);
    }
    ExcessOfOne(funds, a, n);
  }

  lemma OneFor(a: WalletAddress, lock: LockOptions)
    ensures OutputsFor(OneIota(a), lock, OneIota(a).Keys) == {OutputFor(OneIota(a), lock, a)}
  {
    var d := OneIota(a);
    assert d.Keys == {} + {a};
    OutputsForMore(d, lock, {}, a);
  }

  lemma OneOutput(a: WalletAddress, lock: LockOptions, to: LedgerAddress)
    ensures NoIdentical(OneIota(a), lock, map[], to) && |TransferOutputs(OneIota(a), lock, map[], to)| == 1
  {
    OneFor(a, lock);
    assert TransferOutputs(OneIota(a), lock, map[], to) == {OutputFor(OneIota(a), lock, a)};
  }

  lemma OneElement<T>(s: set<T>, x: T)
    requires s == {x}
    ensures |s| == 1
  {
  }

  /** At the given time one entry can be taken from the given addresses, and it holds one IOTA. */
  ghost predicate CanTake(store: Outputs, sources: seq<WalletAddress>, r: Ref, now: Time) {
    && r in store && r.addr in sources && store[r].kind.Funds() == map[IOTA := 1]
    && Eligible(ViewOf(store, false, sources), map[IOTA := 1], now) == {r}
  }

  lemma OnlyEligible(view: Outputs, addresses: seq<WalletAddress>, request: Balances, r: Ref, now: Time)
    requires Eligible(view, request, now) == {r} && r.addr in addresses && request == map[IOTA := 1]
    requires r in view && view[r].kind.Funds() == map[IOTA := 1]
    ensures |EligibleAt(view, addresses, request, now)| == 1 && IsCovered(view, addresses, request, now)
  {
    assert EligibleAt(view, addresses, request, now) == {r};
    OneElement(EligibleAt(view, addresses, request, now), r);
    OneSum(r, FundsAt(view, IOTA));
  }

  lemma OnlyOne(outputs: Outputs, store: Outputs, r: Ref)
    requires PartOf(outputs, store) && outputs.Keys <= {r} && |outputs| >= 1
    ensures outputs.Keys == {r}
  {
    assert |outputs.Keys| >= 1;
    var q :| q in outputs;
    assert q == r;
  }

  /** What is covered by few enough outputs is collected. */
  lemma IsCollected(selection: Selection, from: Sources, now: Time)
    requires IsFunding(selection, from, now) && IsExactFunding(selection, from, now)
    requires IsCovered(from.view, from.addresses, from.request, now)
    requires |EligibleAt(from.view, from.addresses, from.request, now)| <= MAX_INPUT_COUNT
    ensures selection.Collected? && PartOf(selection.outputs, from.store) && |selection.outputs| >= 1
    ensures selection.outputs.Keys <= Eligible(from.view, from.request, now)
  {
  }

  lemma OneIsTaken(selection: Selection, from: Sources, r: Ref, now: Time)
    requires IsFunding(selection, from, now) && IsExactFunding(selection, from, now)
    requires CanTake(from.store, from.addresses, r, now) && from.request == map[IOTA := 1]
    requires from.view == ViewOf(from.store, false, from.addresses)
    ensures selection.Collected? && IsCoin(selection.outputs, r, 1) && PartOf(selection.outputs, from.store)
  {
    assert r in Eligible(from.view, from.request, now);
    OnlyEligible(from.view, from.addresses, from.request, r, now);
    IsCollected(selection, from, now);
    OnlyOne(selection.outputs, from.store, r);
  }

  lemma OneIsProper(a: WalletAddress, sources: seq<WalletAddress>)
    requires Distinct(sources)
    ensures IsProper(OneIota(a), sources)
  {
    assert a in OneIota(a) && IOTA in Positive(OneIota(a)[a]);
  }

  lemma ListOnce(a: WalletAddress)
    ensures Distinct([a])
  {
    DistinctAppend([], a);
    assert [] + [a] == [a];
  }

  /** A payment of all of the coin can be made, whatever the change address. */
  lemma OneWouldPass(coin: Outputs, r: Ref, lock: LockOptions, to: LedgerAddress)
    requires IsCoin(coin, r, 1)
    ensures WouldPass(coin, OneIota(PAYEE), lock, to, true)
  {
    CoinLeaves(coin, r, 1, PAYEE);
    OneOutput(PAYEE, lock, to);
    CoinIsCounted(coin, r, 1);
  }

  /** The transaction spends the entry, and is sent if the node takes it. */
  ghost predicate IsPaid(outcome: Outcome, r: Ref, sent: bool) {
    (if sent then outcome.Submitted? else outcome.SendFailed?) && outcome.built.Checked? && r.id in outcome.built.tx.inputs
  }

  lemma OneEntry(coin: Outputs, store: Outputs, r: Ref)
    requires PartOf(coin, store) && coin.Keys == {r}
    ensures r in store && coin == map[r := store[r]]
  {
    assert r in coin;
  }

  lemma MarksOne(outcome: Outcome, store: Outputs, r: Ref, sent: bool)
    requires IsPaid(outcome, r, sent) && outcome.Taken().Keys == {r}
    ensures outcome.StoreAfter(store) == MarkAll(store, {r})
  {
  }

  lemma IsExact(selection: Selection, from: Sources, a: WalletAddress, now: Time)
    requires IsSelected(selection, from, now) && Distinct(from.addresses)
    requires from.view == ViewOf(from.store, false, from.addresses) && from.request == Request(OneIota(a))
    ensures IsFunding(selection, from, now) && IsExactFunding(selection, from, now)
  {
    OneIsProper(a, from.addresses);
    SelectedIsFunding(selection, from, OneIota(a), false, now);
  }

  lemma TakesOne(selection: Selection, from: Sources, r: Ref, now: Time)
    requires IsSelected(selection, from, now) && CanTake(from.store, from.addresses, r, now) && Distinct(from.addresses)
    requires from.view == ViewOf(from.store, false, from.addresses) && from.request == Request(OneIota(PAYEE))
    ensures selection.Collected? && IsCoin(selection.outputs, r, 1) && PartOf(selection.outputs, from.store)
  {
    IsExact(selection, from, PAYEE, now);
    OneIsRequested(PAYEE);
    OneIsTaken(selection, from, r, now);
  }

  /** A request for one IOTA, where only one entry can be taken, ends by paying with it. */
  lemma EndsPaid(outcome: Outcome, from: Sources, t: Terms, r: Ref, now: Time, sent: bool)
    requires Ends(outcome, from, t, now, sent) && t.d == OneIota(PAYEE) && t.passes
    requires from.view == ViewOf(from.store, false, from.addresses) && from.request == Request(t.d)
    requires CanTake(from.store, from.addresses, r, now) && Distinct(from.addresses)
    ensures IsPaid(outcome, r, sent) && outcome.Taken() == map[r := from.store[r]]
    ensures outcome.StoreAfter(from.store) == MarkAll(from.store, {r})
  {
    TakesOne(outcome.selection, from, r, now);
    OneWouldPass(outcome.Taken(), r, t.lock, t.choices.Remainder(outcome.Taken(), t.remainderAddress, t.reusableAddress).ledger);
    OneEntry(outcome.Taken(), from.store, r);
    MarksOne(outcome, from.store, r, sent);
  }

  /** Pays one IOTA, where only one entry can be taken. */
  method PayOne(wallet: Wallet, sources: seq<WalletAddress>, now: Time, sent: bool,
                ghost r: Ref) returns (outcome: Outcome)
    requires wallet.Valid() && sources != [] && Distinct(sources)
    requires CanTake(wallet.outputManager.unspentOutputs, sources, r, now)
    requires WellFiled(wallet.outputManager.unspentOutputs, wallet.addressManager.seed)
    modifies wallet, wallet.addressManager, wallet.outputManager
    ensures wallet.Valid() && IsPaid(outcome, r, sent)
    ensures outcome.Taken() == map[r := old(wallet.outputManager.unspentOutputs)[r]]
    ensures wallet.outputManager.unspentOutputs == MarkAll(old(wallet.outputManager.unspentOutputs), {r})
  {
    ghost var from, t;
    OneIsProper(PAYEE, sources);
    outcome, from, t := Send(wallet, OneIota(PAYEE), LockOptions(0, None, 0), false, sources, None, None, now, true, sent);
    EndsPaid(outcome, from, t, r, now, sent);
  }
}
