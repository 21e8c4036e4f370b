/** Runs of a wallet that end as one would not expect (client/wallet/wallet.go). */
module WalletRuns {
  import opened Ledger
  import opened Sums
  import opened AddressManagement
  import opened BitMasks
  import opened OutputCollections
  import opened OutputManagement
  import opened CoinSelection
  import opened Transactions
  import opened BalanceCheck
  import opened Assembly
  import opened WalletModule
  import opened OneCoins

  // ---- A coin is lost ---------------------------------------------------------------------------------------

  lemma NewStoreHasCoin(coin: Outputs, r: Ref)
    requires coin.Keys == {r} && !coin[r].spent
    ensures Merge(Merge(map[], coin, false), coin, false) == coin
  {
  }

  const PAYER: WalletAddress := WalletAddress(LedgerAddress(0), 0)

  lemma CoinIsAlone(coin: Outputs)
    requires coin == OneCoin(PAYER)
    ensures IsCoin(coin, Ref(PAYER, OutputID(0)), 1)
    ensures CanTake(coin, [PAYER], Ref(PAYER, OutputID(0)), 0)
  {
    var r := Ref(PAYER, OutputID(0));
    assert ViewOf(coin, false, [PAYER]) == coin;
    assert IOTA in coin[r].kind.Funds();
    assert Eligible(coin, map[IOTA := 1], 0) == {r};
  }

  /** In a new wallet with one coin, a payment that the node refuses marks it as spent although nothing was sent. */
  method FailedSendKeepsMark() returns (wallet: Wallet, outcome: Outcome)
    ensures fresh(wallet) && wallet.Valid() && outcome.SendFailed? && outcome.Taken() == OneCoin(PAYER)
    ensures wallet.outputManager.unspentOutputs == outcome.StoreAfter(OneCoin(PAYER))
  {
    wallet := NewWallet();
    CoinIsAlone(OneCoin(PAYER));
    ListOnce(PAYER);
    outcome := PayOne(wallet, [PAYER], 0, false, Ref(PAYER, OutputID(0)));
    assert outcome.Taken() == OneCoin(PAYER);
  }

  method NewWallet() returns (wallet: Wallet)
    ensures fresh(wallet) && fresh(wallet.addressManager) && fresh(wallet.outputManager) && wallet.Valid()
    ensures wallet.outputManager.unspentOutputs == OneCoin(PAYER)
    ensures WellFiled(OneCoin(PAYER), wallet.addressManager.seed)
  {
    var coin := OneCoin(PAYER);
    NewStoreHasCoin(coin, Ref(PAYER, OutputID(0)));
    wallet := new Wallet((i: nat) => LedgerAddress(i), 0, [], false, false, coin, coin);
  }

  // ---- A coin is spent twice --------------------------------------------------------------------------------

  /** What could be unlocked from one address at a first time, and can from another at a second. */
  ghost predicate FallsBack(out: LedgerOutput, first: LedgerAddress, second: LedgerAddress, t1: Time, t2: Time) {
    && out.ExtendedLocked? && out.address == first && out.fallbackAddress == Some(second)
    && out.timelock <= t1 <= out.fallbackDeadline < t2
  }

  lemma OtherLedgerAddress(store: Outputs, q: Ref, r: Ref, seed: nat -> LedgerAddress)
    requires WellFiled(store, seed) && OwnedBy(store, seed) && q in store && r in store && q.id == r.id && q != r
    ensures q.addr.ledger != r.addr.ledger && store[q].kind == store[r].kind
    ensures !store[q].kind.SigLockedSingle? && !store[q].kind.SigLockedColored?
  {
    assert seed(q.addr.index) == q.addr.ledger && seed(r.addr.index) == r.addr.ledger;
  }

  /**
   * In a store that is well filed, one identifier can be taken at two times, from two places, if and only if it is an
   * output whose fallback deadline lies between them.
   */
  lemma TakenAgainIff(view: Outputs, store: Outputs, funding: Balances, q: Ref, r: Ref, t1: Time, t2: Time,
                      seed: nat -> LedgerAddress)
    requires WellFiled(store, seed) && OwnedBy(store, seed)
    requires PartOf(view, store) && forall x :: x in view ==> !view[x].kind.Alias?
    requires q in view && r in view && q.id == r.id && q != r && t1 <= t2
    ensures q in Eligible(view, funding, t1) && r in Eligible(view, funding, t2) <==>
      FallsBack(view[q].kind, q.addr.ledger, r.addr.ledger, t1, t2) && Contributes(view[q].kind.Funds(), funding)
  {
    OtherLedgerAddress(store, q, r, seed);
  }

  const HOME: WalletAddress := WalletAddress(LedgerAddress(0), 0)
  const FALLBACK: WalletAddress := WalletAddress(LedgerAddress(1), 1)

  /** An output that falls back at time 10, filed under both its addresses. */
  function FallbackCoin(): Outputs {
    map[Ref(HOME, OutputID(0)) := FallbackOutput(HOME), Ref(FALLBACK, OutputID(0)) := FallbackOutput(FALLBACK)]
  }

  function FallbackOutput(a: WalletAddress): Output {
    Output(a, ExtendedLocked(map[IOTA := 1], HOME.ledger, Some(FALLBACK.ledger), 10, 0), true, false)
  }

  lemma FallbackIsFiled(store: Outputs, seed: nat -> LedgerAddress)
    requires store.Keys == FallbackCoin().Keys && forall r :: r in store ==> store[r].kind == FallbackOutput(HOME).kind
    requires Injective(seed)
    ensures WellFiled(store, seed)
  {
  }

  lemma AtHomeFirst(store: Outputs)
    requires store == FallbackCoin()
    ensures CanTake(store, [HOME, FALLBACK], Ref(HOME, OutputID(0)), 5)
  {
    var q := Ref(HOME, OutputID(0));
    var view := ViewOf(store, false, [HOME, FALLBACK]);
    assert view == store;
    assert IOTA in view[q].kind.Funds();
    assert Eligible(view, map[IOTA := 1], 5) == {q};
  }

  lemma AtFallbackThen(store: Outputs)
    requires store == MarkAll(FallbackCoin(), {Ref(HOME, OutputID(0))})
    ensures CanTake(store, [HOME, FALLBACK], Ref(FALLBACK, OutputID(0)), 20)
  {
    var r := Ref(FALLBACK, OutputID(0));
    var view := ViewOf(store, false, [HOME, FALLBACK]);
    assert view == map[r := store[r]];
    assert IOTA in view[r].kind.Funds();
    assert Eligible(view, map[IOTA := 1], 20) == {r};
  }

  lemma TwoSources()
    ensures Distinct([HOME, FALLBACK])
  {
    ListOnce(HOME);
    DistinctAppend([HOME], FALLBACK);
    assert [HOME] + [FALLBACK] == [HOME, FALLBACK];
  }

  method NewWalletWithFallback() returns (wallet: Wallet)
    ensures fresh(wallet) && fresh(wallet.addressManager) && fresh(wallet.outputManager) && wallet.Valid()
    ensures wallet.outputManager.unspentOutputs == FallbackCoin() && !wallet.outputManager.stateless
    ensures Injective(wallet.addressManager.seed)
  {
    var store := FallbackCoin();
    assert Merge(Merge(map[], store, false), store, false) == store;
    wallet := new Wallet((i: nat) => LedgerAddress(i), 1, [], false, false, store, store);
  }

  /**
   * A wallet that remembers what it consumed, with one output that is filed under its address and its fallback. Before
   * the deadline it is taken from the one, after the deadline from the other: two transactions spend one identifier.
   */
  method FallbackIsSpentTwice() returns (wallet: Wallet, first: Outcome, second: Outcome)
    ensures wallet.Valid() && !wallet.outputManager.stateless
    ensures first.Submitted? && first.built.Checked? && OutputID(0) in first.built.tx.inputs
    ensures second.Submitted? && second.built.Checked? && OutputID(0) in second.built.tx.inputs
    ensures first.Taken().Keys !! second.Taken().Keys
  {
    wallet := NewWalletWithFallback();
    var sources := [HOME, FALLBACK];
    TwoSources();
    AtHomeFirst(FallbackCoin());
    FallbackIsFiled(FallbackCoin(), wallet.addressManager.seed);
    first := PayOne(wallet, sources, 5, true, Ref(HOME, OutputID(0)));
    AtFallbackThen(wallet.outputManager.unspentOutputs);
    FallbackIsFiled(wallet.outputManager.unspentOutputs, wallet.addressManager.seed);
    second := PayOne(wallet, sources, 20, true, Ref(FALLBACK, OutputID(0)));
  }

  // ---- Change goes to a spent address -----------------------------------------------------------------------

  lemma BitOneIsSpent()
    ensures SpentIn([2]) == {1}
  {
    forall i ensures i in SpentIn([2]) <==> i == 1 {
      SpentInMeaning([2], i);
    }
  }

  /** A wallet imported with a mark on the address behind its last one; its only address is spent from. */
  method ChangeGoesToSpent(out: Output) returns (wallet: Wallet, a: WalletAddress)
    ensures fresh(wallet) && wallet.addressManager.Swept() && a.index == 1 && 1 in wallet.addressManager.Spent()
  {
    wallet := new Wallet((i: nat) => LedgerAddress(i), 0, [2], false, false, map[], map[]);
    BitOneIsSpent();
    a := wallet.ChooseRemainderAddress(map[Ref(HOME, OutputID(0)) := out], None);
  }

  // ---- A payment to the change address ----------------------------------------------------------------------

  function TwoIota(): Outputs {
    map[Ref(HOME, OutputID(0)) := Output(HOME, SigLockedColored(map[IOTA := 2], HOME.ledger), true, false)]
  }

  lemma TwoIsSound(coin: Outputs)
    requires coin == TwoIota()
    ensures IsCoin(coin, Ref(HOME, OutputID(0)), 2) && Sound(coin, OneIota(HOME))
  {
    var r := Ref(HOME, OutputID(0));
    OneIsProper(HOME, []);
    forall c ensures Required(OneIota(HOME), c) <= Total(coin, c) {
      OneIsRequired(HOME, c);
      CoinHas(coin, r, 2, c);
    }
  }

  /** What is left of two IOTA is one, the same as what is paid. */
  lemma ChangeIsIdentical(lock: LockOptions)
    requires lock == LockOptions(0, None, 0)
    ensures var rest := Leftover(TwoIota(), OneIota(HOME));
      !NoIdentical(OneIota(HOME), lock, rest, HOME.ledger) && |TransferOutputs(OneIota(HOME), lock, rest, HOME.ledger)| == 1
  {
    var d, rest := OneIota(HOME), map[IOTA := 1];
    TwoIsSound(TwoIota());
    CoinLeaves(TwoIota(), Ref(HOME, OutputID(0)), 2, HOME);
    OneFor(HOME, lock);
    var out := OutputFor(d, lock, HOME);
    assert out == SigLockedColored(Positive(rest), HOME.ledger) && out in RestOutputs(rest, HOME.ledger);
    assert TransferOutputs(d, lock, rest, HOME.ledger) == {out};
    assert HOME in d;
  }

  /** One of two IOTA is sent to where the other goes as change: the two outputs are one, and the transfer is refused. */
  method PaymentToChangeIsRefused() returns (built: Built)
    ensures built.Refused?
  {
    var lock := LockOptions(0, None, 0);
    TwoIsSound(TwoIota());
    ChangeIsIdentical(lock);
    built := BuildTransaction(TwoIota(), OneIota(HOME), lock, HOME.ledger, true);
  }
}
