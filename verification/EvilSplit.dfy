/** How the evil wallet splits faucet funds (client/evilwallet/utils.go and evilwallet.go). */
module EvilSplit {
  import opened Ledger
  import opened Sums
  import opened Transactions
  import opened BalanceCheck
  import opened Orders

  const FAUCET_REQUEST_SPLIT_NUMBER: nat := 100

  ghost function SumOf(parts: seq<nat>): nat {
    if parts == [] then 0 else SumOf(parts[..|parts| - 1]) + parts[|parts| - 1]
  }

  lemma {:induction false} SumOfEqualParts(parts: seq<nat>, part: nat)
    requires forall i :: 0 <= i < |parts| ==> parts[i] == part
    ensures SumOf(parts) == |parts| * part
  {
    if parts != [] {
      SumOfEqualParts(parts[..|parts| - 1], part);
      assert |parts| * part == (|parts| - 1) * part + part;
    }
  }

  lemma SumOfAppend(parts: seq<nat>, part: nat)
    ensures SumOf(parts + [part]) == SumOf(parts) + part
  {
    assert (parts + [part])[..|parts|] == parts;
  }

  lemma SumOfPrefix(parts: seq<nat>, i: nat)
    requires i < |parts|
    ensures SumOf(parts[..i + 1]) == SumOf(parts[..i]) + parts[i]
  {
    assert parts[..i + 1][..i] == parts[..i];
  }

  /** All parts but the last are equal, and the last is not less and exceeds them by less than their number. */
  ghost predicate IsSplit(parts: seq<nat>, n: int, balance: nat) {
    && SumOf(parts) == balance
    && (n <= 1 ==> |parts| == 1)
    && (n > 1 ==> |parts| == n && EqualParts(parts[..n - 1], n, balance) && balance / n <= parts[n - 1] < balance / n + n)
  }

  ghost predicate EqualParts(parts: seq<nat>, n: int, balance: nat) {
    n > 1 ==> forall i :: 0 <= i < |parts| ==> parts[i] == balance / n
  }

  lemma OneMorePart(k: nat, n: nat, part: nat)
    requires k < n
    ensures k * part + part <= n * part
    ensures k == n - 1 ==> k * part + part == n * part
  {
    assert n * part == (k + (n - k)) * part == k * part + (n - k) * part;
    if k < n - 1 {
      assert (n - k) * part == part + (n - k - 1) * part;
    }
  }

  lemma EqualPartsFit(parts: seq<nat>, n: nat, balance: nat)
    requires n > 1 && EqualParts(parts, n, balance) && |parts| < n
    ensures SumOf(parts) + balance / n <= balance
    ensures |parts| == n - 1 ==> balance - SumOf(parts) < balance / n + n
  {
    SumOfEqualParts(parts, balance / n);
    OneMorePart(|parts|, n, balance / n);
    assert n * (balance / n) + balance % n == balance;
  }

  /** Equal parts, and a last one that takes the rest: nothing is lost and no uint64 operation overflows. */
  method SplitBalanceEqually(splitNumber: int, balance: nat) returns (outputBalances: seq<nat>)
    requires balance <= MAX_UINT64
    ensures IsSplit(outputBalances, splitNumber, balance)
  {
    outputBalances := [];
    var totalBalance := 0;
    var i := 0;
    while i < splitNumber - 1
      invariant 0 <= i && (i <= splitNumber - 1 || i == 0) && |outputBalances| == i
      invariant EqualParts(outputBalances, splitNumber, balance)
      invariant totalBalance == SumOf(outputBalances) <= balance
    {
      var part := balance / splitNumber;
      EqualPartsFit(outputBalances, splitNumber, balance);
      SumOfAppend(outputBalances, part);
      outputBalances := outputBalances + [part];
      var valid;
      totalBalance, valid := SafeAddUint64(totalBalance, outputBalances[i]);
      i := i + 1;
    }
    if splitNumber > 1 {
      EqualPartsFit(outputBalances, splitNumber, balance);
    }
    var lastBalance, valid := SafeSubUint64(balance, totalBalance);
    SumOfAppend(outputBalances, lastBalance);
    assert (outputBalances + [lastBalance])[..i] == outputBalances;
    outputBalances := outputBalances + [lastBalance];
  }

  // ----- the evil wallet's wallets -----

  /** An address is the index it was derived from; every wallet has a seed of its own. */
  datatype Address = Address(index: nat)

  /** What a wallet holds; no address holds more than one output. */
  type Unspent = map<Address, Balances>

  /** uint64 arithmetic, which starts again at zero behind MAX_UINT64. */
  function Wrap(n: nat): (r: nat)
    ensures r <= MAX_UINT64
  {
    if n <= MAX_UINT64 then n else Wrap(n - MAX_UINT64 - 1)
  }

  /** What the code makes of an output's balances: it adds up all colours. */
  ghost function Seen(b: Balances): nat {
    Wrap(AllFunds(b))
  }

  lemma DropTwice<K, V>(m: map<K, V>, a: K, b: K)
    ensures m - {a} - {b} == m - {b} - {a}
  {
    assert (m - {a} - {b}).Keys == (m - {b} - {a}).Keys;
  }

  lemma {:induction false} WrapTwice(x: nat, y: nat)
    ensures Wrap(Wrap(x) + y) == Wrap(x + y)
  {
    if x > MAX_UINT64 {
      WrapTwice(x - MAX_UINT64 - 1, y);
    }
  }

  /** That is what the output holds exactly when its funds, all colours together, fit into a uint64. */
  lemma SeenIsWorth(b: Balances)
    ensures Seen(b) == AllFunds(b) <==> AllFunds(b) <= MAX_UINT64
  {
  }

  ghost function TotalSeen(unspent: Unspent): nat
    decreases |unspent|
  {
    if unspent.Keys == {} then 0 else var a :| a in unspent; Seen(unspent[a]) + TotalSeen(unspent - {a})
  }

  lemma SeenIota(amount: nat)
    requires amount <= MAX_UINT64
    ensures Seen(Positive(map[IOTA := amount])) == amount
  {
    var b := Positive(map[IOTA := amount]);
    if amount > 0 {
      SumPick(b.Keys, IOTA, AmountOf(b));
      assert b.Keys - {IOTA} == {};
    }
  }

  lemma {:induction false} TotalSeenPick(unspent: Unspent, a: Address)
    requires a in unspent
    ensures TotalSeen(unspent) == Seen(unspent[a]) + TotalSeen(unspent - {a})
    decreases |unspent|
  {
    var b :| b in unspent && TotalSeen(unspent) == Seen(unspent[b]) + TotalSeen(unspent - {b});
    if a != b {
      TotalSeenPick(unspent - {b}, a);
      TotalSeenPick(unspent - {a}, b);
      DropTwice(unspent, a, b);
    }
  }

  lemma TotalSeenAdd(unspent: Unspent, a: Address, b: Balances)
    requires a !in unspent
    ensures TotalSeen(unspent[a := b]) == TotalSeen(unspent) + Seen(b)
  {
    TotalSeenPick(unspent[a := b], a);
    assert unspent[a := b] - {a} == unspent;
  }

  /** What a wallet holds, and the last address it has given out. */
  datatype Stock = Stock(unspent: Unspent, last: int)

  class Wallet {
    var unspentOutputs: Unspent
    var lastAddrIdxUsed: int
    var lastAddrSpent: int

    ghost predicate Valid()
      reads this
    {
      -1 <= lastAddrIdxUsed && forall a :: a in unspentOutputs ==> a.index <= lastAddrIdxUsed
    }

    constructor ()
      ensures Valid() && unspentOutputs == map[]
    {
      unspentOutputs, lastAddrIdxUsed, lastAddrSpent := map[], -1, -1;
    }

    ghost function Contents(): Stock
      reads this
    {
      Stock(unspentOutputs, lastAddrIdxUsed)
    }

    predicate IsEmpty()
      reads this
    {
      lastAddrSpent == lastAddrIdxUsed || |unspentOutputs| == 0
    }

    method NextAddress() returns (address: Address)
      requires Valid()
      modifies `lastAddrIdxUsed
      ensures Valid() && address.index == lastAddrIdxUsed == old(lastAddrIdxUsed) + 1
    {
      lastAddrIdxUsed := lastAddrIdxUsed + 1;
      address := Address(lastAddrIdxUsed);
    }
  }

  /** The amounts that one output is split into, whatever the colours of its funds. */
  method HandleInputOutputDuringSplitOutputs(splitNumber: int, balance: Balances) returns (balances: seq<nat>)
    ensures Seen(balance) <= MAX_UINT64 && IsSplit(balances, splitNumber, Seen(balance))
  {
    var inputBalance: nat := 0;
    ghost var counted: set<Color> := {};
    var left := balance.Keys;
    while left != {}
      invariant left <= balance.Keys && counted == balance.Keys - left
      invariant inputBalance == Wrap(Sum(counted, AmountOf(balance)))
      decreases left
    {
      var c :| c in left;
      SumAdd(counted, c, AmountOf(balance));
      WrapTwice(Sum(counted, AmountOf(balance)), balance[c]);
      left, counted := left - {c}, counted + {c};
      inputBalance := Wrap(inputBalance + balance[c]);
    }
    assert counted == balance.Keys;
    balances := SplitBalanceEqually(splitNumber, inputBalance);
  }

  ghost predicate OnlyIota(b: Balances) {
    b.Keys <= {IOTA}
  }

  ghost predicate Small(amounts: seq<nat>) {
    forall i :: 0 <= i < |amounts| ==> amounts[i] <= MAX_UINT64
  }

  /** `more` keeps the outputs there were; the new ones hold nothing but IOTA. */
  ghost predicate Keeps(unspent: Unspent, more: Unspent) {
    && (forall a :: a in unspent ==> a in more)
    && (forall a :: a in more ==> if a in unspent then more[a] == unspent[a] else OnlyIota(more[a]))
  }

  /** `more` has `count` outputs more than `unspent`, holding `sum` IOTA together. */
  ghost predicate Extends(unspent: Unspent, more: Unspent, count: nat, sum: nat) {
    Keeps(unspent, more) && |more| == |unspent| + count && TotalSeen(more) == TotalSeen(unspent) + sum
  }

  lemma KeepsOneMore(unspent: Unspent, more: Unspent, a: Address, b: Balances)
    requires Keeps(unspent, more) && a !in more && OnlyIota(b)
    ensures Keeps(unspent, more[a := b])
  {
  }

  lemma ExtendsOneMore(unspent: Unspent, more: Unspent, count: nat, sum: nat, a: Address, amount: nat)
    requires Extends(unspent, more, count, sum) && a !in more && amount <= MAX_UINT64
    ensures Extends(unspent, more[a := Positive(map[IOTA := amount])], count + 1, sum + amount)
  {
    var b := Positive(map[IOTA := amount]);
    SeenIota(amount);
    TotalSeenAdd(more, a, b);
    KeepsOneMore(unspent, more, a, b);
  }

  /** The addresses behind the last one used. */
  ghost predicate AreNext(addresses: seq<Address>, last: int) {
    forall k :: 0 <= k < |addresses| ==> addresses[k].index == last + 1 + k
  }

  /** Every amount gets a new address of the wallet. */
  method NewAddresses(outputWallet: Wallet, count: nat) returns (addresses: seq<Address>)
    requires outputWallet.Valid()
    modifies outputWallet`lastAddrIdxUsed
    ensures outputWallet.Valid() && outputWallet.lastAddrIdxUsed == old(outputWallet.lastAddrIdxUsed) + count
    ensures |addresses| == count && AreNext(addresses, old(outputWallet.lastAddrIdxUsed))
  {
    addresses := [];
    for i := 0 to count
      invariant outputWallet.Valid() && outputWallet.lastAddrIdxUsed == old(outputWallet.lastAddrIdxUsed) + i
      invariant |addresses| == i && AreNext(addresses, old(outputWallet.lastAddrIdxUsed))
    {
      var address := outputWallet.NextAddress();
      addresses := addresses + [address];
    }
  }

  /** The amounts are at the addresses from `start` on, and nothing else has been added. */
  ghost predicate ArePlaced(amounts: seq<nat>, start: nat, unspent: Unspent, more: Unspent) {
    && HoldAll(more, start, amounts)
    && (forall a :: a in more && a !in unspent ==> start <= a.index < start + |amounts|)
  }

  /** The k-th amount is at the k-th address from `start` on. */
  ghost predicate HoldAll(unspent: Unspent, start: nat, amounts: seq<nat>) {
    amounts == [] ||
      var n := |amounts| - 1;
      HoldAll(unspent, start, amounts[..n]) && HoldsAt(unspent, Address(start + n), amounts[n])
  }

  ghost predicate HoldsAt(unspent: Unspent, a: Address, amount: nat) {
    a in unspent && unspent[a] == if amount == 0 then map[] else map[IOTA := amount]
  }

  /** Each amount is at its own address. */
  lemma {:induction false} HoldAllMeans(unspent: Unspent, start: nat, amounts: seq<nat>)
    ensures HoldAll(unspent, start, amounts) <==>
      forall k :: 0 <= k < |amounts| ==> HoldsAt(unspent, Address(start + k), amounts[k])
  {
    if amounts != [] {
      HoldAllMeans(unspent, start, amounts[..|amounts| - 1]);
    }
  }

  lemma {:induction false} StillHoldAll(unspent: Unspent, more: Unspent, start: nat, amounts: seq<nat>)
    requires HoldAll(unspent, start, amounts) && Keeps(unspent, more)
    ensures HoldAll(more, start, amounts)
  {
    if amounts != [] {
      StillHoldAll(unspent, more, start, amounts[..|amounts| - 1]);
    }
  }

  lemma PlaceOne(amounts: seq<nat>, start: nat, i: nat, unspent: Unspent, more: Unspent, next: Unspent, a: Address)
    requires i < |amounts| && a == Address(start + i) && a !in more && ArePlaced(amounts[..i], start, unspent, more)
    requires next == more[a := Positive(map[IOTA := amounts[i]])] && Keeps(more, next)
    ensures ArePlaced(amounts[..i + 1], start, unspent, next)
  {
    StillHoldAll(more, next, start, amounts[..i]);
    assert amounts[..i + 1][..i] == amounts[..i];
  }

  /** The outputs there were are kept, and the amounts are at the addresses from `start` on. */
  ghost predicate AreAdded(amounts: seq<nat>, start: nat, unspent: Unspent, more: Unspent) {
    Extends(unspent, more, |amounts|, SumOf(amounts)) && ArePlaced(amounts, start, unspent, more)
  }

  ghost predicate AllBefore(unspent: Unspent, start: nat) {
    forall a :: a in unspent ==> a.index < start
  }

  lemma AddOne(amounts: seq<nat>, start: nat, i: nat, unspent: Unspent, more: Unspent)
    requires i < |amounts| && amounts[i] <= MAX_UINT64
    requires AreAdded(amounts[..i], start, unspent, more) && AllBefore(more, start + i)
    ensures AreAdded(amounts[..i + 1], start, unspent, more[Address(start + i) := Positive(map[IOTA := amounts[i]])])
  {
    ExtendsOneMore(unspent, more, i, SumOf(amounts[..i]), Address(start + i), amounts[i]);
    SumOfPrefix(amounts, i);
    assert OnlyIota(Positive(map[IOTA := amounts[i]]));
    PlaceOne(amounts, start, i, unspent, more, more[Address(start + i) := Positive(map[IOTA := amounts[i]])], Address(start + i));
  }

  /** Puts the next amount at the next address. */
  method AddOutput(outputWallet: Wallet, address: Address, amounts: seq<nat>, i: nat, ghost start: nat,
                   ghost unspent: Unspent)
    requires i < |amounts| && amounts[i] <= MAX_UINT64 && address == Address(start + i)
    requires AreAdded(amounts[..i], start, unspent, outputWallet.unspentOutputs)
    requires AllBefore(outputWallet.unspentOutputs, start + i)
    modifies outputWallet`unspentOutputs
    ensures AreAdded(amounts[..i + 1], start, unspent, outputWallet.unspentOutputs)
    ensures AllBefore(outputWallet.unspentOutputs, start + i + 1)
  {
    AddOne(amounts, start, i, unspent, outputWallet.unspentOutputs);
    outputWallet.unspentOutputs := outputWallet.unspentOutputs[address := Positive(map[IOTA := amounts[i]])];
  }

  /** Every amount gets the next address; the outputs are there if they are `created`. */
  ghost predicate Creates(created: bool, amounts: seq<nat>, was: Stock, now: Stock) {
    && -1 <= was.last && now.last == was.last + |amounts|
    && (created ==> AreAdded(amounts, was.last + 1, was.unspent, now.unspent))
    && (!created ==> now.unspent == was.unspent)
  }

  /** The addresses are used up in any case; the outputs are kept if the transaction could be made. */
  method CreateTransaction(outputWallet: Wallet, amounts: seq<nat>, created: bool)
    requires outputWallet.Valid() && Small(amounts)
    modifies outputWallet
    ensures outputWallet.Valid() && Creates(created, amounts, old(outputWallet.Contents()), outputWallet.Contents())
  {
    ghost var was := outputWallet.Contents();
    var addresses := NewAddresses(outputWallet, |amounts|);
    if !created {
      return;
    }
    AddOutputs(outputWallet, addresses, amounts, was.last + 1);
    assert AreAdded(amounts, was.last + 1, was.unspent, outputWallet.Contents().unspent);
  }

  method AddOutputs(outputWallet: Wallet, addresses: seq<Address>, amounts: seq<nat>, ghost start: nat)
    requires outputWallet.lastAddrIdxUsed == start + |amounts| - 1 && AllBefore(outputWallet.unspentOutputs, start)
    requires |addresses| == |amounts| && AreNext(addresses, start - 1) && Small(amounts)
    modifies outputWallet`unspentOutputs
    ensures outputWallet.Valid()
    ensures AreAdded(amounts, start, old(outputWallet.unspentOutputs), outputWallet.unspentOutputs)
  {
    ghost var unspent := outputWallet.unspentOutputs;
    for i := 0 to |amounts|
      invariant AllBefore(outputWallet.unspentOutputs, start + i)
      invariant AreAdded(amounts[..i], start, unspent, outputWallet.unspentOutputs)
    {
      AddOutput(outputWallet, addresses[i], amounts, i, start, unspent);
    }
    assert amounts[..|amounts|] == amounts;
  }

  lemma PartsAreSmall(amounts: seq<nat>)
    requires SumOf(amounts) <= MAX_UINT64
    ensures Small(amounts)
  {
    if amounts != [] {
      PartsAreSmall(amounts[..|amounts| - 1]);
    }
  }

  // ----- rounds -----

  /** What becomes of a transaction. */
  datatype Fate = NotCreated | NotPosted | Posted

  type Fates = (nat, Address) -> Fate

  function FateIn(fates: Fates, round: nat): Address -> Fate {
    a => fates(round, a)
  }

  ghost function PostedAmong(inputs: set<Address>, fate: Address -> Fate): set<Address> {
    set a | a in inputs && fate(a) == Posted
  }

  ghost function CreatedAmong(inputs: set<Address>, fate: Address -> Fate): set<Address> {
    set a | a in inputs && fate(a) != NotCreated
  }

  // The IDs of a round's transactions are written into slots, by the position at which their input was visited. The
  // order of a Go map is arbitrary.

  /** A transaction is posted whose position has no slot. */
  ghost predicate RunsOut(order: seq<Address>, slots: nat, fate: Address -> Fate) {
    exists i :: slots <= i < |order| && fate(order[i]) == Posted
  }

  lemma MustRunOut(order: seq<Address>, inputs: set<Address>, slots: nat, fate: Address -> Fate)
    requires IsOrder(order, inputs) && slots < |PostedAmong(inputs, fate)|
    ensures RunsOut(order, slots, fate)
  {
    if !RunsOut(order, slots, fate) {
      var posted := SomeOrder(PostedAmong(inputs, fate));
      OrderSize(order, inputs);
      SubsetSize(PostedAmong(inputs, fate), inputs);
      var visited := order[..slots];
      forall a | a in posted ensures a in AsSet(visited) {
        var i :| 0 <= i < |order| && order[i] == a;
        assert i < slots && visited[i] == a;
      }
      FewerThan(posted, AsSet(visited));
      UniqueSize(visited);
    }
  }

  lemma CannotRunOut(order: seq<Address>, inputs: set<Address>, slots: nat, fate: Address -> Fate)
    requires IsOrder(order, inputs) && (|inputs| <= slots || PostedAmong(inputs, fate) == {})
    ensures !RunsOut(order, slots, fate)
  {
    OrderSize(order, inputs);
    if i :| slots <= i < |order| && fate(order[i]) == Posted {
      assert order[i] in order && order[i] in PostedAmong(inputs, fate);
    }
  }

  /** Some order runs out of slots exactly when there are more inputs than slots and one of them is posted. */
  lemma SomeOrderRunsOutIff(inputs: set<Address>, slots: nat, fate: Address -> Fate)
    ensures (exists order :: IsOrder(order, inputs) && RunsOut(order, slots, fate))
      <==> slots < |inputs| && PostedAmong(inputs, fate) != {}
  {
    if slots < |inputs| && PostedAmong(inputs, fate) != {} {
      var last :| last in PostedAmong(inputs, fate);
      var front := SomeOrder(inputs - {last});
      OrderOfBoth(front, [last], inputs - {last}, {last});
      assert inputs - {last} + {last} == inputs;
      assert (front + [last])[|front|] == last;
      assert RunsOut(front + [last], slots, fate);
    }
    if order :| IsOrder(order, inputs) && RunsOut(order, slots, fate) {
      if |inputs| <= slots || PostedAmong(inputs, fate) == {} {
        CannotRunOut(order, inputs, slots, fate);
      }
    }
  }

  /** Every order does exactly when more of them are posted than there are slots. */
  lemma EveryOrderRunsOutIff(inputs: set<Address>, slots: nat, fate: Address -> Fate)
    ensures (forall order :: IsOrder(order, inputs) ==> RunsOut(order, slots, fate)) <==> slots < |PostedAmong(inputs, fate)|
  {
    if slots < |PostedAmong(inputs, fate)| {
      forall order | IsOrder(order, inputs) ensures RunsOut(order, slots, fate) {
        MustRunOut(order, inputs, slots, fate);
      }
    } else {
      var posted := PostedAmong(inputs, fate);
      var first := SomeOrder(posted);
      var others := SomeOrder(inputs - posted);
      OrderOfBoth(first, others, posted, inputs - posted);
      assert posted + (inputs - posted) == inputs;
      forall i | slots <= i < |first + others| ensures fate((first + others)[i]) != Posted {
        assert (first + others)[i] == others[i - |first|] && others[i - |first|] in others;
      }
      assert !RunsOut(first + others, slots, fate);
    }
  }

  /** The outputs whose transaction could be made, among those that are not `left`. */
  ghost predicate AreCreated(created: Unspent, inputs: Unspent, left: set<Address>, fate: Address -> Fate) {
    && (forall a :: a in created <==> (a in inputs && a !in left && fate(a) != NotCreated))
    && (forall a :: a in created ==> created[a] == inputs[a])
  }

  /** The funds of the `created` transactions have moved to a hundred outputs each. */
  ghost predicate Moved(created: Unspent, unspent: Unspent, more: Unspent) {
    Extends(unspent, more, FAUCET_REQUEST_SPLIT_NUMBER * |created|, TotalSeen(created))
  }

  lemma ExtendsTwice(unspent: Unspent, more: Unspent, most: Unspent,
                     count: nat, sum: nat, count': nat, sum': nat)
    requires Extends(unspent, more, count, sum) && Extends(more, most, count', sum')
    ensures Extends(unspent, most, count + count', sum + sum')
  {
  }

  lemma MovedOne(created: Unspent, addr: Address, b: Balances,
                 unspent: Unspent, more: Unspent, most: Unspent)
    requires Moved(created, unspent, more) && addr !in created && Extends(more, most, FAUCET_REQUEST_SPLIT_NUMBER, Seen(b))
    ensures Moved(created[addr := b], unspent, most)
  {
    TotalSeenAdd(created, addr, b);
    ExtendsTwice(unspent, more, most, FAUCET_REQUEST_SPLIT_NUMBER * |created|, TotalSeen(created), FAUCET_REQUEST_SPLIT_NUMBER, Seen(b));
  }

  // ----- where the parts are -----

  /** A hundredth, rounded down, but the last part takes the rest. */
  function Part(amount: nat, k: nat): nat {
    var part := amount / FAUCET_REQUEST_SPLIT_NUMBER;
    if k < FAUCET_REQUEST_SPLIT_NUMBER - 1 then part else amount - (FAUCET_REQUEST_SPLIT_NUMBER - 1) * part
  }

  /** The first `n` parts of an amount are at the addresses from `start` on. */
  ghost predicate HoldParts(unspent: Unspent, start: nat, amount: nat, n: nat) {
    n == 0 || (HoldParts(unspent, start, amount, n - 1) && HoldsAt(unspent, Address(start + n - 1), Part(amount, n - 1)))
  }

  lemma SplitHasParts(parts: seq<nat>, amount: nat)
    requires IsSplit(parts, FAUCET_REQUEST_SPLIT_NUMBER, amount)
    ensures |parts| == FAUCET_REQUEST_SPLIT_NUMBER && forall k :: 0 <= k < |parts| ==> parts[k] == Part(amount, k)
  {
    var n := FAUCET_REQUEST_SPLIT_NUMBER;
    SumOfEqualParts(parts[..n - 1], amount / n);
    SumOfPrefix(parts, n - 1);
    assert parts[..n] == parts;
    forall k | 0 <= k < n - 1 ensures parts[k] == amount / n {
      assert parts[..n - 1][k] == amount / n;
    }
  }

  lemma {:induction false} HoldThem(unspent: Unspent, start: nat, parts: seq<nat>, amount: nat)
    requires HoldAll(unspent, start, parts) && forall k :: 0 <= k < |parts| ==> parts[k] == Part(amount, k)
    ensures HoldParts(unspent, start, amount, |parts|)
  {
    if parts != [] {
      HoldThem(unspent, start, parts[..|parts| - 1], amount);
    }
  }

  predicate InRange(a: Address, start: nat) {
    start <= a.index < start + FAUCET_REQUEST_SPLIT_NUMBER
  }

  lemma {:induction false} StillHold(unspent: Unspent, more: Unspent, start: nat, amount: nat, n: nat)
    requires HoldParts(unspent, start, amount, n) && Keeps(unspent, more)
    ensures HoldParts(more, start, amount, n)
  {
    if n > 0 {
      StillHold(unspent, more, start, amount, n - 1);
    }
  }

  /** An output has been split into a hundred new ones if its transaction could be made; the addresses are used up anyway. */
  ghost predicate IsVisited(isCreated: bool, amount: nat, was: Stock, now: Stock) {
    && now.last == was.last + FAUCET_REQUEST_SPLIT_NUMBER && Keeps(was.unspent, now.unspent) && -1 <= was.last
    && (!isCreated ==> now.unspent == was.unspent)
    && (isCreated ==> HoldParts(now.unspent, was.last + 1, amount, FAUCET_REQUEST_SPLIT_NUMBER))
    && (isCreated ==> forall a :: a in now.unspent && a !in was.unspent ==> InRange(a, was.last + 1))
  }

  lemma PartsAreHeld(parts: seq<nat>, amount: nat, start: nat, unspent: Unspent, more: Unspent)
    requires IsSplit(parts, FAUCET_REQUEST_SPLIT_NUMBER, amount) && AreAdded(parts, start, unspent, more)
    ensures HoldParts(more, start, amount, FAUCET_REQUEST_SPLIT_NUMBER)
    ensures forall a :: a in more && a !in unspent ==> InRange(a, start)
  {
    SplitHasParts(parts, amount);
    HoldThem(more, start, parts, amount);
  }

  lemma OneIsVisited(isCreated: bool, parts: seq<nat>, amount: nat, was: Stock, now: Stock)
    requires IsSplit(parts, FAUCET_REQUEST_SPLIT_NUMBER, amount) && Creates(isCreated, parts, was, now)
    ensures IsVisited(isCreated, amount, was, now)
  {
    if isCreated {
      PartsAreHeld(parts, amount, was.last + 1, was.unspent, now.unspent);
    }
  }

  /** The hundred places of the i-th output that is visited follow those of the one before. */
  function Place(start: nat, i: nat): nat {
    start + FAUCET_REQUEST_SPLIT_NUMBER * i
  }

  /** Every output whose transaction could be made is found in parts, at the places that its position in the order gives. */
  ghost predicate AllInPlace(order: seq<Address>, inputs: Unspent, fate: Address -> Fate, start: nat, unspent: Unspent) {
    order == [] ||
      var n := |order| - 1;
      && AllInPlace(order[..n], inputs, fate, start, unspent) && order[n] in inputs
      && (fate(order[n]) != NotCreated ==>
        HoldParts(unspent, Place(start, n), Seen(inputs[order[n]]), FAUCET_REQUEST_SPLIT_NUMBER))
  }

  /** An address is one of the places of an output whose transaction could be made. */
  ghost predicate IsPart(x: Address, order: seq<Address>, fate: Address -> Fate, start: nat) {
    exists i: nat :: i < |order| && fate(order[i]) != NotCreated && InRange(x, Place(start, i))
  }

  ghost predicate AllAreParts(order: seq<Address>, fate: Address -> Fate, start: nat, unspent: Unspent, more: Unspent) {
    forall x :: x in more && x !in unspent ==> IsPart(x, order, fate, start)
  }

  /** The outputs that are visited are found in parts, and nothing else has been added. */
  ghost predicate InPlace(order: seq<Address>, inputs: Unspent, fate: Address -> Fate, was: Stock, now: Stock) {
    && -1 <= was.last && now.last == was.last + FAUCET_REQUEST_SPLIT_NUMBER * |order|
    && AllInPlace(order, inputs, fate, was.last + 1, now.unspent)
    && AllAreParts(order, fate, was.last + 1, was.unspent, now.unspent)
  }

  lemma {:induction false} StillInPlace(order: seq<Address>, inputs: Unspent, fate: Address -> Fate, start: nat,
                                        unspent: Unspent, more: Unspent)
    requires AllInPlace(order, inputs, fate, start, unspent) && Keeps(unspent, more)
    ensures AllInPlace(order, inputs, fate, start, more)
  {
    if order != [] {
      var n := |order| - 1;
      StillInPlace(order[..n], inputs, fate, start, unspent, more);
      if fate(order[n]) != NotCreated {
        StillHold(unspent, more, Place(start, n), Seen(inputs[order[n]]), FAUCET_REQUEST_SPLIT_NUMBER);
      }
    }
  }

  lemma OneMoreIsPart(order: seq<Address>, addr: Address, fate: Address -> Fate, start: nat, unspent: Unspent,
                      more: Unspent, most: Unspent)
    requires AllAreParts(order, fate, start, unspent, more)
    requires forall a :: a in most && a !in more ==> fate(addr) != NotCreated && InRange(a, Place(start, |order|))
    ensures AllAreParts(order + [addr], fate, start, unspent, most)
  {
    forall x | x in most && x !in unspent ensures IsPart(x, order + [addr], fate, start) {
      if x in more {
        assert IsPart(x, order, fate, start);
        var i: nat :| i < |order| && fate(order[i]) != NotCreated && InRange(x, Place(start, i));
        assert (order + [addr])[i] == order[i];
      } else {
        assert (order + [addr])[|order|] == addr;
      }
    }
  }

  lemma OneMoreInPlace(order: seq<Address>, addr: Address, inputs: Unspent, fate: Address -> Fate, start: nat,
                       unspent: Unspent, more: Unspent)
    requires AllInPlace(order, inputs, fate, start, unspent) && Keeps(unspent, more) && addr in inputs
    requires fate(addr) != NotCreated ==>
      HoldParts(more, Place(start, |order|), Seen(inputs[addr]), FAUCET_REQUEST_SPLIT_NUMBER)
    ensures AllInPlace(order + [addr], inputs, fate, start, more)
  {
    assert (order + [addr])[..|order|] == order;
    StillInPlace(order, inputs, fate, start, unspent, more);
  }

  lemma InPlaceOn(order: seq<Address>, addr: Address, inputs: Unspent, fate: Address -> Fate, was: Stock, now: Stock,
                  next: Stock)
    requires InPlace(order, inputs, fate, was, now) && addr in inputs
    requires IsVisited(fate(addr) != NotCreated, Seen(inputs[addr]), now, next)
    ensures InPlace(order + [addr], inputs, fate, was, next)
  {
    assert Place(was.last + 1, |order|) == now.last + 1;
    OneMoreInPlace(order, addr, inputs, fate, was.last + 1, now.unspent, next.unspent);
    OneMoreIsPart(order, addr, fate, was.last + 1, was.unspent, now.unspent, next.unspent);
  }

  // ----- a round -----

  lemma OneIsMoved(isCreated: bool, parts: seq<nat>, addr: Address, b: Balances, created: Unspent, unspent: Unspent,
                   was: Stock, now: Stock)
    requires IsSplit(parts, FAUCET_REQUEST_SPLIT_NUMBER, Seen(b)) && Creates(isCreated, parts, was, now)
    requires Moved(created, unspent, was.unspent) && addr !in created
    ensures Moved(if isCreated then created[addr := b] else created, unspent, now.unspent)
  {
    if isCreated {
      MovedOne(created, addr, b, unspent, was.unspent, now.unspent);
    }
  }

  /** Splits one output into a new transaction's outputs. */
  method SplitOne(addr: Address, balance: Balances, outputWallet: Wallet, isCreated: bool,
                  ghost unspent: Unspent, ghost created: Unspent)
    requires outputWallet.Valid() && addr !in created && Moved(created, unspent, outputWallet.unspentOutputs)
    modifies outputWallet
    ensures outputWallet.Valid()
    ensures Moved(if isCreated then created[addr := balance] else created, unspent, outputWallet.unspentOutputs)
    ensures IsVisited(isCreated, Seen(balance), old(outputWallet.Contents()), outputWallet.Contents())
  {
    var amounts := HandleInputOutputDuringSplitOutputs(FAUCET_REQUEST_SPLIT_NUMBER, balance);
    PartsAreSmall(amounts);
    ghost var before := outputWallet.Contents();
    CreateTransaction(outputWallet, amounts, isCreated);
    OneIsMoved(isCreated, amounts, addr, balance, created, unspent, before, outputWallet.Contents());
    OneIsVisited(isCreated, amounts, Seen(balance), before, outputWallet.Contents());
  }

  ghost predicate Progress(inputs: Unspent, left: set<Address>, fate: Address -> Fate, created: Unspent,
                           unspent: Unspent, more: Unspent) {
    left <= inputs.Keys && AreCreated(created, inputs, left, fate) && Moved(created, unspent, more)
  }

  lemma CreatedNext(inputs: Unspent, left: set<Address>, addr: Address, fate: Address -> Fate, created: Unspent)
    requires AreCreated(created, inputs, left, fate) && addr in left && addr in inputs
    ensures addr !in created
    ensures AreCreated(if fate(addr) != NotCreated then created[addr := inputs[addr]] else created, inputs, left - {addr}, fate)
  {
  }

  /** Turns to the next output. */
  method SplitNext(inputs: Unspent, ghost left: set<Address>, addr: Address, outputWallet: Wallet,
                   fate: Address -> Fate,
                   ghost unspent: Unspent, ghost created: Unspent)
    returns (ghost created': Unspent)
    requires outputWallet.Valid() && addr in left && Progress(inputs, left, fate, created, unspent, outputWallet.unspentOutputs)
    modifies outputWallet
    ensures outputWallet.Valid() && Progress(inputs, left - {addr}, fate, created', unspent, outputWallet.unspentOutputs)
    ensures IsVisited(fate(addr) != NotCreated, Seen(inputs[addr]), old(outputWallet.Contents()), outputWallet.Contents())
  {
    CreatedNext(inputs, left, addr, fate, created);
    SplitOne(addr, inputs[addr], outputWallet, fate(addr) != NotCreated, unspent, created);
    created' := if fate(addr) != NotCreated then created[addr := inputs[addr]] else created;
  }

  ghost predicate Visited(order: seq<Address>, visited: set<Address>, slots: nat, fate: Address -> Fate) {
    IsOrder(order, visited) && !RunsOut(order, slots, fate)
  }

  lemma VisitedNext(order: seq<Address>, visited: set<Address>, slots: nat, fate: Address -> Fate, addr: Address)
    requires Visited(order, visited, slots, fate) && addr !in visited && (fate(addr) == Posted ==> |order| < slots)
    ensures Visited(order + [addr], visited + {addr}, slots, fate)
  {
    OrderOfBoth(order, [addr], visited, {addr});
  }

  lemma StartingWith(left: set<Address>, addr: Address) returns (rest: seq<Address>)
    requires addr in left
    ensures IsOrder(rest, left) && rest != [] && rest[0] == addr
  {
    var others := SomeOrder(left - {addr});
    OrderOfBoth([addr], others, {addr}, left - {addr});
    assert {addr} + (left - {addr}) == left;
    rest := [addr] + others;
  }

  /** The order when the program ends: what is left would have come after. */
  lemma EndsEarly(order: seq<Address>, inputs: set<Address>, left: set<Address>, slots: nat, fate: Address -> Fate,
                  addr: Address)
    returns (all: seq<Address>)
    requires IsOrder(order, inputs - left) && left <= inputs && addr in left && fate(addr) == Posted && slots <= |order|
    ensures IsOrder(all, inputs) && RunsOut(all, slots, fate)
  {
    var rest := StartingWith(left, addr);
    OrderOfBoth(order, rest, inputs - left, left);
    assert inputs - left + left == inputs;
    all := order + rest;
    assert all[|order|] == addr;
  }

  /**
   * One round: every output of the input wallet is split into the output wallet. The IDs of the posted transactions
   * are written into `slots` slots; a transaction without a slot ends the program. `order` is the order of visiting.
   */
  method SplitRound(inputWallet: Wallet, outputWallet: Wallet, slots: nat, fate: Address -> Fate)
    returns (inRange: bool, ghost created: Unspent, ghost order: seq<Address>)
    requires inputWallet != outputWallet && outputWallet.Valid()
    modifies outputWallet
    ensures outputWallet.Valid()
    ensures IsOrder(order, inputWallet.unspentOutputs.Keys) && (inRange <==> !RunsOut(order, slots, fate))
    ensures |inputWallet.unspentOutputs| <= slots || PostedAmong(inputWallet.unspentOutputs.Keys, fate) == {} ==> inRange
    ensures slots < |PostedAmong(inputWallet.unspentOutputs.Keys, fate)| ==> !inRange
    ensures inRange ==> AreCreated(created, inputWallet.unspentOutputs, {}, fate)
    ensures inRange ==> Moved(created, old(outputWallet.unspentOutputs), outputWallet.unspentOutputs)
    ensures inRange ==>
      InPlace(order, inputWallet.unspentOutputs, fate, old(outputWallet.Contents()), outputWallet.Contents())
  {
    inRange, created, order := VisitAll(inputWallet, outputWallet, slots, fate);
    Decides(order, inputWallet.unspentOutputs, slots, fate);
  }

  lemma Decides(order: seq<Address>, inputs: Unspent, slots: nat, fate: Address -> Fate)
    requires IsOrder(order, inputs.Keys)
    ensures |inputs| <= slots || PostedAmong(inputs.Keys, fate) == {} ==> !RunsOut(order, slots, fate)
    ensures slots < |PostedAmong(inputs.Keys, fate)| ==> RunsOut(order, slots, fate)
  {
    assert |inputs| == |inputs.Keys|;
    if |inputs| <= slots || PostedAmong(inputs.Keys, fate) == {} {
      CannotRunOut(order, inputs.Keys, slots, fate);
    }
    if slots < |PostedAmong(inputs.Keys, fate)| {
      MustRunOut(order, inputs.Keys, slots, fate);
    }
  }

  /** The state of a round while the inputs that are `left` have yet to be visited. */
  ghost predicate Going(inputs: Unspent, left: set<Address>, slots: nat, fate: Address -> Fate, created: Unspent,
                        order: seq<Address>, unspent: Unspent, more: Unspent)
  {
    Progress(inputs, left, fate, created, unspent, more) && Visited(order, inputs.Keys - left, slots, fate)
  }

  lemma GoesOn(inputs: set<Address>, left: set<Address>, slots: nat, fate: Address -> Fate, order: seq<Address>,
               addr: Address)
    requires Visited(order, inputs - left, slots, fate)
    requires addr in left && addr in inputs && (fate(addr) == Posted ==> |order| < slots)
    ensures Visited(order + [addr], inputs - (left - {addr}), slots, fate)
  {
    VisitedNext(order, inputs - left, slots, fate, addr);
    assert inputs - left + {addr} == inputs - (left - {addr});
  }

  /** Visits an input. */
  method Visit(inputs: Unspent, ghost left: set<Address>, addr: Address, outputWallet: Wallet,
               txIDs: array<Option<Address>>,
               inputNum: nat, fate: Address -> Fate, ghost unspent: Unspent, ghost created: Unspent,
               ghost order: seq<Address>, ghost was: Stock)
    returns (inRange: bool, ghost created': Unspent, ghost order': seq<Address>)
    requires outputWallet.Valid() && addr in left && inputNum == |order|
    requires Going(inputs, left, txIDs.Length, fate, created, order, unspent, outputWallet.unspentOutputs)
    requires InPlace(order, inputs, fate, was, outputWallet.Contents())
    modifies outputWallet, txIDs
    ensures outputWallet.Valid()
    ensures inRange ==> |order'| == inputNum + 1
    ensures inRange ==> Going(inputs, left - {addr}, txIDs.Length, fate, created', order', unspent, outputWallet.unspentOutputs)
    ensures inRange ==> InPlace(order', inputs, fate, was, outputWallet.Contents())
    ensures !inRange ==> IsOrder(order', inputs.Keys) && RunsOut(order', txIDs.Length, fate)
  {
    ghost var before := outputWallet.Contents();
    created' := SplitNext(inputs, left, addr, outputWallet, fate, unspent, created);
    InPlaceOn(order, addr, inputs, fate, was, before, outputWallet.Contents());
    if fate(addr) == Posted {
      if inputNum >= txIDs.Length {
        order' := EndsEarly(order, inputs.Keys, left, txIDs.Length, fate, addr);
        return false, created', order';
      }
      txIDs[inputNum] := Some(addr);
    }
    GoesOn(inputs.Keys, left, txIDs.Length, fate, order, addr);
    inRange, order' := true, order + [addr];
  }

  method VisitAll(inputWallet: Wallet, outputWallet: Wallet, slots: nat, fate: Address -> Fate)
    returns (inRange: bool, ghost created: Unspent, ghost order: seq<Address>)
    requires inputWallet != outputWallet && outputWallet.Valid()
    modifies outputWallet
    ensures outputWallet.Valid()
    ensures IsOrder(order, inputWallet.unspentOutputs.Keys) && (inRange <==> !RunsOut(order, slots, fate))
    ensures inRange ==> AreCreated(created, inputWallet.unspentOutputs, {}, fate)
    ensures inRange ==> Moved(created, old(outputWallet.unspentOutputs), outputWallet.unspentOutputs)
    ensures inRange ==>
      InPlace(order, inputWallet.unspentOutputs, fate, old(outputWallet.Contents()), outputWallet.Contents())
  {
    var txIDs := new Option<Address>[slots](_ => None);
    var inputs := inputWallet.unspentOutputs;
    var inputNum := 0;
    var left := inputs.Keys;
    ghost var unspent, was := outputWallet.unspentOutputs, outputWallet.Contents();
    created, order := map[], [];
    while left != {}
      invariant inputs == inputWallet.unspentOutputs && outputWallet.Valid() && inputNum == |order|
      invariant Going(inputs, left, slots, fate, created, order, unspent, outputWallet.unspentOutputs)
      invariant InPlace(order, inputs, fate, was, outputWallet.Contents())
      decreases left
    {
      var addr :| addr in left;
      inRange, created, order := Visit(inputs, left, addr, outputWallet, txIDs, inputNum, fate, unspent, created, order, was);
      if !inRange {
        return;
      }
      inputNum := inputNum + 1;
      left := left - {addr};
    }
    assert inputs.Keys - left == inputs.Keys;
    inRange := true;
  }

  // ----- the whole split -----

  ghost function Rounds(n: int): nat
    decreases if n > 1 then n else 0
  {
    if n <= 1 then 0 else 1 + Rounds(n / FAUCET_REQUEST_SPLIT_NUMBER)
  }

  function Pow100(k: nat): (r: nat)
    ensures r > 0
  {
    if k == 0 then 1 else FAUCET_REQUEST_SPLIT_NUMBER * Pow100(k - 1)
  }

  /** A hundred times as many in every round. */
  ghost function Grown(first: nat, rounds: nat): nat {
    if rounds == 0 then first else FAUCET_REQUEST_SPLIT_NUMBER * Grown(first, rounds - 1)
  }

  lemma {:induction false} GrownFromOne(rounds: nat)
    ensures Grown(1, rounds) == Pow100(rounds)
  {
    if rounds > 0 {
      GrownFromOne(rounds - 1);
    }
  }

  /** How many rounds there are: k of them from 2 * 100^(k - 1) on. */
  lemma {:induction false} RoundsAre(n: int, k: nat)
    requires k > 0
    ensures Rounds(n) == k <==> 2 * Pow100(k - 1) <= n < 2 * Pow100(k)
  {
    if n > 1 {
      if k == 1 {
        assert Rounds(n / FAUCET_REQUEST_SPLIT_NUMBER) == 0 <==> n / FAUCET_REQUEST_SPLIT_NUMBER <= 1;
      } else {
        RoundsAre(n / FAUCET_REQUEST_SPLIT_NUMBER, k - 1);
      }
    }
  }

  /** The split makes the wanted number of outputs exactly when it is a power of a hundred. */
  lemma {:induction false} ExactIffPower(n: int)
    requires n > 1
    ensures Pow100(Rounds(n)) == n <==> exists k :: k > 0 && n == Pow100(k)
  {
    if k: nat :| k > 0 && n == Pow100(k) {
      assert Pow100(k) == 100 * Pow100(k - 1);
      RoundsAre(n, k);
    }
    if Pow100(Rounds(n)) == n {
      assert Rounds(n) > 0;
    }
  }

  lemma DropOne<K, V>(m: map<K, V>, a: K)
    requires a in m
    ensures |m - {a}| == |m| - 1
  {
    assert (m - {a}).Keys == m.Keys - {a};
  }

  lemma {:induction false} PartOfTotal(part: Unspent, whole: Unspent)
    requires forall a :: a in part ==> a in whole && part[a] == whole[a]
    ensures |part| <= |whole| && TotalSeen(part) <= TotalSeen(whole)
    decreases |whole|
  {
    if whole.Keys == {} {
      assert part == map[];
    } else {
      var a :| a in whole;
      TotalSeenPick(whole, a);
      DropOne(whole, a);
      if a in part {
        TotalSeenPick(part, a);
        DropOne(part, a);
        PartOfTotal(part - {a}, whole - {a});
      } else {
        PartOfTotal(part, whole - {a});
      }
    }
  }

  /** IsEmpty is the error of an empty wallet; OutOfRange is a transaction ID without a slot, which ends the program. */
  datatype Result = IsEmpty | OutOfRange | Done

  ghost predicate AllCreated(fates: Fates) {
    forall round, a :: fates(round, a) != NotCreated
  }

  /** At most `wanted` outputs, and no more than `total` IOTA; exactly that if `all` transactions could be made. */
  ghost predicate AsWanted(all: bool, count: nat, sum: nat, wanted: nat, total: nat) {
    count <= wanted && sum <= total && (all ==> count == wanted && sum == total)
  }

  method CountRounds(splitNumber: int) returns (round: nat)
    ensures round == Rounds(splitNumber)
  {
    round := 0;
    var i := splitNumber;
    while i > 1
      invariant round + Rounds(i) == Rounds(splitNumber)
    {
      i := i / FAUCET_REQUEST_SPLIT_NUMBER;
      round := round + 1;
    }
  }

  lemma AllAreCreated(created: Unspent, inputs: Unspent, fate: Address -> Fate)
    requires AreCreated(created, inputs, {}, fate) && forall a :: fate(a) != NotCreated
    ensures created == inputs
  {
  }

  lemma CreatedAsWanted(created: Unspent, inputs: Unspent, i: nat, fates: Fates, wanted: nat, total: nat)
    requires AreCreated(created, inputs, {}, FateIn(fates, i))
    requires AsWanted(AllCreated(fates), |inputs|, TotalSeen(inputs), wanted, total)
    ensures AsWanted(AllCreated(fates), FAUCET_REQUEST_SPLIT_NUMBER * |created|, TotalSeen(created),
              FAUCET_REQUEST_SPLIT_NUMBER * wanted, total)
    ensures |created| == |CreatedAmong(inputs.Keys, FateIn(fates, i))|
  {
    PartOfTotal(created, inputs);
    assert created.Keys == CreatedAmong(inputs.Keys, FateIn(fates, i)) && |created| == |created.Keys|;
    if AllCreated(fates) {
      AllAreCreated(created, inputs, FateIn(fates, i));
    }
  }

  /** The inputs of a round and the order in which they are visited. */
  datatype Turn = Turn(inputs: set<Address>, order: seq<Address>)

  ghost predicate RunsOutIn(turn: Turn, i: nat, fates: Fates) {
    RunsOut(turn.order, Pow100(i), FateIn(fates, i))
  }

  /** The number of outputs that a turn leads to. */
  ghost function Splits(turn: Turn, i: nat, fates: Fates): nat {
    FAUCET_REQUEST_SPLIT_NUMBER * |CreatedAmong(turn.inputs, FateIn(fates, i))|
  }

  /** The turns of a split that starts from the given outputs. */
  ghost predicate AreTurns(turns: seq<Turn>, fates: Fates, first: set<Address>) {
    && (forall i :: 0 <= i < |turns| ==> IsOrder(turns[i].order, turns[i].inputs))
    && (turns != [] ==> turns[0].inputs == first)
    && (forall i :: 0 < i < |turns| ==> |turns[i].inputs| == Splits(turns[i - 1], i - 1, fates))
  }

  ghost predicate AllInRange(turns: seq<Turn>, fates: Fates) {
    forall i :: 0 <= i < |turns| ==> !RunsOutIn(turns[i], i, fates)
  }

  /** All rounds are gone through unless one runs out of slots, which is then the last. */
  ghost predicate Ends(turns: seq<Turn>, round: nat, fates: Fates, inRange: bool) {
    if inRange then |turns| == round && AllInRange(turns, fates)
    else 1 <= |turns| <= round && RunsOutIn(turns[|turns| - 1], |turns| - 1, fates) && AllInRange(turns[..|turns| - 1], fates)
  }

  /** The first round has one slot. */
  lemma TwoPostedRunOut(turns: seq<Turn>, round: nat, fates: Fates, first: set<Address>, inRange: bool)
    requires AreTurns(turns, fates, first) && Ends(turns, round, fates, inRange)
    requires round > 0 && 1 < |PostedAmong(first, FateIn(fates, 0))|
    ensures !inRange
  {
    MustRunOut(turns[0].order, first, Pow100(0), FateIn(fates, 0));
    assert RunsOutIn(turns[0], 0, fates);
  }

  lemma NothingPostedStays(turns: seq<Turn>, round: nat, fates: Fates, first: set<Address>, inRange: bool)
    requires AreTurns(turns, fates, first) && Ends(turns, round, fates, inRange)
    requires NothingPosted(fates)
    ensures inRange
  {
    if !inRange {
      var i := |turns| - 1;
      CannotRunOut(turns[i].order, turns[i].inputs, Pow100(i), FateIn(fates, i));
    }
  }

  lemma {:induction false} OneGrows(turns: seq<Turn>, fates: Fates, first: set<Address>, i: nat)
    requires AreTurns(turns, fates, first) && |first| == 1 && i < |turns|
    ensures |turns[i].inputs| <= Pow100(i)
  {
    if i > 0 {
      OneGrows(turns, fates, first, i - 1);
      SubsetSize(CreatedAmong(turns[i - 1].inputs, FateIn(fates, i - 1)), turns[i - 1].inputs);
    }
  }

  /** Starting from one output, every round has as many slots as it needs. */
  lemma OneStays(turns: seq<Turn>, round: nat, fates: Fates, first: set<Address>, inRange: bool)
    requires AreTurns(turns, fates, first) && Ends(turns, round, fates, inRange) && |first| == 1
    ensures inRange
  {
    if !inRange {
      var i := |turns| - 1;
      OneGrows(turns, fates, first, i);
      CannotRunOut(turns[i].order, turns[i].inputs, Pow100(i), FateIn(fates, i));
    }
  }

  // ----- how much the outputs hold -----

  /** The least and the most that an output of a round holds, if those before hold `amount`. */
  function Least(amount: nat, rounds: nat): nat {
    if rounds == 0 then amount else Least(amount, rounds - 1) / FAUCET_REQUEST_SPLIT_NUMBER
  }

  function Most(amount: nat, rounds: nat): nat {
    if rounds == 0 then amount
    else Most(amount, rounds - 1) / FAUCET_REQUEST_SPLIT_NUMBER + FAUCET_REQUEST_SPLIT_NUMBER - 1
  }

  lemma Times(x: nat, y: nat, n: nat)
    requires x <= y
    ensures x * n <= y * n
  {
  }

  lemma OneRoundLess(amount: nat, before: nat, n: nat, least: nat)
    requires before * n <= amount < (before + 1) * n && 100 * least <= before < 100 * least + 100
    ensures least * (100 * n) <= amount < (least + 1) * (100 * n)
  {
    Times(100 * least, before, n);
    Times(before + 1, 100 * least + 100, n);
    assert least * (100 * n) == (100 * least) * n;
    assert (least + 1) * (100 * n) == (100 * least + 100) * n;
  }

  /** The least is the amount divided by a power of a hundred, rounded down. */
  lemma {:induction false} LeastIsQuotient(amount: nat, rounds: nat)
    ensures Least(amount, rounds) * Pow100(rounds) <= amount < (Least(amount, rounds) + 1) * Pow100(rounds)
  {
    if rounds > 0 {
      LeastIsQuotient(amount, rounds - 1);
      OneRoundLess(amount, Least(amount, rounds - 1), Pow100(rounds - 1), Least(amount, rounds));
    }
  }

  /** The most is no more than a hundred more. */
  lemma {:induction false} MostIsClose(amount: nat, rounds: nat)
    ensures Least(amount, rounds) <= Most(amount, rounds) <= Least(amount, rounds) + FAUCET_REQUEST_SPLIT_NUMBER
  {
    if rounds > 0 {
      MostIsClose(amount, rounds - 1);
    }
  }

  /** What the outputs hold that are not among the others. */
  ghost predicate Between(unspent: Unspent, others: Unspent, low: nat, high: nat) {
    forall a :: a in unspent && a !in others ==> low <= Seen(unspent[a]) <= high
  }

  /** A round divides what the outputs hold by a hundred, up to the remainder. */
  ghost predicate Divided(inputs: Unspent, unspent: Unspent, more: Unspent) {
    forall low: nat, high: nat :: Between(inputs, map[], low, high) ==>
      Between(more, unspent, low / FAUCET_REQUEST_SPLIT_NUMBER,
        high / FAUCET_REQUEST_SPLIT_NUMBER + FAUCET_REQUEST_SPLIT_NUMBER - 1)
  }

  /** So do several rounds, one after the other. */
  ghost predicate DividedBy(inputs: Unspent, unspent: Unspent, more: Unspent, rounds: nat) {
    forall low: nat, high: nat :: Between(inputs, map[], low, high) ==> Between(more, unspent, Least(low, rounds), Most(high, rounds))
  }

  lemma DividedOnceMore(first: Unspent, inputs: Unspent, rounds: nat, unspent: Unspent, more: Unspent)
    requires DividedBy(first, map[], inputs, rounds) && Divided(inputs, unspent, more)
    ensures DividedBy(first, unspent, more, rounds + 1)
  {
    forall low: nat, high: nat | Between(first, map[], low, high)
      ensures Between(more, unspent, Least(low, rounds + 1), Most(high, rounds + 1))
    {
      assert Between(inputs, map[], Least(low, rounds), Most(high, rounds));
    }
  }

  lemma {:induction false} PartAt(unspent: Unspent, start: nat, amount: nat, n: nat, k: nat)
    requires k < n && HoldParts(unspent, start, amount, n)
    ensures HoldsAt(unspent, Address(start + k), Part(amount, k))
  {
    if k < n - 1 {
      PartAt(unspent, start, amount, n - 1, k);
    }
  }

  lemma {:induction false} PartsOf(order: seq<Address>, inputs: Unspent, fate: Address -> Fate, start: nat,
                                   unspent: Unspent, i: nat)
    requires AllInPlace(order, inputs, fate, start, unspent) && i < |order| && fate(order[i]) != NotCreated
    ensures order[i] in inputs
    ensures HoldParts(unspent, Place(start, i), Seen(inputs[order[i]]), FAUCET_REQUEST_SPLIT_NUMBER)
  {
    if i < |order| - 1 {
      PartsOf(order[..|order| - 1], inputs, fate, start, unspent, i);
    }
  }

  lemma HoldsPart(unspent: Unspent, a: Address, amount: nat, k: nat)
    requires HoldsAt(unspent, a, Part(amount, k)) && amount <= MAX_UINT64
    ensures amount / FAUCET_REQUEST_SPLIT_NUMBER <= Seen(unspent[a])
    ensures Seen(unspent[a]) <= amount / FAUCET_REQUEST_SPLIT_NUMBER + FAUCET_REQUEST_SPLIT_NUMBER - 1
  {
    SeenIota(Part(amount, k));
    assert unspent[a] == Positive(map[IOTA := Part(amount, k)]);
  }

  lemma RoundDivides(order: seq<Address>, inputs: Unspent, fate: Address -> Fate, was: Stock, now: Stock)
    requires InPlace(order, inputs, fate, was, now)
    ensures Divided(inputs, was.unspent, now.unspent)
  {
    forall low: nat, high: nat, a | Between(inputs, map[], low, high) && a in now.unspent && a !in was.unspent
      ensures low / FAUCET_REQUEST_SPLIT_NUMBER <= Seen(now.unspent[a])
      ensures Seen(now.unspent[a]) <= high / FAUCET_REQUEST_SPLIT_NUMBER + FAUCET_REQUEST_SPLIT_NUMBER - 1
    {
      var input := PartIsOf(a, order, inputs, fate, was, now);
    }
  }

  lemma FindPart(a: Address, order: seq<Address>, inputs: Unspent, fate: Address -> Fate, start: nat, unspent: Unspent,
                 more: Unspent)
    returns (input: Address, place: nat)
    requires AllInPlace(order, inputs, fate, start, more) && AllAreParts(order, fate, start, unspent, more)
    requires a in more && a !in unspent
    ensures input in inputs && InRange(a, place)
    ensures HoldParts(more, place, Seen(inputs[input]), FAUCET_REQUEST_SPLIT_NUMBER)
  {
    assert IsPart(a, order, fate, start);
    var i: nat :| i < |order| && fate(order[i]) != NotCreated && InRange(a, Place(start, i));
    PartsOf(order, inputs, fate, start, more, i);
    input, place := order[i], Place(start, i);
  }

  /** Each new output is a part of one of the inputs. */
  lemma PartIsOf(a: Address, order: seq<Address>, inputs: Unspent, fate: Address -> Fate, was: Stock, now: Stock)
    returns (input: Address)
    requires InPlace(order, inputs, fate, was, now) && a in now.unspent && a !in was.unspent
    ensures input in inputs && Seen(inputs[input]) / FAUCET_REQUEST_SPLIT_NUMBER <= Seen(now.unspent[a])
    ensures Seen(now.unspent[a]) <= Seen(inputs[input]) / FAUCET_REQUEST_SPLIT_NUMBER + FAUCET_REQUEST_SPLIT_NUMBER - 1
  {
    var place;
    input, place := FindPart(a, order, inputs, fate, was.last + 1, was.unspent, now.unspent);
    var amount, k := Seen(inputs[input]), a.index - place;
    PartAt(now.unspent, place, amount, FAUCET_REQUEST_SPLIT_NUMBER, k);
    HoldsPart(now.unspent, a, amount, k);
  }

  /** One round of the split, seen from what the input wallet holds. */
  method RunRound(i: nat, inputWallet: Wallet, outputWallet: Wallet, fates: Fates, ghost wanted: nat,
                  ghost total: nat)
    returns (inRange: bool, ghost turn: Turn, ghost sum: nat)
    requires inputWallet != outputWallet && outputWallet.Valid()
    requires AsWanted(AllCreated(fates), |inputWallet.unspentOutputs|, TotalSeen(inputWallet.unspentOutputs), wanted, total)
    modifies outputWallet
    ensures outputWallet.Valid()
    ensures turn.inputs == inputWallet.unspentOutputs.Keys && IsOrder(turn.order, turn.inputs)
    ensures inRange <==> !RunsOutIn(turn, i, fates)
    ensures inRange ==> AsWanted(AllCreated(fates), Splits(turn, i, fates), sum, FAUCET_REQUEST_SPLIT_NUMBER * wanted, total)
    ensures inRange ==> Extends(old(outputWallet.unspentOutputs), outputWallet.unspentOutputs, Splits(turn, i, fates), sum)
    ensures inRange ==> Divided(inputWallet.unspentOutputs, old(outputWallet.unspentOutputs), outputWallet.unspentOutputs)
  {
    ghost var was := outputWallet.Contents();
    ghost var created, order;
    inRange, created, order := SplitRound(inputWallet, outputWallet, Pow100(i), FateIn(fates, i));
    turn, sum := Turn(inputWallet.unspentOutputs.Keys, order), TotalSeen(created);
    if inRange {
      CreatedAsWanted(created, inputWallet.unspentOutputs, i, fates, wanted, total);
      RoundDivides(order, inputWallet.unspentOutputs, FateIn(fates, i), was, outputWallet.Contents());
    }
  }

  ghost predicate Holds(unspent: Unspent, count: nat, sum: nat) {
    |unspent| == count && TotalSeen(unspent) == sum
  }

  /** Before the last round `tmp` holds the funds and the output wallet waits; in the end it has received them. */
  ghost predicate Standing(i: nat, round: nat, tmp: Unspent, unspent: Unspent, more: Unspent, count: nat, sum: nat) {
    && (i < round ==> Holds(tmp, count, sum))
    && (i < round || round == 0 ==> more == unspent)
    && (i == round > 0 ==> Extends(unspent, more, count, sum))
  }

  /** What the turns so far say about the outputs there are now. */
  ghost predicate Leads(turns: seq<Turn>, fates: Fates, first: set<Address>, count: nat) {
    && AreTurns(turns, fates, first) && AllInRange(turns, fates)
    && count == if turns == [] then |first| else Splits(turns[|turns| - 1], |turns| - 1, fates)
  }

  lemma LeadsOn(turns: seq<Turn>, fates: Fates, first: set<Address>, count: nat, turn: Turn)
    requires Leads(turns, fates, first, count) && IsOrder(turn.order, turn.inputs) && |turn.inputs| == count
    requires turns == [] ==> turn.inputs == first
    ensures AreTurns(turns + [turn], fates, first) && (turns + [turn])[..|turns|] == turns
    ensures !RunsOutIn(turn, |turns|, fates) ==> Leads(turns + [turn], fates, first, Splits(turn, |turns|, fates))
  {
  }

  /** What is true between two rounds of a split that starts from `inputs`, which hold `total` IOTA. */
  ghost predicate Underway(i: nat, round: nat, tmp: Unspent, fates: Fates, unspent: Unspent, more: Unspent,
                           inputs: set<Address>, total: nat, turns: seq<Turn>, count: nat, sum: nat)
  {
    && |turns| == i && Leads(turns, fates, inputs, count)
    && Standing(i, round, tmp, unspent, more, count, sum)
    && AsWanted(AllCreated(fates), count, sum, Grown(|inputs|, i), total)
  }

  /** What the rounds so far have come to: before the last one it is in `tmp`, in the end in the output wallet. */
  ghost predicate DividedSoFar(i: nat, round: nat, first: Unspent, tmp: Unspent, unspent: Unspent, more: Unspent) {
    && (i < round ==> DividedBy(first, map[], tmp, i))
    && (i == round > 0 ==> DividedBy(first, unspent, more, i))
  }

  ghost predicate DividedInTurn(i: nat, round: nat, inputs: Unspent, tmp: Unspent, unspent: Unspent, more: Unspent) {
    if i < round - 1 then Divided(inputs, map[], tmp) else Divided(inputs, unspent, more)
  }

  lemma DividesOn(i: nat, round: nat, first: Unspent, inputs: Unspent, tmp: Unspent, unspent: Unspent, was: Unspent,
                  more: Unspent)
    requires i < round && DividedSoFar(i, round, first, inputs, unspent, was)
    requires DividedInTurn(i, round, inputs, tmp, unspent, more)
    ensures DividedSoFar(i + 1, round, first, tmp, unspent, more)
  {
    if i < round - 1 {
      DividedOnceMore(first, inputs, i, map[], tmp);
    } else {
      DividedOnceMore(first, inputs, i, unspent, more);
    }
  }

  /** Splits into a new wallet or, in the last round, into the output wallet. */
  method TakeTurn(i: nat, round: nat, tmpInWallet: Wallet, outputWallet: Wallet, fates: Fates,
                  ghost count: nat, ghost sum: nat, ghost wanted: nat, ghost total: nat)
    returns (tmpOutWallet: Wallet, inRange: bool, ghost turn: Turn, ghost sum': nat)
    requires i < round && outputWallet.Valid() && tmpInWallet != outputWallet && Holds(tmpInWallet.unspentOutputs, count, sum)
    requires AsWanted(AllCreated(fates), count, sum, wanted, total)
    modifies outputWallet
    ensures outputWallet.Valid() && (i < round - 1 ==> fresh(tmpOutWallet))
    ensures turn.inputs == old(tmpInWallet.unspentOutputs).Keys && IsOrder(turn.order, turn.inputs)
    ensures inRange <==> !RunsOutIn(turn, i, fates)
    ensures inRange ==> Standing(i + 1, round, tmpOutWallet.unspentOutputs, old(outputWallet.unspentOutputs),
                          outputWallet.unspentOutputs, Splits(turn, i, fates), sum')
    ensures inRange ==> AsWanted(AllCreated(fates), Splits(turn, i, fates), sum', FAUCET_REQUEST_SPLIT_NUMBER * wanted, total)
    ensures inRange ==> DividedInTurn(i, round, old(tmpInWallet.unspentOutputs), tmpOutWallet.unspentOutputs,
                          old(outputWallet.unspentOutputs), outputWallet.unspentOutputs)
  {
    if i == round - 1 {
      tmpOutWallet := outputWallet;
    } else {
      tmpOutWallet := new Wallet();
    }
    inRange, turn, sum' := RunRound(i, tmpInWallet, tmpOutWallet, fates, wanted, total);
  }

  lemma TurnTaken(i: nat, round: nat, tmp: Unspent, fates: Fates, unspent: Unspent, more: Unspent, inputs: set<Address>,
                  total: nat, turns: seq<Turn>, count: nat, sum: nat, turn: Turn, tmp': Unspent, more': Unspent, sum': nat)
    requires i < round && (i == 0 ==> tmp.Keys == inputs)
    requires Underway(i, round, tmp, fates, unspent, more, inputs, total, turns, count, sum)
    requires turn.inputs == tmp.Keys && IsOrder(turn.order, turn.inputs) && !RunsOutIn(turn, i, fates)
    requires Standing(i + 1, round, tmp', unspent, more', Splits(turn, i, fates), sum')
    requires AsWanted(AllCreated(fates), Splits(turn, i, fates), sum', FAUCET_REQUEST_SPLIT_NUMBER * Grown(|inputs|, i), total)
    ensures Underway(i + 1, round, tmp', fates, unspent, more', inputs, total, turns + [turn], Splits(turn, i, fates), sum')
  {
    LeadsOn(turns, fates, inputs, count, turn);
  }

  lemma LastTurn(i: nat, round: nat, fates: Fates, inputs: set<Address>, turns: seq<Turn>, count: nat, turn: Turn)
    requires i < round && |turns| == i && Leads(turns, fates, inputs, count) && (i == 0 ==> turn.inputs == inputs)
    requires |turn.inputs| == count && IsOrder(turn.order, turn.inputs) && RunsOutIn(turn, i, fates)
    ensures AreTurns(turns + [turn], fates, inputs) && Ends(turns + [turn], round, fates, false)
  {
    LeadsOn(turns, fates, inputs, count, turn);
  }

  method NextRound(i: nat, round: nat, tmpInWallet: Wallet, outputWallet: Wallet, fates: Fates, ghost unspent: Unspent,
                   ghost inputs: set<Address>, ghost total: nat, ghost turns: seq<Turn>, ghost count: nat, ghost sum: nat,
                   ghost first: Unspent)
    returns (tmpOutWallet: Wallet, inRange: bool, ghost turns': seq<Turn>, ghost count': nat, ghost sum': nat)
    requires i < round && (i == 0 ==> tmpInWallet.unspentOutputs.Keys == inputs)
    requires outputWallet.Valid() && tmpInWallet != outputWallet
    requires Underway(i, round, tmpInWallet.unspentOutputs, fates, unspent, outputWallet.unspentOutputs, inputs, total, turns, count, sum)
    requires DividedSoFar(i, round, first, tmpInWallet.unspentOutputs, unspent, outputWallet.unspentOutputs)
    modifies outputWallet
    ensures outputWallet.Valid() && (i < round - 1 ==> fresh(tmpOutWallet))
    ensures inRange ==> DividedSoFar(i + 1, round, first, tmpOutWallet.unspentOutputs, unspent, outputWallet.unspentOutputs)
    ensures inRange ==> Underway(i + 1, round, tmpOutWallet.unspentOutputs, fates, unspent, outputWallet.unspentOutputs,
                          inputs, total, turns', count', sum')
    ensures !inRange ==> AreTurns(turns', fates, inputs) && Ends(turns', round, fates, false)
  {
    ghost var tmp, more := tmpInWallet.unspentOutputs, outputWallet.unspentOutputs;
    ghost var turn;
    tmpOutWallet, inRange, turn, sum' := TakeTurn(i, round, tmpInWallet, outputWallet, fates, count, sum, Grown(|inputs|, i), total);
    turns', count' := turns + [turn], Splits(turn, i, fates);
    if inRange {
      TurnTaken(i, round, tmp, fates, unspent, more, inputs, total, turns, count, sum, turn, tmpOutWallet.unspentOutputs,
        outputWallet.unspentOutputs, sum');
      DividesOn(i, round, first, tmp, tmpOutWallet.unspentOutputs, unspent, more, outputWallet.unspentOutputs);
    } else {
      LastTurn(i, round, fates, inputs, turns, count, turn);
    }
  }

  lemma StartsUnderway(round: nat, inputs: Unspent, fates: Fates, unspent: Unspent)
    ensures Underway(0, round, inputs, fates, unspent, unspent, inputs.Keys, TotalSeen(inputs), [], |inputs|, TotalSeen(inputs))
  {
    assert |inputs| == |inputs.Keys|;
  }

  method RunRounds(inputWallet: Wallet, outputWallet: Wallet, round: nat, fates: Fates)
    returns (inRange: bool, ghost turns: seq<Turn>, ghost count: nat, ghost sum: nat)
    requires inputWallet != outputWallet && outputWallet.Valid()
    modifies outputWallet
    ensures outputWallet.Valid()
    ensures round == 0 ==> outputWallet.unspentOutputs == old(outputWallet.unspentOutputs)
    ensures AreTurns(turns, fates, inputWallet.unspentOutputs.Keys) && Ends(turns, round, fates, inRange)
    ensures inRange && round > 0 ==> Extends(old(outputWallet.unspentOutputs), outputWallet.unspentOutputs, count, sum)
    ensures inRange && round > 0 ==>
      DividedBy(inputWallet.unspentOutputs, old(outputWallet.unspentOutputs), outputWallet.unspentOutputs, round)
    ensures inRange ==> AsWanted(AllCreated(fates), count, sum,
                          Grown(|inputWallet.unspentOutputs|, round), TotalSeen(inputWallet.unspentOutputs))
  {
    ghost var first, unspent := inputWallet.unspentOutputs, outputWallet.unspentOutputs;
    ghost var inputs, total := first.Keys, TotalSeen(first);
    var tmpOutWallet := inputWallet;
    turns, count, sum := [], |first|, total;
    StartsUnderway(round, first, fates, unspent);
    for i := 0 to round
      invariant if i == 0 then tmpOutWallet == inputWallet else i < round ==> fresh(tmpOutWallet)
      invariant inputWallet.unspentOutputs == first && outputWallet.Valid()
      invariant Underway(i, round, tmpOutWallet.unspentOutputs, fates, unspent, outputWallet.unspentOutputs,
                  inputs, total, turns, count, sum)
      invariant DividedSoFar(i, round, first, tmpOutWallet.unspentOutputs, unspent, outputWallet.unspentOutputs)
    {
      tmpOutWallet, inRange, turns, count, sum :=
        NextRound(i, round, tmpOutWallet, outputWallet, fates, unspent, inputs, total, turns, count, sum, first);
      if !inRange {
        return;
      }
    }
    inRange := true;
  }

  /**
   * With `result == Done` the output wallet has `count` new outputs holding `sum` IOTA. `turns` are the rounds gone
   * through: the program ends for want of a slot exactly when the order of one of them runs out.
   */
  method SplitOutputs(inputWallet: Wallet, outputWallet: Wallet, splitNumber: int, fates: Fates)
    returns (result: Result, ghost turns: seq<Turn>, ghost count: nat, ghost sum: nat)
    requires inputWallet != outputWallet && inputWallet.Valid() && outputWallet.Valid()
    modifies outputWallet
    ensures result == IsEmpty <==> inputWallet.lastAddrSpent == inputWallet.lastAddrIdxUsed || inputWallet.unspentOutputs == map[]
    ensures result == IsEmpty || Rounds(splitNumber) == 0 ==> outputWallet.unspentOutputs == old(outputWallet.unspentOutputs)
    ensures result != IsEmpty ==>
      AreTurns(turns, fates, inputWallet.unspentOutputs.Keys) && Ends(turns, Rounds(splitNumber), fates, result == Done)
    ensures |inputWallet.unspentOutputs| == 1 || Rounds(splitNumber) == 0 || NothingPosted(fates) ==> result != OutOfRange
    ensures 1 < |PostedAmong(inputWallet.unspentOutputs.Keys, FateIn(fates, 0))| && Rounds(splitNumber) > 0 ==> result != Done
    ensures result == Done && Rounds(splitNumber) > 0 ==>
      Extends(old(outputWallet.unspentOutputs), outputWallet.unspentOutputs, count, sum)
    ensures result == Done && Rounds(splitNumber) > 0 ==>
      DividedBy(inputWallet.unspentOutputs, old(outputWallet.unspentOutputs), outputWallet.unspentOutputs, Rounds(splitNumber))
    ensures result == Done ==>
      AsWanted(AllCreated(fates), count, sum,
        Grown(|inputWallet.unspentOutputs|, Rounds(splitNumber)), TotalSeen(inputWallet.unspentOutputs))
  {
    if inputWallet.IsEmpty() {
      return IsEmpty, [], 0, 0;
    }
    var round := CountRounds(splitNumber);
    var inRange;
    inRange, turns, count, sum := RunRounds(inputWallet, outputWallet, round, fates);
    EndsAsExpected(turns, round, fates, inputWallet.unspentOutputs, inRange);
    result := if inRange then Done else OutOfRange;
  }

  ghost predicate NothingPosted(fates: Fates) {
    forall i, a :: fates(i, a) != Posted
  }

  lemma EndsAsExpected(turns: seq<Turn>, round: nat, fates: Fates, inputs: Unspent, inRange: bool)
    requires AreTurns(turns, fates, inputs.Keys) && Ends(turns, round, fates, inRange)
    ensures |inputs| == 1 || NothingPosted(fates) ==> inRange
    ensures 1 < |PostedAmong(inputs.Keys, FateIn(fates, 0))| && round > 0 ==> !inRange
  {
    assert |inputs| == |inputs.Keys|;
    if |inputs| == 1 {
      OneStays(turns, round, fates, inputs.Keys, inRange);
    } else if NothingPosted(fates) {
      NothingPostedStays(turns, round, fates, inputs.Keys, inRange);
    } else if 1 < |PostedAmong(inputs.Keys, FateIn(fates, 0))| && round > 0 {
      TwoPostedRunOut(turns, round, fates, inputs.Keys, inRange);
    }
    if |inputs| == 1 {
      SubsetSize(PostedAmong(inputs.Keys, FateIn(fates, 0)), inputs.Keys);
    }
    assert NothingPosted(fates) ==> PostedAmong(inputs.Keys, FateIn(fates, 0)) == {};
  }
}
