/** The balance check a transaction has to pass (packages/protocol/ledger/vm/devnetvm/utils.go). */
module BalanceCheck {
  import opened Ledger
  import opened Sums
  import opened CoinSelection
  import opened Transactions

  ghost function AmountOf(b: Balances): Color -> nat {
    c => Get(b, c)
  }

  /** All funds of a balance sheet, whatever their colour. */
  ghost function AllFunds(b: Balances): nat {
    Sum(b.Keys, AmountOf(b))
  }

  ghost function WorthOf(): LedgerOutput -> nat {
    (out: LedgerOutput) => AllFunds(out.Funds())
  }

  /** All funds in a list of outputs, whatever their colour. */
  ghost function Worth(outputs: seq<LedgerOutput>): nat {
    SeqSum(outputs, WorthOf())
  }

  lemma AllFundsUpdate(b: Balances, c: Color, v: nat)
    ensures AllFunds(b[c := v]) + Get(b, c) == AllFunds(b) + v
  {
    var u := b[c := v];
    var rest := b.Keys - {c};
    SumPick(u.Keys, c, AmountOf(u));
    assert u.Keys - {c} == rest;
    SumCong(rest, AmountOf(u), AmountOf(b));
    if c in b {
      SumPick(b.Keys, c, AmountOf(b));
    } else {
      assert rest == b.Keys;
    }
  }

  method SafeAddUint64(a: nat, b: nat) returns (result: nat, valid: bool)
    ensures valid <==> a + b <= MAX_UINT64
    ensures valid ==> result == a + b
    ensures result <= MAX_UINT64
  {
    valid := MAX_UINT64 - a >= b;
    result := (a + b) % (MAX_UINT64 + 1);
  }

  method SafeSubUint64(a: nat, b: nat) returns (result: nat, valid: bool)
    ensures valid <==> b <= a
    ensures valid && a <= MAX_UINT64 ==> result == a - b
    ensures result <= MAX_UINT64
  {
    valid := b <= a;
    result := (a - b) % (MAX_UINT64 + 1);
  }

  /** Balances are uint64 numbers. */
  ghost predicate Fits(b: Balances) {
    forall c :: c in b ==> b[c] <= MAX_UINT64
  }

  /** Counts one input; an overflow ends the counting. `was` is what the check has come to so far. */
  method CountInput(coins: Balances, b: Balances, was: bool) returns (r: Balances, valid: bool)
    requires Fits(coins)
    ensures Fits(r)
    ensures valid ==> (forall c :: Get(r, c) == Get(coins, c) + Get(b, c)) && AllFunds(r) == AllFunds(coins) + AllFunds(b)
    ensures (was || b != map[]) && (forall c :: Get(coins, c) + Get(b, c) <= MAX_UINT64) ==> valid
  {
    r, valid := coins, was;
    var left := b.Keys;
    while left != {}
      invariant forall c :: c in left ==> c in b
      invariant Fits(r)
      invariant forall c :: Get(r, c) == Get(coins, c) + (if c in left then 0 else Get(b, c))
      invariant AllFunds(r) + Sum(left, AmountOf(b)) == AllFunds(coins) + AllFunds(b)
      invariant valid || left == b.Keys
      invariant was || left != b.Keys ==> valid
      decreases left
    {
      var c :| c in left;
      SumPick(left, c, AmountOf(b));
      left := left - {c};
      var sum;
      sum, valid := SafeAddUint64(Get(r, c), b[c]);
      AllFundsUpdate(r, c, sum);
      assert forall d :: Get(r[c := sum], d) == if d == c then sum else Get(r, d);
      r := r[c := sum];
      if !valid {
        return;
      }
    }
  }

  /** `r` is `coins` without the tokens of `b` whose turn has come. */
  ghost predicate Taken(r: Balances, coins: Balances, b: Balances, left: set<Color>) {
    forall c: Color :: c.Token? ==> Get(r, c) + (if c in left then 0 else Get(b, c)) == Get(coins, c)
  }

  method TakeToken(r: Balances, c: Color, amount: nat, ghost coins: Balances, ghost b: Balances, ghost left: set<Color>)
    returns (r': Balances, valid: bool)
    requires Fits(r)
    requires Taken(r, coins, b, left) && c in b && c in left && amount == b[c]
    ensures Fits(r')
    ensures valid <==> amount <= Get(r, c)
    ensures valid ==> Taken(r', coins, b, left - {c}) && AllFunds(r') + amount == AllFunds(r)
  {
    var rest;
    rest, valid := SafeSubUint64(Get(r, c), amount);
    AllFundsUpdate(r, c, rest);
    r' := r[c := rest];
    forall d: Color | valid && d.Token?
      ensures Get(r', d) + (if d in left - {c} then 0 else Get(b, d)) == Get(coins, d)
    {
      assert Get(r, d) + (if d in left then 0 else Get(b, d)) == Get(coins, d);
    }
  }

  /** What is set aside of the colours whose turn has come. */
  ghost function SetAside(b: Balances, left: set<Color>): nat {
    (if IOTA in left then 0 else Get(b, IOTA)) + (if Mint in left then 0 else Get(b, Mint))
  }

  /** The colours that are not `left` are counted: tokens are taken, IOTA and Mint are set aside. */
  ghost predicate Counting(r: Balances, aside: nat, coins: Balances, recolored: nat, b: Balances, left: set<Color>) {
    && Taken(r, coins, b, left)
    && aside == recolored + SetAside(b, left)
    && AllFunds(r) + AllFunds(b) + recolored == AllFunds(coins) + aside + Sum(left, AmountOf(b))
  }

  method CountColor(r: Balances, aside: nat, c: Color, amount: nat, ghost coins: Balances, ghost recolored: nat,
                    ghost b: Balances, ghost left: set<Color>)
    returns (r': Balances, aside': nat, valid: bool)
    requires Fits(r) && aside <= MAX_UINT64 && Counting(r, aside, coins, recolored, b, left)
    requires c in b && c in left && amount == b[c]
    ensures Fits(r') && aside' <= MAX_UINT64
    ensures valid <==> if c.Token? then amount <= Get(r, c) else aside + amount <= MAX_UINT64
    ensures valid ==> Counting(r', aside', coins, recolored, b, left - {c})
  {
    SumPick(left, c, AmountOf(b));
    r', aside' := r, aside;
    match c {
      case Token(_) =>
        r', valid := TakeToken(r, c, amount, coins, b, left);
      case _ =>
        aside', valid := SafeAddUint64(aside, amount);
    }
  }

  /** Counts one output: IOTA and what is minted are set aside, other colours are taken from the coins. */
  method CountOutput(coins: Balances, recolored: nat, b: Balances, was: bool)
    returns (r: Balances, recolored': nat, valid: bool)
    requires Fits(coins) && recolored <= MAX_UINT64
    ensures Fits(r) && recolored' <= MAX_UINT64
    ensures valid ==>
      && Taken(r, coins, b, {})
      && recolored' == recolored + Get(b, IOTA) + Get(b, Mint)
      && AllFunds(r) + AllFunds(b) + recolored == AllFunds(coins) + recolored'
    ensures was || b != map[] ==> recolored + Get(b, IOTA) + Get(b, Mint) <= MAX_UINT64 ==>
      (forall c: Color :: c.Token? ==> Get(b, c) <= Get(coins, c)) ==> valid
  {
    r, recolored', valid := coins, recolored, was;
    var left := b.Keys;
    while left != {}
      invariant left <= b.Keys && Fits(r) && recolored' <= MAX_UINT64
      invariant Counting(r, recolored', coins, recolored, b, left)
      invariant was || left != b.Keys ==> valid
      decreases left
    {
      var c :| c in left;
      r, recolored', valid := CountColor(r, recolored', c, b[c], coins, recolored, b, left);
      left := left - {c};
      if !valid {
        return;
      }
    }
  }

  /** What is set aside of the outputs. */
  ghost function Aside(outputs: seq<LedgerOutput>): nat {
    Out(outputs, IOTA) + Out(outputs, Mint)
  }

  /** No sum overflows: neither that of a colour nor that of what is set aside. */
  ghost predicate Countable(inputs: seq<LedgerOutput>, outputs: seq<LedgerOutput>) {
    (forall c :: Out(inputs, c) <= MAX_UINT64) && Aside(outputs) <= MAX_UINT64
  }

  method CountInputs(inputs: seq<LedgerOutput>) returns (coins: Balances, valid: bool)
    ensures Fits(coins)
    ensures valid || inputs == [] ==> (forall c :: Get(coins, c) == Out(inputs, c)) && AllFunds(coins) == Worth(inputs)
    ensures inputs != [] && AllFunded(inputs) && (forall c :: Out(inputs, c) <= MAX_UINT64) ==> valid
    ensures inputs == [] ==> !valid
  {
    coins, valid := map[], false;
    for i := 0 to |inputs|
      invariant Fits(coins)
      invariant forall c :: Get(coins, c) == Out(inputs[..i], c)
      invariant AllFunds(coins) == Worth(inputs[..i])
      invariant valid <==> i > 0
    {
      Extend(inputs, i);
      RoomForAll(inputs, i);
      assert inputs[i] in inputs;
      coins, valid := CountInput(coins, inputs[i].Funds(), valid);
      if !valid {
        return;
      }
    }
    assert inputs[..|inputs|] == inputs;
  }

  method CountOutputs(coins: Balances, outputs: seq<LedgerOutput>, was: bool)
    returns (rest: Balances, recoloredCoins: nat, valid: bool)
    requires Fits(coins)
    ensures Fits(rest) && recoloredCoins <= MAX_UINT64
    ensures valid || outputs == [] ==>
      && (forall c: Color :: c.Token? ==> Out(outputs, c) <= Get(coins, c))
      && AllFunds(rest) + Worth(outputs) == AllFunds(coins) + recoloredCoins
      && recoloredCoins == Aside(outputs)
    ensures was && AllFunded(outputs) && Aside(outputs) <= MAX_UINT64 ==>
      (forall c: Color :: c.Token? ==> Out(outputs, c) <= Get(coins, c)) ==> valid
  {
    rest, recoloredCoins, valid := coins, 0, was;
    for i := 0 to |outputs|
      invariant Fits(rest) && recoloredCoins <= MAX_UINT64
      invariant forall c: Color :: c.Token? ==> Get(rest, c) + Out(outputs[..i], c) == Get(coins, c)
      invariant recoloredCoins == Out(outputs[..i], IOTA) + Out(outputs[..i], Mint)
      invariant AllFunds(rest) + Worth(outputs[..i]) == AllFunds(coins) + recoloredCoins
      invariant was ==> valid
    {
      Extend(outputs, i);
      RoomForAll(outputs, i);
      RoomAside(outputs, i);
      assert outputs[i] in outputs;
      rest, recoloredCoins, valid := CountOutput(rest, recoloredCoins, outputs[i].Funds(), valid);
      if !valid {
        return;
      }
    }
    assert outputs[..|outputs|] == outputs;
  }

  method SumUnspent(coins: Balances, was: bool) returns (unspentCoins: nat, valid: bool)
    requires Fits(coins)
    ensures valid || coins == map[] ==> unspentCoins == AllFunds(coins)
    ensures was && AllFunds(coins) <= MAX_UINT64 ==> valid
  {
    unspentCoins, valid := 0, was;
    var left := coins.Keys;
    while left != {}
      invariant forall c :: c in left ==> c in coins
      invariant unspentCoins + Sum(left, AmountOf(coins)) == AllFunds(coins)
      invariant unspentCoins <= MAX_UINT64
      invariant was ==> valid
      decreases left
    {
      var c :| c in left;
      SumPick(left, c, AmountOf(coins));
      left := left - {c};
      unspentCoins, valid := SafeAddUint64(unspentCoins, coins[c]);
      if !valid {
        return;
      }
    }
  }

  /**
   * A transaction that passes moves exactly what it consumes, and no token is produced from nothing. If nothing empty is
   * spent or sent, one that does so passes exactly when its funds can be counted.
   */
  method TransactionBalancesValid(inputs: seq<LedgerOutput>, outputs: seq<LedgerOutput>) returns (valid: bool)
    ensures valid ==> Balanced(inputs, outputs)
    ensures inputs != [] && AllFunded(inputs) && AllFunded(outputs) ==>
      (valid <==> Balanced(inputs, outputs) && Countable(inputs, outputs))
  {
    var consumedCoins;
    consumedCoins, valid := CountInputs(inputs);
    if inputs != [] && !valid {
      return;
    }
    var recoloredCoins;
    consumedCoins, recoloredCoins, valid := CountOutputs(consumedCoins, outputs, valid);
    if outputs != [] && !valid {
      return;
    }
    var unspentCoins;
    unspentCoins, valid := SumUnspent(consumedCoins, valid);
    if consumedCoins != map[] && !valid {
      return;
    }
    valid := unspentCoins == recoloredCoins;
  }

  /** What the check stands for. */
  ghost predicate Balanced(inputs: seq<LedgerOutput>, outputs: seq<LedgerOutput>) {
    && Worth(inputs) == Worth(outputs)
    && forall c: Color :: c.Token? ==> Out(outputs, c) <= Out(inputs, c)
  }

  lemma Extend(outputs: seq<LedgerOutput>, i: nat)
    requires i < |outputs|
    ensures forall c :: Out(outputs[..i + 1], c) == Out(outputs[..i], c) + Get(outputs[i].Funds(), c)
    ensures Worth(outputs[..i + 1]) == Worth(outputs[..i]) + AllFunds(outputs[i].Funds())
  {
    assert outputs[..i + 1][..i] == outputs[..i];
  }

  lemma {:induction false} PrefixWithin(outputs: seq<LedgerOutput>, i: nat, c: Color)
    requires i <= |outputs|
    ensures Out(outputs[..i], c) <= Out(outputs, c)
  {
    if i == |outputs| {
      assert outputs[..i] == outputs;
    } else {
      PrefixWithin(outputs[..|outputs| - 1], i, c);
      assert outputs[..|outputs| - 1][..i] == outputs[..i];
    }
  }

  /** No prefix of a list holds more than the list. */
  lemma RoomFor(outputs: seq<LedgerOutput>, i: nat, c: Color)
    requires i < |outputs|
    ensures Out(outputs[..i], c) + Get(outputs[i].Funds(), c) <= Out(outputs, c)
  {
    Extend(outputs, i);
    PrefixWithin(outputs, i + 1, c);
  }

  lemma RoomAside(outputs: seq<LedgerOutput>, i: nat)
    requires i < |outputs|
    ensures Aside(outputs[..i]) + Get(outputs[i].Funds(), IOTA) + Get(outputs[i].Funds(), Mint) <= Aside(outputs)
  {
    RoomFor(outputs, i, IOTA);
    RoomFor(outputs, i, Mint);
  }

  lemma RoomForAll(outputs: seq<LedgerOutput>, i: nat)
    requires i < |outputs|
    ensures forall c :: Out(outputs[..i], c) + Get(outputs[i].Funds(), c) <= Out(outputs, c)
  {
    forall c ensures Out(outputs[..i], c) + Get(outputs[i].Funds(), c) <= Out(outputs, c) {
      RoomFor(outputs, i, c);
    }
  }

  // ---- Which transfers pass ---------------------------------------------------------------------------------

  ghost function ColorsIn(outputs: seq<LedgerOutput>): set<Color> {
    if outputs == [] then {} else ColorsIn(outputs[..|outputs| - 1]) + outputs[|outputs| - 1].Funds().Keys
  }

  ghost function OutOf(outputs: seq<LedgerOutput>): Color -> nat {
    c => Out(outputs, c)
  }

  /** Counting output by output or colour by colour comes to the same. */
  lemma {:induction false} WorthByColor(outputs: seq<LedgerOutput>, colors: set<Color>)
    requires ColorsIn(outputs) <= colors
    ensures Worth(outputs) == Sum(colors, OutOf(outputs))
  {
    if outputs == [] {
      SumDropZeros({}, colors, OutOf(outputs));
    } else {
      var front, last := outputs[..|outputs| - 1], outputs[|outputs| - 1];
      WorthByColor(front, colors);
      SumDropZeros(last.Funds().Keys, colors, AmountOf(last.Funds()));
      SumPointwise(colors, OutOf(front), AmountOf(last.Funds()), OutOf(outputs));
    }
  }

  lemma {:induction false} NoFundsOutside(outputs: seq<LedgerOutput>, c: Color)
    requires c !in ColorsIn(outputs)
    ensures Out(outputs, c) == 0
  {
    if outputs != [] { NoFundsOutside(outputs[..|outputs| - 1], c); }
  }

  /** The worth of a list falls when some colour's total falls and none rises. */
  lemma WorthCompares(kept: seq<LedgerOutput>, outputs: seq<LedgerOutput>)
    requires forall c :: Out(kept, c) <= Out(outputs, c)
    ensures Worth(kept) <= Worth(outputs)
    ensures Worth(kept) == Worth(outputs) <==> forall c :: Out(kept, c) == Out(outputs, c)
  {
    var colors := ColorsIn(kept) + ColorsIn(outputs);
    WorthByColor(kept, colors);
    WorthByColor(outputs, colors);
    SumCompares(colors, OutOf(kept), OutOf(outputs));
    forall c | c !in colors ensures Out(kept, c) == Out(outputs, c) {
      NoFundsOutside(kept, c);
      NoFundsOutside(outputs, c);
    }
  }

  lemma {:induction false} SumCompares<K>(s: set<K>, f: K -> nat, g: K -> nat)
    requires forall x :: x in s ==> f(x) <= g(x)
    ensures Sum(s, f) <= Sum(s, g)
    ensures Sum(s, f) == Sum(s, g) <==> forall x :: x in s ==> f(x) == g(x)
    decreases s
  {
    if s != {} {
      var x :| x in s;
      SumPick(s, x, f);
      SumPick(s, x, g);
      SumCompares(s - {x}, f, g);
    }
  }

  /** What is conserved colour by colour, minting aside, passes the check. */
  lemma ConservedIsBalanced(inputs: seq<LedgerOutput>, outputs: seq<LedgerOutput>, funds: Balances, minted: nat)
    requires forall c :: Out(inputs, c) == Get(funds, c)
    requires Conserved(outputs, funds, minted)
    ensures Balanced(inputs, outputs)
  {
    var colors := ColorsIn(inputs) + ColorsIn(outputs) + {IOTA, Mint};
    WorthByColor(inputs, colors);
    WorthByColor(outputs, colors);
    var tokens := colors - {IOTA} - {Mint};
    SumPick(colors, IOTA, OutOf(inputs));
    SumPick(colors - {IOTA}, Mint, OutOf(inputs));
    SumPick(colors, IOTA, OutOf(outputs));
    SumPick(colors - {IOTA}, Mint, OutOf(outputs));
    SumCong(tokens, OutOf(inputs), OutOf(outputs));
  }

  /**
   * A conserving transfer passes the balance check after identical outputs have been merged if and only if there
   * were none: sending to the remainder address exactly what will be left over is refused.
   */
  lemma PassesIffNoIdenticalOutputs(inputs: seq<LedgerOutput>, outputs: seq<LedgerOutput>, kept: seq<LedgerOutput>,
                                    funds: Balances, minted: nat)
    requires forall c :: Out(inputs, c) == Get(funds, c)
    requires Conserved(outputs, funds, minted) && AllFunded(outputs) && Deduplicated(outputs, kept)
    ensures Balanced(inputs, kept) <==> Distinct(outputs)
  {
    ConservedIsBalanced(inputs, outputs, funds, minted);
    DeduplicationLoses(outputs, kept);
    WorthCompares(kept, outputs);
  }
}
