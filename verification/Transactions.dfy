/** Building the outputs of a transfer and checking a transaction's balances. */
module Transactions {
  import opened Ledger
  import opened Sums
  import opened OutputCollections
  import opened CoinSelection

  const MAX_UINT64: nat := 0xFFFF_FFFF_FFFF_FFFF
  const MAX_OUTPUT_COUNT: nat := 127

  /** uint64 subtraction. */
  function Sub64(a: nat, b: nat): nat {
    if b <= a then a - b else (a - b) % (MAX_UINT64 + 1)
  }

  /** It starts again at the other end when there is too little. */
  lemma Sub64Wraps(a: nat, b: nat)
    requires a <= MAX_UINT64 && b <= MAX_UINT64
    ensures Sub64(a, b) + b == a + if b <= a then 0 else MAX_UINT64 + 1
  {
  }

  // ---- Requested funds --------------------------------------------------------------------------------------

  type Destinations = map<WalletAddress, Balances>

  /** What a colour of a request is paid with: tokens to be minted are paid for in IOTA. */
  function Paid(b: Balances, c: Color): nat {
    match c
    case IOTA => Get(b, IOTA) + Get(b, Mint)
    case Mint => 0
    case Token(_) => Get(b, c)
  }

  ghost function PaidAt(d: Destinations, c: Color): WalletAddress -> nat {
    a => if a in d then Paid(d[a], c) else 0
  }

  ghost function SentAt(d: Destinations, c: Color): WalletAddress -> nat {
    a => if a in d then Get(d[a], c) else 0
  }

  /** All that is to be paid in colour `c`. */
  ghost function Required(d: Destinations, c: Color): nat {
    Sum(d.Keys, PaidAt(d, c))
  }

  /** All that is to arrive in colour `c`. */
  ghost function Sent(d: Destinations, c: Color): nat {
    Sum(d.Keys, SentAt(d, c))
  }

  /** Minting moves what is sent as Mint over to what is paid in IOTA. */
  lemma RequiredIsSent(d: Destinations, c: Color)
    ensures Required(d, c) == match c
      case IOTA => Sent(d, IOTA) + Sent(d, Mint)
      case Mint => 0
      case Token(_) => Sent(d, c)
  {
    match c
    case IOTA => SumPointwise(d.Keys, SentAt(d, IOTA), SentAt(d, Mint), PaidAt(d, IOTA));
    case Mint => SumDropZeros({}, d.Keys, PaidAt(d, Mint));
    case Token(_) => SumCong(d.Keys, PaidAt(d, c), SentAt(d, c));
  }

  function PaidIn(c: Color): Color {
    if c == Mint then IOTA else c
  }

  /** The colours in which something is asked for. */
  ghost function AskedColors(d: Destinations): set<Color> {
    set a, c | a in d && c in d[a] :: PaidIn(c)
  }

  /** What a transfer asks to be funded with. */
  ghost function Request(d: Destinations): Balances {
    map c | c in AskedColors(d) :: Required(d, c)
  }

  ghost predicate IsAsked(b: Balances, x: Color) {
    exists c :: c in b && PaidIn(c) == x
  }

  /** What the colours `left` are paid in colour `c`. */
  ghost function PaidBy(b: Balances, left: set<Color>, c: Color): nat {
    match c
    case IOTA => (if IOTA in left then Get(b, IOTA) else 0) + (if Mint in left then Get(b, Mint) else 0)
    case Mint => 0
    case Token(_) => if c in left then Get(b, c) else 0
  }

  lemma PaidOne(b: Balances, left: set<Color>, color: Color, c: Color)
    requires color in left && color in b
    ensures PaidBy(b, left, c) == PaidBy(b, left - {color}, c) + (if c == PaidIn(color) then b[color] else 0)
  {
  }

  method AddPaid(required: Balances, b: Balances) returns (r: Balances)
    ensures forall c :: Get(r, c) == Get(required, c) + Paid(b, c)
    ensures forall x :: x in r <==> x in required || IsAsked(b, x)
  {
    r := required;
    var left := b.Keys;
    while left != {}
      invariant left <= b.Keys
      invariant forall c :: Get(r, c) + PaidBy(b, left, c) == Get(required, c) + Paid(b, c)
      invariant forall x :: x in r <==> x in required || exists c :: c in b && c !in left && PaidIn(c) == x
      decreases left
    {
      var color :| color in left;
      forall c ensures PaidBy(b, left, c) == PaidBy(b, left - {color}, c) + (if c == PaidIn(color) then b[color] else 0) {
        PaidOne(b, left, color, c);
      }
      left := left - {color};
      r := r[PaidIn(color) := Get(r, PaidIn(color)) + b[color]];
    }
  }

  method RequiredFunds(d: Destinations) returns (required: Balances)
    ensures required == Request(d)
    ensures forall c :: Get(required, c) == Required(d, c)
  {
    required := map[];
    var left := d.Keys;
    ghost var done: set<WalletAddress> := {};
    while left != {}
      invariant done <= d.Keys && left == d.Keys - done
      invariant forall c :: Get(required, c) == Sum(done, PaidAt(d, c))
      invariant forall x :: x in required <==> exists a :: a in done && IsAsked(d[a], x)
      decreases left
    {
      var a :| a in left;
      required := AddPaid(required, d[a]);
      forall c ensures Sum(done + {a}, PaidAt(d, c)) == Sum(done, PaidAt(d, c)) + Paid(d[a], c) {
        SumAdd(done, a, PaidAt(d, c));
      }
      left := left - {a};
      done := done + {a};
    }
    assert done == d.Keys;
    IsRequest(required, d);
  }

  lemma IsRequest(required: Balances, d: Destinations)
    requires forall c :: Get(required, c) == Required(d, c)
    requires forall x :: x in required <==> exists a :: a in d && IsAsked(d[a], x)
    ensures required == Request(d)
  {
    forall x ensures x in required <==> x in AskedColors(d) {
      if x in required {
        var a :| a in d && IsAsked(d[a], x);
        var c :| c in d[a] && PaidIn(c) == x;
      }
      if x in AskedColors(d) {
        var a, c :| a in d && c in d[a] && PaidIn(c) == x;
        assert IsAsked(d[a], x);
      }
    }
    forall c | c in required ensures required[c] == Required(d, c) {
      assert Get(required, c) == required[c];
    }
  }

  // ---- The outputs of a transfer ----------------------------------------------------------------------------

  /** The options of a transfer; a zero time means that it is not set. */
  datatype LockOptions = LockOptions(lockUntil: Time, fallbackAddress: Option<LedgerAddress>, fallbackDeadline: Time)

  function DestinationOutput(b: Balances, to: LedgerAddress, lock: LockOptions): LedgerOutput {
    if lock.lockUntil != 0 || lock.fallbackDeadline != 0 || lock.fallbackAddress.Some? then
      var withFallback := lock.fallbackDeadline != 0 && lock.fallbackAddress.Some?;
      ExtendedLocked(Positive(b), to, if withFallback then lock.fallbackAddress else None,
        if withFallback then lock.fallbackDeadline else 0, lock.lockUntil)
    else
      SigLockedColored(Positive(b), to)
  }

  ghost function OutFunds(c: Color): LedgerOutput -> nat {
    (out: LedgerOutput) => Get(out.Funds(), c)
  }

  /** Funds of colour `c` in a list of outputs. */
  ghost function Out(outputs: seq<LedgerOutput>, c: Color): nat {
    SeqSum(outputs, OutFunds(c))
  }

  /** `consumedFunds[c] -= amount`, dropping the entry when it comes to zero. */
  function Deduct(funds: Balances, c: Color, amount: nat): Balances {
    var rest := Sub64(Get(funds, c), amount);
    if rest == 0 then funds - {c} else funds[c := rest]
  }

  ghost predicate NoZeros(b: Balances) {
    forall c :: c in b ==> b[c] > 0
  }

  ghost predicate Deducted(r: Balances, funds: Balances, b: Balances, left: set<Color>) {
    forall c :: Get(r, c) + Paid(b, c) == Get(funds, c) + PaidBy(b, left, c)
  }

  lemma DeductOne(r: Balances, funds: Balances, b: Balances, left: set<Color>, color: Color)
    requires Deducted(r, funds, b, left) && color in left && color in b
    requires forall c :: Paid(b, c) <= Get(funds, c)
    ensures Deducted(Deduct(r, PaidIn(color), b[color]), funds, b, left - {color})
  {
    var x := PaidIn(color);
    assert Get(r, x) + Paid(b, x) == Get(funds, x) + PaidBy(b, left, x);
    forall c ensures Get(Deduct(r, x, b[color]), c) + Paid(b, c) == Get(funds, c) + PaidBy(b, left - {color}, c) {
      PaidOne(b, left, color, c);
    }
  }

  method DeductDestination(funds: Balances, b: Balances) returns (r: Balances)
    ensures (forall c :: Paid(b, c) <= Get(funds, c)) ==> forall c :: Get(r, c) == Get(funds, c) - Paid(b, c)
    ensures NoZeros(funds) ==> NoZeros(r)
  {
    ghost var covered := forall c :: Paid(b, c) <= Get(funds, c);
    r := funds;
    var left := b.Keys;
    while left != {}
      invariant left <= b.Keys
      invariant covered ==> Deducted(r, funds, b, left)
      invariant NoZeros(funds) ==> NoZeros(r)
      decreases left
    {
      var color :| color in left;
      if covered {
        DeductOne(r, funds, b, left, color);
      }
      left := left - {color};
      r := Deduct(r, PaidIn(color), b[color]);
    }
  }

  /** What the transfer leaves over. */
  method Remainder(d: Destinations, consumedFunds: Balances) returns (rest: Balances)
    ensures (forall c :: Required(d, c) <= Get(consumedFunds, c)) ==>
      forall c :: Get(rest, c) == Get(consumedFunds, c) - Required(d, c)
    ensures NoZeros(consumedFunds) ==> NoZeros(rest)
  {
    rest := consumedFunds;
    var left := d.Keys;
    ghost var done: set<WalletAddress> := {};
    while left != {}
      invariant forall a :: a in d <==> a in left || a in done
      invariant left !! done
      invariant (forall c :: Required(d, c) <= Get(consumedFunds, c)) ==>
        forall c :: Get(rest, c) == Get(consumedFunds, c) - Sum(done, PaidAt(d, c))
      invariant NoZeros(consumedFunds) ==> NoZeros(rest)
      decreases left
    {
      var a :| a in left;
      forall c ensures Sum(done, PaidAt(d, c)) + Paid(d[a], c) == Sum(done + {a}, PaidAt(d, c)) <= Required(d, c) {
        SumAdd(done, a, PaidAt(d, c));
        SumSubset(done + {a}, d.Keys, PaidAt(d, c));
      }
      rest := DeductDestination(rest, d[a]);
      left := left - {a};
      done := done + {a};
    }
    assert done == d.Keys;
  }

  lemma OutAppend(outputs: seq<LedgerOutput>, out: LedgerOutput, c: Color)
    ensures Out(outputs + [out], c) == Out(outputs, c) + Get(out.Funds(), c)
  {
    assert (outputs + [out])[..|outputs|] == outputs;
  }

  ghost predicate Covered(d: Destinations, funds: Balances) {
    forall c :: Required(d, c) <= Get(funds, c)
  }

  /** Inputs and outputs hold the same, except that what is minted was IOTA before. */
  ghost predicate Conserved(outputs: seq<LedgerOutput>, funds: Balances, minted: nat) {
    && Out(outputs, IOTA) + minted == Get(funds, IOTA)
    && Out(outputs, Mint) == Get(funds, Mint) + minted
    && forall c: Color :: c.Token? ==> Out(outputs, c) == Get(funds, c)
  }

  /** Every destination is sent something: the options refuse an amount of zero. */
  ghost predicate AllPositive(d: Destinations) {
    forall a :: a in d ==> Positive(d[a]) != map[]
  }

  ghost predicate AllFunded(outputs: seq<LedgerOutput>) {
    forall out :: out in outputs ==> out.Funds() != map[]
  }

  /** What is left over of the funds. */
  ghost function Excess(funds: Balances, d: Destinations): Balances {
    map c | c in funds && Required(d, c) < funds[c] :: funds[c] - Required(d, c)
  }

  lemma RestIsExcess(rest: Balances, funds: Balances, d: Destinations)
    requires forall c :: Required(d, c) <= Get(funds, c) && Get(rest, c) == Get(funds, c) - Required(d, c)
    requires NoZeros(rest)
    ensures rest == Excess(funds, d)
  {
    forall c ensures c in rest <==> c in Excess(funds, d) {
      assert c in rest <==> Get(rest, c) > 0;
    }
    forall c | c in rest ensures rest[c] == Excess(funds, d)[c] {
      assert Get(rest, c) == rest[c];
    }
  }

  ghost function OutputFor(d: Destinations, lock: LockOptions, a: WalletAddress): LedgerOutput
    requires a in d
  {
    DestinationOutput(d[a], a.ledger, lock)
  }

  ghost function RestOutputs(rest: Balances, to: LedgerAddress): set<LedgerOutput> {
    if rest == map[] then {} else {SigLockedColored(Positive(rest), to)}
  }

  /** The outputs for the destinations that are `done`. */
  ghost function OutputsFor(d: Destinations, lock: LockOptions, done: set<WalletAddress>): set<LedgerOutput>
    requires done <= d.Keys
    decreases |done|
  {
    if done == {} then {} else var a :| a in done; OutputsFor(d, lock, done - {a}) + {OutputFor(d, lock, a)}
  }

  lemma {:induction false} OutputsForAre(d: Destinations, lock: LockOptions, done: set<WalletAddress>)
    requires done <= d.Keys
    ensures forall out :: out in OutputsFor(d, lock, done) <==> exists a :: a in done && OutputFor(d, lock, a) == out
    decreases |done|
  {
    if done != {} {
      var a :| a in done && OutputsFor(d, lock, done) == OutputsFor(d, lock, done - {a}) + {OutputFor(d, lock, a)};
      OutputsForAre(d, lock, done - {a});
      forall out ensures out in OutputsFor(d, lock, done) <==> exists b :: b in done && OutputFor(d, lock, b) == out {
      }
    }
  }

  lemma OutputsForMore(d: Destinations, lock: LockOptions, done: set<WalletAddress>, a: WalletAddress)
    requires done <= d.Keys && a in d
    ensures OutputsFor(d, lock, done + {a}) == OutputsFor(d, lock, done) + {OutputFor(d, lock, a)}
  {
    OutputsForAre(d, lock, done);
    OutputsForAre(d, lock, done + {a});
  }

  /** All outputs of a transfer: one for each destination and, if anything is left over, one for the rest. */
  ghost function TransferOutputs(d: Destinations, lock: LockOptions, rest: Balances,
                                 to: LedgerAddress): set<LedgerOutput> {
    OutputsFor(d, lock, d.Keys) + RestOutputs(rest, to)
  }

  /** No two destinations come to the same output, and none comes to the same as the rest. */
  ghost predicate NoIdentical(d: Destinations, lock: LockOptions, rest: Balances, to: LedgerAddress) {
    Separate(d, d.Keys, lock, rest, to)
  }

  ghost predicate Separate(d: Destinations, done: set<WalletAddress>, lock: LockOptions, rest: Balances,
                           to: LedgerAddress)
    requires done <= d.Keys
  {
    && (forall a, b :: a in done && b in done && a != b ==> OutputFor(d, lock, a) != OutputFor(d, lock, b))
    && (forall a :: a in done ==> OutputFor(d, lock, a) !in RestOutputs(rest, to))
  }

  /** The list holds the outputs for the destinations that are `done`, and repeats one only if two are identical. */
  ghost predicate Lists(outputs: seq<LedgerOutput>, d: Destinations, done: set<WalletAddress>, lock: LockOptions,
                        rest: Balances, to: LedgerAddress)
    requires done <= d.Keys
  {
    && (forall out :: out in outputs <==> out in OutputsFor(d, lock, done) + RestOutputs(rest, to))
    && (Distinct(outputs) <==> Separate(d, done, lock, rest, to))
  }

  lemma DistinctAppend<T(!new)>(s: seq<T>, x: T)
    ensures Distinct(s + [x]) <==> Distinct(s) && x !in s
  {
    if Distinct(s + [x]) {
      DropLast(s + [x]);
      assert (s + [x])[..|s|] == s;
    } else if x !in s && Distinct(s) {
      AppendDistinct(s, x);
    }
  }

  lemma ListNothing(d: Destinations, lock: LockOptions, rest: Balances, to: LedgerAddress)
    ensures Lists(if rest == map[] then [] else [SigLockedColored(Positive(rest), to)], d, {}, lock, rest, to)
  {
    if rest != map[] {
      DistinctAppend([], SigLockedColored(Positive(rest), to));
      assert [] + [SigLockedColored(Positive(rest), to)] == [SigLockedColored(Positive(rest), to)];
    }
  }

  lemma SeparateOne(d: Destinations, done: set<WalletAddress>, a: WalletAddress, lock: LockOptions, rest: Balances,
                    to: LedgerAddress)
    requires done <= d.Keys && a in d && a !in done
    ensures Separate(d, done + {a}, lock, rest, to) <==>
      Separate(d, done, lock, rest, to) && OutputFor(d, lock, a) !in OutputsFor(d, lock, done) + RestOutputs(rest, to)
  {
    OutputsForAre(d, lock, done);
  }

  lemma ListOne(outputs: seq<LedgerOutput>, d: Destinations, done: set<WalletAddress>, a: WalletAddress,
                lock: LockOptions,
                rest: Balances, to: LedgerAddress)
    requires done <= d.Keys && a in d && a !in done && Lists(outputs, d, done, lock, rest, to)
    ensures Lists(outputs + [OutputFor(d, lock, a)], d, done + {a}, lock, rest, to)
  {
    DistinctAppend(outputs, OutputFor(d, lock, a));
    OutputsForMore(d, lock, done, a);
    SeparateOne(d, done, a, lock, rest, to);
  }

  /** The list so far: what it holds, and which outputs. */
  ghost predicate Adding(outputs: seq<LedgerOutput>, d: Destinations, done: set<WalletAddress>, lock: LockOptions,
                         rest: Balances, to: LedgerAddress)
    requires done <= d.Keys
  {
    && (forall c :: Out(outputs, c) == Get(rest, c) + Sum(done, SentAt(d, c)))
    && |outputs| == |RestOutputs(rest, to)| + |done|
    && Lists(outputs, d, done, lock, rest, to)
    && (NoZeros(rest) && AllPositive(d) ==> AllFunded(outputs))
  }

  lemma AddNone(outputs: seq<LedgerOutput>, d: Destinations, lock: LockOptions, rest: Balances, to: LedgerAddress)
    requires outputs == if rest == map[] then [] else [SigLockedColored(Positive(rest), to)]
    ensures Adding(outputs, d, {}, lock, rest, to)
  {
    RestOnly(outputs, rest, to);
    ListNothing(d, lock, rest, to);
  }

  lemma AddOne(outputs: seq<LedgerOutput>, d: Destinations, done: set<WalletAddress>, a: WalletAddress,
               lock: LockOptions,
               rest: Balances, to: LedgerAddress)
    requires done <= d.Keys && a in d && a !in done && Adding(outputs, d, done, lock, rest, to)
    ensures Adding(outputs + [OutputFor(d, lock, a)], d, done + {a}, lock, rest, to)
  {
    DestinationTotals(outputs, d, done, a, lock);
    ListOne(outputs, d, done, a, lock, rest, to);
  }

  /** What a list of outputs is that meets a request exactly. */
  ghost predicate IsTransfer(outputs: seq<LedgerOutput>, d: Destinations, lock: LockOptions, funds: Balances,
                             to: LedgerAddress) {
    var rest := Excess(funds, d);
    && Conserved(outputs, funds, Sent(d, Mint))
    && |outputs| == |d| + (if rest == map[] then 0 else 1)
    && (set out | out in outputs) == TransferOutputs(d, lock, rest, to)
    && (Distinct(outputs) <==> NoIdentical(d, lock, rest, to))
  }

  /** Every destination gets its output and, if anything is left over, the remainder address gets the rest. */
  method BuildOutputs(d: Destinations, lock: LockOptions, consumedFunds: Balances, remainderAddress: LedgerAddress)
    returns (outputs: seq<LedgerOutput>)
    ensures forall a :: a in d ==> OutputFor(d, lock, a) in outputs
    ensures AllPaid(outputs, d, lock)
    ensures |d| <= |outputs| <= |d| + 1
    ensures Covered(d, consumedFunds) && NoZeros(consumedFunds) ==>
      IsTransfer(outputs, d, lock, consumedFunds, remainderAddress) && Settles(outputs, d, lock, consumedFunds, remainderAddress)
    ensures NoZeros(consumedFunds) && AllPositive(d) ==> AllFunded(outputs)
  {
    var rest := Remainder(d, consumedFunds);
    outputs := [];
    if rest != map[] {
      outputs := outputs + [SigLockedColored(Positive(rest), remainderAddress)];
    }
    outputs := AddDestinations(outputs, d, lock, rest, remainderAddress);
    AllAreListed(outputs, d, lock, rest, remainderAddress);
    AllArePaid(outputs, d, lock);
    if Covered(d, consumedFunds) && NoZeros(consumedFunds) {
      TransferConserves(outputs, d, consumedFunds);
      RestIsExcess(rest, consumedFunds, d);
      TransferSettles(outputs, d, lock, consumedFunds, remainderAddress);
    }
  }

  method AddDestinations(outputs0: seq<LedgerOutput>, d: Destinations, lock: LockOptions, ghost rest: Balances,
                         ghost to: LedgerAddress)
    returns (outputs: seq<LedgerOutput>)
    requires outputs0 == if rest == map[] then [] else [SigLockedColored(Positive(rest), to)]
    ensures Adding(outputs, d, d.Keys, lock, rest, to)
  {
    outputs := outputs0;
    AddNone(outputs, d, lock, rest, to);
    var left := d.Keys;
    ghost var done: set<WalletAddress> := {};
    while left != {}
      invariant done <= d.Keys && left == d.Keys - done
      invariant Adding(outputs, d, done, lock, rest, to)
      decreases left
    {
      var a :| a in left;
      AddOne(outputs, d, done, a, lock, rest, to);
      outputs := outputs + [DestinationOutput(d[a], a.ledger, lock)];
      left := left - {a};
      done := done + {a};
    }
    assert done == d.Keys;
  }

  lemma AllAreListed(outputs: seq<LedgerOutput>, d: Destinations, lock: LockOptions, rest: Balances, to: LedgerAddress)
    requires Lists(outputs, d, d.Keys, lock, rest, to)
    ensures (set out | out in outputs) == TransferOutputs(d, lock, rest, to)
    ensures forall a :: a in d ==> OutputFor(d, lock, a) in outputs
  {
    OutputsForAre(d, lock, d.Keys);
  }

  lemma RestOnly(outputs: seq<LedgerOutput>, rest: Balances, to: LedgerAddress)
    requires outputs == if rest == map[] then [] else [SigLockedColored(Positive(rest), to)]
    ensures forall c :: Out(outputs, c) == Get(rest, c)
    ensures NoZeros(rest) ==> AllFunded(outputs)
  {
    forall c ensures Out(outputs, c) == Get(rest, c) {
      if rest != map[] { OutAppend([], outputs[0], c); }
    }
    if rest != map[] && NoZeros(rest) {
      assert Positive(Positive(rest)) == rest;
    }
  }

  lemma DestinationTotals(outputs: seq<LedgerOutput>, d: Destinations, done: set<WalletAddress>, a: WalletAddress,
                          lock: LockOptions)
    requires a in d && a !in done
    ensures var out := DestinationOutput(d[a], a.ledger, lock);
      && (forall c :: Out(outputs + [out], c) - Sum(done + {a}, SentAt(d, c)) == Out(outputs, c) - Sum(done, SentAt(d, c)))
      && out.Funds() == Positive(d[a])
  {
    var out := DestinationOutput(d[a], a.ledger, lock);
    assert Positive(Positive(d[a])) == Positive(d[a]);
    forall c
      ensures Out(outputs + [out], c) - Sum(done + {a}, SentAt(d, c)) == Out(outputs, c) - Sum(done, SentAt(d, c))
    {
      OutAppend(outputs, out, c);
      SumAdd(done, a, SentAt(d, c));
    }
  }

  lemma TransferConserves(outputs: seq<LedgerOutput>, d: Destinations, funds: Balances)
    requires Covered(d, funds)
    requires forall c :: Out(outputs, c) == Get(funds, c) - Required(d, c) + Sent(d, c)
    ensures Conserved(outputs, funds, Sent(d, Mint))
  {
    forall c ensures Required(d, c) == match c
        case IOTA => Sent(d, IOTA) + Sent(d, Mint)
        case Mint => 0
        case Token(_) => Sent(d, c)
    {
      RequiredIsSent(d, c);
    }
  }

  // ---- Whom the outputs pay ---------------------------------------------------------------------------------

  /** The output can be unlocked from the time given on, by `to` unless it has fallen back to the address given. */
  ghost predicate LocksAs(out: LedgerOutput, to: LedgerAddress, lock: LockOptions)
    requires out.ExtendedLocked?
  {
    forall now: Time ::
      && (out.TimeLockedNow(now) <==> now < lock.lockUntil)
      && out.UnlockAddressNow(now) ==
        if lock.fallbackAddress.Some? && 0 < lock.fallbackDeadline < now then lock.fallbackAddress.value else to
  }

  /** The output holds `b`, belongs to `to`, and is locked exactly as the options say, and not at all without options. */
  ghost predicate Pays(out: LedgerOutput, to: LedgerAddress, b: Balances, lock: LockOptions) {
    && (forall c :: Get(out.Funds(), c) == Get(b, c))
    && (out.SigLockedColored? || out.ExtendedLocked?) && out.address == to
    && (out.SigLockedColored? <==> lock.lockUntil == 0 && lock.fallbackDeadline == 0 && lock.fallbackAddress.None?)
    && (out.ExtendedLocked? ==> LocksAs(out, to, lock))
  }

  ghost predicate HasPayment(outputs: seq<LedgerOutput>, a: WalletAddress, d: Destinations, lock: LockOptions)
    requires a in d
  {
    exists out :: out in outputs && Pays(out, a.ledger, d[a], lock)
  }

  ghost predicate AllPaid(outputs: seq<LedgerOutput>, d: Destinations, lock: LockOptions) {
    forall a :: a in d ==> HasPayment(outputs, a, d, lock)
  }

  ghost predicate IsPayment(out: LedgerOutput, d: Destinations, lock: LockOptions) {
    exists a :: a in d && Pays(out, a.ledger, d[a], lock)
  }

  /** The output holds what the funds exceed the request by, colour by colour, and belongs to `to` at any time. */
  ghost predicate IsChange(out: LedgerOutput, d: Destinations, funds: Balances, to: LedgerAddress) {
    && out.SigLockedColored? && out.address == to
    && forall c :: Get(out.Funds(), c) + Required(d, c) == Get(funds, c)
  }

  ghost predicate HasChange(outputs: seq<LedgerOutput>, d: Destinations, funds: Balances, to: LedgerAddress) {
    exists out :: out in outputs && IsChange(out, d, funds, to)
  }

  /** Everyone is paid, what is left over is returned, and there is nothing else. */
  ghost predicate Settles(outputs: seq<LedgerOutput>, d: Destinations, lock: LockOptions, funds: Balances,
                          to: LedgerAddress) {
    && AllPaid(outputs, d, lock)
    && ((exists c :: Required(d, c) < Get(funds, c)) ==> HasChange(outputs, d, funds, to))
    && forall out :: out in outputs ==> IsPayment(out, d, lock) || IsChange(out, d, funds, to)
  }

  lemma OutputPays(d: Destinations, lock: LockOptions, a: WalletAddress)
    requires a in d
    ensures Pays(OutputFor(d, lock, a), a.ledger, d[a], lock)
  {
    assert Positive(Positive(d[a])) == Positive(d[a]);
  }

  lemma AllArePaid(outputs: seq<LedgerOutput>, d: Destinations, lock: LockOptions)
    requires forall a :: a in d ==> OutputFor(d, lock, a) in outputs
    ensures AllPaid(outputs, d, lock)
  {
    forall a | a in d ensures HasPayment(outputs, a, d, lock) {
      OutputPays(d, lock, a);
    }
  }

  lemma RestIsChange(d: Destinations, funds: Balances, to: LedgerAddress)
    requires Covered(d, funds)
    ensures IsChange(SigLockedColored(Positive(Excess(funds, d)), to), d, funds, to)
  {
    var rest := Excess(funds, d);
    assert Positive(Positive(rest)) == rest;
    forall c ensures Get(rest, c) + Required(d, c) == Get(funds, c) {
      assert Required(d, c) <= Get(funds, c);
    }
  }

  lemma TransferHas(out: LedgerOutput, d: Destinations, lock: LockOptions, funds: Balances, to: LedgerAddress)
    requires Covered(d, funds) && out in TransferOutputs(d, lock, Excess(funds, d), to)
    ensures IsPayment(out, d, lock) || IsChange(out, d, funds, to)
  {
    if out in OutputsFor(d, lock, d.Keys) {
      OutputsForAre(d, lock, d.Keys);
      var a :| a in d && OutputFor(d, lock, a) == out;
      OutputPays(d, lock, a);
    } else {
      RestIsChange(d, funds, to);
    }
  }

  lemma ChangeIsReturned(outputs: seq<LedgerOutput>, d: Destinations, lock: LockOptions, funds: Balances,
                         to: LedgerAddress)
    requires Covered(d, funds) && exists c :: Required(d, c) < Get(funds, c)
    requires forall out :: out in TransferOutputs(d, lock, Excess(funds, d), to) ==> out in outputs
    ensures HasChange(outputs, d, funds, to)
  {
    var rest := Excess(funds, d);
    var c :| Required(d, c) < Get(funds, c);
    assert c in rest;
    RestIsChange(d, funds, to);
    assert SigLockedColored(Positive(rest), to) in outputs;
  }

  /** The outputs of a transfer that is covered settle it. */
  lemma TransferSettles(outputs: seq<LedgerOutput>, d: Destinations, lock: LockOptions, funds: Balances,
                        to: LedgerAddress)
    requires Covered(d, funds)
    requires forall out :: out in outputs <==> out in TransferOutputs(d, lock, Excess(funds, d), to)
    ensures Settles(outputs, d, lock, funds, to)
  {
    OutputsForAre(d, lock, d.Keys);
    AllArePaid(outputs, d, lock);
    if exists c :: Required(d, c) < Get(funds, c) {
      ChangeIsReturned(outputs, d, lock, funds, to);
    }
    forall out | out in outputs ensures IsPayment(out, d, lock) || IsChange(out, d, funds, to) {
      TransferHas(out, d, lock, funds, to);
    }
  }

  // ---- The list of outputs in a transaction -----------------------------------------------------------------

  /**
   * `NewOutputs` keeps one of each group of identical outputs. (It also sorts them; the order plays no part in
   * what follows.) A list that comes out empty or too long makes it panic, here `None`.
   */
  method NewOutputs(optionalOutputs: seq<LedgerOutput>) returns (r: Option<seq<LedgerOutput>>)
    ensures r.Some? ==> Deduplicated(optionalOutputs, r.value) && |r.value| == |set out | out in optionalOutputs|
    ensures r.Some? <==> 1 <= |set out | out in optionalOutputs| <= MAX_OUTPUT_COUNT
  {
    var outputs: seq<LedgerOutput> := [];
    for i := 0 to |optionalOutputs|
      invariant |outputs| <= i && (i > 0 ==> outputs != [])
      invariant Deduplicated(optionalOutputs[..i], outputs)
    {
      KeepFirst(optionalOutputs, outputs, i);
      if optionalOutputs[i] !in outputs {
        outputs := outputs + [optionalOutputs[i]];
      }
    }
    assert optionalOutputs[..|optionalOutputs|] == optionalOutputs;
    SumOfDistinct(outputs, _ => 0);
    assert (set out | out in outputs) == (set out | out in optionalOutputs);
    if |outputs| < 1 || MAX_OUTPUT_COUNT < |outputs| {
      return None;
    }
    r := Some(outputs);
  }

  /** Nothing is listed twice, nothing new is listed, and only repetitions are left out. */
  ghost predicate Deduplicated(outputs: seq<LedgerOutput>, kept: seq<LedgerOutput>) {
    && Distinct(kept)
    && (forall out :: out in outputs <==> out in kept)
    && (Distinct(outputs) ==> kept == outputs)
  }

  lemma KeepFirst(outputs: seq<LedgerOutput>, kept: seq<LedgerOutput>, i: nat)
    requires i < |outputs| && Deduplicated(outputs[..i], kept)
    ensures Deduplicated(outputs[..i + 1], if outputs[i] in kept then kept else kept + [outputs[i]])
  {
    var before, after, out := outputs[..i], outputs[..i + 1], outputs[i];
    assert after == before + [out];
    assert multiset(after) == multiset(before) + multiset{out};
    if out in kept {
      assert out in before && multiset(after)[out] >= 2;
    } else {
      AppendDistinct(kept, out);
      if Distinct(after) {
        DropLast(after);
        assert after[..|after| - 1] == before;
      }
    }
  }

  lemma AppendDistinct<T(!new)>(s: seq<T>, x: T)
    requires Distinct(s) && x !in s
    ensures Distinct(s + [x])
  {
    assert multiset(s)[x] == 0;
    forall y ensures multiset(s + [x])[y] <= 1 {
      assert multiset(s)[y] <= 1;
    }
  }

  /** A repeated element is counted in a list more often than in the set of its elements. */
  lemma {:induction false} RepeatsAddUp<T(!new)>(s: seq<T>, f: T -> nat)
    ensures Sum((set x | x in s), f) <= SeqSum(s, f)
    ensures forall x :: multiset(s)[x] > 1 ==> Sum((set y | y in s), f) + f(x) <= SeqSum(s, f)
  {
    if s != [] {
      var front, last := s[..|s| - 1], s[|s| - 1];
      assert s == front + [last];
      assert multiset(s) == multiset(front) + multiset{last};
      RepeatsAddUp(front, f);
      var elements := set y | y in front;
      if last in front {
        assert (set y | y in s) == elements;
      } else {
        assert multiset(front)[last] == 0;
        assert (set y | y in s) == elements + {last};
        SumAdd(elements, last, f);
      }
    }
  }

  /** Leaving out repetitions loses funds exactly when something was repeated. */
  lemma DeduplicationLoses(outputs: seq<LedgerOutput>, kept: seq<LedgerOutput>)
    requires Deduplicated(outputs, kept) && AllFunded(outputs)
    ensures forall c :: Out(kept, c) <= Out(outputs, c)
    ensures Distinct(outputs) <==> forall c :: Out(kept, c) == Out(outputs, c)
  {
    assert (set x | x in kept) == (set x | x in outputs);
    forall c
      ensures Out(kept, c) <= Out(outputs, c)
      ensures forall x :: multiset(outputs)[x] > 1 ==> Out(kept, c) + Get(x.Funds(), c) <= Out(outputs, c)
    {
      RepeatsAddUp(outputs, OutFunds(c));
      SumOfDistinct(kept, OutFunds(c));
    }
    if !Distinct(outputs) {
      var x :| multiset(outputs)[x] > 1;
      assert x in outputs;
      var c :| c in x.Funds();
      assert Out(kept, c) + Get(x.Funds(), c) <= Out(outputs, c);
    }
  }
}
