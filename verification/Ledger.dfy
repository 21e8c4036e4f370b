/** The ledger's vocabulary: colours, balances, addresses and outputs. */
module Ledger {
  import opened Sums

  datatype Option<+T> = None | Some(value: T)

  datatype Color = IOTA | Mint | Token(digest: nat)

  /** A Go `map[Color]uint64`: a missing colour reads as zero. */
  type Balances = map<Color, nat>

  function Get(b: Balances, c: Color): nat {
    if c in b then b[c] else 0
  }

  /** `NewColoredBalances` drops zero entries. */
  function Positive(b: Balances): Balances {
    map c | c in b && b[c] != 0 :: b[c]
  }

  type Time = nat

  datatype LedgerAddress = LedgerAddress(bytes: nat)

  /** A wallet address carries the index it was derived from. */
  datatype WalletAddress = WalletAddress(ledger: LedgerAddress, index: nat)

  datatype OutputID = OutputID(bytes: nat)

  const DUST_THRESHOLD: nat := 100

  datatype LedgerOutput =
    | SigLockedSingle(amount: nat, address: LedgerAddress)
    | SigLockedColored(balances: Balances, address: LedgerAddress)
    | ExtendedLocked(balances: Balances, address: LedgerAddress,
                     fallbackAddress: Option<LedgerAddress>, fallbackDeadline: Time, timelock: Time)
    | Alias(balances: Balances, stateAddress: LedgerAddress,
            governingAddress: Option<LedgerAddress>, isDelegated: bool)
  {
    function Funds(): Balances {
      match this
      case SigLockedSingle(amount, _) => Positive(map[IOTA := amount])
      case _ => Positive(balances)
    }

    predicate TimeLockedNow(now: Time)
      requires ExtendedLocked?
    {
      now < timelock
    }

    function UnlockAddressNow(now: Time): LedgerAddress
      requires ExtendedLocked?
    {
      if fallbackAddress.Some? && fallbackDeadline < now then fallbackAddress.value else address
    }

    function GoverningAddress(): LedgerAddress
      requires Alias?
    {
      if governingAddress.None? then stateAddress else governingAddress.value
    }
  }

  /** An output that holds a single amount holds it in IOTA, and all others what their balances say. */
  lemma FundsHold(out: LedgerOutput, c: Color)
    ensures out.SigLockedSingle? ==> Get(out.Funds(), c) == if c == IOTA then out.amount else 0
    ensures !out.SigLockedSingle? ==> Get(out.Funds(), c) == Get(out.balances, c)
  {
  }

  /** What the wallet stores about an output; `spent` is its own, local mark. */
  datatype Output = Output(address: WalletAddress, kind: LedgerOutput, confirmed: bool, spent: bool)

  /** Where an output is filed: the source's nested map `[address][outputID]` is one map keyed by the pair. */
  datatype Ref = Ref(addr: WalletAddress, id: OutputID)

  type Outputs = map<Ref, Output>

  /** The addresses under which something is filed. */
  function Addresses(o: Outputs): set<WalletAddress> {
    set r | r in o :: r.addr
  }

  /** Funds of colour `c` filed under a reference. */
  ghost function FundsAt(o: Outputs, c: Color): Ref -> nat {
    r => if r in o then Get(o[r].kind.Funds(), c) else 0
  }

  /** Funds of colour `c` in a whole collection, counted once per entry. */
  ghost function Total(o: Outputs, c: Color): nat {
    Sum(o.Keys, FundsAt(o, c))
  }

  /** Adds `b` to `m` colour by colour, in whatever order the colours come. */
  method AddBalances(m: Balances, b: Balances) returns (r: Balances)
    ensures forall c :: Get(r, c) == Get(m, c) + Get(b, c)
    ensures r.Keys == m.Keys + b.Keys
  {
    r := m;
    var left := b.Keys;
    while left != {}
      invariant left <= b.Keys
      invariant forall c :: c in r <==> c in m || (c in b && c !in left)
      invariant forall c :: c in r ==> r[c] == Get(m, c) + if c in left then 0 else Get(b, c)
      decreases left
    {
      var c :| c in left;
      r := r[c := Get(r, c) + b[c]];
      left := left - {c};
    }
  }
}
