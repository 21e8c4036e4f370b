/** The wallet's bookkeeping of its addresses (client/wallet/address_manager.go). */
module AddressManagement {
  import opened BitMasks
  import opened Ledger

  function Max(a: nat, b: nat): nat { if a < b then b else a }

  /** The addresses recorded as spent by a list of masks. */
  ghost function SpentIn(masks: seq<BitMask>): set<nat> {
    if masks == [] then {} else
      var n := |masks| - 1;
      SpentIn(masks[..n]) + set bit: nat | bit < 8 && HasBit(masks[n], bit) :: 8 * n + bit
  }

  lemma {:induction false} SpentInMeaning(masks: seq<BitMask>, i: nat)
    ensures i in SpentIn(masks) <==> i / 8 < |masks| && HasBit(masks[i / 8], i % 8)
  {
    if masks != [] {
      var n := |masks| - 1;
      SpentInMeaning(masks[..n], i);
      if i / 8 == n {
        assert i == 8 * n + i % 8;
      }
    }
  }

  /** `i` is what a scan over all indexes from zero would find. */
  ghost predicate IsFirstUnspent(spent: set<nat>, i: nat) {
    i !in spent && forall j: nat :: j < i ==> j in spent
  }

  /** `i` is what a scan downwards from `last` would find. */
  ghost predicate IsLastUnspent(spent: set<nat>, last: nat, i: nat) {
    i <= last && i !in spent && forall j: nat :: i < j <= last ==> j in spent
  }

  lemma GrowingKeepsSpent(masks: seq<BitMask>, extra: nat)
    ensures SpentIn(masks + seq(extra, _ => 0)) == SpentIn(masks)
  {
    var grown := masks + seq(extra, _ => 0);
    forall i: nat
      ensures i in SpentIn(grown) <==> i in SpentIn(masks)
    {
      SpentInMeaning(grown, i);
      SpentInMeaning(masks, i);
      EmptyMask(i % 8);
    }
  }

  lemma SettingMarksOne(masks: seq<BitMask>, k: nat)
    requires k / 8 < |masks|
    ensures SpentIn(masks[k / 8 := SetBit(masks[k / 8], k % 8)]) == SpentIn(masks) + {k}
  {
    var marked := masks[k / 8 := SetBit(masks[k / 8], k % 8)];
    forall i: nat
      ensures i in SpentIn(marked) <==> i == k || i in SpentIn(masks)
    {
      SpentInMeaning(marked, i);
      SpentInMeaning(masks, i);
      SetBitSetsOneBit(masks[k / 8], k % 8, i % 8);
    }
  }

  class AddressManager {
    const seed: nat -> LedgerAddress
    var lastAddressIndex: nat
    var spentAddresses: seq<BitMask>
    // caches
    var firstUnspentAddressIndex: nat
    var lastUnspentAddressIndex: nat

    ghost function Spent(): set<nat>
      reads this
    {
      SpentIn(spentAddresses)
    }

    /** Holds from construction on. */
    ghost predicate Usable()
      reads this
    {
      && IsFirstUnspent(Spent(), firstUnspentAddressIndex)
      && lastUnspentAddressIndex !in Spent()
      && firstUnspentAddressIndex <= lastUnspentAddressIndex <= lastAddressIndex
    }

    /** No address beyond the last generated one is recorded as spent. */
    ghost predicate NoneSpentAhead()
      reads this
    {
      forall i :: i in Spent() ==> i <= lastAddressIndex
    }

    /** Holds from a sweep over all addresses on: both caches agree with a scan of the whole set. */
    ghost predicate Swept()
      reads this
    {
      Usable() && IsLastUnspent(Spent(), lastAddressIndex, lastUnspentAddressIndex)
    }

    /** What any operation keeps, even one that skips addresses. */
    ghost predicate Valid()
      reads this
    {
      Swept() && NoneSpentAhead()
    }

    constructor (seed: nat -> LedgerAddress, lastAddressIndex: nat, spentAddresses: seq<BitMask>)
      ensures Usable()
      ensures this.seed == seed && Spent() == SpentIn(spentAddresses)
      ensures this.lastAddressIndex == Max(lastAddressIndex, firstUnspentAddressIndex)
      ensures lastUnspentAddressIndex == firstUnspentAddressIndex
      ensures (forall i :: i in SpentIn(spentAddresses) ==> i <= lastAddressIndex) ==> NoneSpentAhead()
    {
      this.seed := seed;
      this.lastAddressIndex := lastAddressIndex;
      this.spentAddresses := spentAddresses;
      this.firstUnspentAddressIndex := 0;
      this.lastUnspentAddressIndex := 0;
      new;
      UpdateFirstUnspentAddressIndex();
      UpdateLastUnspentAddressIndex();
    }

    function WalletAddressOf(addressIndex: nat): WalletAddress {
      WalletAddress(seed(addressIndex), addressIndex)
    }

    /** Every access goes through here: it grows the masks and, for an index not seen before, the caches. */
    method SpentAddressIndexes(addressIndex: nat) returns (sliceIndex: nat, bitIndex: nat)
      modifies this
      ensures sliceIndex == addressIndex / 8 < |spentAddresses| && bitIndex == addressIndex % 8
      ensures Spent() == old(Spent())
      ensures lastAddressIndex == Max(old(lastAddressIndex), addressIndex)
      ensures firstUnspentAddressIndex == old(firstUnspentAddressIndex)
      ensures lastUnspentAddressIndex ==
        if old(lastUnspentAddressIndex) < addressIndex && addressIndex !in Spent() then addressIndex
        else old(lastUnspentAddressIndex)
      ensures old(spentAddresses) <= spentAddresses
      ensures addressIndex < 8 * old(|spentAddresses|) ==> spentAddresses == old(spentAddresses)
      ensures old(Usable()) ==> Usable()
      ensures old(Valid()) ==> Valid()
    {
      var capacity := |spentAddresses|;
      sliceIndex := addressIndex / 8;
      bitIndex := addressIndex % 8;
      if sliceIndex + 1 > capacity {
        GrowingKeepsSpent(spentAddresses, sliceIndex - capacity + 1);
        spentAddresses := spentAddresses + seq(sliceIndex - capacity + 1, _ => 0);
      }
      if addressIndex > lastAddressIndex {
        lastAddressIndex := addressIndex;
      }
      SpentInMeaning(spentAddresses, addressIndex);
      if addressIndex > lastUnspentAddressIndex && !HasBit(spentAddresses[sliceIndex], bitIndex) {
        lastUnspentAddressIndex := addressIndex;
      }
    }

    method Address(addressIndex: nat) returns (a: WalletAddress)
      modifies this
      ensures a == WalletAddressOf(addressIndex)
      ensures Spent() == old(Spent())
      ensures lastAddressIndex == Max(old(lastAddressIndex), addressIndex)
      ensures firstUnspentAddressIndex == old(firstUnspentAddressIndex)
      ensures lastUnspentAddressIndex ==
        if old(lastUnspentAddressIndex) < addressIndex && addressIndex !in Spent() then addressIndex
        else old(lastUnspentAddressIndex)
      ensures old(Usable()) ==> Usable()
      ensures old(Swept()) && addressIndex <= old(lastAddressIndex) + 1 ==> Swept()
      ensures old(Valid()) ==> Valid()
    {
      var _, _ := SpentAddressIndexes(addressIndex);
      a := WalletAddressOf(addressIndex);
    }

    method IsAddressSpent(addressIndex: nat) returns (spent: bool)
      modifies this
      ensures spent <==> addressIndex in old(Spent())
      ensures Spent() == old(Spent())
      ensures lastAddressIndex == Max(old(lastAddressIndex), addressIndex)
      ensures firstUnspentAddressIndex == old(firstUnspentAddressIndex)
      ensures lastUnspentAddressIndex ==
        if old(lastUnspentAddressIndex) < addressIndex && addressIndex !in Spent() then addressIndex
        else old(lastUnspentAddressIndex)
      ensures addressIndex < 8 * old(|spentAddresses|) ==> spentAddresses == old(spentAddresses)
      ensures old(Usable()) ==> Usable()
      ensures old(Valid()) ==> Valid()
    {
      var sliceIndex, bitIndex := SpentAddressIndexes(addressIndex);
      SpentInMeaning(spentAddresses, addressIndex);
      spent := HasBit(spentAddresses[sliceIndex], bitIndex);
    }

    /** The open-ended scan ends: at the latest, one step past the masks' capacity nothing is spent. */
    method UpdateFirstUnspentAddressIndex()
      requires forall j: nat :: j < firstUnspentAddressIndex ==> j in Spent()
      modifies this
      ensures Spent() == old(Spent())
      ensures IsFirstUnspent(Spent(), firstUnspentAddressIndex)
      ensures lastAddressIndex == Max(old(lastAddressIndex), firstUnspentAddressIndex)
      ensures lastUnspentAddressIndex == Max(old(lastUnspentAddressIndex), firstUnspentAddressIndex)
    {
      var i: nat := firstUnspentAddressIndex;
      assert i == 0 || i - 1 in Spent();
      SpentInMeaning(spentAddresses, if i == 0 then 0 else i - 1);
      while true
        invariant old(firstUnspentAddressIndex) <= i <= 8 * |spentAddresses|
        invariant spentAddresses == old(spentAddresses)
        invariant forall j: nat :: j < i ==> j in Spent()
        invariant firstUnspentAddressIndex == old(firstUnspentAddressIndex)
        invariant lastUnspentAddressIndex == old(lastUnspentAddressIndex)
        invariant lastAddressIndex == old(lastAddressIndex) || old(lastAddressIndex) < lastAddressIndex < i
        decreases 8 * |old(spentAddresses)| - i
      {
        SpentInMeaning(spentAddresses, i);
        var spent := IsAddressSpent(i);
        if !spent {
          firstUnspentAddressIndex := i;
          return;
        }
        i := i + 1;
      }
    }

    /** Finds the greatest unspent index at or below the cached one; only when there is none is an address generated. */
    method UpdateLastUnspentAddressIndex()
      modifies this
      ensures Spent() == old(Spent()) && firstUnspentAddressIndex == old(firstUnspentAddressIndex)
      ensures (exists j: nat :: j <= old(lastUnspentAddressIndex) && j !in Spent()) ==>
        && IsLastUnspent(Spent(), old(lastUnspentAddressIndex), lastUnspentAddressIndex)
        && lastAddressIndex == Max(old(lastAddressIndex), old(lastUnspentAddressIndex))
      ensures (forall j: nat :: j <= old(lastUnspentAddressIndex) ==> j in Spent()) ==>
        lastAddressIndex == Max(old(lastAddressIndex), old(lastUnspentAddressIndex)) + 1
    {
      var i: nat := lastUnspentAddressIndex;
      while true
        invariant i <= lastUnspentAddressIndex == old(lastUnspentAddressIndex)
        invariant Spent() == old(Spent()) && firstUnspentAddressIndex == old(firstUnspentAddressIndex)
        invariant forall j: nat :: i < j <= lastUnspentAddressIndex ==> j in Spent()
        invariant lastAddressIndex ==
          if i == old(lastUnspentAddressIndex) then old(lastAddressIndex)
          else Max(old(lastAddressIndex), old(lastUnspentAddressIndex))
        decreases i
      {
        var spent := IsAddressSpent(i);
        if !spent {
          lastUnspentAddressIndex := i;
          return;
        }
        if i == 0 {
          break;
        }
        i := i - 1;
      }
      var _ := NewAddress();
    }

    method NewAddress() returns (a: WalletAddress)
      modifies this
      ensures a == WalletAddressOf(old(lastAddressIndex) + 1)
      ensures lastAddressIndex == old(lastAddressIndex) + 1
      ensures Spent() == old(Spent())
      ensures firstUnspentAddressIndex == old(firstUnspentAddressIndex)
      ensures old(NoneSpentAhead()) ==> old(lastAddressIndex) + 1 !in Spent()
      ensures old(NoneSpentAhead()) ==> NoneSpentAhead()
      ensures old(Usable()) ==> Usable()
      ensures old(Swept()) ==> Swept()
      ensures old(Valid()) ==> Valid()
    {
      a := Address(lastAddressIndex + 1);
    }

    method FirstUnspentAddress() returns (a: WalletAddress)
      requires Usable()
      modifies this
      ensures a == WalletAddressOf(firstUnspentAddressIndex)
      ensures Spent() == old(Spent()) && lastAddressIndex == old(lastAddressIndex)
      ensures firstUnspentAddressIndex == old(firstUnspentAddressIndex)
      ensures lastUnspentAddressIndex == old(lastUnspentAddressIndex)
      ensures Usable() && (old(Swept()) ==> Swept()) && (old(Valid()) ==> Valid())
    {
      a := Address(firstUnspentAddressIndex);
    }

    method LastUnspentAddress() returns (a: WalletAddress)
      requires Usable()
      modifies this
      ensures a == WalletAddressOf(lastUnspentAddressIndex)
      ensures Spent() == old(Spent()) && lastAddressIndex == old(lastAddressIndex)
      ensures firstUnspentAddressIndex == old(firstUnspentAddressIndex)
      ensures lastUnspentAddressIndex == old(lastUnspentAddressIndex)
      ensures Usable() && (old(Swept()) ==> Swept()) && (old(Valid()) ==> Valid())
    {
      a := Address(lastUnspentAddressIndex);
    }

    /**
     * Marks exactly one address. The last address moves only to reach the marked one, or to the one fresh
     * address that is generated when everything up to there is spent.
     */
    method MarkAddressSpent(addressIndex: nat)
      requires Usable()
      modifies this
      ensures Usable()
      ensures Spent() == old(Spent()) + {addressIndex}
      ensures lastAddressIndex == Max(Max(old(lastAddressIndex), addressIndex), firstUnspentAddressIndex)
      ensures old(Swept()) && addressIndex <= old(lastAddressIndex) ==> Swept()
      ensures old(Valid()) ==> Valid()
    {
      var sliceIndex, bitIndex := SpentAddressIndexes(addressIndex);
      SettingMarksOne(spentAddresses, addressIndex);
      spentAddresses := spentAddresses[sliceIndex := SetBit(spentAddresses[sliceIndex], bitIndex)];
      if addressIndex == firstUnspentAddressIndex {
        UpdateFirstUnspentAddressIndex();
      }
      if addressIndex == lastUnspentAddressIndex {
        assert firstUnspentAddressIndex <= lastUnspentAddressIndex && firstUnspentAddressIndex !in Spent();
        UpdateLastUnspentAddressIndex();
      }
    }

    /** One sweep over all addresses completes the caches of a freshly imported wallet. */
    method Addresses() returns (addresses: seq<WalletAddress>)
      requires Usable()
      modifies this
      ensures Swept() && (Valid() <==> old(NoneSpentAhead()))
      ensures Spent() == old(Spent()) && lastAddressIndex == old(lastAddressIndex)
      ensures firstUnspentAddressIndex == old(firstUnspentAddressIndex)
      ensures addresses == AllAddresses(seed, lastAddressIndex + 1)
    {
      addresses := [];
      var i: nat := 0;
      while i <= lastAddressIndex
        invariant i <= lastAddressIndex + 1
        invariant Usable() && Spent() == old(Spent()) && lastAddressIndex == old(lastAddressIndex)
        invariant firstUnspentAddressIndex == old(firstUnspentAddressIndex)
        invariant forall j: nat :: lastUnspentAddressIndex < j < i ==> j in Spent()
        invariant addresses == AllAddresses(seed, i)
      {
        var a := Address(i);
        addresses := addresses + [a];
        i := i + 1;
      }
    }

    /** Lists an address if it is spent, or if it is not, as `wanted`. */
    method ListIf(i: nat, wanted: bool) returns (found: seq<WalletAddress>)
      requires Usable() && i <= lastAddressIndex
      modifies this
      ensures Usable() && (old(Valid()) ==> Valid())
      ensures Spent() == old(Spent()) && lastAddressIndex == old(lastAddressIndex)
      ensures found == if (i in Spent()) == wanted then [WalletAddressOf(i)] else []
    {
      found := [];
      var spent := IsAddressSpent(i);
      if spent == wanted {
        var a := Address(i);
        found := [a];
      }
    }

    /** Starts its scan at the cached first unspent index, and each probe may touch the state. */
    method UnspentAddresses() returns (addresses: seq<WalletAddress>)
      requires Usable()
      modifies this
      ensures Usable() && (old(Valid()) ==> Valid())
      ensures Spent() == old(Spent()) && lastAddressIndex == old(lastAddressIndex)
      ensures addresses == Listing(seed, Spent(), false, lastAddressIndex + 1)
    {
      addresses := [];
      ghost var spent, last, valid := Spent(), lastAddressIndex, Valid();
      var i: nat := firstUnspentAddressIndex;
      ListingSkips(seed, spent, i);
      while i <= lastAddressIndex
        invariant i <= last + 1 && Spent() == spent && lastAddressIndex == last
        invariant Usable() && (valid ==> Valid())
        invariant addresses == Listing(seed, spent, false, i)
      {
        var found := ListIf(i, false);
        addresses := addresses + found;
        i := i + 1;
      }
    }

    method SpentAddresses() returns (addresses: seq<WalletAddress>)
      requires Usable()
      modifies this
      ensures Usable() && (old(Valid()) ==> Valid())
      ensures Spent() == old(Spent()) && lastAddressIndex == old(lastAddressIndex)
      ensures addresses == Listing(seed, Spent(), true, lastAddressIndex + 1)
    {
      addresses := [];
      ghost var spent, last, valid := Spent(), lastAddressIndex, Valid();
      var i: nat := 0;
      while i <= lastAddressIndex
        invariant i <= last + 1 && Spent() == spent && lastAddressIndex == last
        invariant Usable() && (valid ==> Valid())
        invariant addresses == Listing(seed, spent, true, i)
      {
        var found := ListIf(i, true);
        addresses := addresses + found;
        i := i + 1;
      }
    }
  }

  /** The first `n` addresses, in the order of their indexes. */
  ghost function AllAddresses(seed: nat -> LedgerAddress, n: nat): (addresses: seq<WalletAddress>)
    ensures |addresses| == n && forall i :: 0 <= i < n ==> addresses[i] == WalletAddress(seed(i), i)
  {
    if n == 0 then [] else AllAddresses(seed, n - 1) + [WalletAddress(seed(n - 1), n - 1)]
  }

  /** No address is listed twice. */
  lemma {:induction false} AllAddressesDiffer(seed: nat -> LedgerAddress, n: nat)
    ensures forall a :: multiset(AllAddresses(seed, n))[a] <= 1
    ensures forall a :: a in AllAddresses(seed, n) ==> a.index < n
  {
    if n > 0 {
      AllAddressesDiffer(seed, n - 1);
      var last := WalletAddress(seed(n - 1), n - 1);
      assert multiset(AllAddresses(seed, n)) == multiset(AllAddresses(seed, n - 1)) + multiset{last};
      assert last !in AllAddresses(seed, n - 1);
    }
  }

  /** The addresses below `n` that are spent, or that are not, in the order of their indexes. */
  ghost function Listing(seed: nat -> LedgerAddress, spent: set<nat>, wanted: bool, n: nat): seq<WalletAddress> {
    if n == 0 then [] else
      Listing(seed, spent, wanted, n - 1) +
      (if (n - 1 in spent) == wanted then [WalletAddress(seed(n - 1), n - 1)] else [])
  }

  lemma {:induction false} ListingSkips(seed: nat -> LedgerAddress, spent: set<nat>, n: nat)
    requires forall j: nat :: j < n ==> j in spent
    ensures Listing(seed, spent, false, n) == []
  {
    if n > 0 { ListingSkips(seed, spent, n - 1); }
  }

  /** A listing is strictly ascending and holds exactly the wanted addresses. */
  lemma {:induction false} ListingIsExact(seed: nat -> LedgerAddress, spent: set<nat>, wanted: bool, n: nat)
    ensures var l := Listing(seed, spent, wanted, n);
      && (forall i, j :: 0 <= i < j < |l| ==> l[i].index < l[j].index)
      && (forall a :: a in l <==> a.index < n && a == WalletAddress(seed(a.index), a.index) && (a.index in spent) == wanted)
  {
    if n > 0 { ListingIsExact(seed, spent, wanted, n - 1); }
  }

  /** The two listings split all addresses between them: no address is in both, none is in neither. */
  lemma ListingsPartition(seed: nat -> LedgerAddress, spent: set<nat>, n: nat)
    ensures var all := AllAddresses(seed, n);
      var unspent, used := Listing(seed, spent, false, n), Listing(seed, spent, true, n);
      && (forall a :: a in all <==> (a in unspent || a in used))
      && (forall a :: !(a in unspent && a in used))
      && |unspent| + |used| == n
  {
    ListingIsExact(seed, spent, false, n);
    ListingIsExact(seed, spent, true, n);
    ListingLengths(seed, spent, n);
    var all := AllAddresses(seed, n);
    forall a: WalletAddress | a.index < n && a == WalletAddress(seed(a.index), a.index) ensures a in all {
      assert all[a.index] == a;
    }
  }

  lemma {:induction false} ListingLengths(seed: nat -> LedgerAddress, spent: set<nat>, n: nat)
    ensures |Listing(seed, spent, false, n)| + |Listing(seed, spent, true, n)| == n
  {
    if n > 0 { ListingLengths(seed, spent, n - 1); }
  }

  // ---- The caches over whole runs -------------------------------------------------------------------------

  /** The same bookkeeping without masks and caches: what is spent, and how far addresses go. */
  datatype Plain = Plain(spent: set<nat>, last: nat)

  /** The least unspent index, found by scanning the whole set. */
  ghost function ScanUp(spent: set<nat>, i: nat): (r: nat)
    ensures i <= r && r !in spent && forall j: nat :: i <= j < r ==> j in spent
    decreases |spent - set j | j in spent && j < i|
  {
    if i !in spent then i
    else
      assert i in spent - (set j | j in spent && j < i);
      assert spent - (set j | j in spent && j < i + 1) == spent - (set j | j in spent && j < i) - {i};
      ScanUp(spent, i + 1)
  }

  datatype Op = AddressAt(index: nat) | Fresh | Query(index: nat) | MarkSpent(index: nat)

  ghost function Step(p: Plain, op: Op): Plain {
    match op
    case AddressAt(i) => p.(last := Max(p.last, i))
    case Query(i) => p.(last := Max(p.last, i))
    case Fresh => p.(last := p.last + 1)
    case MarkSpent(i) =>
      var spent := p.spent + {i};
      Plain(spent, Max(Max(p.last, i), ScanUp(spent, 0)))
  }

  ghost function Run(p: Plain, ops: seq<Op>): Plain {
    if ops == [] then p else Step(Run(p, ops[..|ops| - 1]), ops[|ops| - 1])
  }

  /** Over any run, exactly the marked addresses are added to the spent ones. */
  lemma {:induction false} OnlyMarkedAreSpent(p: Plain, ops: seq<Op>)
    ensures Run(p, ops).spent == p.spent + set i | 0 <= i < |ops| && ops[i].MarkSpent? :: ops[i].index
  {
    if ops != [] {
      var pre := ops[..|ops| - 1];
      OnlyMarkedAreSpent(p, pre);
      forall k ensures k in Run(p, ops).spent <==>
          k in p.spent || exists i :: 0 <= i < |ops| && ops[i].MarkSpent? && ops[i].index == k
      {
        if i :| 0 <= i < |ops| && ops[i].MarkSpent? && ops[i].index == k {
          assert i < |pre| ==> pre[i].MarkSpent? && pre[i].index == k;
        }
      }
    }
  }

  /** Over any run, no address is taken back and none is spent beyond the last one. */
  lemma {:induction false} RunStaysTidy(p: Plain, ops: seq<Op>)
    requires forall i :: i in p.spent ==> i <= p.last
    ensures p.last <= Run(p, ops).last && forall i :: i in Run(p, ops).spent ==> i <= Run(p, ops).last
  {
    if ops != [] { RunStaysTidy(p, ops[..|ops| - 1]); }
  }

  /**
   * The masks and caches refine the plain bookkeeping: whatever sequence of operations is applied to a swept
   * manager, it records what the plain one does, and its caches are what scans of the whole set would find.
   */
  method Replay(m: AddressManager, ops: seq<Op>)
    requires m.Valid()
    modifies m
    ensures m.Valid()
    ensures Plain(m.Spent(), m.lastAddressIndex) == Run(Plain(old(m.Spent()), old(m.lastAddressIndex)), ops)
    ensures m.firstUnspentAddressIndex == ScanUp(m.Spent(), 0)
  {
    ghost var start := Plain(m.Spent(), m.lastAddressIndex);
    for k := 0 to |ops|
      invariant m.Valid()
      invariant Plain(m.Spent(), m.lastAddressIndex) == Run(start, ops[..k])
    {
      assert ops[..k + 1][..k] == ops[..k];
      match ops[k] {
        case AddressAt(i) => var _ := m.Address(i);
        case Fresh => var _ := m.NewAddress();
        case Query(i) => var _ := m.IsAddressSpent(i);
        case MarkSpent(i) => m.MarkAddressSpent(i);
      }
    }
    assert ops[..|ops|] == ops;
  }
}
