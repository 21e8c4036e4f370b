/** The balances a wallet shows (client/wallet/wallet.go, Balance and AvailableBalance). */
module BalanceSheet {
  import opened Ledger
  import opened Sums
  import opened OutputCollections
  import opened OutputManagement
  import opened CoinSelection
  import opened Transactions
  import opened WalletModule

  // ---- What one output contributes --------------------------------------------------------------------------

  /** Extended outputs count for the address that could unlock them, whether or not they are locked in time. */
  predicate Owned(out: LedgerOutput, addr: LedgerAddress, now: Time) {
    out.ExtendedLocked? && out.UnlockAddressNow(now) == addr
  }

  /** All but the minimum that an alias has to keep. */
  function Surplus(b: Balances): Balances {
    map c | c in b && !(c == IOTA && b[c] == DUST_THRESHOLD) :: if c == IOTA then Sub64(b[c], DUST_THRESHOLD) else b[c]
  }

  /** What of an alias counts for one address: see `AliasCountsOnce`. */
  function AliasShare(out: LedgerOutput, addr: LedgerAddress): Balances
    requires out.Alias?
  {
    if out.isDelegated then map[]
    else if out.governingAddress.None? then out.Funds()
    else if out.stateAddress == addr then Surplus(out.Funds())
    else if out.GoverningAddress() == addr then map[IOTA := DUST_THRESHOLD]
    else map[]
  }

  /** Outputs holding a single uncoloured amount are shown nowhere: their case is empty and falls out of the switch. */
  function AvailableShare(out: LedgerOutput, addr: LedgerAddress, now: Time): Balances {
    if out.SigLockedColored? || (Owned(out, addr, now) && !out.TimeLockedNow(now)) then out.Funds() else map[]
  }

  function BalanceShare(out: LedgerOutput, addr: LedgerAddress, now: Time): Balances {
    match out
    case SigLockedSingle(_, _) => map[]
    case SigLockedColored(_, _) => out.Funds()
    case ExtendedLocked(_, _, _, _, _) => if Owned(out, addr, now) then out.Funds() else map[]
    case Alias(_, _, _, _) => AliasShare(out, addr)
  }

  function TimelockedShare(out: LedgerOutput, addr: LedgerAddress, now: Time): Balances {
    if Owned(out, addr, now) && out.TimeLockedNow(now) then out.Funds() else map[]
  }

  /** Of an alias with two owners the state controller has all but the minimum, and the governor the minimum. */
  lemma OwnersShare(out: LedgerOutput, c: Color)
    requires out.Alias? && !out.isDelegated && out.governingAddress.Some?
    requires out.governingAddress.value != out.stateAddress && DUST_THRESHOLD <= Get(out.Funds(), IOTA)
    ensures Get(AliasShare(out, out.stateAddress), c) + Get(AliasShare(out, out.governingAddress.value), c) == Get(out.Funds(), c)
    ensures forall a :: a != out.stateAddress && a != out.governingAddress.value ==> AliasShare(out, a) == map[]
  {
  }

  // ---- The sheets -------------------------------------------------------------------------------------------

  datatype Sheet = AvailableSheet | BalanceSheet | TimelockedSheet | AliasSheet | SingleSheet

  function Share(sheet: Sheet, out: LedgerOutput, addr: LedgerAddress, now: Time): Balances {
    match sheet
    case AvailableSheet => AvailableShare(out, addr, now)
    case BalanceSheet => BalanceShare(out, addr, now)
    case TimelockedSheet => TimelockedShare(out, addr, now)
    case AliasSheet => if out.Alias? then AliasShare(out, addr) else map[]
    case SingleSheet => if out.SigLockedSingle? then out.Funds() else map[]
  }

  ghost function ShareAt(sheet: Sheet, o: Outputs, confirmed: bool, now: Time, c: Color): Ref -> nat {
    (r: Ref) =>
      if r in o && o[r].confirmed == confirmed then Get(Share(sheet, o[r].kind, r.addr.ledger, now), c) else 0
  }

  /** What a sheet shows in colour `c`, of confirmed or of pending outputs. */
  ghost function Shown(sheet: Sheet, o: Outputs, confirmed: bool, now: Time, c: Color): nat {
    Sum(o.Keys, ShareAt(sheet, o, confirmed, now, c))
  }

  /** The loop over the unspent outputs that `Balance` and `AvailableBalance` have in common. */
  method Tabulate(sheet: Sheet, unspent: Outputs, now: Time) returns (confirmedBalance: Balances,
                  pendingBalance: Balances)
    ensures forall c :: Get(confirmedBalance, c) == Shown(sheet, unspent, true, now, c)
    ensures forall c :: Get(pendingBalance, c) == Shown(sheet, unspent, false, now, c)
  {
    confirmedBalance, pendingBalance := map[], map[];
    var left := unspent.Keys;
    ghost var done: set<Ref> := {};
    while left != {}
      invariant forall r :: r in unspent <==> r in left || r in done
      invariant left !! done
      invariant forall c :: Get(confirmedBalance, c) == Sum(done, ShareAt(sheet, unspent, true, now, c))
      invariant forall c :: Get(pendingBalance, c) == Sum(done, ShareAt(sheet, unspent, false, now, c))
      decreases left
    {
      var r :| r in left;
      var share := Share(sheet, unspent[r].kind, r.addr.ledger, now);
      OneMore(sheet, unspent, done, r, true, now);
      OneMore(sheet, unspent, done, r, false, now);
      if unspent[r].confirmed {
        confirmedBalance := AddBalances(confirmedBalance, share);
      } else {
        pendingBalance := AddBalances(pendingBalance, share);
      }
      left := left - {r};
      done := done + {r};
    }
    assert done == unspent.Keys;
  }

  method AvailableBalance(unspent: Outputs, now: Time) returns (confirmedBalance: Balances, pendingBalance: Balances)
    ensures forall c :: Get(confirmedBalance, c) == Shown(AvailableSheet, unspent, true, now, c)
    ensures forall c :: Get(pendingBalance, c) == Shown(AvailableSheet, unspent, false, now, c)
  {
    confirmedBalance, pendingBalance := Tabulate(AvailableSheet, unspent, now);
  }

  /** What is available, what is locked in time, and what is held in aliases. */
  ghost function InAll(o: Outputs, confirmed: bool, now: Time, c: Color): nat {
    Shown(AvailableSheet, o, confirmed, now, c) + Shown(TimelockedSheet, o, confirmed, now, c) +
    Shown(AliasSheet, o, confirmed, now, c)
  }

  method Balance(unspent: Outputs, now: Time) returns (confirmedBalance: Balances, pendingBalance: Balances)
    ensures forall c :: Get(confirmedBalance, c) == InAll(unspent, true, now, c)
    ensures forall c :: Get(pendingBalance, c) == InAll(unspent, false, now, c)
  {
    confirmedBalance, pendingBalance := Tabulate(BalanceSheet, unspent, now);
    forall c
      ensures Get(confirmedBalance, c) == InAll(unspent, true, now, c)
      ensures Get(pendingBalance, c) == InAll(unspent, false, now, c)
    {
      BalanceIsAvailablePlusLocked(unspent, true, now, c);
      BalanceIsAvailablePlusLocked(unspent, false, now, c);
    }
  }

  lemma OneMore(sheet: Sheet, o: Outputs, done: set<Ref>, r: Ref, confirmed: bool, now: Time)
    requires r in o && r !in done
    ensures forall c ::
      Sum(done + {r}, ShareAt(sheet, o, confirmed, now, c)) ==
        Sum(done, ShareAt(sheet, o, confirmed, now, c)) +
        (if o[r].confirmed == confirmed then Get(Share(sheet, o[r].kind, r.addr.ledger, now), c) else 0)
  {
    forall c ensures Sum(done + {r}, ShareAt(sheet, o, confirmed, now, c)) ==
      Sum(done, ShareAt(sheet, o, confirmed, now, c)) + ShareAt(sheet, o, confirmed, now, c)(r)
    {
      SumAdd(done, r, ShareAt(sheet, o, confirmed, now, c));
    }
  }

  lemma SharesAddUp(out: LedgerOutput, addr: LedgerAddress, now: Time)
    ensures forall c :: (Get(Share(BalanceSheet, out, addr, now), c) == Get(Share(AvailableSheet, out, addr, now), c) +
      Get(Share(TimelockedSheet, out, addr, now), c) + Get(Share(AliasSheet, out, addr, now), c))
  {
  }

  /** The balance is what is available, what is locked in time, and what is held in aliases. */
  lemma BalanceIsAvailablePlusLocked(o: Outputs, confirmed: bool, now: Time, c: Color)
    ensures Shown(BalanceSheet, o, confirmed, now, c) == InAll(o, confirmed, now, c)
  {
    var available, timelocked := ShareAt(AvailableSheet, o, confirmed, now, c), ShareAt(TimelockedSheet, o, confirmed, now, c);
    var unlocked := (r: Ref) => available(r) + timelocked(r);
    var inAliases, all := ShareAt(AliasSheet, o, confirmed, now, c), ShareAt(BalanceSheet, o, confirmed, now, c);
    SumPointwise(o.Keys, available, timelocked, unlocked);
    forall r | r in o ensures all(r) == unlocked(r) + inAliases(r) {
      SharesAddUp(o[r].kind, r.addr.ledger, now);
    }
    SumPointwise(o.Keys, unlocked, inAliases, all);
  }

  /** The entries of a store that have the given identifier. */
  ghost function EntriesOf(o: Outputs, id: OutputID): set<Ref> {
    set r | r in o && r.id == id
  }

  /**
   * An alias that is not delegated, and is filed at the addresses of both its owners, counts once: all that is filed
   * under its identifier, wherever that is, adds exactly its funds to the sheet.
   */
  lemma AliasCountsOnce(sheet: Sheet, o: Outputs, out: LedgerOutput, q: Ref, r: Ref, confirmed: bool, now: Time,
                        c: Color)
    requires sheet.AliasSheet? || sheet.BalanceSheet?
    requires out.Alias? && !out.isDelegated && out.governingAddress.Some?
    requires out.governingAddress.value != out.stateAddress && DUST_THRESHOLD <= Get(out.Funds(), IOTA)
    requires q in o && r in o && q.id == r.id && HaveKind(o, q.id, out, confirmed)
    requires q.addr.ledger == out.stateAddress && r.addr.ledger == out.governingAddress.value
    ensures Shown(sheet, o, confirmed, now, c) ==
      Shown(sheet, o - EntriesOf(o, q.id), confirmed, now, c) + Get(out.Funds(), c)
  {
    var entries, share := EntriesOf(o, q.id), ShareAt(sheet, o, confirmed, now, c);
    OwnersShare(out, c);
    assert q in entries && r in entries;
    forall x | x in entries - {q, r} ensures share(x) == 0 {
      assert x.addr.ledger != q.addr.ledger && x.addr.ledger != r.addr.ledger;
    }
    SumDropZeros({q, r}, entries, share);
    SumOfTwo(q, r, share);
    ShownWithout(sheet, o, entries, confirmed, now, c);
  }

  // ---- Every output counts once -----------------------------------------------------------------------------

  /** All entries of the identifier hold the same output, at different addresses. */
  ghost predicate HaveKind(o: Outputs, id: OutputID, out: LedgerOutput, confirmed: bool) {
    && (forall x :: x in EntriesOf(o, id) ==> o[x].kind == out && o[x].confirmed == confirmed)
    && forall x, y :: x in EntriesOf(o, id) && y in EntriesOf(o, id) && x.addr.ledger == y.addr.ledger ==> x == y
  }

  /** Who has a part in an output at a given time. */
  ghost function OwnersNow(out: LedgerOutput, now: Time): set<LedgerAddress> {
    match out
    case SigLockedSingle(_, address) => {address}
    case SigLockedColored(_, address) => {address}
    case ExtendedLocked(_, address, fallback, deadline, _) =>
      if fallback.Some? && deadline < now then {fallback.value} else {address}
    case Alias(_, state, governor, _) => if governor.Some? then {state, governor.value} else {state}
  }

  ghost predicate IsFiledAt(o: Outputs, id: OutputID, a: LedgerAddress) {
    exists x :: x in EntriesOf(o, id) && x.addr.ledger == a
  }

  /** The output is filed with all that have a part in it now and, unless it can fall back, with no one else. */
  ghost predicate IsFiled(o: Outputs, id: OutputID, out: LedgerOutput, confirmed: bool, now: Time) {
    && HaveKind(o, id, out, confirmed)
    && (forall a :: a in OwnersNow(out, now) ==> IsFiledAt(o, id, a))
    && (out.ExtendedLocked? || forall x :: x in EntriesOf(o, id) ==> x.addr.ledger in OwnersNow(out, now))
  }

  /** Two owners are different, and there is enough for the part of either. */
  ghost predicate IsShareable(out: LedgerOutput) {
    out.Alias? && out.governingAddress.Some? ==>
      out.governingAddress.value != out.stateAddress && DUST_THRESHOLD <= Get(out.Funds(), IOTA)
  }

  /** Which outputs a sheet shows. */
  ghost predicate IsShownOn(sheet: Sheet, out: LedgerOutput, now: Time) {
    match sheet
    case AvailableSheet => out.SigLockedColored? || (out.ExtendedLocked? && out.timelock <= now)
    case BalanceSheet => out.SigLockedColored? || out.ExtendedLocked? || (out.Alias? && !out.isDelegated)
    case TimelockedSheet => out.ExtendedLocked? && now < out.timelock
    case AliasSheet => out.Alias? && !out.isDelegated
    case SingleSheet => out.SigLockedSingle?
  }

  lemma NothingIsShown(sheet: Sheet, o: Outputs, id: OutputID, confirmed: bool, now: Time, c: Color)
    requires forall x :: x in EntriesOf(o, id) ==> ShareAt(sheet, o, confirmed, now, c)(x) == 0
    ensures Shown(sheet, o, confirmed, now, c) == Shown(sheet, o - EntriesOf(o, id), confirmed, now, c)
  {
    var entries := EntriesOf(o, id);
    SumDropZeros({}, entries, ShareAt(sheet, o, confirmed, now, c));
    ShownWithout(sheet, o, entries, confirmed, now, c);
  }

  lemma OneIsShown(sheet: Sheet, o: Outputs, q: Ref, confirmed: bool, now: Time, c: Color)
    requires q in o
    requires forall x :: x in EntriesOf(o, q.id) && x != q ==> ShareAt(sheet, o, confirmed, now, c)(x) == 0
    ensures Shown(sheet, o, confirmed, now, c) ==
      Shown(sheet, o - EntriesOf(o, q.id), confirmed, now, c) + ShareAt(sheet, o, confirmed, now, c)(q)
  {
    var entries, share := EntriesOf(o, q.id), ShareAt(sheet, o, confirmed, now, c);
    assert q in entries;
    SumDropZeros({q}, entries, share);
    SumPick({q}, q, share);
    assert {q} - {q} == {};
    ShownWithout(sheet, o, entries, confirmed, now, c);
  }

  ghost function SoleOwner(out: LedgerOutput, now: Time): LedgerAddress {
    if out.Alias? then out.stateAddress else if out.ExtendedLocked? then out.UnlockAddressNow(now) else out.address
  }

  lemma SoleOwnersShare(sheet: Sheet, out: LedgerOutput, now: Time, c: Color)
    requires out.Alias? ==> out.governingAddress.None?
    ensures OwnersNow(out, now) == {SoleOwner(out, now)}
    ensures Get(Share(sheet, out, SoleOwner(out, now), now), c) == if IsShownOn(sheet, out, now) then Get(out.Funds(), c) else 0
    ensures out.ExtendedLocked? ==> forall a :: a != SoleOwner(out, now) ==> Share(sheet, out, a, now) == map[]
  {
  }

  lemma SingleOwnerCounts(sheet: Sheet, o: Outputs, id: OutputID, out: LedgerOutput, confirmed: bool, now: Time,
                          c: Color)
    requires IsFiled(o, id, out, confirmed, now) && (out.Alias? ==> out.governingAddress.None?)
    ensures Shown(sheet, o, confirmed, now, c) ==
      Shown(sheet, o - EntriesOf(o, id), confirmed, now, c) + if IsShownOn(sheet, out, now) then Get(out.Funds(), c) else 0
  {
    var a := SoleOwner(out, now);
    SoleOwnersShare(sheet, out, now, c);
    assert IsFiledAt(o, id, a);
    var q :| q in EntriesOf(o, id) && q.addr.ledger == a;
    forall x | x in EntriesOf(o, id) && x != q ensures ShareAt(sheet, o, confirmed, now, c)(x) == 0 {
      assert x.addr.ledger != a;
    }
    OneIsShown(sheet, o, q, confirmed, now, c);
  }

  /**
   * An output that is filed with its owners counts once, wherever else it is filed: its funds are added in full to each
   * sheet that shows it, and nothing to the others. So a balance shows all of an alias to a wallet that is its governor
   * and its state controller, and nothing of one that is delegated.
   */
  lemma OutputCountsOnce(sheet: Sheet, o: Outputs, id: OutputID, out: LedgerOutput, confirmed: bool, now: Time,
                         c: Color)
    requires IsFiled(o, id, out, confirmed, now) && IsShareable(out)
    ensures Shown(sheet, o, confirmed, now, c) ==
      Shown(sheet, o - EntriesOf(o, id), confirmed, now, c) + if IsShownOn(sheet, out, now) then Get(out.Funds(), c) else 0
    ensures Shown(sheet, o, !confirmed, now, c) == Shown(sheet, o - EntriesOf(o, id), !confirmed, now, c)
  {
    NothingIsShown(sheet, o, id, !confirmed, now, c);
    if !out.Alias? || out.governingAddress.None? {
      SingleOwnerCounts(sheet, o, id, out, confirmed, now, c);
    } else if IsShownOn(sheet, out, now) {
      assert IsFiledAt(o, id, out.stateAddress) && IsFiledAt(o, id, out.governingAddress.value);
      var q :| q in EntriesOf(o, id) && q.addr.ledger == out.stateAddress;
      var r :| r in EntriesOf(o, id) && r.addr.ledger == out.governingAddress.value;
      AliasCountsOnce(sheet, o, out, q, r, confirmed, now, c);
    } else {
      NothingIsShown(sheet, o, id, confirmed, now, c);
    }
  }

  /** A governor alone is shown the minimum of an alias, a state controller alone everything but that. */
  lemma OwnersPart(sheet: Sheet, o: Outputs, q: Ref, out: LedgerOutput, confirmed: bool, now: Time, c: Color)
    requires IsShareable(out) && out.Alias? && out.governingAddress.Some? && IsShownOn(sheet, out, now)
    requires q in o && EntriesOf(o, q.id) == {q} && HaveKind(o, q.id, out, confirmed)
    ensures Shown(sheet, o, confirmed, now, c) - Shown(sheet, o - {q}, confirmed, now, c) ==
      var minimum := if c == IOTA then DUST_THRESHOLD else 0;
      if q.addr.ledger == out.stateAddress then Get(out.Funds(), c) - minimum
      else if q.addr.ledger == out.governingAddress.value then minimum
      else 0
  {
    OneIsShown(sheet, o, q, confirmed, now, c);
  }

  /** An output that has fallen back, or has not, is not shown to whom it does not belong now. */
  lemma OthersSeeNothing(sheet: Sheet, o: Outputs, id: OutputID, out: LedgerOutput, confirmed: bool, now: Time,
                         c: Color)
    requires out.ExtendedLocked? && HaveKind(o, id, out, confirmed)
    requires forall a :: a in OwnersNow(out, now) ==> !IsFiledAt(o, id, a)
    ensures Shown(sheet, o, confirmed, now, c) == Shown(sheet, o - EntriesOf(o, id), confirmed, now, c)
  {
    forall x | x in EntriesOf(o, id) ensures ShareAt(sheet, o, confirmed, now, c)(x) == 0 {
      assert IsFiledAt(o, id, x.addr.ledger);
    }
    NothingIsShown(sheet, o, id, confirmed, now, c);
  }

  lemma SumOfTwo(q: Ref, r: Ref, f: Ref -> nat)
    requires q != r
    ensures Sum({q, r}, f) == f(q) + f(r)
  {
    SumPick({q, r}, q, f);
    assert {q, r} - {q} == {r};
    SumPick({r}, r, f);
    assert {r} - {r} == {};
  }

  lemma ShownWithout(sheet: Sheet, o: Outputs, entries: set<Ref>, confirmed: bool, now: Time, c: Color)
    requires entries <= o.Keys
    ensures Shown(sheet, o, confirmed, now, c) ==
      Shown(sheet, o - entries, confirmed, now, c) + Sum(entries, ShareAt(sheet, o, confirmed, now, c))
  {
    var rest := o - entries;
    SumUnion(rest.Keys, entries, ShareAt(sheet, o, confirmed, now, c));
    assert rest.Keys + entries == o.Keys;
    SumCong(rest.Keys, ShareAt(sheet, rest, confirmed, now, c), ShareAt(sheet, o, confirmed, now, c));
  }

  // ---- What is available can be spent -----------------------------------------------------------------------

  /** The confirmed value outputs that can be unlocked now. */
  ghost function Spendable(view: Outputs, now: Time): set<Ref> {
    set r | r in view && Unlockable(view[r], r.addr, now)
  }

  /**
   * What can be spent exceeds what is shown as available by exactly the single uncoloured amounts. `view` is what
   * funds are taken from, `unspent` what the balance is made from.
   */
  lemma AvailableIsSpendableButSingles(view: Outputs, unspent: Outputs, now: Time, c: Color)
    requires PartOf(view, unspent)
    requires forall r :: r in unspent ==> (r in view <==> unspent[r].confirmed && !unspent[r].kind.Alias?)
    ensures Sum(Spendable(view, now), FundsAt(view, c)) ==
      Shown(AvailableSheet, unspent, true, now, c) + Shown(SingleSheet, unspent, true, now, c)
  {
    var spendable := Spendable(view, now);
    SumPointwise(spendable, ShareAt(AvailableSheet, unspent, true, now, c), ShareAt(SingleSheet, unspent, true, now, c),
      FundsAt(view, c));
    SumDropZeros(spendable, unspent.Keys, ShareAt(AvailableSheet, unspent, true, now, c));
    SumDropZeros(spendable, unspent.Keys, ShareAt(SingleSheet, unspent, true, now, c));
  }

  /**
   * Any positive request that the confirmed available balance covers is funded from the wallet's distinct
   * addresses, as long as no more outputs than a transaction may have inputs could contribute.
   */
  lemma AvailableIsFunded(selection: Selection, picks: seq<Ref>, view: Outputs, store: Outputs,
                          addresses: seq<WalletAddress>, funding: Balances, now: Time)
    requires view == ViewOf(store, false, addresses) && Distinct(addresses)
    requires Justified(selection, picks, view, addresses, funding, Eligible(view, funding, now))
    requires exists c :: c in funding && funding[c] > 0
    requires forall c :: c in funding ==>
      funding[c] <= Shown(AvailableSheet, Unspent(store, true, addresses), true, now, c)
    requires |Eligible(view, funding, now)| <= MAX_INPUT_COUNT
    ensures selection.Collected?
  {
    var unspent := Unspent(store, true, addresses);
    var all := EligibleAt(view, addresses, funding, now);
    assert all == Eligible(view, funding, now);
    forall c | c in funding ensures funding[c] <= Sum(all, FundsAt(view, c)) {
      AvailableIsSpendableButSingles(view, unspent, now, c);
      SumDropZeros(all, Spendable(view, now), FundsAt(view, c));
    }
    SelectionIsComplete(selection, picks, view, addresses, funding, now);
  }
}
