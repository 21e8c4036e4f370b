/** The wallet's store of outputs (client/wallet/output_manager.go). */
module OutputManagement {
  import opened Ledger
  import opened OutputCollections
  import opened AddressManagement

  // ---- What the operations do to the store ------------------------------------------------------------------

  /** The node's reply replaces what is stored; only a local spent mark survives, unless the wallet is stateless. */
  function Merge(store: Outputs, reply: Outputs, stateless: bool): Outputs {
    map r | r in store.Keys + reply.Keys ::
      if r in reply then
        reply[r].(spent := reply[r].spent || (!stateless && r in store && store[r].spent))
      else store[r]
  }

  predicate OnOffer(out: Output, includePending: bool) {
    !out.spent && (includePending || out.confirmed)
  }

  function Unspent(store: Outputs, includePending: bool, addresses: seq<WalletAddress>): Outputs {
    map r | r in store && r.addr in addresses && OnOffer(store[r], includePending) :: store[r]
  }

  function MarkAll(store: Outputs, refs: set<Ref>): Outputs {
    map r | r in store :: if r in refs then store[r].(spent := true) else store[r]
  }

  ghost function SpentRefs(store: Outputs): set<Ref> {
    set r | r in store && store[r].spent
  }

  // ---- What that means --------------------------------------------------------------------------------------

  /** An output is as the node gave it, and spent exactly if the node says so or it is marked. */
  ghost predicate AsReplied(out: Output, replied: Output, marked: bool) {
    && out.kind == replied.kind && out.address == replied.address && out.confirmed == replied.confirmed
    && (out.spent <==> replied.spent || marked)
  }

  /** A reply is taken over: its entries become what the node says, all others stay, and nothing else is stored. */
  ghost predicate TakesOver(later: Outputs, store: Outputs, reply: Outputs, stateless: bool) {
    && (forall r :: r in later <==> r in store || r in reply)
    && (forall r :: r in reply ==> AsReplied(later[r], reply[r], !stateless && r in store && store[r].spent))
    && (forall r :: r in store && r !in reply ==> later[r] == store[r])
  }

  /** Exactly the entries at the given addresses that are not spent, and are confirmed unless pending ones count. */
  ghost predicate Offers(result: Outputs, store: Outputs, includePending: bool, addresses: seq<WalletAddress>) {
    && (forall r :: r in result <==>
      r in store && r.addr in addresses && !store[r].spent && (store[r].confirmed || includePending))
    && forall r :: r in result ==> result[r] == store[r]
  }

  /** The given entries, if they are stored, are spent from now on, and nothing else changes. */
  ghost predicate Marks(later: Outputs, store: Outputs, refs: set<Ref>) {
    && later.Keys == store.Keys
    && forall r :: r in store ==> AsReplied(later[r], store[r], r in refs)
  }

  /** What the node replies about an entry decides whether it is on offer, unless the wallet had marked it. */
  lemma RepliedIsOffered(later: Outputs, store: Outputs, reply: Outputs, stateless: bool, includePending: bool,
                         addresses: seq<WalletAddress>, r: Ref)
    requires TakesOver(later, store, reply, stateless) && r in reply && r.addr in addresses
    ensures r in Unspent(later, includePending, addresses) <==>
      && !reply[r].spent && (reply[r].confirmed || includePending)
      && (stateless || r !in store || !store[r].spent)
  {
    assert AsReplied(later[r], reply[r], !stateless && r in store && store[r].spent);
  }

  class OutputManager {
    const addressManager: AddressManager
    const stateless: bool
    var unspentOutputs: Outputs

    constructor (manager: AddressManager, stateless: bool, reply: Outputs)
      requires manager.Usable()
      modifies manager
      ensures addressManager == manager && this.stateless == stateless
      ensures unspentOutputs == Merge(map[], reply, stateless)
      ensures manager.Swept() && (old(manager.NoneSpentAhead()) ==> manager.Valid())
      ensures manager.Spent() == old(manager.Spent()) && manager.lastAddressIndex == old(manager.lastAddressIndex)
    {
      addressManager := manager;
      this.stateless := stateless;
      unspentOutputs := map[];
      new;
      var _ := Refresh(Some(reply));
    }

    /** Sweeps over all addresses, asks the node about them and merges its reply; `None` is a failed request. */
    method Refresh(reply: Option<Outputs>) returns (ok: bool)
      requires addressManager.Usable()
      modifies this, addressManager
      ensures ok == reply.Some?
      ensures unspentOutputs == if ok then Merge(old(unspentOutputs), reply.value, stateless) else old(unspentOutputs)
      ensures ok ==> TakesOver(unspentOutputs, old(unspentOutputs), reply.value, stateless)
      ensures addressManager.Swept() && (old(addressManager.NoneSpentAhead()) ==> addressManager.Valid())
      ensures addressManager.Spent() == old(addressManager.Spent())
      ensures addressManager.lastAddressIndex == old(addressManager.lastAddressIndex)
    {
      var _ := addressManager.Addresses();
      if reply.None? {
        return false;
      }
      var left := reply.value.Keys;
      while left != {}
        invariant forall r :: r in left ==> r in reply.value
        invariant forall r :: r in unspentOutputs <==> r in old(unspentOutputs) || (r in reply.value && r !in left)
        invariant forall r :: r in unspentOutputs ==> (unspentOutputs[r] ==
          if r in reply.value && r !in left then Merge(old(unspentOutputs), reply.value, stateless)[r]
          else old(unspentOutputs)[r])
        modifies this
        decreases left
      {
        var r :| r in left;
        var output := reply.value[r];
        if !stateless {
          if r in unspentOutputs && unspentOutputs[r].spent {
            output := output.(spent := true);
          }
        }
        unspentOutputs := unspentOutputs[r := output];
        left := left - {r};
      }
      ok := true;
    }

    /** Without addresses, all addresses of the wallet are meant. */
    method GetOutputs(includePending: bool, addresses: seq<WalletAddress>) returns (result: Outputs)
      requires addressManager.Usable()
      modifies addressManager
      ensures addressManager.Usable() && (old(addressManager.Swept()) ==> addressManager.Swept())
      ensures addressManager.Spent() == old(addressManager.Spent())
      ensures addressManager.lastAddressIndex == old(addressManager.lastAddressIndex)
      ensures result == Unspent(unspentOutputs, includePending, if addresses != [] then addresses
        else AllAddresses(addressManager.seed, addressManager.lastAddressIndex + 1))
      ensures Offers(result, unspentOutputs, includePending, if addresses != [] then addresses
        else AllAddresses(addressManager.seed, addressManager.lastAddressIndex + 1))
    {
      var scanned := addresses;
      if |scanned| == 0 {
        scanned := addressManager.Addresses();
      }
      result := map[];
      for j := 0 to |scanned|
        invariant result == Unspent(unspentOutputs, includePending, scanned[..j])
        modifies {}
      {
        result := AddAt(result, scanned[..j], scanned[j], includePending);
        assert scanned[..j + 1] == scanned[..j] + [scanned[j]];
      }
      assert scanned[..|scanned|] == scanned;
    }

    /** Adds the outputs on offer at one address. */
    method AddAt(result: Outputs, ghost before: seq<WalletAddress>, addr: WalletAddress,
                 includePending: bool) returns (more: Outputs)
      requires result == Unspent(unspentOutputs, includePending, before)
      ensures more == Unspent(unspentOutputs, includePending, before + [addr])
    {
      more := result;
      var left := set r | r in unspentOutputs && r.addr == addr;
      while left != {}
        invariant forall r :: r in left ==> r in unspentOutputs && r.addr == addr
        invariant forall r :: r in more <==>
          (r in unspentOutputs && OnOffer(unspentOutputs[r], includePending) &&
           (r.addr in before || (r.addr == addr && r !in left)))
        invariant PartOf(more, unspentOutputs)
        decreases left
      {
        var r :| r in left;
        left := left - {r};
        if OnOffer(unspentOutputs[r], includePending) {
          more := more[r := unspentOutputs[r]];
        }
      }
    }

    method MarkOutputSpent(r: Ref)
      modifies this
      ensures unspentOutputs == MarkAll(old(unspentOutputs), {r}) && Marks(unspentOutputs, old(unspentOutputs), {r})
    {
      if r in unspentOutputs {
        unspentOutputs := unspentOutputs[r := unspentOutputs[r].(spent := true)];
      }
    }
  }

  // ---- No output is spent twice -----------------------------------------------------------------------------

  datatype Event = Refreshed(reply: Outputs) | Consumed(refs: set<Ref>)

  ghost function Next(store: Outputs, e: Event, stateless: bool): Outputs {
    match e
    case Refreshed(reply) => Merge(store, reply, stateless)
    case Consumed(refs) => MarkAll(store, refs)
  }

  ghost function After(store: Outputs, events: seq<Event>, stateless: bool): Outputs {
    if events == [] then store
    else Next(After(store, events[..|events| - 1], stateless), events[|events| - 1], stateless)
  }

  /** Every transaction takes its inputs from what the store offers at that point. */
  ghost predicate TakesUnspent(store: Outputs, events: seq<Event>, stateless: bool) {
    forall i :: 0 <= i < |events| && events[i].Consumed? ==>
      forall r :: r in events[i].refs ==>
        var now := After(store, events[..i], stateless); r in now && !now[r].spent
  }

  /** In a stateful wallet nothing brings a spent entry back. */
  lemma {:induction false} SpentStaysSpent(store: Outputs, events: seq<Event>, r: Ref)
    requires r in SpentRefs(store)
    ensures r in SpentRefs(After(store, events, false))
  {
    if events != [] {
      SpentStaysSpent(store, events[..|events| - 1], r);
    }
  }

  lemma {:induction false} MarksSurvive(store: Outputs, events: seq<Event>, i: nat, j: nat, r: Ref)
    requires i < j <= |events| && events[i].Consumed? && r in events[i].refs
    requires r in After(store, events[..i], false)
    ensures r in SpentRefs(After(store, events[..j], false))
  {
    assert events[..j][..j - 1] == events[..j - 1] && events[..j][j - 1] == events[j - 1];
    if i < j - 1 {
      MarksSurvive(store, events, i, j - 1, r);
    }
  }

  /**
   * In a stateful wallet, whatever the node replies in between, no two transactions consume the same stored
   * output.
   */
  lemma NoDoubleSpend(store: Outputs, events: seq<Event>, i: nat, j: nat)
    requires TakesUnspent(store, events, false)
    requires i < j < |events| && events[i].Consumed? && events[j].Consumed?
    ensures events[i].refs !! events[j].refs
  {
    forall r | r in events[i].refs ensures r !in events[j].refs {
      MarksSurvive(store, events, i, j, r);
    }
  }

  /** A stateless wallet gives no such guarantee: a late reply brings a consumed output back. */
  lemma StatelessDoubleSpend(r: Ref, out: Output) returns (events: seq<Event>)
    requires !out.spent
    ensures |events| == 3 && TakesUnspent(map[r := out], events, true)
    ensures events[0] == Consumed({r}) == events[2] && events[1] == Refreshed(map[r := out])
  {
    var store := map[r := out];
    events := [Consumed({r}), Refreshed(store), Consumed({r})];
    assert events[..0] == [] && events[..1] == [Consumed({r})] && events[..1][..0] == [];
    assert events[..2] == [Consumed({r}), Refreshed(store)] && events[..2][..1] == events[..1];
    assert After(store, events[..1], true) == MarkAll(store, {r});
    assert After(store, events[..2], true) == Merge(MarkAll(store, {r}), store, true) == store;
  }

  ghost predicate NothingTwice(events: seq<Event>) {
    forall i, j :: 0 <= i < j < |events| && events[i].Consumed? && events[j].Consumed? ==> events[i].refs !! events[j].refs
  }

  ghost predicate IsSafe(stateless: bool) {
    forall store: Outputs, events: seq<Event> :: TakesUnspent(store, events, stateless) ==> NothingTwice(events)
  }

  /** Double spends are ruled out, whatever is stored and whatever happens, exactly in stateful wallets. */
  lemma SafeIffStateful(stateless: bool)
    ensures IsSafe(stateless) <==> !stateless
  {
    if stateless {
      var r := Ref(WalletAddress(LedgerAddress(0), 0), OutputID(0));
      var out := Output(r.addr, SigLockedColored(map[], r.addr.ledger), true, false);
      var events := StatelessDoubleSpend(r, out);
      assert r in events[0].refs && r in events[2].refs;
      assert !NothingTwice(events);
    } else {
      forall store: Outputs, events: seq<Event> | TakesUnspent(store, events, false) ensures NothingTwice(events) {
        forall i, j | 0 <= i < j < |events| && events[i].Consumed? && events[j].Consumed? ensures events[i].refs !! events[j].refs {
          NoDoubleSpend(store, events, i, j);
        }
      }
    }
  }

  // ---- Identifiers ------------------------------------------------------------------------------------------

  // The inputs of a transaction are identifiers. The same identifier may be filed under two addresses of the wallet, for
  // example under that of an output and that of its fallback. The marks are kept per address.

  ghost predicate Offered(store: Outputs, refs: set<Ref>) {
    forall r :: r in refs ==> r in store && !store[r].spent
  }

  ghost predicate SameIDTwice(refs1: set<Ref>, refs2: set<Ref>) {
    exists q: Ref, r: Ref :: q in refs1 && r in refs2 && q.id == r.id
  }

  /** The replies file things only where they may be filed. */
  ghost predicate RepliesWithin(events: seq<Event>, filed: set<Ref>) {
    forall i :: 0 <= i < |events| && events[i].Refreshed? ==> events[i].reply.Keys <= filed
  }

  ghost predicate NoIDTwice(events: seq<Event>) {
    forall i, j :: 0 <= i < j < |events| && events[i].Consumed? && events[j].Consumed? ==>
      !SameIDTwice(events[i].refs, events[j].refs)
  }

  /** Whatever the node replies within `filed`, no identifier is consumed by two transactions. */
  ghost predicate IDsAreSafe(store: Outputs, filed: set<Ref>) {
    forall events: seq<Event> :: RepliesWithin(events, filed) && TakesUnspent(store, events, false) ==> NoIDTwice(events)
  }

  /** Of what may be filed and is not spent yet, every identifier has one place. */
  ghost predicate OnePlaceEach(store: Outputs, filed: set<Ref>) {
    forall q, r :: q in filed && r in filed && q !in SpentRefs(store) && r !in SpentRefs(store) && q.id == r.id ==> q == r
  }

  lemma {:induction false} StaysFiled(store: Outputs, events: seq<Event>, filed: set<Ref>)
    requires store.Keys <= filed && RepliesWithin(events, filed)
    ensures After(store, events, false).Keys <= filed
  {
    if events != [] {
      var front := events[..|events| - 1];
      StaysFiled(store, front, filed);
      assert events[|events| - 1] == events[|front|];
    }
  }

  /** What a transaction consumes is filed where it may be, and was not spent from the start. */
  lemma TakenIsFiled(store: Outputs, events: seq<Event>, filed: set<Ref>, i: nat, r: Ref)
    requires store.Keys <= filed && RepliesWithin(events, filed) && TakesUnspent(store, events, false)
    requires i < |events| && events[i].Consumed? && r in events[i].refs
    ensures r in filed && r !in SpentRefs(store)
  {
    assert RepliesWithin(events[..i], filed);
    StaysFiled(store, events[..i], filed);
    assert r in After(store, events[..i], false) && !After(store, events[..i], false)[r].spent;
    if r in SpentRefs(store) {
      SpentStaysSpent(store, events[..i], r);
    }
  }

  lemma OnePlaceIsSafe(store: Outputs, events: seq<Event>, filed: set<Ref>)
    requires store.Keys <= filed && RepliesWithin(events, filed) && TakesUnspent(store, events, false)
    requires OnePlaceEach(store, filed)
    ensures NoIDTwice(events)
  {
    forall i, j | 0 <= i < j < |events| && events[i].Consumed? && events[j].Consumed?
      ensures !SameIDTwice(events[i].refs, events[j].refs)
    {
      if q: Ref, r: Ref :| q in events[i].refs && r in events[j].refs && q.id == r.id {
        TakenIsFiled(store, events, filed, i, q);
        TakenIsFiled(store, events, filed, j, r);
        NoDoubleSpend(store, events, i, j);
      }
    }
  }

  /** A late reply files an identifier at two places, and both are consumed. */
  lemma TwoPlacesAreNot(store: Outputs, filed: set<Ref>, q: Ref, r: Ref) returns (events: seq<Event>)
    requires q in filed && r in filed && q !in SpentRefs(store) && r !in SpentRefs(store) && q.id == r.id && q != r
    ensures RepliesWithin(events, filed) && TakesUnspent(store, events, false) && !NoIDTwice(events)
  {
    var out := Output(q.addr, SigLockedColored(map[], q.addr.ledger), true, false);
    var reply := map[q := out, r := out];
    events := [Refreshed(reply), Consumed({q}), Consumed({r})];
    assert events[..1] == [Refreshed(reply)] && events[..1][..0] == [];
    assert events[..2] == [Refreshed(reply), Consumed({q})] && events[..2][..1] == events[..1];
    assert After(store, events[..1], false) == Merge(store, reply, false);
    assert After(store, events[..2], false) == MarkAll(Merge(store, reply, false), {q});
    assert SameIDTwice(events[1].refs, events[2].refs);
  }

  /**
   * Whatever happens to a stateful wallet from a given store on, no identifier is consumed by two transactions, if and
   * only if the places where things may be filed have no two entries of one identifier that are not spent yet.
   */
  lemma IDsAreSafeIff(store: Outputs, filed: set<Ref>)
    requires store.Keys <= filed
    ensures IDsAreSafe(store, filed) <==> OnePlaceEach(store, filed)
  {
    if OnePlaceEach(store, filed) {
      forall events: seq<Event> | RepliesWithin(events, filed) && TakesUnspent(store, events, false) ensures NoIDTwice(events) {
        OnePlaceIsSafe(store, events, filed);
      }
    } else {
      var q, r :| q in filed && r in filed && q !in SpentRefs(store) && r !in SpentRefs(store) && q.id == r.id && q != r;
      var events := TwoPlacesAreNot(store, filed, q, r);
    }
  }

  /** Without a reply in between, two successive transactions can do so exactly when it is on offer at two addresses. */
  lemma IDSpentTwiceIffOfferedTwice(store: Outputs)
    ensures (exists first, second ::
        Offered(store, first) && Offered(MarkAll(store, first), second) && SameIDTwice(first, second))
      <==> (exists q: Ref, r: Ref :: Offered(store, {q, r}) && q != r && q.id == r.id)
  {
    if first, second :|
      Offered(store, first) && Offered(MarkAll(store, first), second) && SameIDTwice(first, second)
    {
      var q: Ref, r: Ref :| q in first && r in second && q.id == r.id;
      assert Offered(store, {q, r});
    }
    if q: Ref, r: Ref :| Offered(store, {q, r}) && q != r && q.id == r.id {
      assert q in {q, r} && r in {q, r};
      assert Offered(store, {q}) && Offered(MarkAll(store, {q}), {r}) && SameIDTwice({q}, {r});
    }
  }
}
