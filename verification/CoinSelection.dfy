/** Choosing the outputs that fund a transfer (client/wallet/wallet.go, collectOutputsForFunding). */
module CoinSelection {
  import opened Ledger
  import opened Sums
  import opened OutputCollections

  datatype Selection =
    | Collected(outputs: Outputs)
    | TooManyOutputs(outputs: Outputs)
    | NotEnoughFunds
    | NoRequest

  // ---- What may be picked -----------------------------------------------------------------------------------

  predicate Unlockable(out: Output, addr: WalletAddress, now: Time) {
    out.kind.ExtendedLocked? ==> !out.kind.TimeLockedNow(now) && out.kind.UnlockAddressNow(now) == addr.ledger
  }

  /** The stored outputs that can be unlocked now and hold a requested colour. */
  ghost function Eligible(unspent: Outputs, funding: Balances, now: Time): set<Ref> {
    set r | r in unspent && Unlockable(unspent[r], r.addr, now) && Contributes(unspent[r].kind.Funds(), funding)
  }

  ghost predicate Contributes(funds: Balances, funding: Balances) {
    exists c :: c in funds && c in funding
  }

  /** The output holds something asked for, and whoever has the address can unlock it at the given time. */
  ghost predicate IsOpenTo(out: LedgerOutput, a: LedgerAddress, funding: Balances, now: Time) {
    && (exists c :: Get(out.Funds(), c) > 0 && c in funding)
    && (out.ExtendedLocked? ==>
      && out.timelock <= now
      && a == if out.fallbackAddress.Some? && out.fallbackDeadline < now then out.fallbackAddress.value else out.address)
  }

  lemma EligibleIff(unspent: Outputs, funding: Balances, now: Time, r: Ref)
    requires r in unspent
    ensures r in Eligible(unspent, funding, now) <==> IsOpenTo(unspent[r].kind, r.addr.ledger, funding, now)
  {
    var funds := unspent[r].kind.Funds();
    if c :| c in funds && c in funding {
      assert Get(funds, c) > 0;
    }
  }

  ghost function SeqSum<T>(s: seq<T>, f: T -> nat): nat {
    if s == [] then 0 else SeqSum(s[..|s| - 1], f) + f(s[|s| - 1])
  }

  /** The picks add up to the request in every colour, each pick counted as often as it was made. */
  ghost predicate Enough(picks: seq<Ref>, unspent: Outputs, funding: Balances) {
    forall c :: c in funding ==> funding[c] <= SeqSum(picks, FundsAt(unspent, c))
  }

  /** Every pick is eligible and was made at most once for each time its address is listed. */
  ghost predicate Visited(picks: seq<Ref>, eligible: set<Ref>, addresses: seq<WalletAddress>) {
    forall r :: multiset(picks)[r] <= if r in eligible then multiset(addresses)[r.addr] else 0
  }

  /** Everything eligible was picked, once for each time its address is listed. */
  ghost predicate VisitedAll(picks: seq<Ref>, eligible: set<Ref>, addresses: seq<WalletAddress>) {
    forall r :: multiset(picks)[r] == if r in eligible then multiset(addresses)[r.addr] else 0
  }

  /** The first `j` addresses were gone through, and of the next one nothing twice and of those behind it nothing. */
  ghost predicate UpTo(picks: seq<Ref>, eligible: set<Ref>, addresses: seq<WalletAddress>, j: nat)
    requires j < |addresses|
  {
    forall r :: r in eligible ==>
      multiset(addresses[..j])[r.addr] <= multiset(picks)[r] <= multiset(addresses[..j + 1])[r.addr]
  }

  /** The addresses up to some point were gone through. */
  ghost predicate GoneThrough(picks: seq<Ref>, eligible: set<Ref>, addresses: seq<WalletAddress>) {
    exists j :: 0 <= j < |addresses| && UpTo(picks, eligible, addresses, j)
  }

  /** The picks were made in the order of the addresses, at each of them in any order. */
  ghost predicate InAddressOrder(picks: seq<Ref>, eligible: set<Ref>, addresses: seq<WalletAddress>) {
    forall k :: 1 <= k <= |picks| ==> GoneThrough(picks[..k], eligible, addresses)
  }

  lemma OneInOrder(picks: seq<Ref>, eligible: set<Ref>, addresses: seq<WalletAddress>, r: Ref)
    requires InAddressOrder(picks, eligible, addresses) && GoneThrough(picks + [r], eligible, addresses)
    ensures InAddressOrder(picks + [r], eligible, addresses)
  {
    forall k | 1 <= k <= |picks| + 1 ensures GoneThrough((picks + [r])[..k], eligible, addresses) {
      if k <= |picks| {
        assert (picks + [r])[..k] == picks[..k];
      } else {
        assert (picks + [r])[..k] == picks + [r];
      }
    }
  }

  /** The picks were made up to the first point at which they were enough. */
  ghost predicate Suffices(picks: seq<Ref>, unspent: Outputs, funding: Balances) {
    && 1 <= |picks| <= MAX_INPUT_COUNT
    && Enough(picks, unspent, funding)
    && (|picks| > 1 ==> !Enough(picks[..|picks| - 1], unspent, funding))
  }

  ghost predicate ArePicked(outputs: Outputs, picks: seq<Ref>, unspent: Outputs) {
    PartOf(outputs, unspent) && forall r :: r in outputs <==> r in picks
  }

  // ---- The selection ----------------------------------------------------------------------------------------

  method EnoughCollected(collected: Balances, target: Balances) returns (enough: bool)
    ensures enough <==> forall c :: c in target ==> target[c] <= Get(collected, c)
  {
    var left := target.Keys;
    while left != {}
      invariant forall c :: c in left ==> c in target
      invariant forall c :: c in target && c !in left ==> target[c] <= Get(collected, c)
      decreases left
    {
      var c :| c in left;
      if Get(collected, c) < target[c] {
        return false;
      }
      left := left - {c};
    }
    enough := true;
  }

  /** Counts the requested colours of one output. */
  method Contribute(collected: Balances, funds: Balances, funding: Balances)
    returns (r: Balances, contributing: bool)
    ensures contributing <==> Contributes(funds, funding)
    ensures forall c :: c in funding ==> Get(r, c) == Get(collected, c) + Get(funds, c)
  {
    r := collected;
    contributing := false;
    var left := funds.Keys;
    while left != {}
      invariant forall c :: c in left ==> c in funds
      invariant contributing <==> exists c :: c in funds && c in funding && c !in left
      invariant forall c :: c in funding ==> Get(r, c) == Get(collected, c) + if c in left then 0 else Get(funds, c)
      decreases left
    {
      var c :| c in left;
      if c in funding {
        r := r[c := Get(r, c) + funds[c]];
        contributing := true;
      }
      left := left - {c};
    }
  }

  /** The funds counted so far are those of the picks, in every requested colour. */
  ghost predicate Tallied(collected: Balances, picks: seq<Ref>, unspent: Outputs, funding: Balances) {
    forall c :: c in funding ==> Get(collected, c) == SeqSum(picks, FundsAt(unspent, c))
  }

  /** The first addresses were gone through, `before` counting them, and at `addy` all but what is `left`. */
  ghost predicate Counted(picks: seq<Ref>, eligible: set<Ref>, before: multiset<WalletAddress>, addy: WalletAddress,
                          left: set<Ref>)
  {
    forall r :: multiset(picks)[r] ==
      if r in eligible then before[r.addr] + (if r.addr == addy && r !in left then 1 else 0) else 0
  }

  lemma PickOne(picks: seq<Ref>, eligible: set<Ref>, before: multiset<WalletAddress>, addy: WalletAddress,
                left: set<Ref>, r: Ref)
    requires Counted(picks, eligible, before, addy, left) && r in left && r.addr == addy
    ensures Counted(if r in eligible then picks + [r] else picks, eligible, before, addy, left - {r})
  {
  }

  /** As many of the picks as a transaction may have inputs. */
  ghost function WithinLimit(picks: seq<Ref>): seq<Ref> {
    if |picks| <= MAX_INPUT_COUNT then picks else picks[..MAX_INPUT_COUNT]
  }

  /** What the loops keep: the picks are filed and counted, and they were never yet enough within the limit. */
  ghost predicate Collecting(outputs: Outputs, collected: Balances, num: nat, picks: seq<Ref>, unspent: Outputs,
                             funding: Balances)
  {
    && num == |picks|
    && ArePicked(outputs, picks, unspent)
    && Tallied(collected, picks, unspent, funding)
    && (picks != [] ==> !Enough(WithinLimit(picks), unspent, funding))
  }

  lemma TakeOne(outputs: Outputs, was: Balances, collected: Balances, picks: seq<Ref>, r: Ref, unspent: Outputs,
                funding: Balances)
    requires Collecting(outputs, was, |picks|, picks, unspent, funding) && r in unspent
    requires forall c :: c in funding ==> Get(collected, c) == Get(was, c) + Get(unspent[r].kind.Funds(), c)
    ensures ArePicked(outputs[r := unspent[r]], picks + [r], unspent)
    ensures Tallied(collected, picks + [r], unspent, funding)
    ensures if |picks| + 1 <= MAX_INPUT_COUNT && Enough(picks + [r], unspent, funding)
      then Suffices(picks + [r], unspent, funding)
      else Collecting(outputs[r := unspent[r]], collected, |picks| + 1, picks + [r], unspent, funding)
  {
    assert (picks + [r])[..|picks|] == picks;
    if |picks| >= MAX_INPUT_COUNT {
      assert WithinLimit(picks + [r]) == WithinLimit(picks);
    }
  }

  lemma SkipOne(was: Balances, collected: Balances, picks: seq<Ref>, r: Ref, unspent: Outputs, funding: Balances)
    requires Tallied(was, picks, unspent, funding) && r in unspent
    requires forall c :: c in funding ==> Get(collected, c) == Get(was, c) + Get(unspent[r].kind.Funds(), c)
    requires !Contributes(unspent[r].kind.Funds(), funding)
    ensures Tallied(collected, picks, unspent, funding)
  {
  }

  lemma CountStart(picks: seq<Ref>, eligible: set<Ref>, addresses: seq<WalletAddress>, j: nat, left: set<Ref>)
    requires j < |addresses| && VisitedAll(picks, eligible, addresses[..j])
    requires forall r :: r in eligible && r.addr == addresses[j] ==> r in left
    ensures Counted(picks, eligible, multiset(addresses[..j]), addresses[j], left)
  {
  }

  lemma CountEnd(picks: seq<Ref>, eligible: set<Ref>, addresses: seq<WalletAddress>, j: nat)
    requires j < |addresses| && Counted(picks, eligible, multiset(addresses[..j]), addresses[j], {})
    ensures VisitedAll(picks, eligible, addresses[..j + 1])
  {
    assert addresses[..j + 1] == addresses[..j] + [addresses[j]];
  }

  lemma CountStop(picks: seq<Ref>, eligible: set<Ref>, addresses: seq<WalletAddress>, j: nat, left: set<Ref>)
    requires j < |addresses| && Counted(picks, eligible, multiset(addresses[..j]), addresses[j], left)
    ensures Visited(picks, eligible, addresses) && GoneThrough(picks, eligible, addresses)
  {
    assert addresses[..j + 1] == addresses[..j] + [addresses[j]];
    assert addresses == addresses[..j + 1] + addresses[j + 1..];
    assert UpTo(picks, eligible, addresses, j);
  }

  lemma CountOne(picks: seq<Ref>, eligible: set<Ref>, addresses: seq<WalletAddress>, j: nat, left: set<Ref>, r: Ref)
    requires j < |addresses| && Counted(picks + [r], eligible, multiset(addresses[..j]), addresses[j], left)
    requires InAddressOrder(picks, eligible, addresses)
    ensures InAddressOrder(picks + [r], eligible, addresses)
  {
    CountStop(picks + [r], eligible, addresses, j, left);
    OneInOrder(picks, eligible, addresses, r);
  }

  /** What is known while an address is gone through, of which the outputs that are `left` have yet to be visited. */
  ghost predicate Going(picks: seq<Ref>, eligible: set<Ref>, addresses: seq<WalletAddress>, j: nat, left: set<Ref>)
    requires j < |addresses|
  {
    Counted(picks, eligible, multiset(addresses[..j]), addresses[j], left) && InAddressOrder(picks, eligible, addresses)
  }

  lemma GoOn(picks: seq<Ref>, eligible: set<Ref>, addresses: seq<WalletAddress>, j: nat, left: set<Ref>, r: Ref)
    requires j < |addresses| && Going(picks, eligible, addresses, j, left) && r in left && r.addr == addresses[j]
    ensures Going(if r in eligible then picks + [r] else picks, eligible, addresses, j, left - {r})
  {
    PickOne(picks, eligible, multiset(addresses[..j]), addresses[j], left, r);
    if r in eligible {
      CountOne(picks, eligible, addresses, j, left - {r}, r);
    }
  }

  /** Comes upon an output that can be unlocked. */
  method ComeUpon(r: Ref, unspent: Outputs, funding: Balances, outputs: Outputs, collected: Balances, num: nat,
                  ghost picks: seq<Ref>)
    returns (outputs': Outputs, collected': Balances, num': nat, enough: bool, ghost picks': seq<Ref>)
    requires r in unspent && Collecting(outputs, collected, num, picks, unspent, funding)
    ensures picks' == if Contributes(unspent[r].kind.Funds(), funding) then picks + [r] else picks
    ensures if enough then ArePicked(outputs', picks', unspent) && Suffices(picks', unspent, funding)
      else Collecting(outputs', collected', num', picks', unspent, funding)
  {
    outputs', num', enough, picks' := outputs, num, false, picks;
    var contributing;
    collected', contributing := Contribute(collected, unspent[r].kind.Funds(), funding);
    if contributing {
      TakeOne(outputs, collected, collected', picks, r, unspent, funding);
      outputs' := outputs[r := unspent[r]];
      num' := num + 1;
      picks' := picks + [r];
      enough := EnoughCollected(collected', funding);
      enough := enough && num' <= MAX_INPUT_COUNT;
    } else {
      SkipOne(collected, collected', picks, r, unspent, funding);
    }
  }

  /** The outputs of the j-th address, in any order; `enough` says that the selection is complete. */
  method CollectAt(addy: WalletAddress, unspent: Outputs, funding: Balances, now: Time,
                   outputs0: Outputs, collected0: Balances, num0: nat,
                   ghost picks0: seq<Ref>, ghost addresses: seq<WalletAddress>, ghost j: nat)
    returns (outputs: Outputs, collected: Balances, num: nat, enough: bool, ghost picks: seq<Ref>, ghost left: set<Ref>)
    requires Collecting(outputs0, collected0, num0, picks0, unspent, funding)
    requires j < |addresses| && addresses[j] == addy
    requires Going(picks0, Eligible(unspent, funding, now), addresses, j, set r | r in unspent && r.addr == addy)
    ensures Going(picks, Eligible(unspent, funding, now), addresses, j, left)
    ensures if enough then ArePicked(outputs, picks, unspent) && Suffices(picks, unspent, funding)
      else left == {} && Collecting(outputs, collected, num, picks, unspent, funding)
  {
    outputs, collected, num, enough, picks := outputs0, collected0, num0, false, picks0;
    ghost var eligible := Eligible(unspent, funding, now);
    var todo := set r | r in unspent && r.addr == addy;
    while todo != {}
      invariant Collecting(outputs, collected, num, picks, unspent, funding)
      invariant forall r :: r in todo ==> r in unspent && r.addr == addy
      invariant Going(picks, eligible, addresses, j, todo)
      decreases todo
    {
      var r :| r in todo;
      GoOn(picks, eligible, addresses, j, todo, r);
      todo := todo - {r};
      if Unlockable(unspent[r], addy, now) {
        outputs, collected, num, enough, picks := ComeUpon(r, unspent, funding, outputs, collected, num, picks);
        if enough {
          left := todo;
          return;
        }
      }
    }
    enough, left := false, {};
  }

  /**
   * Goes through the addresses in order and, at each, through its outputs in any order. `picks` are the
   * contributing outputs in the order they were come upon.
   */
  method CollectOutputsForFunding(fundingBalance: Option<Balances>, unspent: Outputs, addresses: seq<WalletAddress>,
                                  now: Time)
    returns (selection: Selection, ghost picks: seq<Ref>)
    ensures selection.NoRequest? <==> fundingBalance.None?
    ensures fundingBalance.Some? ==>
      Justified(selection, picks, unspent, addresses, fundingBalance.value, Eligible(unspent, fundingBalance.value, now))
  {
    picks := [];
    if fundingBalance.None? {
      return NoRequest, picks;
    }
    var funding := fundingBalance.value;
    ghost var eligible := Eligible(unspent, funding, now);
    var collected: Balances := map[];
    var outputsToConsume: Outputs := map[];
    var numOfCollectedOutputs: nat := 0;
    for j := 0 to |addresses|
      invariant Collecting(outputsToConsume, collected, numOfCollectedOutputs, picks, unspent, funding)
      invariant VisitedAll(picks, eligible, addresses[..j]) && InAddressOrder(picks, eligible, addresses)
    {
      CountStart(picks, eligible, addresses, j, set r | r in unspent && r.addr == addresses[j]);
      var enough;
      ghost var left;
      outputsToConsume, collected, numOfCollectedOutputs, enough, picks, left := CollectAt(addresses[j], unspent, funding,
        now, outputsToConsume, collected, numOfCollectedOutputs, picks, addresses, j);
      if enough {
        CountStop(picks, eligible, addresses, j, left);
        return Collected(outputsToConsume), picks;
      }
      CountEnd(picks, eligible, addresses, j);
    }
    assert addresses[..|addresses|] == addresses;
    var enough := EnoughCollected(collected, funding);
    if enough && numOfCollectedOutputs > MAX_INPUT_COUNT {
      return TooManyOutputs(outputsToConsume), picks;
    }
    return NotEnoughFunds, picks;
  }

  /** What each outcome says about the picks. */
  ghost predicate Justified(selection: Selection, picks: seq<Ref>, unspent: Outputs, addresses: seq<WalletAddress>,
                            funding: Balances, eligible: set<Ref>)
  {
    InAddressOrder(picks, eligible, addresses) &&
    match selection
    case Collected(outputs) =>
      Visited(picks, eligible, addresses) && ArePicked(outputs, picks, unspent) && Suffices(picks, unspent, funding)
    case TooManyOutputs(outputs) =>
      && VisitedAll(picks, eligible, addresses) && ArePicked(outputs, picks, unspent)
      && Enough(picks, unspent, funding) && MAX_INPUT_COUNT < |picks|
      && !Enough(WithinLimit(picks), unspent, funding)
    case NotEnoughFunds =>
      VisitedAll(picks, eligible, addresses) && (picks == [] || !Enough(picks, unspent, funding))
    case NoRequest => false
  }

  // ---- What a selection is good for -------------------------------------------------------------------------

  ghost predicate Distinct<T(!new)>(s: seq<T>) {
    forall x :: multiset(s)[x] <= 1
  }

  lemma DropLast<T(!new)>(s: seq<T>)
    requires s != [] && Distinct(s)
    ensures var front, x := s[..|s| - 1], s[|s| - 1];
      Distinct(front) && x !in front && forall y :: y in s <==> y in front || y == x
  {
    var front, x := s[..|s| - 1], s[|s| - 1];
    assert s == front + [x];
    assert multiset(s) == multiset(front) + multiset{x};
    assert multiset(s)[x] == multiset(front)[x] + 1;
    forall y ensures multiset(front)[y] <= 1 {
      assert multiset(front)[y] <= multiset(s)[y];
    }
  }

  lemma {:induction false} SumOfDistinct<T(!new)>(s: seq<T>, f: T -> nat)
    requires Distinct(s)
    ensures SeqSum(s, f) == Sum((set x | x in s), f)
    ensures |s| == |set x | x in s|
  {
    if s != [] {
      var front, x := s[..|s| - 1], s[|s| - 1];
      DropLast(s);
      SumOfDistinct(front, f);
      SumAdd((set y | y in front), x, f);
      assert (set y | y in s) == (set y | y in front) + {x};
    }
  }

  lemma DistinctPicks(picks: seq<Ref>, eligible: set<Ref>, addresses: seq<WalletAddress>)
    requires Visited(picks, eligible, addresses) && Distinct(addresses)
    ensures Distinct(picks)
    ensures forall r :: r in picks ==> r in eligible && r.addr in addresses
  {
    forall r ensures multiset(picks)[r] <= 1 {
      assert multiset(addresses)[r.addr] <= 1;
    }
    forall r | r in picks ensures r in eligible && r.addr in addresses {
      assert multiset(picks)[r] > 0;
      assert r.addr in multiset(addresses);
    }
  }

  ghost predicate CoversFunding(outputs: Outputs, funding: Balances) {
    forall c :: c in funding ==> funding[c] <= Total(outputs, c)
  }

  /**
   * A successful selection from distinct addresses: within the input limit, unspent and unlockable now, at a
   * listed address, enough in every colour, and without the last one collected no longer enough.
   */
  lemma SelectionIsSound(selection: Selection, picks: seq<Ref>, unspent: Outputs, addresses: seq<WalletAddress>,
                         funding: Balances, now: Time)
    requires Justified(selection, picks, unspent, addresses, funding, Eligible(unspent, funding, now))
    requires selection.Collected? && Distinct(addresses)
    requires exists c :: c in funding && funding[c] > 0
    ensures var outputs := selection.outputs;
      && 1 <= |outputs| <= MAX_INPUT_COUNT && PartOf(outputs, unspent)
      && (forall r :: r in outputs ==> r in Eligible(unspent, funding, now) && r.addr in addresses)
      && (forall r :: r in outputs ==> IsOpenTo(outputs[r].kind, r.addr.ledger, funding, now))
      && CoversFunding(outputs, funding)
      && picks[|picks| - 1] in outputs
      && !CoversFunding(outputs - {picks[|picks| - 1]}, funding)
  {
    var outputs := selection.outputs;
    var eligible := Eligible(unspent, funding, now);
    DistinctPicks(picks, eligible, addresses);
    forall r | r in outputs ensures r in eligible && r.addr in addresses {
      assert r in picks;
    }
    forall r | r in outputs ensures IsOpenTo(outputs[r].kind, r.addr.ledger, funding, now) {
      EligibleIff(unspent, funding, now, r);
    }
    PicksTotal(outputs, picks, unspent, funding);
    LastPickIsNeeded(outputs, picks, unspent, funding);
  }

  lemma LastPickIsNeeded(outputs: Outputs, picks: seq<Ref>, unspent: Outputs, funding: Balances)
    requires ArePicked(outputs, picks, unspent) && Distinct(picks) && Suffices(picks, unspent, funding)
    requires exists c :: c in funding && funding[c] > 0
    ensures !CoversFunding(outputs - {picks[|picks| - 1]}, funding)
  {
    var front, last := picks[..|picks| - 1], picks[|picks| - 1];
    DropLast(picks);
    var rest := outputs - {last};
    forall r ensures r in rest <==> r in front {
      assert r in outputs <==> r in picks;
    }
    PicksTotal(rest, front, unspent, funding);
    if |picks| == 1 {
      NothingIsNotEnough(front, unspent, funding);
    }
  }

  lemma NothingIsNotEnough(picks: seq<Ref>, unspent: Outputs, funding: Balances)
    requires picks == [] && exists c :: c in funding && funding[c] > 0
    ensures !Enough(picks, unspent, funding)
  {
  }

  lemma PicksTotal(outputs: Outputs, picks: seq<Ref>, unspent: Outputs, funding: Balances)
    requires ArePicked(outputs, picks, unspent) && Distinct(picks)
    ensures |outputs| == |picks|
    ensures Enough(picks, unspent, funding) <==> CoversFunding(outputs, funding)
  {
    assert outputs.Keys == set r | r in picks;
    forall c ensures Total(outputs, c) == SeqSum(picks, FundsAt(unspent, c)) {
      SumOfDistinct(picks, FundsAt(unspent, c));
      PartTotal(outputs, unspent, c);
    }
    SumOfDistinct(picks, FundsAt(unspent, IOTA));
    assert |outputs| == |outputs.Keys|;
  }

  lemma {:induction false} FoundAt<T(!new)>(s: seq<T>, x: T) returns (i: nat)
    requires multiset(s)[x] > 0
    ensures i < |s| && s[i] == x
  {
    assert x in multiset(s);
    i :| 0 <= i < |s| && s[i] == x;
  }

  lemma {:induction false} DistinctAt<T(!new)>(s: seq<T>, i: nat, j: nat)
    requires Distinct(s) && i < j < |s|
    ensures s[i] != s[j]
  {
    assert s == s[..j] + [s[j]] + s[j + 1..];
    assert multiset(s)[s[j]] >= multiset(s[..j])[s[j]] + 1;
    assert s[j] !in multiset(s[..j]) && s[i] == s[..j][i];
  }

  lemma EarlierTaken(picks: seq<Ref>, eligible: set<Ref>, addresses: seq<WalletAddress>, i: nat, j: nat, q: Ref, r: Ref)
    requires Visited(picks, eligible, addresses) && GoneThrough(picks, eligible, addresses) && Distinct(addresses)
    requires i < j < |addresses| && r in picks && r.addr == addresses[j]
    requires q in eligible && q.addr == addresses[i]
    ensures q in picks
  {
    var n :| 0 <= n < |addresses| && UpTo(picks, eligible, addresses, n);
    assert multiset(picks)[r] > 0;
    assert r in eligible;
    var k := FoundAt(addresses[..n + 1], r.addr);
    if k != j {
      DistinctAt(addresses, if k < j then k else j, if k < j then j else k);
    }
    assert addresses[..n][i] == q.addr;
    assert q.addr in multiset(addresses[..n]);
    assert multiset(picks)[q] > 0;
  }

  lemma FirstVisited(picks: seq<Ref>, eligible: set<Ref>, addresses: seq<WalletAddress>, k: nat)
    requires Visited(picks, eligible, addresses) && k <= |picks|
    ensures Visited(picks[..k], eligible, addresses)
  {
    assert picks == picks[..k] + picks[k..];
    forall r ensures multiset(picks[..k])[r] <= multiset(picks)[r] {
    }
  }

  /** Nothing is taken from an address before all that is eligible at the earlier ones. */
  lemma EarlierFirst(picks: seq<Ref>, eligible: set<Ref>, addresses: seq<WalletAddress>, i: nat, j: nat, q: Ref, k: nat)
    requires Visited(picks, eligible, addresses) && InAddressOrder(picks, eligible, addresses) && Distinct(addresses)
    requires i < j < |addresses| && k < |picks| && picks[k].addr == addresses[j]
    requires q in eligible && q.addr == addresses[i]
    ensures q in picks[..k]
  {
    FirstVisited(picks, eligible, addresses, k + 1);
    assert picks[..k + 1] == picks[..k] + [picks[k]];
    EarlierTaken(picks[..k + 1], eligible, addresses, i, j, q, picks[k]);
    DistinctAt(addresses, i, j);
  }

  lemma {:induction false} SumOfFirst<T>(s: seq<T>, k: nat, f: T -> nat)
    requires k <= |s|
    ensures SeqSum(s[..k], f) <= SeqSum(s, f)
  {
    if k == |s| {
      assert s[..k] == s;
    } else {
      SumOfFirst(s[..|s| - 1], k, f);
      assert s[..|s| - 1][..k] == s[..k];
    }
  }

  /** What was picked before the last pick was at no point enough. */
  lemma StopsAtFirst(picks: seq<Ref>, unspent: Outputs, funding: Balances, k: nat)
    requires Suffices(picks, unspent, funding) && 1 <= k < |picks|
    ensures !Enough(picks[..k], unspent, funding)
  {
    var front := picks[..|picks| - 1];
    assert front[..k] == picks[..k];
    var c :| c in funding && SeqSum(front, FundsAt(unspent, c)) < funding[c];
    SumOfFirst(front, k, FundsAt(unspent, c));
  }

  /** If the first address holds one eligible output and that is enough, nothing else is taken. */
  lemma FirstIsEnough(outputs: Outputs, picks: seq<Ref>, unspent: Outputs, addresses: seq<WalletAddress>,
                      funding: Balances, eligible: set<Ref>, q: Ref)
    requires Justified(Collected(outputs), picks, unspent, addresses, funding, eligible) && Distinct(addresses)
    requires addresses != [] && q in eligible && q.addr == addresses[0] && Enough([q], unspent, funding)
    requires forall r :: r in eligible && r.addr == addresses[0] ==> r == q
    ensures picks == [q]
  {
    DistinctPicks(picks, eligible, addresses);
    assert picks[0] in picks;
    var j :| 0 <= j < |addresses| && addresses[j] == picks[0].addr;
    if j > 0 {
      EarlierFirst(picks, eligible, addresses, 0, j, q, 0);
    }
    assert picks[..1] == [q];
    if |picks| > 1 {
      StopsAtFirst(picks, unspent, funding, 1);
    }
  }

  ghost function EligibleAt(unspent: Outputs, addresses: seq<WalletAddress>, funding: Balances, now: Time): set<Ref> {
    set r | r in Eligible(unspent, funding, now) && r.addr in addresses
  }

  lemma PicksAreEligible(picks: seq<Ref>, unspent: Outputs, addresses: seq<WalletAddress>, funding: Balances, now: Time)
    requires Visited(picks, Eligible(unspent, funding, now), addresses) && Distinct(addresses)
    ensures (set r | r in picks) <= EligibleAt(unspent, addresses, funding, now)
    ensures VisitedAll(picks, Eligible(unspent, funding, now), addresses) ==>
      (set r | r in picks) == EligibleAt(unspent, addresses, funding, now)
  {
    DistinctPicks(picks, Eligible(unspent, funding, now), addresses);
    if VisitedAll(picks, Eligible(unspent, funding, now), addresses) {
      forall r | r in EligibleAt(unspent, addresses, funding, now) ensures r in picks {
        assert r.addr in multiset(addresses) && multiset(picks)[r] > 0;
      }
    }
  }

  /** What is eligible at the given addresses is enough. */
  ghost predicate IsCovered(unspent: Outputs, addresses: seq<WalletAddress>, funding: Balances, now: Time) {
    forall c :: c in funding ==> funding[c] <= Sum(EligibleAt(unspent, addresses, funding, now), FundsAt(unspent, c))
  }

  lemma PicksCovered(picks: seq<Ref>, unspent: Outputs, addresses: seq<WalletAddress>, funding: Balances, now: Time)
    requires Visited(picks, Eligible(unspent, funding, now), addresses) && Distinct(addresses)
    ensures |picks| == |set r | r in picks|
    ensures Enough(picks, unspent, funding) ==> IsCovered(unspent, addresses, funding, now)
    ensures VisitedAll(picks, Eligible(unspent, funding, now), addresses) ==>
      (Enough(picks, unspent, funding) <==> IsCovered(unspent, addresses, funding, now))
  {
    var all := EligibleAt(unspent, addresses, funding, now);
    DistinctPicks(picks, Eligible(unspent, funding, now), addresses);
    PicksAreEligible(picks, unspent, addresses, funding, now);
    SumOfDistinct(picks, FundsAt(unspent, IOTA));
    forall c ensures SeqSum(picks, FundsAt(unspent, c)) <= Sum(all, FundsAt(unspent, c))
      ensures (set r | r in picks) == all ==> SeqSum(picks, FundsAt(unspent, c)) == Sum(all, FundsAt(unspent, c))
    {
      SumOfDistinct(picks, FundsAt(unspent, c));
      SumSubset((set r | r in picks), all, FundsAt(unspent, c));
    }
  }

  /**
   * For distinct addresses and a positive request, the outcome is decided by what is eligible there: too little
   * is refused, and enough is funded whenever the input limit does not stand in the way.
   */
  lemma SelectionIsComplete(selection: Selection, picks: seq<Ref>, unspent: Outputs, addresses: seq<WalletAddress>,
                            funding: Balances, now: Time)
    requires Justified(selection, picks, unspent, addresses, funding, Eligible(unspent, funding, now))
    requires Distinct(addresses)
    requires exists c :: c in funding && funding[c] > 0
    ensures selection.NotEnoughFunds? <==> !IsCovered(unspent, addresses, funding, now)
    ensures |EligibleAt(unspent, addresses, funding, now)| <= MAX_INPUT_COUNT ==> !selection.TooManyOutputs?
  {
    assert Visited(picks, Eligible(unspent, funding, now), addresses);
    PicksCovered(picks, unspent, addresses, funding, now);
    PicksAreEligible(picks, unspent, addresses, funding, now);
    if picks == [] {
      NothingIsNotEnough(picks, unspent, funding);
    }
  }

  // ---- Addresses listed twice -------------------------------------------------------------------------------

  ghost predicate AlwaysCovers(unspent: Outputs, addresses: seq<WalletAddress>, funding: Balances, now: Time) {
    forall selection: Selection, picks ::
      Justified(selection, picks, unspent, addresses, funding, Eligible(unspent, funding, now)) ==>
        selection.Collected? ==> CoversFunding(selection.outputs, funding)
  }

  /** Whatever order the outputs are come upon in, what is chosen falls short. */
  ghost predicate FallsShort(unspent: Outputs, addresses: seq<WalletAddress>, funding: Balances, now: Time) {
    forall selection: Selection, picks ::
      Justified(selection, picks, unspent, addresses, funding, Eligible(unspent, funding, now)) ==>
        selection.Collected? && !CoversFunding(selection.outputs, funding)
  }

  ghost predicate HasOutcome(unspent: Outputs, addresses: seq<WalletAddress>, funding: Balances, now: Time) {
    exists selection: Selection, picks ::
      Justified(selection, picks, unspent, addresses, funding, Eligible(unspent, funding, now))
  }

  /**
   * The outputs chosen cover the request whatever is stored if and only if no address is listed twice: an
   * address listed twice is gone through twice, and what it holds counts twice.
   */
  lemma CoversIffDistinct(addresses: seq<WalletAddress>)
    ensures Distinct(addresses) <==>
      forall unspent: Outputs, funding: Balances, now: Time :: AlwaysCovers(unspent, addresses, funding, now)
  {
    if Distinct(addresses) {
      forall unspent: Outputs, funding: Balances, now: Time ensures AlwaysCovers(unspent, addresses, funding, now) {
        forall selection: Selection, picks |
          Justified(selection, picks, unspent, addresses, funding, Eligible(unspent, funding, now)) && selection.Collected?
          ensures CoversFunding(selection.outputs, funding)
        {
          DistinctPicks(picks, Eligible(unspent, funding, now), addresses);
          PicksTotal(selection.outputs, picks, unspent, funding);
        }
      }
    } else {
      var a :| multiset(addresses)[a] > 1;
      DuplicateCountsTwice(addresses, a);
      assert !AlwaysCovers(OneCoin(a), addresses, map[IOTA := 2], 0);
    }
  }

  function OneCoin(a: WalletAddress): Outputs {
    map[Ref(a, OutputID(0)) := Output(a, SigLockedColored(map[IOTA := 1], a.ledger), true, false)]
  }

  /** One coin at an address listed twice always passes for two. */
  lemma DuplicateCountsTwice(addresses: seq<WalletAddress>, a: WalletAddress)
    requires multiset(addresses)[a] > 1
    ensures FallsShort(OneCoin(a), addresses, map[IOTA := 2], 0) && HasOutcome(OneCoin(a), addresses, map[IOTA := 2], 0)
  {
    var funding: Balances := map[IOTA := 2];
    var unspent, r := OneCoin(a), Ref(a, OutputID(0));
    var eligible := Eligible(unspent, funding, 0);
    assert IOTA in unspent[r].kind.Funds();
    assert eligible == {r};
    forall selection: Selection, picks | Justified(selection, picks, unspent, addresses, funding, eligible)
      ensures selection.Collected? && !CoversFunding(selection.outputs, funding)
    {
      CountsAsOften(picks, a, addresses);
      OneCoinIsOne(selection, a);
    }
    TwiceIsJustified(addresses, a);
  }

  /** Coming upon the coin twice makes a selection. */
  lemma TwiceIsJustified(addresses: seq<WalletAddress>, a: WalletAddress)
    requires multiset(addresses)[a] > 1
    ensures HasOutcome(OneCoin(a), addresses, map[IOTA := 2], 0)
  {
    var funding: Balances := map[IOTA := 2];
    var unspent, r := OneCoin(a), Ref(a, OutputID(0));
    var eligible, twice := Eligible(unspent, funding, 0), [r, r];
    assert IOTA in unspent[r].kind.Funds();
    assert eligible == {r};
    CountsAsOften(twice, a, addresses);
    assert twice[..1] == [r] && twice[..2] == twice;
    CountsAsOften([r], a, addresses);
    TwiceInOrder(addresses, a, twice, eligible);
    assert Justified(Collected(unspent), twice, unspent, addresses, funding, eligible);
  }

  lemma TwiceInOrder(addresses: seq<WalletAddress>, a: WalletAddress, twice: seq<Ref>, eligible: set<Ref>)
    requires multiset(addresses)[a] > 1 && eligible == {Ref(a, OutputID(0))}
    requires twice == [Ref(a, OutputID(0)), Ref(a, OutputID(0))]
    ensures InAddressOrder(twice, eligible, addresses)
  {
    var j := SecondAt(addresses, a);
    assert twice[..1] == [Ref(a, OutputID(0))] && twice[..2] == twice;
    assert UpTo(twice[..1], eligible, addresses, j) && UpTo(twice[..2], eligible, addresses, j);
  }

  lemma {:induction false} SecondAt(addresses: seq<WalletAddress>, a: WalletAddress) returns (j: nat)
    requires multiset(addresses)[a] > 1
    ensures j < |addresses| && multiset(addresses[..j])[a] == 1 && multiset(addresses[..j + 1])[a] == 2
  {
    var front, last := addresses[..|addresses| - 1], addresses[|addresses| - 1];
    assert addresses == front + [last];
    if multiset(front)[a] > 1 {
      j := SecondAt(front, a);
      assert addresses[..j] == front[..j] && addresses[..j + 1] == front[..j + 1];
    } else {
      j := |front|;
      assert addresses[..j + 1] == addresses;
    }
  }

  /** Picks of the one coin add up to their number. */
  lemma CountsAsOften(picks: seq<Ref>, a: WalletAddress, addresses: seq<WalletAddress>)
    requires Visited(picks, {Ref(a, OutputID(0))}, addresses) || forall r :: r in picks ==> r == Ref(a, OutputID(0))
    ensures forall r :: r in picks ==> r == Ref(a, OutputID(0))
    ensures multiset(picks)[Ref(a, OutputID(0))] == |picks|
    ensures Enough(picks, OneCoin(a), map[IOTA := 2]) <==> |picks| >= 2
    ensures Enough(WithinLimit(picks), OneCoin(a), map[IOTA := 2]) <==> |picks| >= 2
  {
    forall r | r in picks ensures r == Ref(a, OutputID(0)) {
      assert multiset(picks)[r] > 0;
    }
    assert IOTA in OneCoin(a)[Ref(a, OutputID(0))].kind.Funds();
    SumOfSame(picks, Ref(a, OutputID(0)), FundsAt(OneCoin(a), IOTA));
    assert forall r :: r in WithinLimit(picks) ==> r in picks;
    SumOfSame(WithinLimit(picks), Ref(a, OutputID(0)), FundsAt(OneCoin(a), IOTA));
  }

  lemma {:induction false} SumOfSame<T>(s: seq<T>, x: T, f: T -> nat)
    requires (forall y :: y in s ==> y == x) && f(x) == 1
    ensures SeqSum(s, f) == |s| == multiset(s)[x]
  {
    if s != [] {
      var front := s[..|s| - 1];
      assert s[|s| - 1] in s && s == front + [x];
      assert forall y :: y in front ==> y in s;
      SumOfSame(front, x, f);
    }
  }

  lemma OneCoinIsOne(selection: Selection, a: WalletAddress)
    requires selection.Collected? && PartOf(selection.outputs, OneCoin(a))
    ensures !CoversFunding(selection.outputs, map[IOTA := 2])
  {
    var r := Ref(a, OutputID(0));
    PartTotal(selection.outputs, OneCoin(a), IOTA);
    SumSubset(selection.outputs.Keys, {r}, FundsAt(OneCoin(a), IOTA));
    SumPick({r}, r, FundsAt(OneCoin(a), IOTA));
    assert {r} - {r} == {};
    var funding: Balances := map[IOTA := 2];
    assert IOTA in funding;
  }
}
