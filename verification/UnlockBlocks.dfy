/** The unlock blocks of a transaction (client/wallet/wallet.go, buildUnlockBlocks). */
module UnlockBlocks {
  import opened Ledger

  /** Signatures are abstract: what matters is whose key signs. */
  datatype UnlockBlock =
    | Signature(signer: WalletAddress)
    | Reference(index: nat)
    | AliasReference(index: nat)

  /** Block indexes are stored as uint16. */
  function Uint16(n: nat): nat {
    if n < 0x1_0000 then n else Uint16(n - 0x1_0000)
  }

  /** The addresses that the inputs are spent from. */
  ghost function OwnersOf(inputs: seq<OutputID>, outputs: map<OutputID, Output>): (owners: seq<WalletAddress>)
    requires forall id :: id in inputs ==> id in outputs
    ensures |owners| == |inputs| && forall k :: 0 <= k < |inputs| ==> owners[k] == outputs[inputs[k]].address
  {
    if inputs == [] then []
    else
      var n := |inputs| - 1;
      assert inputs[n] in inputs && forall id :: id in inputs[..n] ==> id in inputs;
      OwnersOf(inputs[..n], outputs) + [outputs[inputs[n]].address]
  }

  /** Where the owner of the k-th input appears for the first time. */
  ghost function FirstUse(owners: seq<WalletAddress>, k: nat): (f: nat)
    requires k < |owners|
    ensures f <= k && owners[f] == owners[k] && forall j :: 0 <= j < f ==> owners[j] != owners[k]
  {
    if j: nat :| j < k && owners[j] == owners[k] then FirstUse(owners, j) else k
  }

  /** The first input of an owner is signed for, all others refer to it. */
  ghost predicate IsUnlock(block: UnlockBlock, owners: seq<WalletAddress>, k: nat)
    requires k < |owners|
  {
    block == if FirstUse(owners, k) == k then Signature(owners[k]) else Reference(Uint16(FirstUse(owners, k)))
  }

  ghost predicate SignedOnFirstUse(unlocks: seq<UnlockBlock>, owners: seq<WalletAddress>) {
    |unlocks| <= |owners| && forall k :: 0 <= k < |unlocks| ==> IsUnlock(unlocks[k], owners, k)
  }

  ghost predicate Appears(a: WalletAddress, owners: seq<WalletAddress>, n: nat) {
    exists k :: 0 <= k < n <= |owners| && owners[k] == a
  }

  ghost predicate IsIndexed(existing: map<WalletAddress, nat>, owners: seq<WalletAddress>, k: nat)
    requires k < |owners|
  {
    owners[k] in existing && existing[owners[k]] == Uint16(FirstUse(owners, k))
  }

  /** The signature blocks there are after `n` inputs. */
  ghost predicate AreSignatures(existing: map<WalletAddress, nat>, owners: seq<WalletAddress>, n: nat) {
    && n <= |owners|
    && (forall a :: a in existing ==> Appears(a, owners, n))
    && (forall k :: 0 <= k < n ==> IsIndexed(existing, owners, k))
  }

  lemma SameOwnerSameUse(owners: seq<WalletAddress>, j: nat, k: nat)
    requires j < |owners| && k < |owners| && owners[j] == owners[k]
    ensures FirstUse(owners, j) == FirstUse(owners, k)
  {
  }

  lemma FirstAppearance(owners: seq<WalletAddress>, n: nat)
    requires n < |owners|
    ensures FirstUse(owners, n) == n <==> !Appears(owners[n], owners, n)
  {
  }

  lemma SeenAgain(existing: map<WalletAddress, nat>, owners: seq<WalletAddress>, n: nat)
    requires AreSignatures(existing, owners, n) && n < |owners| && owners[n] in existing
    ensures IsUnlock(Reference(existing[owners[n]]), owners, n) && AreSignatures(existing, owners, n + 1)
  {
    FirstAppearance(owners, n);
    var k :| 0 <= k < n && owners[k] == owners[n];
    assert IsIndexed(existing, owners, k);
    SameOwnerSameUse(owners, k, n);
    forall a | a in existing ensures Appears(a, owners, n + 1) {
      var j :| 0 <= j < n && owners[j] == a;
    }
  }

  lemma SeenFirst(existing: map<WalletAddress, nat>, owners: seq<WalletAddress>, n: nat)
    requires AreSignatures(existing, owners, n) && n < |owners| && owners[n] !in existing
    ensures IsUnlock(Signature(owners[n]), owners, n) && AreSignatures(existing[owners[n] := Uint16(n)], owners, n + 1)
  {
    var more := existing[owners[n] := Uint16(n)];
    assert forall k {:trigger owners[k]} :: 0 <= k < n ==> IsIndexed(existing, owners, k);
    FirstAppearance(owners, n);
    forall k | 0 <= k < n + 1 ensures IsIndexed(more, owners, k) {
      assert k < n ==> IsIndexed(existing, owners, k);
    }
    forall a | a in more ensures Appears(a, owners, n + 1) {
      assert a != owners[n] ==> Appears(a, owners, n);
    }
  }

  /** What the loop keeps: the blocks of the first inputs and where the signatures among them are. */
  ghost predicate Unlocking(unlocks: seq<UnlockBlock>, existing: map<WalletAddress, nat>, owners: seq<WalletAddress>) {
    SignedOnFirstUse(unlocks, owners) && AreSignatures(existing, owners, |unlocks|)
  }

  lemma Refer(unlocks: seq<UnlockBlock>, existing: map<WalletAddress, nat>, owners: seq<WalletAddress>,
              a: WalletAddress)
    requires Unlocking(unlocks, existing, owners) && |unlocks| < |owners| && a == owners[|unlocks|] && a in existing
    ensures Unlocking(unlocks + [Reference(existing[a])], existing, owners)
  {
    SeenAgain(existing, owners, |unlocks|);
  }

  lemma Sign(unlocks: seq<UnlockBlock>, existing: map<WalletAddress, nat>, owners: seq<WalletAddress>, a: WalletAddress)
    requires Unlocking(unlocks, existing, owners) && |unlocks| < |owners| && a == owners[|unlocks|] && a !in existing
    ensures Unlocking(unlocks + [Signature(a)], existing[a := Uint16(|unlocks|)], owners)
  {
    SeenFirst(existing, owners, |unlocks|);
  }

  method BuildUnlockBlocks(inputs: seq<OutputID>, consumedOutputsByID: map<OutputID, Output>)
    returns (unlocks: seq<UnlockBlock>, inputsInOrder: seq<LedgerOutput>)
    requires forall id :: id in inputs ==> id in consumedOutputsByID
    ensures |unlocks| == |inputs| == |inputsInOrder|
    ensures forall k :: 0 <= k < |inputs| ==> inputsInOrder[k] == consumedOutputsByID[inputs[k]].kind
    ensures SignedOnFirstUse(unlocks, OwnersOf(inputs, consumedOutputsByID))
  {
    unlocks, inputsInOrder := [], [];
    ghost var owners := OwnersOf(inputs, consumedOutputsByID);
    var existingUnlockBlocks: map<WalletAddress, nat> := map[];
    for outputIndex := 0 to |inputs|
      invariant |unlocks| == |inputsInOrder| == outputIndex
      invariant forall k :: 0 <= k < outputIndex ==> inputsInOrder[k] == consumedOutputsByID[inputs[k]].kind
      invariant Unlocking(unlocks, existingUnlockBlocks, owners)
    {
      var output := consumedOutputsByID[inputs[outputIndex]];
      inputsInOrder := inputsInOrder + [output.kind];
      if output.address in existingUnlockBlocks {
        Refer(unlocks, existingUnlockBlocks, owners, output.address);
        unlocks := unlocks + [Reference(existingUnlockBlocks[output.address])];
      } else {
        Sign(unlocks, existingUnlockBlocks, owners, output.address);
        unlocks := unlocks + [Signature(output.address)];
        existingUnlockBlocks := existingUnlockBlocks[output.address := Uint16(outputIndex)];
      }
    }
  }

  /** The block that the ledger checks the i-th input against: a reference stands for the block it names. */
  function Resolve(unlocks: seq<UnlockBlock>, i: nat): Option<UnlockBlock>
    requires i < |unlocks|
  {
    if !unlocks[i].Reference? then Some(unlocks[i])
    else if unlocks[i].index < |unlocks| then Some(unlocks[unlocks[i].index])
    else None
  }

  /** Every input is checked against its own owner's signature, which stands in its place or before it. */
  lemma EveryInputIsSignedFor(unlocks: seq<UnlockBlock>, owners: seq<WalletAddress>, i: nat)
    requires |unlocks| == |owners| <= 0x1_0000 && i < |owners| && SignedOnFirstUse(unlocks, owners)
    ensures Resolve(unlocks, i) == Some(Signature(owners[i]))
    ensures unlocks[i].Signature? <==> forall k :: 0 <= k < i ==> owners[k] != owners[i]
    ensures !unlocks[i].Signature? ==> unlocks[i].Reference? && unlocks[i].index < i
  {
    var f := FirstUse(owners, i);
    assert FirstUse(owners, f) == f;
    assert unlocks[f] == Signature(owners[i]);
  }

  /** Each owner signs exactly once, at its first input. */
  lemma OneSignaturePerOwner(unlocks: seq<UnlockBlock>, owners: seq<WalletAddress>, k: nat)
    requires |unlocks| == |owners| && k < |owners| && SignedOnFirstUse(unlocks, owners)
    ensures forall i :: 0 <= i < |owners| ==> (unlocks[i] == Signature(owners[k]) <==> i == FirstUse(owners, k))
  {
    forall i | 0 <= i < |owners| ensures unlocks[i] == Signature(owners[k]) <==> i == FirstUse(owners, k) {
      assert owners[i] == owners[k] ==> FirstUse(owners, i) == FirstUse(owners, k);
    }
  }
}
