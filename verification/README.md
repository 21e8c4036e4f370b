# Verification of the wallet and its neighbours

This project models three parts of GoShimmer in Dafny and proves properties of them:

- **The wallet's transaction builder** (`client/wallet`, with the wallet file of `tools/cli-wallet`): the address
  manager with its masks and cached indexes, the store of outputs, coin selection, the outputs and remainder of a
  transfer, unlock blocks, the balances shown, moving funds into and out of NFTs, and the exported state. The
  ledger's balance check (`packages/protocol/ledger/vm/devnetvm`) is modelled as far as the wallet relies on it.
- **Two bounded caches of the dashboard** (`plugins/dashboard`): the conflict feed, which keeps a map, a binary heap
  and cross references in step under eviction, and the block history, which keeps an array and a map in step.
- **The evil wallet's splitting of funds** (`client/evilwallet`).

Objects that the program updates in place are classes here, loops are loops, and every method is proved against a
specification about which the lemmas then speak. `dafny verify dfyconfig.toml` checks everything.

## How the files fit together

| file | subject |
|---|---|
| `Sums.dfy`, `Orders.dfy`, `Ledger.dfy`, `BitMasks.dfy` | sums over sets, orders of visiting, the ledger's vocabulary, one-byte masks |
| `AddressManager.dfy` | spent addresses, cached indexes, refinement of a plain scan |
| `OutputCollections.dfy`, `OutputManager.dfy` | grouping, totals, chunks; merging replies, no double spend |
| `CoinSelection.dfy`, `Transactions.dfy`, `BalanceCheck.dfy`, `UnlockBlocks.dfy` | the steps of a transfer |
| `Assembly.dfy`, `Wallet.dfy`, `FailedSend.dfy` | the steps put together, up to `SendFunds`; what a failed one leaves behind |
| `OneCoin.dfy`, `WalletRuns.dfy` | payments from one coin, and runs of a wallet with a surprising end |
| `BalanceSheet.dfy`, `NftFunds.dfy`, `WalletState.dfy` | balances, NFTs, export and import |
| `TimeHeap.dfy`, `ConflictFeed.dfy` | the conflict feed: heap, map, and mentions |
| `FeedQueue.dfy`, `FeedRuns.dfy`, `FeedTimes.dfy` | the feed as a bounded queue, over whole runs, and at arbitrary times |
| `BlockHistory.dfy` | the block history |
| `EvilSplit.dfy` | splitting funds |

## What turned out not to hold

Each of these is proved, and where one would expect otherwise the lemma named states exactly when that is met:

- A source address given twice is gone through twice, and what it holds counts twice
  (`CoinSelection.CoversIffDistinct`).
- Identical outputs are merged when a transaction is built, for example a payment to the remainder address of exactly
  what is left over; such a transfer is refused (`Assembly.TransferMeets`, `BalanceCheck.PassesIffNoIdenticalOutputs`,
  and at such an input `WalletRuns.PaymentToChangeIsRefused`).
- An error of `SendFunds` does not leave the store as the refresh left it: what is consumed is marked before the
  transaction is sent, and stays marked if the node refuses it (`FailedSend.ErrorKeepsStoreIff`,
  `FailedSend.ConsumedIsLost`, and at such an input `WalletRuns.FailedSendKeepsMark`). The equivalence is about proper
  requests on a well filed store, about errors up to sending, and about the store. A transaction that is refused may
  also have generated an address, and once the node has taken it, an error from waiting for its confirmation leaves
  everything marked.
- A stateless wallet can consume anything twice (`OutputManagement.SafeIffStateful`). A stateful one consumes no entry
  twice, but marks are kept per address: over whole runs, no identifier is consumed twice exactly if no two places
  where things may still be filed unspent are of one identifier (`OutputManagement.IDsAreSafeIff`). An output with a
  fallback is filed at two places. Within one transaction only one of them counts (`WalletModule.TakenOnce`), but
  it can be taken from the other after its deadline (`WalletRuns.TakenAgainIff`, `WalletRuns.FallbackIsSpentTwice`).
- Outputs of the single-amount kind can be spent but are shown in no balance: their case in the switch is empty, and Go
  does not fall through (`BalanceSheet.AvailableIsSpendableButSingles`).
- A withdrawal checks only the colours that the NFT holds (`NftFunds.WithdrawalBalancesIffHeld`).
- At a multiple of the maximum, splitting into chunks yields an empty last chunk (`OutputCollections.FinalSizes`).
- A stored conflict may mention sets that are not stored: adding one of its sets can evict another. When sets arrive
  one after the other, all sets of a new conflict are stored, in whatever order they are added, exactly if they fit
  (`FeedRuns.StoredInAnyOrderIff`), and in a given order exactly if they stay queued (`FeedRuns.AllStoredIff`);
  `FeedTimes.StoredAtAnyTimesIff` gives the condition for arbitrary times, where several arrive at once and any of
  several equally old sets may be evicted;
  `FeedRuns.MentionDangles` comes to a mention that dangles.
- Splitting makes the wanted number of outputs only for powers of 100 (`EvilSplit.ExactIffPower`); with a split number
  of 1 nothing is moved at all. From more than one output the transaction IDs of a round can run out of slots, which
  depends on the order in which Go goes through the map (`EvilSplit.SomeOrderRunsOutIff`,
  `EvilSplit.EveryOrderRunsOutIff`).
- A wallet imported with a spent bit ahead of its last index can generate an address that is spent already
  (`WalletModule.Wallet.ChooseRemainderAddress` says when, `WalletRuns.ChangeGoesToSpent` comes to it).

## Assumptions

- Go iterates over maps in an arbitrary order; every such loop picks its elements arbitrarily here. A map of maps by
  address and identifier is one map keyed by the pair.
- Amounts and indexes are unbounded numbers, except where wrapping around is the point: the subtraction of
  remainders, the ledger's balance check, the evil wallet's sums, and the 16-bit indexes in unlock blocks.
  `math.Pow` is exact.
- A mask is one byte with the usual operations. Numbers in the wallet file are eight bytes, least significant first.
  The asset registry's encoding is a parameter. `container/heap` is written out.
- Addresses are derived from their index by a function that is a parameter; signatures stand for who signs.
- The node's replies are arbitrary but for naming only addresses of the wallet that asks. The current time is a
  parameter of each call, and the outcome of checks outside the wallet is one too.
- The confirmation states are defined outside the repository and not part of this model; the zero value that a new
  conflict of the feed starts with is `Undecided` here.
- What runs concurrently in the program runs in sequence here, in any order.
- The clock is a parameter too. Where the conflict feed is compared with a queue, every set arrives later than all
  before it; what holds whatever the times are is stated apart from that.

## Model

| member | source | states |
|---|---|---|
| AddressManagement.AddressManager.constructor | client/wallet/address_manager.go:25-37 | a new or restored manager records as spent exactly what it was given, and its first unspent index is the minimum of the unspent ones |
| AddressManagement.AddressManager.SpentAddressIndexes | client/wallet/address_manager.go:123-145 | every access leaves the spent set alone, grows the masks to cover the index, and moves the last index and the last-unspent cache exactly when the index is new; the cache invariant survives |
| AddressManagement.AddressManager.Address | client/wallet/address_manager.go:40-45 | gives the address of the index, with the same effect on the caches as any access |
| AddressManagement.AddressManager.Addresses | client/wallet/address_manager.go:48-55 | lists all addresses in order; the sweep turns the half-initialised caches of an imported wallet into ones that agree with a scan of the whole set |
| AddressManagement.AllAddressesDiffer | client/wallet/address_manager.go:48-55 | the addresses of a wallet are distinct, so the default sources list none twice |
| AddressManagement.AddressManager.UnspentAddresses | client/wallet/address_manager.go:58-67 | although it starts at the cached index and each probe may change the state, it lists exactly the unspent addresses, in order, and leaves the caches right |
| AddressManagement.AddressManager.SpentAddresses | client/wallet/address_manager.go:70-79 | lists exactly the spent addresses, in order |
| AddressManagement.AddressManager.FirstUnspentAddress | client/wallet/address_manager.go:82-84 | the address at the minimum unspent index, without any visible change |
| AddressManagement.AddressManager.LastUnspentAddress | client/wallet/address_manager.go:87-89 | the address at the maximum unspent index up to the last one, without any visible change |
| AddressManagement.AddressManager.NewAddress | client/wallet/address_manager.go:92-94 | exactly one address more, never a spent one when no spent bit lies ahead of the last index |
| AddressManagement.AddressManager.MarkAddressSpent | client/wallet/address_manager.go:97-111 | adds exactly the marked index to the spent set and keeps both caches equal to full scans; says how far the last index moves |
| AddressManagement.AddressManager.IsAddressSpent | client/wallet/address_manager.go:114-118 | answers membership in the spent set, with the effect on the caches of any access |
| AddressManagement.AddressManager.UpdateFirstUnspentAddressIndex | client/wallet/address_manager.go:148-156 | the open-ended scan terminates, one growth step past the capacity at the latest, at the minimum unspent index |
| AddressManagement.AddressManager.UpdateLastUnspentAddressIndex | client/wallet/address_manager.go:159-175 | finds the maximum unspent index at or below the cached one; falls through to a new address exactly when everything below is spent, which `MarkAddressSpent` shows never happens in a reachable state |
| AddressManagement.SettingMarksOne | client/wallet/address_manager.go:102 | setting a bit in a mask adds one index to the spent set and touches no other |
| AddressManagement.GrowingKeepsSpent | client/wallet/address_manager.go:123-135 | appending empty masks leaves the spent set as it is |
| AddressManagement.ListingIsExact | client/wallet/address_manager.go:58-79 | the two listings are strictly ascending and hold exactly the addresses wanted |
| AddressManagement.ListingsPartition | client/wallet/address_manager.go:48-79 | unspent and spent addresses are disjoint and together are exactly all addresses |
| AddressManagement.OnlyMarkedAreSpent | client/wallet/address_manager.go:97-118 | over any run of operations the spent set grows by exactly the marked indexes |
| AddressManagement.RunStaysTidy | client/wallet/address_manager.go:92-145 | over any run the last index never moves back and no spent bit lies ahead of it |
| AddressManagement.Replay | client/wallet/address_manager.go:25-175 | masks and caches refine the plain bookkeeping "scan the whole set" over any sequence of operations |
| BitMasks.SetBitSetsOneBit | client/wallet/address_manager.go:102-117 | `SetBit` sets the bit it is given and no other |
| OutputManagement.OutputManager.constructor | client/wallet/output_manager.go:18-31 | starts from the first reply and leaves the address caches complete |
| OutputManagement.OutputManager.Refresh | client/wallet/output_manager.go:34-62 | a reply is taken over: each of its entries gets the reply's output, address and confirmation, and is spent exactly if the reply says so or a stateful wallet had marked it; every other entry stays, and nothing else is stored; a failed request changes nothing |
| OutputManagement.OutputManager.GetOutputs | client/wallet/output_manager.go:85-122 | exactly the entries at the given addresses, or at all of them, that are unspent and, unless pending ones are wanted, confirmed |
| OutputManagement.RepliedIsOffered | client/wallet/output_manager.go:45-106 | after a reply, an entry of it at a scanned address is on offer exactly if the reply has it unspent, has it confirmed unless pending ones are wanted, and no stateful wallet had marked it |
| OutputManagement.OutputManager.MarkOutputSpent | client/wallet/output_manager.go:125-137 | that entry is spent from then on, and nothing else about it or any other entry changes; an unknown one is ignored |
| OutputManagement.SpentStaysSpent | client/wallet/output_manager.go:34-62 | in a stateful wallet nothing brings a spent entry back, whatever happens |
| OutputManagement.MarksSurvive | client/wallet/output_manager.go:34-62 | a spent mark survives any further replies and transactions |
| OutputManagement.NoDoubleSpend | client/wallet/output_manager.go:85-137 | over any run of a stateful wallet with arbitrary replies in between, the entries, each an address and an identifier, that any two transactions consume are disjoint |
| OutputManagement.StatelessDoubleSpend | client/wallet/output_manager.go:45-55 | in a stateless wallet this is false: a late reply brings a consumed output back |
| OutputManagement.SafeIffStateful | client/wallet/output_manager.go:34-137 | no run from any store consumes an entry twice, exactly if the wallet is stateful |
| OutputManagement.IDsAreSafeIff | client/wallet/output_manager.go:34-137 | over any run of a stateful wallet no identifier is consumed by two transactions, exactly if no two places where things may be filed and nothing is spent yet are of one identifier |
| OutputManagement.TwoPlacesAreNot | client/wallet/output_manager.go:34-137 | otherwise a late reply and two transactions consume it twice |
| OutputManagement.IDSpentTwiceIffOfferedTwice | client/wallet/output_manager.go:85-137 | without a reply in between, two successive transactions can consume one identifier exactly when it is on offer at two addresses |
| OutputCollections.OutputsByAddressAndOutputID | client/wallet/output.go:35-48 | every output is filed once, under its own address and identifier |
| OutputCollections.OutputsByID | client/wallet/output.go:60-69 | keeps every identifier, with one of the outputs filed under it |
| OutputCollections.FlattenGroup | client/wallet/output.go:35-69 | flattening undoes grouping |
| OutputCollections.GroupFlatten | client/wallet/output.go:35-69 | grouping undoes flattening exactly when no identifier is filed under two addresses and every output under its own |
| OutputCollections.ValueOutputsOnly | client/wallet/output.go:72-86 | exactly the outputs that are no aliases, unchanged |
| OutputCollections.TotalFundsInOutputs | client/wallet/output.go:126-137 | per colour the sum over all outputs in whatever order, with an entry for exactly the colours that occur |
| OutputCollections.OutputCount | client/wallet/output.go:151-159 | the number of outputs |
| OutputCollections.SplitIntoChunksOfMaxInputCount | client/wallet/output.go:162-188 | the chunks partition the outputs and no index is past the result, in any order of iteration |
| OutputCollections.FinalSizes | client/wallet/output.go:162-188 | above the maximum all chunks but the last are full and the last holds the remainder, which is nothing at a multiple |
| OutputCollections.ChunksKeepTotals | client/wallet/output.go:126-188 | per colour the totals of the chunks add up to the total of the whole |
| CoinSelection.EnoughCollected | client/wallet/wallet.go:2024-2031 | enough in every requested colour |
| CoinSelection.CollectAt | client/wallet/wallet.go:1980-2010 | the outputs of one address in any order, with the early exit |
| CoinSelection.CollectOutputsForFunding | client/wallet/wallet.go:1966-2021 | the outputs are come upon address by address in the order of the sources, at each in any order, and each outcome says about them: stopped at the first point that suffices; too many, and the first ones up to the limit do not suffice; or too little |
| CoinSelection.EarlierFirst | client/wallet/wallet.go:1983-2010 | when an output is taken from an address, all that is eligible at the earlier ones was taken before |
| CoinSelection.FirstIsEnough | client/wallet/wallet.go:1983-2010 | if the first address holds one eligible output and that is enough, every selection consists of it alone |
| CoinSelection.EligibleIff | client/wallet/wallet.go:1985-2003 | an output counts exactly if it holds a requested colour and, when it is an extended one, its time lock is over and the address it is filed at is its fallback after the deadline and its own otherwise |
| CoinSelection.SelectionIsSound | client/wallet/wallet.go:1966-2031 | from distinct addresses: at most the input limit, each at a listed address that can unlock it now and holding a requested colour, enough in every colour, and without the last one collected no longer enough |
| CoinSelection.LastPickIsNeeded | client/wallet/wallet.go:1995-2011 | dropping the output collected last leaves some colour short |
| CoinSelection.SelectionIsComplete | client/wallet/wallet.go:1966-2021 | for distinct addresses the request is refused for want of funds exactly when what is eligible does not cover it, and funded whenever it does and the limit allows |
| CoinSelection.CoversIffDistinct | client/wallet/wallet.go:1966-2021 | what is chosen covers the request, whatever is stored, exactly when no source address is listed twice |
| CoinSelection.DuplicateCountsTwice | client/wallet/wallet.go:1966-2021 | one coin at an address listed twice always passes for two: a request for two has an outcome, and every outcome is a selection that falls short |
| Transactions.RequiredFunds | client/wallet/packages/sendoptions/options.go:171-185 | the request: the colours asked for and per colour all that is to be paid, tokens to be minted counted as IOTA |
| Transactions.RequiredIsSent | client/wallet/packages/sendoptions/options.go:171-185 | what is to be paid is what is to arrive, with Mint moved over to IOTA |
| Transactions.DeductDestination | client/wallet/wallet.go:2055-2070 | one destination is subtracted colour by colour, Mint from IOTA, in any order, without an underflow when it is covered |
| Transactions.Remainder | client/wallet/wallet.go:2053-2080 | over all destinations in any order: what is consumed minus what is required, in uint64 arithmetic, and no zero entries |
| Transactions.BuildOutputs | client/wallet/wallet.go:2046-2103 | everyone is paid: an output at the destination's address that holds exactly the amount, not locked without options, else locked in time exactly before `LockUntil` and falling back exactly if both fallback options are set and the deadline has passed; for a covered request all else is one output at the remainder address of what is left over; together they hold exactly what is consumed, per colour and with Mint counted as IOTA |
| Transactions.TransferSettles | client/wallet/wallet.go:2053-2100 | the outputs of a covered request: every destination is paid, a remainder in any colour is returned in full, and every output is such a payment or that remainder |
| Transactions.NewOutputs | packages/protocol/ledger/vm/devnetvm/output.go:146-188 | keeps one of each group of identical outputs, and panics exactly when their number is impossible |
| Transactions.DeduplicationLoses | packages/protocol/ledger/vm/devnetvm/output.go:146-188 | leaving out repetitions preserves the funds exactly when there are none |
| BalanceCheck.SafeAddUint64 | packages/protocol/ledger/vm/devnetvm/utils.go:128-132 | the sum and whether it fits |
| BalanceCheck.SafeSubUint64 | packages/protocol/ledger/vm/devnetvm/utils.go:136-140 | the difference and whether it is one |
| BalanceCheck.CountInput | packages/protocol/ledger/vm/devnetvm/utils.go:11-26 | one input is added colour by colour, unless a colour overflows |
| BalanceCheck.CountOutput | packages/protocol/ledger/vm/devnetvm/utils.go:27-41 | IOTA and Mint of one output are set aside, tokens are taken from the coins, unless they are not there |
| BalanceCheck.TransactionBalancesValid | packages/protocol/ledger/vm/devnetvm/utils.go:11-51 | the checked uint64 computation passes only transactions that move exactly what they consume and make no token from nothing; where nothing empty is spent or sent it passes exactly those among them none of whose sums overflows |
| BalanceCheck.WorthByColor | packages/protocol/ledger/vm/devnetvm/utils.go:42-51 | counting output by output or colour by colour comes to the same |
| BalanceCheck.ConservedIsBalanced | packages/protocol/ledger/vm/devnetvm/utils.go:11-51 | what is conserved per colour, minting aside, passes the check |
| BalanceCheck.PassesIffNoIdenticalOutputs | packages/protocol/ledger/vm/devnetvm/output.go:146-188 | a conserving transfer still passes after identical outputs were merged exactly when there were none |
| UnlockBlocks.BuildUnlockBlocks | client/wallet/wallet.go:2106-2123 | signature blocks exactly at first occurrences of an address, references to them everywhere else, and the outputs in order position by position |
| UnlockBlocks.EveryInputIsSignedFor | client/wallet/wallet.go:2106-2123 | every input is checked against its own owner's signature, through a reference that points strictly backwards to a signature |
| UnlockBlocks.OneSignaturePerOwner | client/wallet/wallet.go:2106-2123 | each owner signs at exactly one position |
| Assembly.BuildInputs | client/wallet/wallet.go:2034-2042 | every consumed identifier is listed, none is listed twice, and every input is one that is consumed |
| Assembly.InputsHoldTotal | client/wallet/wallet.go:119-138 | if no identifier is consumed twice, the inputs hold exactly what is consumed |
| Assembly.BuildSpending | client/wallet/wallet.go:125-150 | inputs, the outputs they refer to and unlock blocks agree position by position; everything consumed is spent, each input once and unlocked by its owner |
| Assembly.TransferMeets | client/wallet/wallet.go:127-138 | the merged outputs of a covered request are worth what is spent exactly when no two destinations come to the same output and none to the same as the rest |
| Assembly.BuildOutputSide | client/wallet/wallet.go:127-138 | everyone is paid what and as the options say; a covered request has too many outputs, or exactly those of the request and its remainder, with the condition above for their balance |
| Assembly.BuildTransaction | client/wallet/wallet.go:125-165 | what passes the checks balances, is within the limits, spends nothing twice, is unlocked, and pays everyone the amount asked for under the locks asked for; a request that is covered passes exactly when it has few enough outputs, no two of them are identical, no sum overflows and the checks outside agree, and then returns all that is left over |
| WalletModule.Wallet.constructor | client/wallet/wallet.go:63-103 | any state that was exported, with spent bits wherever they are, is restored to one that every operation keeps, filled from the two replies |
| WalletModule.Wallet.ChooseRemainderAddress | client/wallet/wallet.go:2143-2162 | the address asked for; else, in a wallet that reuses its address, the first unspent one; else that at the first unspent index unless it is spent from, then that at the last unspent index, then one behind the last; it is spent exactly when a spent one had to be generated, and only a generated one moves the last index |
| WalletModule.Wallet.ChooseToAddress | client/wallet/wallet.go:2165-2184 | the same for the destination, where a reusing wallet takes the receive address |
| WalletModule.Wallet.ChangeIsTaken | client/wallet/wallet.go:2143-2162 | the address that `SendFunds` gives change at, in terms of the cached indexes |
| WalletModule.Wallet.NotUsedIsNotMarked | client/wallet/wallet.go:2126-2184 | marking what a transaction consumes does not touch an address chosen without reuse |
| WalletModule.Wallet.MarkOutputsAndAddressesSpent | client/wallet/wallet.go:2126-2140 | marks exactly the consumed entries and, without reuse, exactly their addresses, and moves the last index at most to the first one left unspent; the history stays free of double spends |
| WalletModule.Wallet.Refresh | client/wallet/wallet.go:1376-1379 | merges the reply and keeps the wallet's invariant, and leaves the addresses as they are |
| WalletModule.Wallet.OwnIsInView | client/wallet/wallet.go:1966-1982 | without sources, funds may be taken from exactly the stored entries that are not spent, are confirmed unless pending ones may be used, and are no aliases |
| WalletModule.Wallet.CollectFor | client/wallet/wallet.go:1966-2021 | the selection is made from the unspent value outputs of the store after the refresh; a proper request is refused for want of funds exactly when what is eligible does not cover it, for too many outputs only when too many are eligible, and what is collected covers it, one output being needed |
| WalletModule.SelectionIsFunding | client/wallet/wallet.go:1966-2021 | what any selection means for the wallet: entries of the store, none spent, each eligible, and for a proper request the exact outcome |
| WalletModule.Wallet.MakeTransaction | client/wallet/wallet.go:125-165 | the remainder goes to the address preferred for what is consumed, and the transaction is decided by its outputs |
| WalletModule.Wallet.Conclude | client/wallet/wallet.go:166-177 | what is consumed is marked exactly when the local checks pass, whether or not the node takes the transaction |
| WalletModule.Wallet.SendFunds | client/wallet/wallet.go:110-177 | end to end: a proper request is refused for want of funds exactly when what is eligible does not cover it; what is taken was unspent and is marked exactly when the checks pass, before the node answers; a transaction that passes spends each input once, balances, is signed for, pays everyone the amount asked for under the locks asked for, and gives change at an address it does not spend from; the last index moves only to an address generated for change or to the first one left unspent; from a store that is well filed, a proper request that is funded passes exactly when its outputs are few enough and none identical, no sum overflows and the checks outside agree, and what it sends beyond the payments is one output of all that is left over |
| WalletModule.RememberedIsDisjoint | client/wallet/wallet.go:110-177 | no two transactions of a stateful wallet consume the same entry |
| WalletModule.TakenOnce | client/wallet/wallet.go:1982-2003 | in a store where the node gave each identifier one output, filed under the address that can sign for it, one transaction takes no identifier from two places: what can be unlocked at one time belongs to one address |
| WalletModule.FundingIsSound | client/wallet/wallet.go:110-138 | what is collected for a proper request from such a store meets all that building a transaction needs |
| FailedSend.Send | client/wallet/wallet.go:110-177 | a proper request on a well filed store passes exactly when what was selected for it, with change at the address preferred for that, comes to few enough outputs, none identical, and no sum overflows |
| FailedSend.ErrorKeepsStoreIff | client/wallet/wallet.go:166-171 | however a proper request on a well filed store ends, an error up to and including sending leaves the refreshed store as it is, if and only if the node takes what is sent or no selection that can be made passes the wallet's own checks |
| FailedSend.ConsumedIsLost | client/wallet/wallet.go:166-171 | after a failed send a stateful wallet never has the consumed entries on offer again, whatever the node replies |
| OneCoins.PayOne | client/wallet/wallet.go:110-177 | where one entry can be taken, a payment of it spends exactly that and marks it, whether or not the node takes the transaction |
| WalletRuns.FailedSendKeepsMark | client/wallet/wallet.go:63-171 | a new wallet whose only coin ends up marked although nothing was sent |
| WalletRuns.TakenAgainIff | client/wallet/wallet.go:1985-1993 | at two times, the later one not before the earlier, an identifier can be taken from two places of a well filed store exactly if it is an output whose fallback deadline lies between them |
| WalletRuns.FallbackIsSpentTwice | client/wallet/wallet.go:110-177 | a stateful wallet sends two transactions that spend one identifier, before and after its fallback deadline |
| WalletRuns.ChangeGoesToSpent | client/wallet/wallet.go:2143-2162 | a restored wallet whose change goes to an address that is spent already |
| WalletRuns.PaymentToChangeIsRefused | client/wallet/wallet.go:125-165 | one of two IOTA paid to where the other goes as change: the transfer is refused |
| BalanceSheet.Balance | client/wallet/wallet.go:1386-1470 | per colour, for confirmed and pending outputs apart: what is available, what is timelocked and what aliases contribute |
| BalanceSheet.AvailableBalance | client/wallet/wallet.go:1477-1530 | per colour the sum of the available shares |
| BalanceSheet.BalanceIsAvailablePlusLocked | client/wallet/wallet.go:1402-1527 | `Balance` is `AvailableBalance` plus owned timelocked funds plus alias shares |
| BalanceSheet.AliasCountsOnce | client/wallet/wallet.go:1430-1460 | an alias that is not delegated and is filed at the addresses of both its owners: all entries of its identifier together add exactly its funds to the balance and to what aliases contribute |
| BalanceSheet.OutputCountsOnce | client/wallet/wallet.go:1402-1527 | an output that is filed with its owners adds its funds exactly once, all its entries together: to `Balance` unless it is a single amount or a delegated alias, to `AvailableBalance` if it is coloured or extended and not locked in time; and nothing where it is not shown, or to outputs of the other confirmation |
| BalanceSheet.OwnersPart | client/wallet/wallet.go:1443-1463 | of an alias filed with one of two owners, the governor is shown the minimum and the state controller all but that |
| BalanceSheet.OthersSeeNothing | client/wallet/wallet.go:1420-1428 | an extended output adds nothing where it is filed only with someone it does not belong to now |
| BalanceSheet.AvailableIsSpendableButSingles | client/wallet/wallet.go:1493-1527 | what can be spent exceeds what is shown by exactly the outputs of the single-amount kind, whose case is empty |
| BalanceSheet.AvailableIsFunded | client/wallet/wallet.go:1966-2021 | any positive request within the confirmed available balance is funded, the input limit permitting |
| NftFunds.BalanceAfterWithdrawal | client/wallet/wallet.go:755-783 | exactly when a withdrawal is refused, and otherwise the alias's new balance, at or above the minimum |
| NftFunds.WithdrawalBalancesIffHeld | client/wallet/wallet.go:755-800 | colours the alias does not hold escape the check: the transaction balances exactly when there are none, and then every colour is conserved |
| NftFunds.BalancesAfterDeposit | client/wallet/wallet.go:873-918 | exactly when a deposit is refused; otherwise alias plus consumed equals next alias plus remainder, per colour |
| NftFunds.RemainderOfCreation | client/wallet/wallet.go:446-459 | what is consumed equals the new alias plus the remainder |
| NftFunds.ChangeConserves | client/wallet/wallet.go:452-465 | with or without a remainder output, creation and deposit balance per colour; there is one exactly if something remains, it holds exactly that and belongs to the remainder address |
| NftFunds.CollectForSweep | client/wallet/wallet.go:1006-1024 | takes the first outputs that are no aliases, all of them or up to the limit less one for the alias |
| NftFunds.NonAliasesAre | client/wallet/wallet.go:1006-1024 | what a sweep goes through is exactly the outputs that are no aliases, in the order they had |
| NftFunds.SweepConserves | client/wallet/wallet.go:1006-1042 | a sweep moves exactly what it consumes per colour and leaves the alias's funds alone |
| NftFunds.UnlockByAlias | client/wallet/wallet.go:1044-1074 | the alias is signed for at its one position and every other input refers to that position; what is spent is listed in the order of the inputs |
| WalletState.NumberRoundTrip | client/wallet/wallet.go:1795-1803 | a uint64 is read back as it was written |
| WalletState.FirstByte | client/wallet/wallet.go:1795-1803 | the least significant byte comes first |
| WalletState.MasksRoundTrip | tools/cli-wallet/lib.go:111-112 | the masks are read back as they were written |
| WalletState.MaskIsAt | client/wallet/wallet.go:1795-1803 | every mask is one byte, in order |
| WalletState.ExportState | client/wallet/wallet.go:1795-1803 | seed, last index, registry and masks, in this order |
| WalletState.ImportWalletStateFile | tools/cli-wallet/lib.go:98-114 | reads them back in this order; what is too short is an error, and a registry that does not parse is one that still yields the rest |
| WalletState.ExportAndRestore | tools/cli-wallet/lib.go:98-114 | with a self-delimiting registry codec, the import recovers seed, last index, masks and registry, and a manager rebuilt from them and swept once has the caches of the exported one |
| TimeHeaps.TimeHeap.Up | plugins/dashboard/conflicts_livefeed.go:239-268 | sifting up restores heap order and permutes the elements |
| TimeHeaps.TimeHeap.Down | plugins/dashboard/conflicts_livefeed.go:239-268 | sifting down restores heap order within the first elements and leaves the others in place |
| TimeHeaps.TimeHeap.Push | plugins/dashboard/conflicts_livefeed.go:258-260 | adds one element and keeps heap order |
| TimeHeaps.TimeHeap.Pop | plugins/dashboard/conflicts_livefeed.go:262-268 | removes one element of minimal arrival time and keeps heap order |
| TimeHeaps.RootIsOldest | plugins/dashboard/conflicts_livefeed.go:250-252 | in a heap no element is older than the root |
| TimeHeaps.UpStep | plugins/dashboard/conflicts_livefeed.go:250-256 | one exchange with the parent moves the only possible violation of heap order upwards |
| TimeHeaps.DownStep | plugins/dashboard/conflicts_livefeed.go:250-256 | one exchange with the older child moves the only possible violation downwards |
| ConflictFeed.BoundedConflictMap.constructor | plugins/dashboard/conflicts_livefeed.go:272-281 | starts empty, in a state that every operation keeps |
| ConflictFeed.BoundedConflictMap.Evict | plugins/dashboard/conflicts_livefeed.go:284-295 | removes a set of minimal arrival time from map and heap, and every mention of it |
| ConflictFeed.BoundedConflictMap.CleanUp | plugins/dashboard/conflicts_livefeed.go:288-294 | deleting conflicts while iterating over them leaves exactly those that still mention a set |
| ConflictFeed.BoundedConflictMap.AddConflictSet | plugins/dashboard/conflicts_livefeed.go:283-302 | at most `MaxCount` sets, one heap element per set, and when there is no room one of the oldest makes way with all mention of it and is recorded as evicted; with non-decreasing arrivals nothing evicted is newer than anything kept |
| ConflictFeed.BoundedConflictMap.ResolveConflict | plugins/dashboard/conflicts_livefeed.go:304-312 | resolves one unresolved set and leaves the heap in step |
| ConflictFeed.BoundedConflictMap.AddConflictMember | plugins/dashboard/conflicts_livefeed.go:328-334 | only a stored conflict takes on the set |
| ConflictFeed.BoundedConflictMap.AddSets | plugins/dashboard/conflicts_livefeed.go:155-174 | step by step each absent set is added and, without room, one of the oldest dropped; no set and no mention is lost but of what these steps drop, members of stored sets mention them, and no other mention appears |
| ConflictFeed.BoundedConflictMap.OnConflictCreated | plugins/dashboard/conflicts_livefeed.go:131-175 | the same, and the new conflict is stored with all its sets and nothing decided; every other conflict that is still stored keeps its state, and its update time unless it is a member of one of the sets; if no mention dangled before, none does afterwards exactly when all its sets are stored in the end |
| ConflictFeed.BoundedConflictMap.OnConflictAccepted | plugins/dashboard/conflicts_livefeed.go:177-201 | that conflict is accepted; exactly the stored sets that it mentions are resolved afterwards, those that were not before now and after the time since they arrived; nothing else about any set or conflict changes |
| ConflictFeed.BoundedConflictMap.OnConflictRejected | plugins/dashboard/conflicts_livefeed.go:203-222 | changes that conflict only |
| ConflictFeed.EvictedIsForgotten | plugins/dashboard/conflicts_livefeed.go:284-295 | after an eviction nothing mentions the evicted set or no set at all, and no other mention is lost |
| ConflictFeed.EvictingFollows | plugins/dashboard/conflicts_livefeed.go:155-174 | an eviction in the middle of adding a conflict loses no other set and no other mention |
| ConflictFeed.MentioningFollows | plugins/dashboard/conflicts_livefeed.go:168-172 | updating the members keeps every mention founded |
| ConflictFeed.OneMoreFollows | plugins/dashboard/conflicts_livefeed.go:155-174 | one step keeps both the account of what is lost and, if it held, that every mentioned set is stored |
| ConflictFeed.StepTouches | plugins/dashboard/conflicts_livefeed.go:155-174 | one step, with its eviction, keeps every state, and every update time but those of the set's members |
| FeedQueue.FillIsLast | plugins/dashboard/conflicts_livefeed.go:283-302 | the queue that the map comes to holds the latest of all that was ever queued |
| FeedQueue.AllQueuedIff | plugins/dashboard/conflicts_livefeed.go:155-174 | elements that come in a given order are all queued in the end exactly when no more join than there is room for and none that is queued when it is its turn is among the oldest, which make way |
| FeedQueue.AllQueuedInEveryOrderIff | plugins/dashboard/conflicts_livefeed.go:155-174 | they all are in every order exactly when those not queued number at most the maximum and none of the elements is among the oldest that make way for them |
| FeedQueue.FewFit | plugins/dashboard/conflicts_livefeed.go:155-174 | so it is when there is room for all at once, or when none is queued and they are not too many |
| FeedRuns.RunIsQueue | plugins/dashboard/conflicts_livefeed.go:283-302 | while sets arrive one after the other, the map with its heap is a bounded queue |
| FeedRuns.AllStoredIff | plugins/dashboard/conflicts_livefeed.go:155-174 | in that case the sets of a conflict, added in a given order, are all stored in the end exactly when they stay queued |
| FeedRuns.StoredInAnyOrderIff | plugins/dashboard/conflicts_livefeed.go:155-174 | arriving one after the other they are in every order and every run exactly when they fit |
| FeedRuns.NothingDropped | plugins/dashboard/conflicts_livefeed.go:283-302 | whatever the times are, nothing is evicted and all are stored while there is room for all |
| FeedRuns.Handle | plugins/dashboard/conflicts_livefeed.go:131-222 | every event keeps the map a queue, and lets a mention dangle exactly when a new conflict's sets do not stay queued; it decides its own conflict, touches the members of its sets, and leaves state and update time of all others |
| FeedRuns.Replay | plugins/dashboard/conflicts_livefeed.go:131-334 | over any run from an empty map: at most `MaxCount` sets, one heap element for each; it goes through one run of sets per event; with arrivals in order nothing that these runs evict is newer than anything kept; with arrivals in turn the map is the queue of the run, and nothing dangles if the sets of every new conflict stay queued; every stored conflict was created, is in the state of the last event for it, and was updated last by the last event that concerns it |
| FeedRuns.NothingVanishes | plugins/dashboard/conflicts_livefeed.go:283-302 | whatever was stored at any point of a run is stored still or among what its steps evict |
| FeedRuns.ShowsOneMore | plugins/dashboard/conflicts_livefeed.go:131-222 | one more event keeps every stored conflict in the state of the last event for it |
| FeedRuns.MentionDangles | plugins/dashboard/conflicts_livefeed.go:155-174 | with room for two sets, both taken, a conflict about the first and a new one mentions a set that is no longer stored |
| FeedTimes.StoredAtAnyTimesIff | plugins/dashboard/conflicts_livefeed.go:155-174 | in whatever order and at whatever times not before the last arrival, several at once among them, and whichever of several equally old sets is evicted, which is left open here: all sets of a conflict are stored in the end exactly if none makes way, or those that do are surely older than any that is asked for |
| FeedTimes.RunFits | plugins/dashboard/conflicts_livefeed.go:283-302 | step by step what fits goes on fitting, and nothing that is asked for is evicted |
| FeedTimes.LosingRun | plugins/dashboard/conflicts_livefeed.go:283-302 | a set with too few older ones is evicted in some run, with a suitable choice among equally old sets |
| BlockHistory.History.constructor | plugins/dashboard/visualizer.go:64-66 | starts with an empty history |
| BlockHistory.History.ForgetOldest | plugins/dashboard/visualizer.go:157-159 | forgets the flags of exactly the oldest blocks |
| BlockHistory.History.MoveToFront | plugins/dashboard/visualizer.go:160 | the overlapping in-place copy keeps the order of the survivors |
| BlockHistory.History.AddToHistory | plugins/dashboard/visualizer.go:147-165 | array and map stay in step: a known block only gets the flag, a new one goes to the end after the oldest made way if necessary |
| BlockHistory.Replay | plugins/dashboard/visualizer.go:147-165 | any sequence of calls does what the plain list does |
| BlockHistory.RunIsBounded | plugins/dashboard/visualizer.go:147-165 | at most the maximum number of blocks with distinct IDs over any run |
| BlockHistory.FlagsAreLatest | plugins/dashboard/visualizer.go:150-164 | over any run every shown block has the flag that was last given for its ID |
| BlockHistory.ShownWasAdded | plugins/dashboard/visualizer.go:162-164 | over any run every shown block is one that was added |
| BlockHistory.AddedKeepsOrder | plugins/dashboard/visualizer.go:155-163 | blocks that stay keep their distance and order |
| BlockHistory.NewBlockStays | plugins/dashboard/visualizer.go:155-163 | a new block stays for at least the next 900 calls |
| EvilSplit.SplitBalanceEqually | client/evilwallet/utils.go:10-23 | n parts, at least one, that add up to the balance exactly; equal but for the last, which exceeds the others by less than n |
| EvilSplit.HandleInputOutputDuringSplitOutputs | client/evilwallet/evilwallet.go:281-299 | the parts add up to the uint64 sum over all colours of the output; all but the last are that sum divided by the split number, and the last exceeds them by less than the split number |
| EvilSplit.SeenIsWorth | client/evilwallet/evilwallet.go:285-289 | that sum is what the output holds exactly when its funds, all colours together, fit into a uint64 |
| EvilSplit.Wallet.NextAddress | client/evilwallet/wallets.go:278-287 | an address not used before |
| EvilSplit.CreateTransaction | client/evilwallet/evilwallet.go:468-478 | the amounts go, in order, to the addresses behind the last one used, which are used up in any case; what the wallet held stays, and nothing else is added |
| EvilSplit.SplitRound | client/evilwallet/evilwallet.go:244-273 | over all outputs in any order: for each transaction made, a hundred new outputs that hold a hundredth of its input each, the last with the rest, at the hundred addresses given by its position in the order, and no others; the program ends exactly when a transaction is posted whose position in the order has no slot, never if no more inputs than slots or none posted, always if more are posted than there are slots |
| EvilSplit.RoundDivides | client/evilwallet/evilwallet.go:244-273 | if all inputs of a round hold between two amounts, all its new outputs hold between a hundredth of the one and less than a hundred more than a hundredth of the other |
| EvilSplit.LeastIsQuotient | client/evilwallet/evilwallet.go:215-279 | the least that an output holds after some rounds is the amount at the start divided by a power of 100, rounded down |
| EvilSplit.MostIsClose | client/evilwallet/evilwallet.go:215-279 | the most is no more than 100 above that |
| EvilSplit.SomeOrderRunsOutIff | client/evilwallet/evilwallet.go:244-270 | some order runs out of slots exactly when there are more inputs than slots and at least one is posted |
| EvilSplit.EveryOrderRunsOutIff | client/evilwallet/evilwallet.go:244-270 | every order does exactly when more inputs are posted than there are slots |
| EvilSplit.CountRounds | client/evilwallet/evilwallet.go:223-227 | the number of rounds |
| EvilSplit.RoundsAre | client/evilwallet/evilwallet.go:223-227 | k rounds exactly for split numbers from 2 * 100^(k-1) to below 2 * 100^k |
| EvilSplit.ExactIffPower | client/evilwallet/evilwallet.go:223-244 | 100^rounds is the wanted number exactly when that is a positive power of 100 |
| EvilSplit.RunRounds | client/evilwallet/evilwallet.go:229-276 | over all rounds and temporary wallets: each round starts from what the one before made, and the first whose order runs out of slots is the last |
| EvilSplit.OneStays | client/evilwallet/evilwallet.go:244-270 | starting from one output every round has as many slots as it needs |
| EvilSplit.SplitOutputs | client/evilwallet/evilwallet.go:215-279 | the program ends out of range exactly when the order of some round runs out, so never from one output or with nothing posted, and always with two of the first outputs posted; otherwise the output wallet gains at most 100^rounds outputs for each one at the start and no more funds than there were, exactly that if every transaction could be made; each of them holds at least the least amount at the start divided by 100^rounds, rounded down, and at most 100 more than the greatest divided by that; the input wallet counts as empty exactly if its last address is spent or it holds nothing |

## Left out

- Aliasing: outputs and conflicts are values in the fields of the classes that store them. That an `*Output` handed
  out by the store changes when the store is refreshed is not captured. Neither are empty inner maps.
- `NewInputs` and `NewOutputs` also sort. The order plays no part in any property here.
- Serialisation of transactions and the ledger's checking of unlock blocks: their outcome is the parameter `passes`.
  Hence alias transitions, and the search for cycles among unlock blocks, are not part of this model.
- The operations composed of what is modelled: consolidating funds, claiming conditional funds, creating assets,
  delegating, transferring and destroying NFTs, sweeping NFTs owned by an NFT. They would add members, not ideas.
- `Wallet.Refresh` with a rescan of spent addresses: the store's merge is the same, with a larger reply.
- `TimelockedBalances`, `ConditionalBalances` and the alias balances: filters and sums like those in `BalanceSheet`.
- Confirmation polling, mana pledges, contexts, websocket messages, metrics, web routes and menus.
- Issuers, issuing times and gossip messages of the conflict feed: they are copied and shown only.
- The evil wallet's reuse wallets, aliases and scenarios.
- EvilSplit.SplitRound: does not say which transaction ID ends up in which slot, because they are only waited for.
- WalletState.ExportAndRestore: covers last indexes below 2^64, as many as the file can hold.
- FeedTimes.StoredAtAnyTimesIff: leaves open which of several equally old sets is evicted; the heap settles that by how
  it came about, and may then keep sets that another choice would lose.
- FeedTimes.LosingRun: makes that choice freely too, for the same reason.
