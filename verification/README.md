# BEP3 atomic swaps: a verified model

The module locks, mints and burns coins for hash-time-locked swaps between this chain and another one.
A swap is created open, is claimed with a secret before its expiry or refunded after it, and is deleted
a week of blocks later. Per denomination the module keeps the incoming, outgoing and current supply, and
a rate-limit window.

This project models that module and proves what its handlers assume of each other but never recheck: the
counters, the two sorted indexes, the swap statuses and the bank escrow agree in every reachable state.
From that agreement follow the results a user of the chain cares about: a claim with the right secret and
a refund of an expired swap cannot be blocked, each swap is paid out once, the supply stays pegged, and
the rate limit holds in real block time. A second part covers the generated wire codec.

## Files

| file | content |
|---|---|
| Wrappers.dfy | option, result and outcome types |
| Types.dfy | 64-bit arithmetic, time, coins, swaps, supplies, parameters, errors |
| Bytes.dfy | lexicographic order, sorted key lists, end of a prefix range, big-endian numbers |
| Keys.dfy | index keys and range scans |
| Hashes.dfy | preimages of the secret hash and of the swap identifier |
| Bank.dfy, Supply.dfy | balances and totals; counters, limits and the rate-limit window |
| Machine.dfy | the state and one specification function per operation |
| Sums.dfy, Invariants.dfy | sums over live swaps; the invariants and every message's effect on them |
| Blocks.dfy | the three per-block passes as set operations |
| Runs.dfy, RateLimit.dfy | theorems about whole runs |
| Life.dfy | the life of one swap, in terms of its message and of plain numbers |
| Guards.dfy | what the handlers check in any state, and the causes of their errors |
| Genesis.dfy | import, export, and their composition |
| GenesisFile.dfy | which genesis files are accepted, spelled out |
| Gaps.dfy | a genesis file that import accepts and that breaks the invariants, run forward |
| Keeper.dfy | the keeper as a class; its methods write the store in place and are proved against Machine.dfy |
| Varint.dfy, Wire.dfy | the wire format as functions, with the round trips |
| WireFormat.dfy | the bytes of every message and field, tag by tag |
| UnknownFields.dfy | a grammar of unknown fields, nested groups included |
| WireBuffers.dfy | the backward writer, the exact sizes, and the decoding and skipping loops |

## How it is modelled

- Indexes are maps from key bytes to swap identifiers. A range scan returns the entries in byte order of
  their keys, so the order and the boundary of a scan are properties of the byte encoding and are proved.
- A handler that fails may have advanced a counter (module/keeper/swap_trx.go:95-101). `Keeper.DeliverTx`
  restores the store, as the transaction layer does; a rejected message leaves the state as it was.
- The hash is an arbitrary function. Binding results hold for every hash; where they need collision
  resistance they exhibit the colliding preimages instead of assuming that there are none.
- `span * time.Minute` is a 64-bit product and wraps around; `Time.Sub` saturates; the accumulated window
  time wraps around. All three are written out.
- Blocks and messages come in any order, with fixed parameters, and accounts other than the module's may
  also transfer coins. Block time never goes back.

## Findings

- A swap expires when its `ExpireTimestamp` is at or before the block time (module/keeper/swap_trx.go:318-321).
  module/spec/06_begin_block.md:18 says that it expires when its `ExpireTimestamp` is greater. The code is
  followed.
- Retention is 604800 blocks (module/types/keys.go:26), not the 86400 of module/spec/06_begin_block.md:38.
- The span of an incoming swap has no upper bound in the keeper. The expiry is the block time plus the span if
  and only if the span is at most 153722867 minutes (`Runs.ExpireTimeExact`); one minute more is stored open
  and already due (`Runs.OverlongSpanIsBornExpired`). A create keeps the claim and refund windows apart if and
  only if the expiry it computes lies ahead (`Runs.CreateKeepsWindowsExact`), and a swap born without that is
  out of its window only until the next block (`Runs.DisjointWindows`).
- The stateless check of a create message does not look at `SenderOtherChain` (module/types/msg.go:81-130),
  but import rejects a blank one (module/types/swap.go:92). While a swap with a blank one is stored, from its
  creation to its deletion, the export of the chain is rejected at any time (`Genesis.BlankSenderIsStored`,
  `Genesis.BlankSenderBlocksImport`). `Genesis.ExportThenImport` gives the exact condition under which export
  followed by import is accepted.
- Import does not check some of what the keeper relies on. `Genesis.AcceptedGenesisInv` names exactly those
  conditions: an accepted genesis satisfies the invariants if and only if they hold.
  `Gaps.UnrecordedSwapAccepted` is an accepted genesis that breaks them: an open incoming swap whose denomination
  has no supply record. The first block creates the record with an empty counter, and the swap's claim fails
  (`Gaps.FirstBlock`) until later incoming swaps have filled the counter up to its amount
  (`Guards.ClaimIncomingExact`). When one such swap has, the claim succeeds and that swap is blocked in its place
  (`Gaps.UnrecordedRun`).

## Model

| member | source | states |
|---|---|---|
| Runs.RunKeepsInv | module/keeper/swap_trx.go:16-365 | in every state reachable by blocks and messages: own identifiers, exact indexes, counters equal to the live sums, limits, covered escrow |
| Runs.PegConservation | module/spec/02_state.md:85-89 | over a whole run total supply minus current supply of a denomination is constant, and current supply moves by the incoming amounts claimed minus the outgoing amounts claimed |
| Runs.EscrowConservation | module/keeper/swap_trx.go:95-107 | over a whole run the module balance beyond the outgoing supply never changes |
| Runs.CountersMatchSwaps | module/spec/02_state.md:85-89 | at any point of a run both counters are the sums over the open and expired swaps, and escrow and current supply cover the outgoing sum |
| Runs.SinglePayout | module/keeper/swap_trx.go:141-316 | every creation of an identifier is matched by exactly one successful claim or refund, or the swap is still live |
| Runs.DisjointWindows | module/keeper/swap_trx.go:141-316 | anywhere in any run a live swap is claimable with its secret exactly before its expiry and refundable exactly from it on, if and only if it was not created since the last block with an expiry that does not lie ahead, and had not already expired ahead of its time when that block came; in a run without blocks the start takes the place of the block |
| Runs.RunKeepsWindows | module/keeper/swap_trx.go:109-112 | at any point of any run open swaps expire after now and expired ones not after, if and only if that condition holds of every live swap |
| Runs.RunWindowExact | module/keeper/swap_trx.go:319-334 | the same for one live swap: its own creation since the last block, or its state when that block came, decides alone |
| Runs.CreateKeepsWindowsExact | module/keeper/swap_trx.go:109-116 | a create keeps all windows if and only if the expiry it computes is later than the block time |
| Runs.FittingSpansAhead | module/keeper/swap_trx.go:109-112 | from a start in its window, spans that fit a 64-bit duration always meet the condition |
| Runs.LockedCoinsReturn | module/keeper/swap_trx.go:242-316 | anywhere in any run, once a block reaches the expiry of a swap that is still live, its refund succeeds right after that block |
| Runs.DueIsRefundable | module/keeper/swap_trx.go:319-334 | the same from any state that satisfies the invariants |
| Life.CreateStoresTerms | module/keeper/swap_trx.go:109-116 | a create stores every term of its message in its own field, status 1, direction 1 or 2, closed block 0, the block time plus the span as expiry, and touches no other swap |
| Life.CreatedThenClaimed | module/keeper/swap_trx.go:141-239 | from message to claim: the committed secret claims the new swap; an incoming one pays the message's amount to the message's recipient and to nobody else, an outgoing one leaves the message's sender and the total supply smaller by it |
| Life.CreatedThenRefunded | module/keeper/swap_trx.go:242-316 | from message to refund: right after the first block at or behind its expiry the refund succeeds and every balance and total is as before the create |
| Life.RunKeepsTerms | module/keeper/swap_trx.go:141-351 | over any run in which it is not created anew a swap keeps amount, hash, timestamps, parties and direction |
| Life.RetentionExact | module/types/keys.go:26-26 | a completed swap outlives a block if and only if fewer than 604800 blocks have gone by since it was closed |
| Life.ClosedStays | module/keeper/swap_trx.go:354-365 | over runs a closed swap stays stored, unchanged, while all blocks are less than 604800 above the one that closed it |
| Life.ClosedGoes | module/keeper/swap_trx.go:354-365 | it is gone after the first block that is not |
| Runs.BlockOpensWindows | module/abci.go:11-21 | a begin block restores these windows whatever swaps were open before it, if and only if no swap had expired ahead of its time |
| Runs.ExpireTimeExact | module/keeper/swap_trx.go:109-112 | the expiry is the block time plus the span if and only if the span is at most 153722867 minutes |
| Runs.OverlongSpanIsBornExpired | module/keeper/swap_trx.go:75-112 | one minute more is accepted only for incoming swaps and is due at its creation |
| Runs.StepAccounts | module/keeper/asset.go:10-146 | one block or message moves current supply and bank total together and keeps the free escrow |
| Runs.StepKeepsInv | module/keeper/swap_trx.go:16-365 | one block or message keeps the invariants |
| RateLimit.ReleaseRate | module/keeper/asset.go:158-185 | blocks spanning less than n periods release at most n + 1 times the time-based limit: twice the limit in less than one period |
| RateLimit.ReleasePerWindow | module/keeper/asset.go:158-185 | for every period, zero and negative ones included, k closed windows and the open one release at most k + 1 times the limit |
| RateLimit.NoPeriodResetsEachBlock | module/keeper/asset.go:173-182 | with a period of zero or less every block after a reset closes the window again |
| RateLimit.BlockRollsWindow | module/keeper/asset.go:166-183 | one block adds exactly the time since the previous block, none on the first block, to an open window and resets it once the period is reached; an asset without time limit is reset in every block; no other counter moves |
| RateLimit.WindowClosesExactly | module/keeper/asset.go:158-185 | over runs without overlong blocks an open window is reset if and only if its time plus the span of the run reaches the period, and until then holds exactly their sum |
| RateLimit.ResetsApart | module/keeper/asset.go:158-185 | between any two blocks of a run that reset the window of a denomination at least one period of block time passes, whatever happens between them |
| RateLimit.ResetsSpaced | module/keeper/asset.go:158-185 | from a reset on, k more resets take at least k periods of block time |
| RateLimit.ResetsFromAnyStart | module/keeper/asset.go:158-185 | from any start, where the first reset may end a window already open, k resets take at least k - 1 periods |
| RateLimit.WindowAccounting | module/keeper/asset.go:27-33 | for every run: the claim log against the windows that closed and the open one, and closed periods plus open-window time against the clock plus the open-window time at the start |
| RateLimit.RolledWindow | module/keeper/asset.go:173-182 | accumulated window time never exceeds real time, also when the 64-bit sum wraps |
| Invariants.ClaimNeverBlocked | module/keeper/swap_trx.go:141-239 | from an invariant state a claim succeeds if and only if the swap is open and the secret fits: no counter, limit or bank check stops it |
| Invariants.ClaimErrors | module/keeper/swap_trx.go:141-239 | from an invariant state a claim fails only for a missing swap, a swap that is not open, or a wrong secret, with that error |
| Invariants.RefundNeverBlocked | module/keeper/swap_trx.go:242-316 | from an invariant state a refund succeeds if and only if the swap is expired |
| Invariants.RefundErrors | module/keeper/swap_trx.go:242-316 | from an invariant state a refund fails only for a missing swap or one that is not expired, with that error |
| Invariants.CreateAcceptedExact | module/keeper/swap_trx.go:16-138 | from any state a create is accepted if and only if it is admissible: identifier, parties, amount bounds, timestamp window, room in the limits or the sender's funds |
| Guards.CreateErrors | module/keeper/swap_trx.go:16-107 | a create fails for one of twelve causes in message, parameters, counters or funds, with the error of that cause |
| Guards.ClaimIncomingExact | module/keeper/swap_trx.go:141-239 | in any state, invariants or not, an open incoming swap is claimable if and only if the secret fits, its counter covers the amount and the limits admit it |
| Guards.ClaimOutgoingExact | module/keeper/swap_trx.go:194-208 | in any state an open outgoing swap is claimable if and only if the secret fits and outgoing counter, current counter and escrow cover the amount |
| Guards.RefundExact | module/keeper/swap_trx.go:242-289 | in any state an expired swap is refundable if and only if the counter of its direction and, outgoing, the escrow cover the amount |
| Invariants.TimestampWindow | module/keeper/swap_trx.go:51-55 | the accepted timestamps are those whose second ends after block time minus 15 minutes and not after block time plus 30 minutes |
| Invariants.LiveAmountCovered | module/keeper/asset.go:92-146 | the amount of each live swap is covered by the counter of its direction |
| Invariants.DeliverKeepsInv | module/keeper/swap_trx.go:16-316 | every message, accepted or rejected, keeps the invariants |
| Invariants.CreateEffect | module/keeper/swap_trx.go:16-138 | a successful create: guards met, one new open swap indexed by expiry, one counter advanced, outgoing coins moved from sender to escrow, all else unchanged |
| Invariants.ClaimEffect | module/keeper/swap_trx.go:141-239 | a successful claim: closed at this height, index entry moved, incoming minted to the recipient, outgoing burned from escrow, every balance and total accounted for |
| Invariants.RefundEffect | module/keeper/swap_trx.go:242-316 | a successful refund: closed, scheduled for deletion, outgoing coins back to the sender, totals unchanged |
| Invariants.HandleEffect | module/handler.go:13-29 | whichever handler runs, its success has the effect of its kind |
| Invariants.SwapMovesKeepsInv | module/keeper/asset.go:10-146 | moving one swap, its counter and the escrow by the same amount keeps all invariants |
| Invariants.ClosedLimits | module/keeper/asset.go:10-57 | claims and refunds stay within supply limit and time-based limit |
| Invariants.ExpiryIndexInsert | module/keeper/keeper.go:125-131 | inserting an open swap keeps the expiry index exact, no other key is overwritten |
| Invariants.ExpiryIndexRemove | module/keeper/keeper.go:134-137 | removing a closed swap's key keeps the expiry index exact, no other entry is lost |
| Invariants.DeletionIndexInsert | module/keeper/keeper.go:165-170 | scheduling a completed swap keeps the deletion index exact |
| Sums.SumInsert | module/genesis.go:46-75 | replacing one swap changes the live sum by the difference of its contributions |
| Sums.SumCovers | module/keeper/asset.go:92-108 | a live sum of non-negative contributions is at least each of them |
| Blocks.UpdateExpiredExact | module/keeper/swap_trx.go:319-351 | the expiry loop turns exactly the open swaps with expiry at or before now into expired and drops exactly their index keys; each callback finds its swap, and finds it open, in the store the callbacks before it left |
| Blocks.DeleteClosedExact | module/keeper/swap_trx.go:354-365 | the deletion loop removes exactly the completed swaps whose deletion height is reached, from store and index; each callback finds its swap in the store the callbacks before it left |
| Blocks.BeginBlockClosed | module/abci.go:11-21 | the three passes in closed form for every store with own identifiers and exact indexes |
| Blocks.BeginBlockExact | module/abci.go:11-21 | the three passes in closed form, and they keep the invariants |
| Blocks.BeginBlockDone | module/abci.go:11-21 | the block swap by swap and denomination by denomination: only status changes, only due swaps expire, bank untouched |
| Blocks.RollWindowsKeepsInv | module/keeper/asset.go:158-185 | rolling windows and adding missing records keeps the invariants, swaps and bank |
| Blocks.DueScanned | module/keeper/keeper.go:141-157 | the scan up to a time yields exactly the due swaps |
| Blocks.DeletableScanned | module/keeper/keeper.go:181-198 | the scan up to a height yields exactly the deletable swaps |
| Supply.RollAllExact | module/keeper/asset.go:168-183 | the asset loop rolls each window exactly once and touches no other denomination |
| Keys.ScanMembership | module/keeper/keeper.go:181-198 | a scan to the prefix end of a cutoff visits an entry if and only if it is stored and its height is at most the cutoff |
| Keys.ScanCount | module/keeper/keeper.go:181-198 | it visits each of those entries exactly once |
| Keys.ScanOrder | module/keeper/keeper.go:181-198 | it visits them by increasing height and, at one height, by increasing identifier |
| Keys.ScanDistinct | module/keeper/keeper.go:141-198 | under an injective index it yields no identifier twice |
| Invariants.ExactIndexesWellKeyed | module/keeper/keeper.go:125-170 | the indexes of every state that satisfies the invariants have the key layout that count and order rely on |
| Keys.CutoffBound | module/keeper/keeper.go:181-198 | a key lies in the range if and only if its height is at most the cutoff, for every 64-bit cutoff including the largest |
| Keys.ByHeightKeyOrder | module/types/keys.go:42-53 | byte order of keys is the order of heights, then identifiers |
| Keys.ByHeightKeyInjective | module/types/keys.go:42-44 | two keys are equal exactly when height and identifier are |
| Keys.DeletionHeightExact | module/keeper/keeper.go:165-177 | the unsigned deletion height is closed block plus 604800 exactly for closed blocks from -604800 on, so for every block height |
| Keys.WellKeyedInsert | module/keeper/keeper.go:165-170 | insertions keep every key a height followed by its own identifier |
| Bytes.PrefixEndBound | module/keeper/keeper.go:181-198 | keys below the end of a prefix are exactly those below the prefix or starting with it, also for an all-0xff prefix |
| Bytes.BigEndianOrder | module/types/keys.go:51-53 | big-endian encoding of a fixed width carries integer order to byte order |
| Bytes.Sorted | module/keeper/keeper.go:97-109 | the iteration order: every key once, strictly increasing |
| Hashes.CalculateRandomHash | module/types/hash.go:22-27 | the buffer filled in place is that string; for a 32-byte number the result is the hash of the number followed by the eight-byte timestamp |
| Hashes.CopyInto | module/types/hash.go:22-27 | copy into the buffer cuts long numbers and leaves zeros behind short ones |
| Hashes.PutUint64 | module/types/hash.go:22-27 | the last eight bytes become the big-endian timestamp, the number stays |
| Hashes.RandomPreimageLayout | module/types/hash.go:22-27 | the hashed string has 40 bytes: the number's first 32, filled with zeros, then the timestamp as eight big-endian two's-complement bytes |
| Hashes.RandomPreimageInjective | module/types/hash.go:22-27 | preimages agree exactly when fitted numbers and timestamps do |
| Hashes.SwapIDBinding | module/types/hash.go:30-36 | identifiers agree exactly when hash, sender and lower-cased address do, or the two preimages collide |
| Hashes.SwapIDIgnoresCase | module/types/hash.go:30-36 | the letter case of the other-chain address does not enter the identifier |
| Hashes.SwapIDLayout | module/types/hash.go:30-36 | an identifier hashes the random number hash, the sender and the other-chain address, in this order, A to Z replaced by a to z |
| Hashes.ToLowerExact | module/types/hash.go:30-36 | lower-casing identifies exactly the texts that agree letter by letter, and leaves a text without capitals as it is |
| Hashes.SecretCheckExact | module/keeper/swap_trx.go:152-166 | the secret check passes exactly when number and stored timestamp hash to the stored hash, or two explicit preimages collide |
| Hashes.OnlyTheSecretUnlocks | module/keeper/swap_trx.go:152-166 | the committed secret opens the swap and any other number yields an explicit collision |
| Banking.SendOne | module/keeper/swap_trx.go:100-107 | a send succeeds exactly when the sender holds the coin, and moves it and nothing else |
| Banking.MintSendOne | module/keeper/swap_trx.go:180-194 | minting and forwarding cannot fail; the total and the recipient grow by the coin |
| Banking.BurnOne | module/keeper/swap_trx.go:205-208 | a burn succeeds exactly when the holder has the coin; holder and total shrink by it |
| Guards.SendExact | module/keeper/swap_trx.go:191-191 | a send of several coins moves each of them and no other |
| Guards.SubCoinsOk | module/keeper/swap_trx.go:205-205 | coins of different denominations can be taken if and only if each of them is there |
| Genesis.AcceptedGenesisInv | module/genesis.go:11-109 | an accepted genesis satisfies the run invariants if and only if the unchecked conditions hold |
| GenesisFile.AcceptedExact | module/genesis.go:11-109 | import at the start of a chain accepts a file if and only if assets, swaps and records are distinct and fit, every bound, code and length written out, the records match the file's totals and the limits, and every first coin is of an active asset |
| Genesis.GenesisShape | module/genesis.go:22-76 | the state an accepted file builds: its swaps, records and block time, with exact indexes |
| Genesis.LoadedRecords | module/genesis.go:22-27 | in a used store the listed records replace those of their denominations and everything else stays |
| Genesis.ImportSwapsExact | module/genesis.go:31-76 | the import loop accepts exactly the valid swaps of active assets and builds exact indexes; its totals are the sums over all coins of the live swaps in the file, however many coins a swap holds |
| Gaps.UnrecordedSwapAccepted | module/genesis.go:31-108 | import accepts an open incoming swap without a supply record, and the state breaks the invariants |
| Gaps.FirstBlock | module/keeper/asset.go:168-183 | the first block creates that record with an empty counter, below the live sum, and then no number claims the swap |
| Gaps.BorrowedCounter | module/keeper/asset.go:60-108 | with an empty counter the claim fails; after an incoming create of at least the amount it succeeds, and then no number claims the new swap |
| Gaps.UnrecordedRun | module/genesis.go:31-108 | import, first block, create and claim in one run |
| Gaps.UnrecordedSwapExists | module/genesis.go:31-108 | a concrete file with this gap and no other, for every hash: its parties are not the module account and it lists no supplies |
| Genesis.UnusedInv | module/genesis.go:11-29 | a store the module has not written to satisfies the invariants exactly when no escrow balance is negative |
| Genesis.ExportThenImport | module/genesis.go:11-121 | importing an export is accepted exactly when every swap is importable, and then restores swaps, both indexes, supplies, parameters and block time |
| Genesis.BlankSenderBlocksImport | module/types/swap.go:91-94 | the export of any state that stores a swap with a blank sender address, of whatever status, is rejected at any time |
| Genesis.BlankSenderIsStored | module/types/msg.go:81-130 | a create that passes the stateless checks with a blank sender address puts such a swap into the store |
| Genesis.ExportedSwaps | module/keeper/keeper.go:112-118 | the export lists exactly the stored swaps |
| Genesis.ExportedSupplies | module/keeper/keeper.go:238-244 | the export lists exactly the stored supplies |
| Genesis.ExportOrder | module/keeper/keeper.go:97-118 | the export lists swaps by increasing identifier and supplies by increasing denomination |
| Genesis.ValidateBasicSuffices | module/types/msg.go:81-130 | the stateless checks give what the theorems ask of a create message |
| Genesis.ExactIndexesUnique | module/keeper/keeper.go:125-177 | exact indexes are determined by the swaps alone |
| Genesis.GenesisSupplies | module/genesis.go:79-108 | the stored counters satisfy the invariants exactly when the unchecked supply conditions hold |
| SwapKeeper.ValidateParams | module/types/params.go:135-204 | accepts exactly the lists of individually valid assets with pairwise distinct denominations |
| SwapKeeper.ValidateSwaps | module/types/genesis.go:48-59 | accepts exactly valid swaps with pairwise distinct identifiers |
| SwapKeeper.ValidateSupplies | module/types/genesis.go:61-70 | accepts exactly valid supplies with pairwise distinct denominations |
| SwapKeeper.ValidateGenesis | module/types/genesis.go:43-72 | accepts exactly the valid genesis files |
| SwapKeeper.Keeper.constructor | module/keeper/keeper.go:29-44 | attaches to whatever the store holds and is valid when that state is |
| SwapKeeper.Keeper.GetAsset | module/keeper/params.go:25-33 | the loop finds the first asset of the denomination, or none |
| SwapKeeper.Keeper.IncrementCurrentAssetSupply | module/keeper/asset.go:10-39 | applies the specified counter change, or fails with the specified error and writes nothing |
| SwapKeeper.Keeper.DecrementCurrentAssetSupply | module/keeper/asset.go:42-57 | applies the specified counter change, or fails with the specified error and writes nothing |
| SwapKeeper.Keeper.IncrementIncomingAssetSupply | module/keeper/asset.go:60-89 | applies the specified counter change, or fails with the specified error and writes nothing |
| SwapKeeper.Keeper.DecrementIncomingAssetSupply | module/keeper/asset.go:92-108 | applies the specified counter change, or fails with the specified error and writes nothing |
| SwapKeeper.Keeper.IncrementOutgoingAssetSupply | module/keeper/asset.go:111-127 | applies the specified counter change, or fails with the specified error and writes nothing |
| SwapKeeper.Keeper.DecrementOutgoingAssetSupply | module/keeper/asset.go:130-146 | applies the specified counter change, or fails with the specified error and writes nothing |
| SwapKeeper.Keeper.CreateNewAssetSupply | module/keeper/asset.go:149-155 | stores and returns an all-zero record |
| SwapKeeper.Keeper.RollAssetSupply | module/keeper/asset.go:168-183 | one asset: its window grows or closes, no other record changes |
| SwapKeeper.Keeper.UpdateTimeBasedSupplyLimits | module/keeper/asset.go:158-185 | the pass reaches the specified state, first block and empty asset list included |
| SwapKeeper.Keeper.CheckRequest | module/keeper/swap_trx.go:19-69 | the guards of a create: the specified asset and direction or the specified error, nothing written |
| SwapKeeper.Keeper.StoreOpen | module/keeper/swap_trx.go:114-116 | the swap under its identifier and in the expiry index, nothing else |
| SwapKeeper.Keeper.CreateAtomicSwapState | module/keeper/swap_trx.go:16-138 | the specified new state, or the specified error with at most the counters touched |
| SwapKeeper.Keeper.CheckSecret | module/keeper/swap_trx.go:152-166 | recalculates the identifier from the number and compares |
| SwapKeeper.Keeper.PayOutClaim | module/keeper/swap_trx.go:168-211 | the specified counters and bank of a claim, or the specified error |
| SwapKeeper.Keeper.ClaimAtomicSwapState | module/keeper/swap_trx.go:141-239 | the specified new state, or the specified error with at most counters and bank touched |
| SwapKeeper.Keeper.RefundAtomicSwapState | module/keeper/swap_trx.go:242-316 | the specified new state, or the specified error with at most the counters touched |
| SwapKeeper.Keeper.RunTx | module/handler.go:13-29 | dispatches to the handler of the message |
| SwapKeeper.Keeper.DeliverTx | module/handler.go:13-29 | a failed message leaves the store exactly as it was, and the keeper stays valid |
| SwapKeeper.Keeper.ExpireSwap | module/keeper/swap_trx.go:320-334 | the callback of the expiry iterator |
| SwapKeeper.Keeper.UpdateExpiredAtomicSwaps | module/keeper/swap_trx.go:319-351 | deleting from the index while walking it reaches the specified state |
| SwapKeeper.Keeper.DeleteSwap | module/keeper/swap_trx.go:355-364 | the callback of the deletion iterator |
| SwapKeeper.Keeper.DeleteClosedAtomicSwapsFromLongtermStorage | module/keeper/swap_trx.go:354-365 | deleting from the index while walking it reaches the specified state |
| SwapKeeper.Keeper.BeginBlocker | module/abci.go:11-21 | the passes in their order; from a valid keeper the block does exactly what it should and stays valid |
| SwapKeeper.Keeper.ImportGenesis | module/genesis.go:11-109 | import into any store reaches the specified state or fails with the specified error; from an unused store the keeper is valid afterwards exactly when the file leaves no gap |
| SwapKeeper.ImportedValid | module/genesis.go:11-109 | into an unused store both specifications of import agree, and the result is valid exactly when the file leaves no gap |
| SwapKeeper.Keeper.ImportAll | module/genesis.go:31-76 | the loop over the swaps with its running totals |
| SwapKeeper.Keeper.ImportAtomicSwap | module/genesis.go:31-76 | one turn: store, index by status, count when live |
| SwapKeeper.Keeper.SuppliesMatch | module/genesis.go:79-108 | accepts exactly when every stored record matches the totals and the limit |
| SwapKeeper.Keeper.SetSupplies | module/genesis.go:25-27 | the listed records replace those of their denominations, other stored records stay |
| SwapKeeper.Keeper.ExportGenesis | module/genesis.go:112-121 | the snapshot, with the default time when none is stored |
| Varint.SovExact | module/types/swap.pb.go:1367-1369 | the bit-length formula is the exact number of bytes of the encoding |
| Varint.VarintLayout | module/types/swap.pb.go:1141-1151 | the encoding is the value's groups of seven bits, least significant first, the high bit set on all but the last, and no more groups than needed |
| Varint.ReadVarintExact | module/types/swap.pb.go:1378-1392 | on any bytes, over-long encodings included, the loop reads up to the first byte with a clear high bit, if it is among the first ten, and keeps 64 bits of the sum of the groups |
| Varint.VarintAtMostTen | module/types/swap.pb.go:1141-1151 | no 64-bit value takes more than ten bytes |
| Varint.VarintRoundTrip | module/types/swap.pb.go:1378-1392 | decoding undoes encoding for every 64-bit value, whatever follows it |
| Varint.ReadVarintExtends | module/types/swap.pb.go:1378-1392 | bytes behind a complete number do not change what is read |
| Varint.GroupsDisjoint | module/types/swap.pb.go:1378-1392 | the groups do not overlap, so the bitwise or of the loop is an addition |
| Varint.EncodeVarint | module/types/swap.pb.go:1141-1151 | writes exactly the encoding into the bytes that end at the offset, nothing else |
| Varint.DecodeVarint | module/types/swap.pb.go:1378-1392 | the loop reads what the format says, overflow and end of data included |
| Wire.CodecRoundTrip | module/types/swap.pb.go:689-794 | decoding an encoded swap, claim or refund message returns it, for every coin codec that decodes the message's own coins |
| Wire.CodecExists | module/types/swap.pb.go:689-794 | one codec meets that for every message, and encodes all coins of ordinary size within machine lengths |
| WireFormat.SwapBytes | module/types/swap.pb.go:704-794 | the bytes of an encoded swap, with the tag byte of each of its twelve fields, in order, zero values absent |
| WireFormat.ClaimBytes | module/types/swap.pb.go:1044-1071 | the bytes of an encoded claim message, tag by tag |
| WireFormat.RefundBytes | module/types/swap.pb.go:1088-1108 | the bytes of an encoded refund message, tag by tag |
| WireFormat.SwapTextFields | module/types/swap.pb.go:1402-1620 | each text tag sets its own field of a swap, and a coin is appended or spoils the message |
| WireFormat.SwapNumberFields | module/types/swap.pb.go:1470-1712 | each number tag sets its own field from any 64 bits: two's complement, low byte, or non-zero |
| WireFormat.ClaimFields | module/types/swap.pb.go:2523-2760 | each tag of a claim or refund message sets its own field |
| WireFormat.WrongWireType | module/types/swap.pb.go:1401-1405 | a known field with another wire type is refused |
| WireFormat.IllegalTag | module/types/swap.pb.go:1395-1400 | field number zero and a stray end tag are refused |
| WireFormat.TruncatedText | module/types/swap.pb.go:2523-2560 | a text longer than the data, or with a malformed or negative length, is refused |
| Wire.DecodeEncoded | module/types/swap.pb.go:1373-1733 | decoding a sequence of known fields has the effect of those fields in order |
| Wire.UnmarshalConcat | module/types/swap.pb.go:1373-1733 | decoding goes on after a complete prefix from the prefix's result |
| Wire.UnknownFieldIgnored | module/types/swap.pb.go:1713-1725 | a complete unknown field between known ones does not change the decoded message |
| UnknownFields.UnknownFieldExact | module/types/swap.pb.go:2844-2921 | for every field number up to 2^31 - 1 that the message lacks and every wire type, tag and payload are such an unknown field if and only if the grammar derives the payload |
| UnknownFields.SkipsValue | module/types/swap.pb.go:2844-2921 | skipping an encoded value, groups in groups included, passes over exactly its bytes, at every depth and whatever follows |
| UnknownFields.SkippedLevels | module/types/swap.pb.go:2844-2921 | conversely, whatever a skip inside open groups passes over is the encoding of the rest of those groups |
| UnknownFields.GroupExact | module/types/swap.pb.go:2901-2918 | a skip inside one group ends with the data if and only if the data is a list of encoded values followed by an end tag |
| Wire.SkipExtends | module/types/swap.pb.go:2844-2921 | the length of a skipped field does not depend on what follows it, groups included |
| Wire.TokenRoundTrip | module/types/swap.pb.go:2495-2644 | one written field is read back as itself with its exact length |
| WireBuffers.TextSizeExact | module/types/swap.pb.go:1318-1354 | the size of a length-delimited field is the length of its encoding |
| WireBuffers.NumberSizeExact | module/types/swap.pb.go:1152-1203 | the size of a number field is the length of its encoding |
| WireBuffers.CoinTokensEncode | module/types/swap.pb.go:1152-1203 | the size of the coin list is the length of its encoding |
| WireBuffers.WroteTwice | module/types/swap.pb.go:704-794 | writing in front of what was written gives the concatenation and leaves the rest of the buffer |
| WireBuffers.PutText | module/types/swap.pb.go:1044-1071 | payload, length and tag, written back to front, are the encoded field |
| WireBuffers.PutCoin | module/types/swap.pb.go:780-791 | one turn of the backward loop puts one more coin in front |
| WireBuffers.PutCoins | module/types/swap.pb.go:779-792 | the backward loop over the coins writes them in their order |
| WireBuffers.PutHigh | module/types/swap.pb.go:709-747 | fields 12 to 7, absent when zero, are written back to front |
| WireBuffers.PutLow | module/types/swap.pb.go:748-778 | fields 6 to 2, absent when zero, are written back to front |
| WireBuffers.MarshalToSizedBuffer | module/types/swap.pb.go:704-794 | fills exactly the last Size() bytes with the encoding, the bytes before them stay |
| WireBuffers.Marshal | module/types/swap.pb.go:689-698 | a buffer of Size() bytes, filled completely with the encoding |
| WireBuffers.PassValue | module/types/swap.pb.go:2865-2915 | the value behind each wire type, lengths and group ends checked |
| WireBuffers.SkipField | module/types/swap.pb.go:2844-2921 | the loop with a depth counter computes the recursive skip |
| WireBuffers.NextField | module/types/swap.pb.go:2499-2636 | tag, illegal tags, wire-type checks and value of one field |
| WireBuffers.UnmarshalMessage | module/types/swap.pb.go:1373-1733 | terminates on every byte string with the message, or the failure, of the specification |

## Left out

- Command line, REST, gRPC gateway, query endpoints and filters, module wiring and simulation.
- Events, logs, error texts, string and JSON forms.
- Account creation and module account permissions: effects inside the account keeper, which is not part of this model.
- Address text forms: addresses are their 20 bytes. The keeper compares the text of the sender with the stored text of the deputy (module/keeper/swap_trx.go:59-70); a deputy configured in upper-case bech32 passes validation and never equals it, which the model, comparing bytes, does not show.
- The hash algorithm: any function on byte strings.
- `FormatTimeBytes` of the SDK is not part of this model; an order-preserving encoding of fixed width stands in for it, on all 64-bit times. The real one is of fixed width only for years 0 to 9999.
- Parameter changes during a run: the limits and the rate limit are stated for fixed parameters.
- The bank beyond balances and totals: locked coins, blocked addresses and the 256-bit overflow panic of amounts. Transfers by other accounts move one coin each.
- Store iterators are snapshots: the two loops walk the entries present when they start.
- The wall clock of swap validation is one parameter of import.
- Lower-casing and trimming are those of ASCII text.
- Aliasing of Go slices under `append` in the identifier computation; the concatenation is on values.
- Stored values are kept decoded; the codec part is separate.
- Decoder errors are one failure value; an absent and an empty byte field are the same.
- The nested coin encoding is not part of this model: any pair of an encoder and a decoder stands in for it.
- The other generated messages, which have the shape of the three modelled ones.
- Panics of import and of an empty amount are error results.
- Genesis conditions that import does not check stay hypotheses on the start state; `Genesis.AcceptedGenesisInv` shows they are exactly what is missing.
- RateLimit.ReleaseRate: says nothing for a period of zero or less, in which no span fits; `RateLimit.ReleasePerWindow` covers those assets.
- Blocks.DueScanned: expiry keys use the order-preserving stand-in for `FormatTimeBytes`, so the times outside years 0 to 9999, which the real encoding does not order, are ordered here.
- Hashes.SwapIDIgnoresCase: lower-casing covers ASCII letters; the case mapping of other letters is not modelled.
