# A verified model of Martinez's core logic

This project models, in Dafny, the parts of the Martinez Ethereum client in which most of
the reasoning sits, and proves what they keep over every input, every nesting of calls and
every run. `dafny verify dfyconfig.toml` covers all of it.

The model follows the program's structure:

| files | what they model |
|---|---|
| `Wrappers`, `WorldState`, `Undoing`, `ForkChoice`, `Unwinding`, `Blockchain` | the in-memory database with its undo records; inserting a block: ancestor search, unwinding, side-chain execution, adoption or rollback |
| `IntraBlock`, `Journal`, `Operations`, `MutableState` | the state of a block: cached accounts and slots, substate, and the journal that takes changes back |
| `Revisions`, `Evm`, `EvmTheorems`, `Actors`, `Spending`, `Ether`, `Refunds`, `NetMetering`, `HostLaws`, `MutableEvm` | message calls, creations, storage writes and self-destruction, for every tree of nested frames |
| `Processor`, `BlockProcessor`, `Nonces`, `Transfers`, `Rewards`, `TransactionLaws`, `MutableProcessor`, `UndoRecords`, `Recreation`, `Client` | transactions and whole blocks: buying and refunding gas, fees, nonces, rewards, the change set a block writes, and the processor as the execution that fork choice calls |
| `ByteStrings`, `SortedTables`, `Mutation` | the write buffer over a database transaction |
| `Bitmaps`, `Codecs`, `HistoryIndex`, `History` | the sharded history index, the byte encodings of keys and values, and reads as of an earlier block |
| `Sorting`, `Collector` | the external merge sort |
| `TransactionIds` | importing and unwinding block bodies and the transaction ids they own |
| `Rlp`, `BaseFee`, `Difficulty` | one-pass RLP prefixes, the base fee along a chain, and block difficulty |
| `Reactor` | the event loop that holds and reconnects the sentry streams |

Where the program changes things in place the model does too: `Blockchain`,
`InMemoryState`, `IntraBlockState`, `Machine`, `ExecutionProcessor`, `MutationBuffer`,
`Chunks`, `DataProvider`, `Collector`, `BodyTables` and `EventLoop` are classes whose
methods are proved against functions on values, and the theorems are about those functions.

The bytecode interpreter is an arbitrary finite tree. A frame lists the host operations it
asks for, in order, with nested calls and creations holding frames of their own, and ends
with a status, a gas figure and the deployed code. All theorems about frames hold for every
such tree.

## Where the code does less than it seems to promise

Each of these is stated as an equivalence, with the condition a caller could look at:

- **Undo records.** A block's undo record restores the database unless an account that was
  wiped in the block came back and wrote a slot that held a value before
  (`UndoRecords.ExecutedBlockUndoIff`): erasing records the old value and the later update
  overwrites that record with zero. `Recreation.RecreatedContractLosesSlot` is such a block.
  Unwinding several blocks gives the world below them back if and only if, for every account
  and slot, the first of the blocks that mentions it names its value
  (`Undoing.UndoAllIff`, `Unwinding.UnwindPathIff`). Inserting a block therefore asks that what
  this insertion unwinds can be unwound (`Unwinding.Reversible`); for the client that is so
  when none of the stored blocks and not the new one rewrites a wiped slot
  (`Client.ClientIsReversible`).
- **History lookups.** The next change after block b is found unless b is the key of a shard
  before the last (`HistoryIndex.FindNextBlockIff`); then the read as of b gives the current
  value (`History.AccountReadAsOf`, `History.StorageReadAsOf`).
- **External sort.** Everything pushed is yielded unless something was spilled and the buffer
  holds only pairs with an empty key and an empty value (`Collectors.Collector.Iter`).
- **Write buffer.** On a plain table, deleting a pair is lost if the key has no buffered entry
  and the parent holds that very value, and stays lost until the key is written or deleted
  (`Mutation.SimpleRunIff`). `increment_sequence` returns the previous value only if the
  parent's counter is zero (`Mutation.MutationBuffer.IncrementSequence`).
- **Double RLP.** The one-pass writer is right for lengths from 1 to 2^24 - 5
  (`Rlp.WriteDouble`); the announced length of the single writer is wrong for one byte that
  needs a prefix (`Rlp.WriteSingle`).
- **Difficulty.** Past a (delayed) block number of 25,800,000 the bomb is shifted out of 256
  bits and no longer counts (`Difficulty.ComputedIsPublishedIff`).
- **Base fee.** A rise is at most the larger of one and an eighth of the fee unless the parent
  block is full, its gas limit is odd and the fee's share of one unit of gas target carries
  its eighth over (`BaseFee.ChainFeeSteps`, with `BaseFee.Overshoots`);
  `BaseFee.OddLimitRaisesMore` is such a parent.
- **Reconnecting.** If the send and receive streams end without a disconnect error the
  connector stays on hold for ever (`Reactor.StrandedIff`, `Reactor.StrandedForEver`; `Reactor.RunThatStrands` is such a run).

## Model

| member | source | states |
|---|---|---|
| `WorldState.UndoRestoresIff` | src/state/in_memory_state.rs:191-219 | undoing a block's changes gives back the world it started from if and only if the block named the right initial accounts and slots |
| `WorldState.InMemoryState.UnwindStateChanges` | src/state/in_memory_state.rs:191-219 | the database becomes the old one overlaid with the block's undo record, which is removed |
| `WorldState.InMemoryState.WriteToDb` | src/state/intra_block_state.rs:451-480 | wiping, then slots, then accounts: the new world and the new undo record in terms of the old ones |
| `ForkChoice.CanonicalAncestor` | src/consensus/blockchain.rs:244-260 | the ancestor is on the canonical chain and not above the block |
| `ForkChoice.AncestorIsHighest` | src/consensus/blockchain.rs:244-260 | it is the highest canonical block on the new block's ancestry |
| `Undoing.UndoAllIff` | src/state/in_memory_state.rs:191-219 | undoing any number of blocks, newest first, gives back the world before them if and only if, for every account and slot, the first block that mentions it names its value |
| `ForkChoice.UnwindOneIff` | src/consensus/blockchain.rs:193-206 | undoing the last block of a path gives the records of the path below it, and its world if and only if the block named the values it found |
| `Unwinding.UnwindPathIff` | src/consensus/blockchain.rs:193-206 | undoing a path down to a block gives that block's world if and only if every first mention on the path is right |
| `Unwinding.TruthfulIsReversible` | src/consensus/blockchain.rs:53-123 | if the stored blocks and the new one name the values they found, everything an insertion unwinds can be unwound |
| `ForkChoice.EarlyFailureIsFirst` | src/consensus/blockchain.rs:80-96 | a side chain that fails part-way fails as a whole with that first error |
| `ForkChoice.OutcomeTells` | src/consensus/blockchain.rs:125-163 | a block passes if and only if it executes on its parent's world and, where roots are checked, the root of the world reached is the one in its header; otherwise the error is that of the execution, or names the header's root as expected and the computed one as got |
| `ForkChoice.FailureIsFirst` | src/consensus/blockchain.rs:80-96 | the error of a side chain is that of a block on it, the first that fails: all below it execute with the right root |
| `ForkChoice.InsertAcceptsIff` | src/consensus/blockchain.rs:53-123 | a block is accepted if and only if its parent is known, the engine does not object, it is not remembered as bad and every block of its side chain executes and, where roots are checked, reaches the world whose root its header names; it is then stored, and its path becomes canonical if and only if it is strictly heavier |
| `ForkChoice.RejectionTells` | src/consensus/blockchain.rs:53-123 | what a rejection says and leaves: an unknown parent, the engine's objection or the remembered error with nothing changed, or how the first failing block of the side chain fails, which is then remembered for the inserted block |
| `ForkChoice.DifficultyAddsUp` | src/state/in_memory_state.rs:102-144 | total difficulty is the sum of the difficulties along the path from genesis |
| `ForkChoice.InsertKeepsConsistent` | src/consensus/blockchain.rs:53-123 | adopted, kept aside or rejected, every insertion keeps the linked block tree, the gap-free canonical path to a heaviest block and the executability of every stored block; ties keep the incumbent, rejected blocks leave no block behind |
| `ForkChoice.GenesisIsConsistent` | src/consensus/blockchain.rs:20-51 | the invariant holds at genesis |
| `ForkChoice.RunKeepsHeaviestChain` | src/consensus/blockchain.rs:53-123 | over any run of insertions the tip's total difficulty never falls, rises whenever the chain changes, and is maximal among all stored blocks |
| `Blockchains.Blockchain.constructor` | src/consensus/blockchain.rs:33-51 | the database and the index start as those of genesis |
| `Blockchains.Blockchain.UnwindLastChanges` | src/consensus/blockchain.rs:193-206 | the undo records become those of executing the path to the ancestor, and the world does too if and only if every first mention above it is right |
| `Blockchains.Blockchain.ExecuteBlock` | src/consensus/blockchain.rs:125-163 | no error if and only if the block executes and its root is right where roots are checked, otherwise the error that says which; on success the world and records are those of the longer path; after a failure they are the parent's if and only if the block, where it executed, named the values it found |
| `Blockchains.Blockchain.ReExecuteCanonicalChain` | src/consensus/blockchain.rs:165-191 | re-execution never fails and restores the world and records of the canonical tip |
| `Blockchains.Blockchain.IntermediateChain` | src/consensus/blockchain.rs:208-242 | exactly the linked blocks above the ancestor, in order |
| `Blockchains.Blockchain.ExecuteChain` | src/consensus/blockchain.rs:80-96 | executes until the first failure, which is the verdict on the side chain |
| `Blockchains.Blockchain.RollBack` | src/consensus/blockchain.rs:86-93 | after a failed or lighter side chain that can be unwound the database is that of the old tip again |
| `Blockchains.Blockchain.InsertBlock` | src/consensus/blockchain.rs:53-123 | new chain state and result are those of the specification, and the world equals executing the canonical chain in order from genesis with matching undo records, for every insertion whose unwound blocks can be unwound |
| `Journal.RevertRestores` | src/state/intra_block_state.rs:489-495 | reverting to a snapshot gives back the state at the snapshot, up to what has been cached since |
| `Journal.CachesSameReads` | src/state/intra_block_state.rs:386-420 | caching changes no account and no original or current slot value |
| `Journal.AdvancesTwice` | src/state/intra_block_state.rs:482-495 | what two steps in a row did can be reverted by the first step's snapshot |
| `Operations.SetBalanceKeeps` | src/state/intra_block_state.rs:234-276 | one balance changes, no other and no slot, and the journal takes it back |
| `Operations.SetBalanceAccount` | src/state/intra_block_state.rs:234-276 | that balance is all that changes of any account |
| `Operations.SetNonceKeeps` | src/state/intra_block_state.rs:297-307 | one nonce changes, no other account, no balance and no slot, and the journal takes it back |
| `Operations.SetNonceAccount` | src/state/intra_block_state.rs:297-307 | that nonce is all that changes of any account |
| `Operations.SetCodeKeeps` | src/state/intra_block_state.rs:344-359 | balances and slots stay, and the journal takes the new code back |
| `Operations.SetCodeAccount` | src/state/intra_block_state.rs:344-359 | that code hash is all that changes of any account |
| `Operations.CreateContractKeeps` | src/state/intra_block_state.rs:148-188 | the new contract keeps its balance and has empty storage, other balances and slots are untouched, and the journal takes it back |
| `Operations.SetStorageKeeps` | src/state/intra_block_state.rs:431-449 | one current slot value changes, no other slot and no balance, and the journal takes it back |
| `Operations.RevertKeeps` | src/state/intra_block_state.rs:489-495 | a revert is itself a step that enclosing frames can revert |
| `MutableState.IntraBlockState.GetStorage` | src/state/intra_block_state.rs:386-420 | returns the current or original value and caches what it read |
| `MutableState.IntraBlockState.SetStorage` | src/state/intra_block_state.rs:431-449 | the new state of a slot write |
| `MutableState.IntraBlockState.CreateContract` | src/state/intra_block_state.rs:148-188 | the new state of a contract creation |
| `MutableState.IntraBlockState.RevertDelta` | src/state/delta.rs:50-114 | the state with one change taken back |
| `MutableState.IntraBlockState.RevertToSnapshot` | src/state/intra_block_state.rs:489-495 | the journal unrolled to the snapshot, with logs and refund restored |
| `EvmTheorems.FailedCallRestores` | src/execution/evmglue.rs:213-324 | a call that does not succeed, with everything nested in it, leaves balances, storage, code, logs, substate and refund as on entry |
| `EvmTheorems.FailedCreateRestores` | src/execution/evmglue.rs:100-211 | a creation that does not succeed leaves at most the announced nonce and warm address |
| `EvmTheorems.AnnounceChangesOneNonce` | src/execution/evmglue.rs:114-129 | announcing a creation raises one nonce and warms one address and changes nothing else |
| `EvmTheorems.RestoredReadsTheSame` | src/state/intra_block_state.rs:489-495 | a restored state cannot be told apart from the original by any read |
| `EvmTheorems.CallGasBounds` | src/execution/evmglue.rs:213-324 | a call returns between none and all of its gas, and none when it fails other than by revert or lack of balance |
| `EvmTheorems.CreateGasBounds` | src/execution/evmglue.rs:100-211 | the same for creations |
| `EvmTheorems.CreationSucceedsIff` | src/execution/evmglue.rs:100-211 | a creation succeeds if and only if the creator can pay, the address is unused, initialisation succeeds and the code may be deployed and is paid for (waived before Homestead); then the code is set and the deposit charged |
| `EvmTheorems.CreationFailure` | src/execution/evmglue.rs:100-211 | how a creation fails: lack of ether keeps all gas, a used address takes it, a failed initialisation keeps its status and after a revert its gas, and code that may not be deployed takes it |
| `EvmTheorems.FoundAccount` | src/execution/evmglue.rs:152-161 | the initialisation finds its address with the balance there and the endowment, no code, empty storage, and nonce one from Spurious Dragon on |
| `EvmTheorems.CreationMovesEndowment` | src/execution/evmglue.rs:100-211 | a successful creation whose initialisation does nothing moves the endowment and nothing else, and sets the code if its deposit is paid |
| `Actors.CallWrites` | src/execution/evmglue.rs:213-324 | a call changes storage only at the addresses where its frames write: the target of a plain call, and the caller where code is only borrowed |
| `Actors.CreateWrites` | src/execution/evmglue.rs:100-211 | a creation changes storage only at its address and where its frames write |
| `Actors.ActionsWrite` | src/execution/evmglue.rs:326-356 | the same for any list of host operations |
| `Actors.WriteLandsAt` | src/execution/evmglue.rs:213-324 | a successful frame that stores a value leaves it at the target of a plain call, and at the caller when the code was borrowed |
| `Actors.ActionsInParts` | src/execution/evmglue.rs:326-356 | operations take effect in their order: a list is its first part and then the rest from the state reached |
| `Actors.LastWriteStays` | src/execution/evmglue.rs:326-356 | after anything a frame does, nested calls into itself included, the value it stores last in a slot is what the slot holds |
| `Actors.CallSucceedsIff` | src/execution/evmglue.rs:213-324 | a call succeeds if and only if the sender has the value (unless only code is borrowed with the caller's own value) and the precompiled contract is paid and succeeds or the frame does; the gas it gives back in every case, the price of a precompiled contract included; a call that is skipped changes nothing |
| `Actors.CallMovesValue` | src/execution/evmglue.rs:213-324 | a successful call whose frame does nothing moves its value from sender to target if it is a plain, non-static one, and no ether otherwise, and touches the target unless skipped |
| `Spending.CallSpends` | src/execution/evmglue.rs:213-324 | a call takes ether only from its sender, when it carries value, and from the addresses where its frames spend |
| `Spending.CreateSpends` | src/execution/evmglue.rs:100-211 | the same for creations, with the endowment |
| `Spending.ActionsSpend` | src/execution/evmglue.rs:326-356 | the same for any list of host operations |
| `Ether.CallConserves` | src/execution/evmglue.rs:213-324 | a call with all nested frames makes ether fall by exactly what self-destruction burned, with no balance going negative |
| `Ether.CreateConserves` | src/execution/evmglue.rs:100-211 | the same for creations |
| `Ether.ActionsConserve` | src/execution/evmglue.rs:326-356 | the same for any list of host operations |
| `Ether.SelfDestructLoses` | src/execution/evmglue.rs:544-556 | self-destruction moves the balance, or burns it when the beneficiary is the contract itself |
| `Ether.OneBalanceAtMostTotal` | src/state/intra_block_state.rs:247-258 | where no balance is negative none exceeds the total, so none overflows while the total fits |
| `Refunds.SetStorageCovers` | src/execution/evmglue.rs:408-498 | a storage write never takes more from the refund counter than is there, and leaves the counter at least the clearing refund for every cleared slot |
| `Refunds.CallCovers` | src/execution/evmglue.rs:213-324 | through every tree of calls and reverts no storage write takes more from the counter than it holds, and the counter keeps covering the cleared slots |
| `Refunds.CreateCovers` | src/execution/evmglue.rs:100-211 | the same for creations |
| `Refunds.ActionsCover` | src/execution/evmglue.rs:326-356 | the same for any list of host operations |
| `NetMetering.WritesNetOut` | src/execution/evmglue.rs:408-498 | under net metering, gas less refunds over any sequence of writes to a slot depends only on the number of writes and on the original, first and final values |
| `NetMetering.RoundTripsAreFree` | src/execution/evmglue.rs:408-498 | writing a slot any number of times and leaving it as it was costs only the accesses |
| `NetMetering.FrameNetsOut` | src/execution/evmglue.rs:408-498 | in a running frame, the gas charged for any sequence of writes to a slot less the growth of the refund counter is the bare accesses and the step from the first to the final value |
| `HostLaws.StorageSchedule` | src/execution/evmglue.rs:408-498 | which revisions meter net, and what reading, resetting and clearing a slot cost or give back in each |
| `HostLaws.GrossMetering` | src/execution/evmglue.rs:423-434 | without net metering the counter grows by 15000 if and only if a nonzero slot is set to zero and otherwise not at all, and the status follows from the current and the new value |
| `HostLaws.NetRefund` | src/execution/evmglue.rs:436-497 | under net metering the exact change of the counter from the original, current and new value |
| `HostLaws.NetStatus` | src/execution/evmglue.rs:436-497 | under net metering the status from the original, current and new value |
| `HostLaws.Precompiles` | src/execution/evmglue.rs:358-381 | which addresses are precompiled contracts in which revision |
| `HostLaws.SelfDestructMoves` | src/execution/evmglue.rs:544-556 | self-destruction records the contract, gives its whole balance to the beneficiary or burns it when that is the contract itself, and leaves storage and all other balances |
| `HostLaws.LeafActions` | src/execution/evmglue.rs:622-642 | reads change nothing that can be read; a log is appended; warming adds exactly the address (unless precompiled) or slot |
| `HostLaws.OnlyRipemdStaysTouched` | src/state/intra_block_state.rs:278-286 | a touch is taken back by a revert unless the account is the third precompiled contract |
| `MutableEvm.Machine.Call` | src/execution/evmglue.rs:213-324 | snapshotting, transferring, executing at the recipient and reverting on one shared state does what the function on values says |
| `MutableEvm.Machine.Create` | src/execution/evmglue.rs:100-211 | the same for creations |
| `MutableEvm.Machine.DeployCode` | src/execution/evmglue.rs:177-199 | the code deposit is charged, refused or too large, by revision |
| `MutableEvm.Machine.SetStorage` | src/execution/evmglue.rs:408-498 | status and refund of every case, before and with net metering, and the slot written |
| `MutableEvm.Machine.SelfDestruct` | src/execution/evmglue.rs:544-556 | records the contract and moves its balance |
| `Processor.PrepareBuysGas` | src/execution/processor.rs:125-150 | before the message only the sender's balance differs, by the price of all its gas, and storage is untouched |
| `TransactionLaws.AcceptedIff` | src/execution/processor.rs:70-123 | a transaction is accepted if and only if its sender has no code, its nonce is next, the sender can pay for all gas at the highest price and the value, and the block has the gas; otherwise the error is that of the first condition missed |
| `TransactionLaws.PriceIsLower` | src/models/transaction.rs:772-782 | the price per gas is the lower of the highest fee and base fee with highest priority fee, and the miner's share is what exceeds the base fee |
| `TransactionLaws.IntrinsicCharges` | src/chain/intrinsic_gas.rs:4-34 | what an empty transaction costs, and what each byte, listed address and listed slot adds |
| `TransactionLaws.PreparedAccount` | src/execution/processor.rs:125-150 | before the message the sender has paid for all its gas and, if it calls, its nonce is raised; every other account is as it was |
| `TransactionLaws.PreparedSubstate` | src/execution/processor.rs:125-150 | before the message exactly the sender, the recipient and what is listed are warm, nothing is logged or destroyed, and only the sender is touched |
| `Processor.RefundIsCapped` | src/execution/processor.rs:281-301 | at least the non-refundable fraction of the consumed gas is paid for |
| `TransactionLaws.RefundIsLargest` | src/execution/processor.rs:281-293 | the refund is the largest that the counter (with 24000 per destroyed account before London) offers and half, or from London a fifth, of the consumed gas allows |
| `TransactionLaws.TransactionAnswers` | src/execution/processor.rs:125-196 | the gas a transaction is charged is what it consumed less that largest refund, and it is successful if and only if its message was |
| `TransactionLaws.RejectedIff` | src/execution/processor.rs:152-157 | a transaction is rejected while executing if and only if its limit is below its intrinsic gas |
| `TransactionLaws.TransactionLeaves` | src/execution/processor.rs:152-187 | every account and slot after a transaction in terms of the state its message ended in: price of unused gas to the sender, priority fee to the miner, then destroyed and, from Spurious Dragon on, touched empty accounts gone, and current values the next original ones |
| `TransactionLaws.SweepExactly` | src/execution/processor.rs:180-183 | exactly the destroyed and, from Spurious Dragon on, the touched empty accounts are gone, and every other account is as it was |
| `TransactionLaws.CallTransaction` | src/execution/evmglue.rs:64-75 | a transaction with a recipient moves its value from its sender to it |
| `TransactionLaws.CreationMessage` | src/execution/evmglue.rs:76-85 | a transaction without recipient endows the contract it creates with its value |
| `Processor.FeesBalance` | src/execution/processor.rs:170-178 | gas bought, less gas returned and the miner's share, is the base fee on the gas used |
| `Processor.FinalizeKeeps` | src/state/intra_block_state.rs:497-505 | current values become the next transaction's original values and no current value or balance changes |
| `Processor.SweepLoses` | src/execution/processor.rs:180-183 | sweeping destroyed and dead accounts removes exactly the ether the destroyed ones still held |
| `Processor.TransactionGas` | src/execution/processor.rs:125-196 | a transaction uses more than none and at most its limit, at least its intrinsic gas is consumed, and one half (four fifths from London) of what it consumed is paid |
| `Processor.TransactionNeverUnderflows` | src/execution/evmglue.rs:408-498 | no storage write of a transaction, at any depth, underflows the refund counter |
| `Processor.TransactionConserves` | src/execution/processor.rs:93-187 | a validated transaction never overdraws its gas purchase, and ether falls by exactly gas used times base fee plus what was destroyed |
| `BlockProcessor.OneTransaction` | src/execution/processor.rs:110-187 | one applied transaction keeps the running total within the block's gas limit |
| `BlockProcessor.BlockTheorem` | src/execution/processor.rs:198-223 | receipts' cumulative gas strictly increases within the header's limit, and ether falls by the base fees plus what was destroyed |
| `TransactionLaws.OneInBlock` | src/execution/processor.rs:205-209 | a block of one transaction fails with its error, or gives its receipt |
| `TransactionLaws.BlockInParts` | src/execution/processor.rs:205-209 | a block is its first part, and then the rest from the state and gas reached; an error in the first part is its error |
| `Nonces.CallKeepsPlain` | src/execution/evmglue.rs:213-324 | no tree of calls changes the nonce or the code of a used account without code, or destroys it |
| `Nonces.CreateKeepsPlain` | src/execution/evmglue.rs:100-211 | the same for creations, which raise their creator's nonce by one |
| `Nonces.TransactionNonce` | src/execution/processor.rs:125-196 | an applied transaction leaves its sender's nonce one higher and every other used account without code its nonce |
| `Nonces.ReplayIsRejected` | src/execution/processor.rs:70-196 | validating an applied transaction again fails on its nonce, with any header and any gas available |
| `Nonces.BlockNoncesRise` | src/execution/processor.rs:198-223 | in every executed block one sender's transactions carry strictly rising nonces |
| `Transfers.PayDelivers` | src/execution/processor.rs:170-178 | unused gas goes to the sender, the priority fee to the miner, nothing to anyone else |
| `Transfers.PlainTransfer` | src/execution/processor.rs:125-196 | a validated transfer to an account without code succeeds, uses its intrinsic gas and changes exactly the sender's, the recipient's and the miner's balance, by these amounts |
| `Rewards.Finalize` | src/consensus/ethash/mod.rs:100-134 | one reward per ommer by its depth and the miner's with a thirty-second per ommer; their sum |
| `Rewards.RewardValues` | src/consensus/ethash/mod.rs:100-134 | five, three or two ether by revision, and an eighth less per generation for an ommer's miner |
| `Rewards.CreditTotal` | src/execution/processor.rs:211-220 | crediting rewards creates exactly their sum |
| `Rewards.CreditDelivers` | src/execution/processor.rs:211-220 | every address receives exactly what the rewards give to it, and nothing else of any account changes |
| `Rewards.WholeBlock` | src/execution/processor.rs:198-223 | over a whole block ether changes by the rewards, less base fees and what was destroyed |
| `MutableProcessor.ExecutionProcessor.AvailableGas` | src/execution/processor.rs:58-60 | the gas still available is between none and the block's limit |
| `MutableProcessor.ExecutionProcessor.Prepare` | src/execution/processor.rs:125-150 | clearing, warming, buying gas and raising the nonce in place |
| `MutableProcessor.ExecutionProcessor.Sweep` | src/execution/processor.rs:180-183 | removing destroyed and then dead touched accounts, one by one |
| `MutableProcessor.ExecutionProcessor.ExecuteTransaction` | src/execution/processor.rs:125-196 | the in-place transaction does what the function on values says |
| `MutableProcessor.ExecutionProcessor.ExecuteTransactions` | src/execution/processor.rs:205-209 | the loop gives the receipts, state and gas total of the specification, or its first error |
| `MutableProcessor.ExecutionProcessor.ExecuteBlock` | src/execution/processor.rs:198-223 | transactions, then one reward per ommer and the miner's, credited in order |
| `MutableProcessor.DestructSelfdestructs` | src/state/intra_block_state.rs:208-214 | removing accounts one by one is removing the whole set |
| `MutableProcessor.DestructTouchedDead` | src/state/intra_block_state.rs:215-223 | removes exactly the touched accounts that were dead |
| `MutableProcessor.FinishTransaction` | src/state/intra_block_state.rs:497-505 | every written slot's current value becomes its original value |
| `UndoRecords.FaithfulUnlessRewritten` | src/state/intra_block_state.rs:451-480 | the change set names the right initial values if and only if no wiped slot was written again |
| `UndoRecords.WriteShowsState` | src/state/intra_block_state.rs:451-480 | the database then shows every account as the state does, and every slot at the value the next transaction would start with, or as it was unless wiped |
| `UndoRecords.ExecutedBlockUndoIff` | src/state/intra_block_state.rs:451-480 | for every executed block, its undo record restores the database rewards included, if and only if no account wiped in the block wrote a slot that held a value before |
| `UndoRecords.RewrittenSlotIsLost` | src/state/in_memory_state.rs:242-259 | a rewritten slot reads zero after the block is undone |
| `Recreation.Destroys` | src/execution/processor.rs:125-196 | a transaction that makes a contract destroy itself leaves it gone and wiped |
| `Recreation.Recreates` | src/execution/evmglue.rs:100-211 | a transaction whose callee creates the gone contract again with an initialisation that writes an old slot leaves that slot rewritten |
| `Recreation.RecreatedContractLosesSlot` | src/state/in_memory_state.rs:242-259 | a block of two such transactions is executed, and whatever rewards it pays, undoing it loses the slot's old value |
| `Client.JobFaithfulIff` | src/execution/processor.rs:225-279 | an executed block names the values it found if and only if it rewrites no wiped slot |
| `Client.JobShows` | src/execution/processor.rs:225-279 | the database after an executed block holds every account as the transactions left it, with its rewards |
| `Client.ClientUnwindsIff` | src/consensus/blockchain.rs:193-206 | in the client's block tree, undoing an executed block gives its parent's world back if and only if the block rewrites no wiped slot |
| `Client.ClientIsReversible` | src/consensus/blockchain.rs:53-123 | for the client, everything an insertion unwinds can be unwound if no stored block and not the new one rewrites a wiped slot |
| `Mutation.SimpleStepIff` | src/dbutils/mutation.rs:135-228 | on a plain table one operation acts like on the database unless it deletes a pair only the parent holds |
| `Mutation.SimpleRunIff` | src/dbutils/mutation.rs:135-228 | any run of operations on a key ends as without the buffer unless all of them delete pairs and one names the parent's own value |
| `Mutation.DupRunAgrees` | src/dbutils/mutation.rs:135-228 | on tables with several values per key any run of operations ends as without the buffer |
| `Mutation.MutationBuffer.Read` | src/dbutils/mutation.rs:59-103 | the pending or parent value, or the least of (parent less deletions) and insertions |
| `Mutation.LeastVisible` | src/dbutils/mutation.rs:71-97 | the cursor loop finds that least element |
| `Mutation.MutationBuffer.Write` | src/dbutils/mutation.rs:135-160 | exactly one cell changes, by a write |
| `Mutation.MutationBuffer.Delete` | src/dbutils/mutation.rs:162-201 | exactly one cell changes, to empty |
| `Mutation.MutationBuffer.DeleteValue` | src/dbutils/mutation.rs:203-228 | exactly one cell changes, by the deletion of one pair |
| `Mutation.MutationBuffer.Commit` | src/dbutils/mutation.rs:230-275 | every key of every table then holds what the buffer showed, and every counter its buffered value |
| `Mutation.MutationBuffer.ReadThenCommit` | src/dbutils/mutation.rs:59-275 | reading through the buffer equals reading the database after committing |
| `Mutation.MutationBuffer.ReadSequence` | src/dbutils/mutation.rs:105-114 | the counter with what the buffer adds to it, which is what committing writes |
| `Mutation.MutationBuffer.IncrementSequence` | src/dbutils/mutation.rs:277-288 | the counter rises; the returned number is its previous value if and only if the parent's counter is zero |
| `Bitmaps.Chunks.Next` | src/bitmapdb/mod.rs:60-104 | the next piece is a prefix of what is left, and the longest whose every prefix fits, unless all of it fits |
| `Bitmaps.Chunks.All` | src/bitmapdb/mod.rs:60-104 | if singletons fit, splitting ends and gives nonempty pieces within the limit that concatenate to the bitmap |
| `Bitmaps.StuckIff` | src/bitmapdb/mod.rs:80-98 | a piece is empty, and splitting stuck, if and only if the bitmap and its first block alone are over the limit |
| `Bitmaps.WithKeysIsWellKeyed` | src/bitmapdb/mod.rs:122-139 | each piece but the last is keyed by its last element, the last by the largest number |
| `Bitmaps.Split` | src/bitmapdb/mod.rs:106-139 | splitting and keying a bitmap |
| `HistoryIndex.NextInIff` | src/accessors/state.rs:85-112 | looking into the first shard at or above b finds the next change if and only if b is not the key of a shard before the last |
| `HistoryIndex.ShardEndMissesChange` | src/accessors/state.rs:85-112 | two shards for which the lookup misses a change |
| `HistoryIndex.SeekFindsShard` | src/accessors/state.rs:99-110 | the byte-level seek lands on the item's first shard at or above b, or on another item |
| `HistoryIndex.FindNextBlockIff` | src/accessors/state.rs:85-112 | the lookup in the whole table returns the item's next change if and only if b does not end a shard before the last |
| `HistoryIndex.GetRange` | src/bitmapdb/mod.rs:13-53 | exactly the shards that the range touches: only changes of the item and all those in the range |
| `History.SeekFinds` | src/accessors/state.rs:24-28 | a seek by subkey finds it, or a value of another subkey |
| `History.NextChangeTells` | src/accessors/state.rs:16-34 | the next change recorded the value as of b, and with no next change the current value is the value as of b |
| `History.AccountReadAsOf` | src/accessors/state.rs:10-34 | an account read as of b is the account after block b, or the current account if b ends a shard before the last |
| `History.StorageReadAsOf` | src/accessors/state.rs:41-77 | the same for storage |
| `Codecs.U256RoundTrip` | src/kv/tables.rs:398-419 | compact numbers read back |
| `Codecs.CompactIff` | src/kv/tables.rs:398-408 | a byte string is the compact form of its value if and only if it has no leading zero |
| `Codecs.EncodeForStorage` | src/models/account.rs:75-103 | the buffer is flags, nonce, code hash, balance |
| `Codecs.BytesToU64` | src/models/account.rs:47-54 | the big-endian value of at most eight bytes |
| `Codecs.ReadFromStorage` | src/models/account.rs:105-132 | the in-place decoder does what the decoding function says, errors and out-of-bounds reads included |
| `Codecs.AccountRoundTrip` | src/models/account.rs:75-132 | every account reads back |
| `Codecs.DecodedIsEncodedIff` | src/models/account.rs:75-132 | a byte string that decodes to an account is that account's encoding if and only if it is canonical |
| `Codecs.StoredForms` | src/models/account.rs:165-226 | the stored bytes of the sample accounts, with any code hash |
| `Codecs.DecodingFailsIff` | src/models/account.rs:106-132 | decoding reads out of bounds if and only if more than eight nonce bytes are announced or the announced parts are missing, and reports an error if and only if more than 32 bytes are left for the balance |
| `Codecs.LengthsDecide` | src/kv/tables.rs:398-525 | decoding numbers, index keys and changes fails only for impossible lengths |
| `Codecs.AccountChangeRoundTrip` | src/kv/tables.rs:598-631 | account changes read back, absent and present accounts kept apart |
| `Codecs.StorageChangeRoundTrip` | src/kv/tables.rs:668-696 | storage changes read back |
| `Codecs.StorageChangeKeyRoundTrip` | src/kv/tables.rs:633-667 | storage change keys read back |
| `Codecs.BitmapKeyRoundTrip` | src/kv/tables.rs:462-525 | index keys read back |
| `Codecs.AccountKeyOrder` | src/kv/tables.rs:468-491 | encoded account keys sort by address, then block number |
| `Codecs.StorageKeyOrder` | src/kv/tables.rs:493-525 | encoded storage keys sort by address, then location, then block number |
| `Codecs.StorageChangeKeyOrder` | src/kv/tables.rs:633-667 | encoded storage change keys sort by block number, then address |
| `Codecs.ChangeOrder` | src/kv/tables.rs:598-631 | encoded account changes sort by address, whatever they record |
| `Sorting.SortSorts` | src/etl/collector.rs:50-57 | sorting gives the same entries in order |
| `Sorting.OneOrder` | src/etl/collector.rs:50-57 | two ordered sequences of the same entries are equal |
| `Collectors.DataProvider.constructor` | src/etl/data_provider.rs:28-53 | the file holds the entries, length-prefixed |
| `Collectors.DataProvider.ToNext` | src/etl/data_provider.rs:56-78 | entries read back one by one, exactly as written, with no read past the end |
| `Collectors.LeastOnHeap` | src/etl/collector.rs:92-100 | the least entry on the heap, of the first run among equals |
| `Collectors.Merge` | src/etl/collector.rs:86-106 | the merged runs in order, a permutation of all their entries |
| `Collectors.Collector.Push` | src/etl/collector.rs:59-67 | the entry is kept, and spilled with the buffer if and only if the capacity is passed |
| `Collectors.Collector.Flush` | src/etl/collector.rs:50-57 | the buffer becomes one more sorted run |
| `Collectors.Collector.Iter` | src/etl/collector.rs:69-109 | the output is in order and holds everything pushed if and only if no weightless buffer remains after a spill; if no pair with empty key and value was pushed it is the sorted sequence of all pushed pairs |
| `Collectors.SizeInFile` | src/etl/collector.rs:59-67 | the size of a buffer is what its run takes in a file, less the lengths stored with every entry |
| `Collectors.EmptyPairIsForgotten` | src/etl/collector.rs:81-84 | an empty pair pushed after a spill is not yielded |
| `TransactionIds.RangesTile` | bin/martinez.rs:293-303 | bodies own consecutive gap-free id ranges that cover the transaction table |
| `TransactionIds.ReadingGivesBlock` | src/accessors/chain.rs:148-170 | reading a body gives exactly that block's transactions and ommers, and reading anything else nothing |
| `TransactionIds.SkipTo` | bin/martinez.rs:323-332 | the body cursor advances to the header's body, or there is none |
| `TransactionIds.ReadBatch` | bin/martinez.rs:320-371 | a batch is the bodies of consecutive headers; it ends the import only at a header without a body |
| `TransactionIds.BodyTables.Append` | bin/martinez.rs:399-418 | the tables become those of one more block |
| `TransactionIds.BodyTables.Execute` | bin/martinez.rs:261-450 | an import appends bodies of the canonical blocks above the progress, and when done stops only where one is missing; a different header asks for an unwind |
| `TransactionIds.BodyTables.Unwind` | bin/martinez.rs:451-482 | the tables become those of the blocks up to the given one |
| `TransactionIds.BodyTables.RunCommands` | bin/martinez.rs:261-482 | any interleaving of imports and unwinds that does not go below b keeps the tables those of some chain of blocks, unchanged up to b |
| `TransactionIds.BodyTables.RunThenUnwind` | bin/martinez.rs:261-482 | after any such interleaving, unwinding to b brings both tables back to what they were at progress b |
| `Rlp.GenerateByteArrayLenDouble` | src/commitment/rlputil.rs:72-124 | the two headers of Appendix B of the Yellow Paper if and only if the length is below 2^24 - 4, and as many bytes as computed |
| `Rlp.GenerateByteArrayLen` | src/commitment/rlputil.rs:49-70 | the header if and only if the length fits three bytes |
| `Rlp.WriteDouble` | src/commitment/rlputil.rs:148-159 | writes RLP(RLP(x)) if and only if x is nonempty and shorter than 2^24 - 4, and always the announced number of bytes |
| `Rlp.WriteSingle` | src/commitment/rlputil.rs:161-186 | writes RLP(x) if and only if x is nonempty and shorter than 2^24; the announced length is right unless x is one byte that needs a prefix |
| `BaseFee.StepKeepsFloor` | src/consensus/base.rs:153-194 | with a validated parent the target is nonzero, the subtraction does not saturate and the fee stays at least 7; it falls by exactly the eighth of the fee's share of the missing gas, rounded down, and rises by that of the excess gas or by one if that is nothing; the rise exceeds one and an eighth of the fee if and only if the parent overshoots |
| `BaseFee.ChainFeesHealthy` | src/consensus/base.rs:85-92 | every header of a validated chain from the fork block on carries a fee of at least 7, the first one the initial fee |
| `BaseFee.ChainFeeSteps` | src/consensus/base.rs:153-194 | along a validated chain the fee is unchanged at the target, lower by exactly that eighth below it and higher by exactly that eighth, or one, above it, and by more than the larger of one and an eighth of the fee if and only if the parent is full with an odd gas limit and a carrying share |
| `BaseFee.HeaderValidIff` | src/consensus/base.rs:22-95 | a header is valid if and only if it is not from the future, stays within its gas limit, has a limit in range that moved by less than a 1024th, at most 32 extra bytes, a later timestamp than its parent and the expected fee |
| `BaseFee.HeaderErrorTells` | src/consensus/base.rs:22-95 | an invalid header gets the error of the first condition it misses |
| `BaseFee.FeesBegin` | src/consensus/base.rs:153-162 | no fee before the fork, and a thousand million at the fork block |
| `BaseFee.ValidationNeverCrashes` | src/consensus/base.rs:22-95 | extending a validated chain never meets a missing parent fee or a division by zero |
| `BaseFee.OddLimitRaisesMore` | src/consensus/base.rs:171-180 | a parent that overshoots |
| `Difficulty.DifficultyBomb` | src/chain/difficulty.rs:7-17 | the bomb in 256 bits, then the floor |
| `Difficulty.TakeThenAdd` | src/chain/difficulty.rs:46-52 | taking 99 parts off and adding back is the clamped multiple, never below zero on the way |
| `Difficulty.HomesteadDifficulty` | src/chain/difficulty.rs:38-55 | the clamped formula of EIP-2 |
| `Difficulty.ByzantiumDifficulty` | src/chain/difficulty.rs:57-87 | the clamped formula of EIP-100 with the delayed bomb |
| `Difficulty.FrontierDifficulty` | src/chain/difficulty.rs:19-36 | the first formula |
| `Difficulty.CanonicalDifficulty` | src/chain/difficulty.rs:89-141 | the formula and delay of the block's revision |
| `Difficulty.RuleValues` | src/chain/difficulty.rs:89-141 | the formula and the number of blocks by which the bomb is put off, by revision and glacier fork |
| `Difficulty.MultiplierSteps` | src/chain/difficulty.rs:19-87 | how the multiple falls with every interval of ten, or nine, seconds, and what ommers add |
| `Difficulty.BombDoubles` | src/chain/difficulty.rs:7-17 | the bomb starts at block 200,000 and doubles every 100,000 |
| `Difficulty.ComputedIsPublishedIff` | src/chain/difficulty.rs:7-87 | what is computed is the published formula if and only if the bomb fits 256 bits |
| `Difficulty.ChainFloor` | src/chain/difficulty.rs:7-87 | along any chain the difficulty is at least 131072 and falls by at most 99 parts in 2048 |
| `Reactor.NextKeeps` | src/downloader/sentry_client_reactor.rs:326-434 | whatever a poll brings, the invariant on streams, held connector and lock is kept |
| `Reactor.ReachableStatesAreSound` | src/downloader/sentry_client_reactor.rs:303-434 | in every reachable state an active connector excludes the other streams and a held connector, active streams imply a held one, the connector is in one place, the lock belongs to the active send stream, and no "unexpected" branch was taken |
| `Reactor.NextStreams` | src/downloader/sentry_client_reactor.rs:326-434 | exactly which streams are active after an event: an ended one goes, a new sentry replaces the connector by the send and receive streams, a disconnect the other way round |
| `Reactor.NextPhase` | src/downloader/sentry_client_reactor.rs:326-434 | the loop stops if and only if the stop signal comes or no stream is left, and dies if and only if subscribing fails or a message comes for which nobody is registered |
| `Reactor.NextSenders` | src/downloader/sentry_client_reactor.rs:326-434 | the registered receivers are dropped if and only if the receive stream ends or subscribing fails |
| `Reactor.SendTakesLock` | src/downloader/sentry_client_reactor.rs:268-287 | polling the send stream gives it the lock on outgoing messages, which it keeps while active |
| `Reactor.ReconnectKeeps` | src/downloader/sentry_client_reactor.rs:366-378 | after a disconnect exactly the connector, and the stop stream if present, are active |
| `Reactor.StrandedIff` | src/downloader/sentry_client_reactor.rs:326-434 | the loop is left with a held connector and no stream to bring it back if and only if the last of the send and receive streams ends by itself |
| `Reactor.RunThatStrands` | src/downloader/sentry_client_reactor.rs:303-434 | a run from the start that connects and is then left so |
| `Reactor.StrandedForEver` | src/downloader/sentry_client_reactor.rs:326-434 | from then on no event reconnects |
| `Reactor.EventLoop.RunLoop` | src/downloader/sentry_client_reactor.rs:303-434 | the loop does what the state machine says, for every sequence of polls, and meets no fault |

## Left out

- Hashing, signatures, precompiled contracts, the interpreter's bytecode and its gas schedule: opaque functions or part of the frame tree; distinct blocks are assumed to have distinct hashes.
- `BLOCKHASH`, the clock and the remaining engine checks of a block enter fork choice as the block's fixed execution function and as the outcome given with the insertion.
- 64- and 256-bit overflow, except where a contract says so: balances, nonces, gas, total difficulty and the base fee product are unbounded integers.
- Blockchains.Blockchain.InsertBlock: requires that the block is not already canonical, because the source then computes a negative chain length; requires that the blocks this insertion unwinds can be unwound, which `Unwinding.UnwindPathIff` and `UndoRecords.ExecutedBlockUndoIff` characterise exactly. What a re-execution on a wrongly unwound world gives is not followed further.
- Database failures during an insertion or an import: the source returns without restoring anything.
- WorldState.InMemoryState.WriteToDb: an undo entry exists even for a block that changed nothing, which no later read can tell apart; code bytes are not kept, only their hashes.
- Journal entries: the three deltas that creating a contract pushes together are one delta here, so a snapshot cannot fall between them, as it cannot in the source.
- Reads of balances, nonces and code by the machine do not cache accounts here; `Journal.CachesSameReads` is why that cannot be observed.
- Processor.TransactionConserves: assumes the fee checks made before execution (the fee cap covers the base fee and the tip) and an interpreter that returns no more gas than it was given.
- NetMetering.FrameNetsOut: the surcharge for a cold slot from Berlin on, charged before the write and once per slot, is not part of the gas counted.
- Irregular balance changes at a fork block (the DAO) and the comparison of receipts root and logs bloom.
- Rewards.Finalize: requires ommers at most eight generations back, which ommer validation ensures; ommer validation itself is not modelled.
- The interleaving of concurrent access to the write buffer: its locks are taken and released within one call.
- Bitmaps.Chunks.Next: the size of a bitmap is a function of its contents, so the source's fallback for a bitmap whose parts all fit although the whole does not cannot arise.
- Codecs: roaring bitmap serialisation, the vector-of-addresses codec and the stage, call-trace and header keys.
- Collectors.Collector.Iter: consumes the collector; pushing to it again afterwards is not modelled, nor are file system errors.
- TransactionIds.BodyTables.Execute: decoding and re-encoding transactions is the identity, the time limit is a number of batches, and the canonical headers have no gaps.
- Rlp: list headers, and the trie commitment that would use the writers.
- Difficulty: the second implementation in `src/consensus/ethash/difficulty.rs`.
- Reactor: what is sent and received; the order in which streams are polled is arbitrary.
- The staged sync, networking, RPC, remote database, tries, genesis construction and command line.
