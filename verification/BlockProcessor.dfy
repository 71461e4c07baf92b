// Executing the transactions of a block in order, with the running total of gas.
module BlockProcessor {
  import opened Revisions
  import opened IntraBlock
  import opened Evm
  import opened Ether
  import opened Processor

  datatype Receipt = Receipt(success: bool, cumulativeGasUsed: int)

  datatype BlockResult = BlockFailed(error: TxError) | BlockDone(state: State, receipts: seq<Receipt>, burned: int)

  /** Every transaction passed the checks made before execution, and the interpreter
      returns no more gas than it is given. */
  ghost predicate Admissible(rev: Revision, h: Header, txs: seq<Txn>, runs: seq<Execution>) {
    |txs| == |runs| && forall i | 0 <= i < |txs| :: Prevalidated(h, txs[i]) && Metered(rev, txs[i], runs[i])
  }

  /** The transactions of a block from a given state and running total of gas. */
  ghost function RunTransactions(
    env: Env, st: State, h: Header, used: int, txs: seq<Txn>, runs: seq<Execution>): BlockResult
    requires Settled(env.db, st) && Admissible(env.rev, h, txs, runs)
    decreases |txs|
  {
    hide WellFormed, NothingPending, ExecuteTransaction, ValidateTransaction, Total, NonNegative, Prevalidated, Metered;
    if txs == [] then BlockDone(st, [], 0)
    else
      match ValidateTransaction(env.db, st, h, h.gasLimit - used, txs[0])
      case Some(e) => BlockFailed(e)
      case None =>
        match ExecuteTransaction(env, st, h, txs[0], runs[0])
        case Rejected(e) => BlockFailed(e)
        case Applied(s, gas, ok, burned) =>
          TransactionConserves(env, st, h, h.gasLimit - used, txs[0], runs[0]);
          match RunTransactions(env, s, h, used + gas, txs[1..], runs[1..])
          case BlockFailed(e) => BlockFailed(e)
          case BlockDone(t, receipts, more) => BlockDone(t, [Receipt(ok, used + gas)] + receipts, burned + more)
  }

  ghost function LastGas(used: int, receipts: seq<Receipt>): int {
    if receipts == [] then used else receipts[|receipts| - 1].cumulativeGasUsed
  }

  /** The running total strictly increases and never passes the block's gas limit. */
  ghost predicate Climbs(used: int, limit: int, receipts: seq<Receipt>) {
    && (forall i | 0 <= i < |receipts| :: used < receipts[i].cumulativeGasUsed <= limit)
    && (forall i, j | 0 <= i < j < |receipts| :: receipts[i].cumulativeGasUsed < receipts[j].cumulativeGasUsed)
  }

  /** What one applied transaction contributes. */
  lemma OneTransaction(env: Env, st: State, h: Header, used: int, txn: Txn, run: Execution)
    requires Settled(env.db, st) && Prevalidated(h, txn) && Metered(env.rev, txn, run)
    requires 0 <= used <= h.gasLimit && ValidateTransaction(env.db, st, h, h.gasLimit - used, txn).None?
    requires ExecuteTransaction(env, st, h, txn, run).Applied?
    ensures var r := ExecuteTransaction(env, st, h, txn, run);
            && Settled(env.db, r.state)
            && used < used + r.gasUsed <= h.gasLimit
            && Total(env.db, r.state) == Total(env.db, st) - r.gasUsed * BaseFee(h) - r.burned
            && (NonNegative(env.db, st) ==> NonNegative(env.db, r.state) && r.burned >= 0)
  {
    hide WellFormed, NothingPending, ExecuteTransaction, Total, NonNegative, Balance, Prepare, RunMessage, IntrinsicGas;
    TransactionConserves(env, st, h, h.gasLimit - used, txn, run);
    TransactionGas(env, st, h, txn, run);
  }

  /** In every executed block the gas counter climbs within the limit, so the gas still
      available is never negative, and ether falls by the base fees plus what is destroyed. */
  lemma {:induction false} BlockTheorem(env: Env, st: State, h: Header, used: int, txs: seq<Txn>, runs: seq<Execution>)
    requires Settled(env.db, st) && Admissible(env.rev, h, txs, runs) && 0 <= used <= h.gasLimit
    requires RunTransactions(env, st, h, used, txs, runs).BlockDone?
    ensures var r := RunTransactions(env, st, h, used, txs, runs);
            && Settled(env.db, r.state)
            && |r.receipts| == |txs|
            && Climbs(used, h.gasLimit, r.receipts)
            && used <= LastGas(used, r.receipts) <= h.gasLimit
            && Total(env.db, r.state)
               == Total(env.db, st) - (LastGas(used, r.receipts) - used) * BaseFee(h) - r.burned
            && (NonNegative(env.db, st) ==> NonNegative(env.db, r.state) && r.burned >= 0)
    decreases |txs|
  {
    hide WellFormed, NothingPending, ExecuteTransaction, ValidateTransaction, Total, NonNegative, Prevalidated, Metered;
    if txs != [] {
      OneTransaction(env, st, h, used, txs[0], runs[0]);
      var one := ExecuteTransaction(env, st, h, txs[0], runs[0]);
      BlockTheorem(env, one.state, h, used + one.gasUsed, txs[1..], runs[1..]);
      var rest := RunTransactions(env, one.state, h, used + one.gasUsed, txs[1..], runs[1..]);
      var r := RunTransactions(env, st, h, used, txs, runs);
      assert r.receipts == [Receipt(one.success, used + one.gasUsed)] + rest.receipts;
      assert LastGas(used, r.receipts) == LastGas(used + one.gasUsed, rest.receipts);
      GasAddsUp(LastGas(used, r.receipts) - used - one.gasUsed, one.gasUsed, BaseFee(h));
    }
  }

  lemma GasAddsUp(x: int, y: int, fee: int)
    ensures (x + y) * fee == x * fee + y * fee
  {
  }

  ghost function Prefixed(receipts: seq<Receipt>, burned: int, r: BlockResult): BlockResult {
    match r
    case BlockFailed(e) => r
    case BlockDone(s, rs, b) => BlockDone(s, receipts + rs, burned + b)
  }

  lemma Append(receipts: seq<Receipt>, burned: int, one: Receipt, b: int, rest: BlockResult)
    ensures Prefixed(receipts, burned, Prefixed([one], b, rest)) == Prefixed(receipts + [one], burned + b, rest)
  {
    if rest.BlockDone? {
      assert receipts + ([one] + rest.receipts) == receipts + [one] + rest.receipts;
    }
  }
}
