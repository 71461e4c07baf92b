// The block processor as the execution that fork choice calls, and what fork choice needs of
// it: no block rewrites a slot of an account wiped in the block.
module Client {
  import opened Revisions
  import opened WorldState
  import opened IntraBlock
  import opened Evm
  import opened Processor
  import opened BlockProcessor
  import opened Rewards
  import opened UndoRecords
  import opened ForkChoice
  import opened Unwinding

  /** What executing a block on a world amounts to: its rules, header, transactions with what
      the interpreter does for each, rewards, and the gas its header declares. */
  datatype Job = Job(
    rev: Revision,
    header: Processor.Header,
    txs: seq<Txn>,
    runs: seq<Processor.Execution>,
    rewards: seq<Reward>,
    gasUsed: int)

  function ErrorOf(e: TxError): (r: ValidationError) {
    match e
    case SenderNoEOA => OtherError(1)
    case WrongNonce => OtherError(2)
    case InsufficientFunds => OtherError(3)
    case BlockGasLimitExceeded => OtherError(4)
    case IntrinsicGasTooLow => OtherError(5)
  }

  const NOT_ADMISSIBLE := OtherError(6)
  const WRONG_BLOCK_GAS := OtherError(7)

  ghost predicate Done(w: World, job: Job) {
    && Admissible(job.rev, job.header, job.txs, job.runs)
    && var r := RunBlock(Env(w, job.rev), job.header, job.txs, job.runs);
       r.BlockDone? && LastGas(0, r.receipts) == job.gasUsed
  }

  ghost function StateOf(w: World, job: Job): State
    requires Done(w, job)
  {
    FinalState(Env(w, job.rev), job.header, job.txs, job.runs, job.rewards)
  }

  /** The transactions, the rewards, the comparison of the gas, and the changes. */
  ghost function ExecuteJob(w: World, job: Job): ForkChoice.Execution {
    if !Admissible(job.rev, job.header, job.txs, job.runs) then Failed(NOT_ADMISSIBLE)
    else
      match RunBlock(Env(w, job.rev), job.header, job.txs, job.runs)
      case BlockFailed(e) => Failed(ErrorOf(e))
      case BlockDone(_, receipts, _) =>
        if LastGas(0, receipts) != job.gasUsed then Failed(WRONG_BLOCK_GAS)
        else Executed(ChangeSetOf(StateOf(w, job)))
  }

  /** The client, given hashing, state roots and what the interpreter will do on each world. */
  ghost function ProtocolOf(
    hash: Block -> Hash, plan: (World, Block) -> Job, stateRoot: World -> Hash, genesis: World): Protocol
  {
    Protocol(hash, (w, b) => ExecuteJob(w, plan(w, b)), stateRoot, genesis)
  }

  /** No account wiped in the block wrote a slot that held a value before it. */
  ghost predicate RewritesNothing(w: World, job: Job)
    requires Done(w, job)
  {
    forall a, k :: !Rewritten(w, StateOf(w, job), a, k)
  }

  /** An executed block names the values it found exactly when it rewrites nothing. */
  lemma JobFaithfulIff(w: World, job: Job)
    ensures ExecuteJob(w, job).Executed? <==> Done(w, job)
    ensures Done(w, job) ==> (Faithful(w, ExecuteJob(w, job).changes) <==> RewritesNothing(w, job))
  {
    hide Faithful, ChangeSetOf, Rewritten, WellFormed, RunBlock, Admissible;
    if Done(w, job) {
      FinalIsWellFormed(Env(w, job.rev), job.header, job.txs, job.runs, job.rewards);
      FaithfulUnlessRewritten(w, StateOf(w, job));
    }
  }

  /** What an executed block leaves in the database: every account as the transactions left it,
      with the rewards that go to it. */
  lemma JobShows(w: World, job: Job, a: Address)
    requires Done(w, job)
    ensures var st := RunBlock(Env(w, job.rev), job.header, job.txs, job.runs).state;
            var acc := AccountOf(w, st, a);
            var next := Commit(w, ExecuteJob(w, job).changes);
            (match Get(next.accounts, a) case Some(x) => x case None => DEFAULT_ACCOUNT) ==
              acc.(balance := acc.balance + SumFor(job.rewards, a))
  {
    hide Faithful, ChangeSetOf, Rewritten, WellFormed, RunBlock, Admissible, Commit, Credit, AccountOf;
    var env := Env(w, job.rev);
    FinalIsWellFormed(env, job.header, job.txs, job.runs, job.rewards);
    WriteShowsState(w, StateOf(w, job), a, 0);
    CreditDelivers(w, RunBlock(env, job.header, job.txs, job.runs).state, job.rewards, a);
    ShownIsAccount(w, StateOf(w, job), a);
  }

  lemma ShownIsAccount(w: World, st: State, a: Address)
    ensures AccountOf(w, st, a) == match Current(w, st, a) case Some(x) => x case None => DEFAULT_ACCOUNT
  {
  }

  /** The job of a stored block on its parent's world. */
  ghost function JobAt(p: Protocol, plan: (World, Block) -> Job, m: Store, n: nat, h: Hash): Job
    requires n > 0 && (n, h) in m
  {
    plan(WorldAt(p, m, n - 1, m[(n, h)].parentHash), m[(n, h)])
  }

  /** In the client's block tree, undoing an executed block gives its parent's world back
      exactly when the block rewrites nothing. */
  lemma ClientUnwindsIff(
    hash: Block -> Hash, plan: (World, Block) -> Job, stateRoot: World -> Hash, genesis: World, m: Store, n: nat,
    h: Hash)
    requires NoZeroSlots(genesis.storage) && ExecutesAt(ProtocolOf(hash, plan, stateRoot, genesis), m, n, h)
    ensures var p := ProtocolOf(hash, plan, stateRoot, genesis);
            var w := WorldAt(p, m, n - 1, m[(n, h)].parentHash);
            && n in RecordsAt(p, m, n, h) && Done(w, JobAt(p, plan, m, n, h))
            && (Restore(WorldAt(p, m, n, h), RecordsAt(p, m, n, h)[n]) == w <==>
               RewritesNothing(w, JobAt(p, plan, m, n, h)))
  {
    hide Faithful, ExecuteJob, Done, RewritesNothing, WorldAt, RecordsAt, Restore;
    var p := ProtocolOf(hash, plan, stateRoot, genesis);
    UnwindOneIff(p, m, n, h);
    JobFaithfulIff(WorldAt(p, m, n - 1, m[(n, h)].parentHash), JobAt(p, plan, m, n, h));
  }

  /** Every stored block that executes rewrites nothing. */
  ghost predicate StoreRewritesNothing(p: Protocol, plan: (World, Block) -> Job, m: Store) {
    forall n: nat, h: Hash {:trigger ExecutesAt(p, m, n, h)} | ExecutesAt(p, m, n, h) ::
      var w := WorldAt(p, m, n - 1, m[(n, h)].parentHash);
      Done(w, JobAt(p, plan, m, n, h)) && RewritesNothing(w, JobAt(p, plan, m, n, h))
  }

  lemma StoreIsTruthful(
    hash: Block -> Hash, plan: (World, Block) -> Job, stateRoot: World -> Hash, genesis: World, m: Store)
    requires StoreRewritesNothing(ProtocolOf(hash, plan, stateRoot, genesis), plan, m)
    ensures Truthful(ProtocolOf(hash, plan, stateRoot, genesis), m)
  {
    hide Faithful, ExecuteJob, Done, RewritesNothing, WorldAt;
    var p := ProtocolOf(hash, plan, stateRoot, genesis);
    forall n: nat, h: Hash | (n, h) in m ensures FaithfulIfExecuted(p, m, n, h) {
      if ExecutesAt(p, m, n, h) {
        JobFaithfulIff(WorldAt(p, m, n - 1, m[(n, h)].parentHash), JobAt(p, plan, m, n, h));
      }
    }
  }

  /** For the client, a block can be inserted, whatever it makes fork choice unwind, as long as
      no stored block and not the new one rewrites a wiped slot. */
  lemma ClientIsReversible(
    hash: Block -> Hash, plan: (World, Block) -> Job, stateRoot: World -> Hash, genesis: World, s: ChainState, b: Block,
    checkRoot: bool)
    requires CollisionFree(ProtocolOf(hash, plan, stateRoot, genesis))
    requires Consistent(ProtocolOf(hash, plan, stateRoot, genesis), s)
    requires b.number > 0 && (b.number - 1, b.parentHash) in s.blocks
    requires StoreRewritesNothing(
               ProtocolOf(hash, plan, stateRoot, genesis), plan,
               Extended(ProtocolOf(hash, plan, stateRoot, genesis), s, b))
    ensures Reversible(ProtocolOf(hash, plan, stateRoot, genesis), s, b, checkRoot)
  {
    hide Consistent, CollisionFree, StoreRewritesNothing, Truthful, Reversible;
    var p := ProtocolOf(hash, plan, stateRoot, genesis);
    StoreIsTruthful(hash, plan, stateRoot, genesis, Extended(p, s, b));
    TruthfulIsReversible(p, s, b, checkRoot);
  }
}
