// Block rewards, and the ether of a whole block.
module Rewards {
  import opened Revisions
  import opened WorldState
  import opened IntraBlock
  import opened Operations
  import opened Evm
  import opened Ether
  import opened Processor
  import opened BlockProcessor

  const ETHER: nat := 1_000_000_000_000_000_000

  datatype Ommer = Ommer(number: nat, beneficiary: Address)
  datatype Reward = Reward(address: Address, amount: nat)

  function BlockReward(rev: Revision): (r: nat) {
    if rev >= CONSTANTINOPLE then 2 * ETHER else if rev >= BYZANTIUM then 3 * ETHER else 5 * ETHER
  }

  function OmmerReward(rev: Revision, number: nat, ommer: Ommer): (r: nat)
    requires number <= 8 + ommer.number
  {
    (8 + ommer.number - number) * BlockReward(rev) / 8
  }

  /** No ommer is more than eight generations back. */
  ghost predicate Recent(number: nat, ommers: seq<Ommer>) {
    forall i | 0 <= i < |ommers| :: number <= 8 + ommers[i].number
  }

  function Sum(rewards: seq<Reward>): (n: nat) {
    if rewards == [] then 0 else Sum(rewards[..|rewards| - 1]) + rewards[|rewards| - 1].amount
  }

  lemma SumSnoc(rewards: seq<Reward>, r: Reward)
    ensures Sum(rewards + [r]) == Sum(rewards) + r.amount
  {
    assert (rewards + [r])[..|rewards|] == rewards;
  }

  /** What the ommers' miners receive together. */
  ghost function OmmersSum(rev: Revision, number: nat, ommers: seq<Ommer>): nat
    requires Recent(number, ommers)
  {
    if ommers == [] then 0
    else OmmersSum(rev, number, ommers[..|ommers| - 1]) + OmmerReward(rev, number, ommers[|ommers| - 1])
  }

  /** One reward per ommer, then the miner's: the block reward and a thirty-second of it for
      every ommer included. */
  ghost predicate AreRewards(
    rev: Revision, number: nat, beneficiary: Address, ommers: seq<Ommer>, rewards: seq<Reward>)
  {
    && Recent(number, ommers) && |rewards| == |ommers| + 1
    && (forall i | 0 <= i < |ommers| ::
          rewards[i] == Reward(ommers[i].beneficiary, OmmerReward(rev, number, ommers[i])))
    && rewards[|ommers|] == Reward(beneficiary, BlockReward(rev) + |ommers| * (BlockReward(rev) / 32))
  }

  method Finalize(rev: Revision, number: nat, beneficiary: Address, ommers: seq<Ommer>) returns (changes: seq<Reward>)
    requires Recent(number, ommers)
    ensures AreRewards(rev, number, beneficiary, ommers, changes)
    ensures Sum(changes) == OmmersSum(rev, number, ommers) + BlockReward(rev) + |ommers| * (BlockReward(rev) / 32)
  {
    hide OmmerReward, BlockReward;
    changes := [];
    var minerReward := BlockReward(rev);
    var i := 0;
    while i < |ommers|
      invariant 0 <= i <= |ommers| && |changes| == i
      invariant forall k | 0 <= k < i ::
        changes[k] == Reward(ommers[k].beneficiary, OmmerReward(rev, number, ommers[k]))
      invariant Sum(changes) == OmmersSum(rev, number, ommers[..i])
      invariant minerReward == BlockReward(rev) + i * (BlockReward(rev) / 32)
    {
      assert ommers[..i + 1][..i] == ommers[..i];
      var next := Reward(ommers[i].beneficiary, OmmerReward(rev, number, ommers[i]));
      SumSnoc(changes, next);
      changes := changes + [next];
      minerReward := minerReward + BlockReward(rev) / 32;
      i := i + 1;
    }
    assert ommers[..i] == ommers;
    SumSnoc(changes, Reward(beneficiary, minerReward));
    changes := changes + [Reward(beneficiary, minerReward)];
  }

  function Credit(db: World, st: State, rewards: seq<Reward>): (r: State) {
    if rewards == [] then st
    else
      var n := |rewards| - 1;
      AddToBalance(db, Credit(db, st, rewards[..n]), rewards[n].address, rewards[n].amount)
  }

  /** Crediting rewards creates exactly their sum. */
  lemma {:induction false} CreditTotal(db: World, st: State, rewards: seq<Reward>)
    requires WellFormed(db, st)
    ensures var t := Credit(db, st, rewards);
            && WellFormed(db, t)
            && Total(db, t) == Total(db, st) + Sum(rewards)
            && (NonNegative(db, st) ==> NonNegative(db, t))
  {
    hide WellFormed, SetBalance, Balance, Total;
    if rewards != [] {
      var n := |rewards| - 1;
      CreditTotal(db, st, rewards[..n]);
      var s := Credit(db, st, rewards[..n]);
      SetBalanceTotal(db, s, rewards[n].address, Balance(db, s, rewards[n].address) + rewards[n].amount);
    }
  }

  /** Over a whole block ether changes by the rewards, less the base fees of the gas used and
      what was destroyed. */
  lemma WholeBlock(env: Env, st: State, h: Header, txs: seq<Txn>, runs: seq<Execution>, rewards: seq<Reward>)
    requires Settled(env.db, st) && Admissible(env.rev, h, txs, runs)
    requires h.gasLimit >= 0 && RunTransactions(env, st, h, 0, txs, runs).BlockDone?
    ensures var r := RunTransactions(env, st, h, 0, txs, runs);
            var t := Credit(env.db, r.state, rewards);
            && WellFormed(env.db, t)
            && Total(env.db, t) == Total(env.db, st) + Sum(rewards) - LastGas(0, r.receipts) * BaseFee(h) - r.burned
            && (NonNegative(env.db, st) ==> NonNegative(env.db, t) && r.burned >= 0)
  {
    hide WellFormed, NothingPending, Total, NonNegative, RunTransactions, Credit, Admissible;
    BlockTheorem(env, st, h, 0, txs, runs);
    var r := RunTransactions(env, st, h, 0, txs, runs);
    CreditTotal(env.db, r.state, rewards);
  }

  // ----- What the rewards are and who gets them -----

  /** Five ether at first, three from Byzantium and two from Constantinople on (EIP-649,
      EIP-1234); an ommer's miner gets an eighth of it less for every generation. */
  lemma RewardValues(rev: Revision, number: nat, ommer: Ommer)
    requires number <= 8 + ommer.number
    ensures BlockReward(rev) ==
      if rev >= 5 then 2_000_000_000_000_000_000
      else if rev == 4 then 3_000_000_000_000_000_000
      else 5_000_000_000_000_000_000
    ensures 8 * OmmerReward(rev, number, ommer) == (8 - (number - ommer.number)) * BlockReward(rev)
  {
    assert BlockReward(rev) == 8 * (BlockReward(rev) / 8);
    Eighths(8 + ommer.number - number, BlockReward(rev) / 8);
  }

  lemma Eighths(n: nat, x: nat)
    ensures 8 * (n * (8 * x) / 8) == n * (8 * x)
  {
    assert n * (8 * x) == 8 * (n * x);
  }

  /** What the rewards give to one address. */
  function SumFor(rewards: seq<Reward>, b: Address): (n: nat) {
    if rewards == [] then 0
    else
      var i := |rewards| - 1;
      SumFor(rewards[..i], b) + if rewards[i].address == b then rewards[i].amount else 0
  }

  /** Every address receives exactly what the rewards give to it, and nothing else of any account
      changes. */
  lemma {:induction false} CreditDelivers(db: World, st: State, rewards: seq<Reward>, b: Address)
    ensures var acc := AccountOf(db, st, b);
            AccountOf(db, Credit(db, st, rewards), b) == acc.(balance := acc.balance + SumFor(rewards, b))
  {
    hide SetBalance, AccountOf;
    if rewards != [] {
      var n := |rewards| - 1;
      CreditDelivers(db, st, rewards[..n], b);
      var s := Credit(db, st, rewards[..n]);
      SetBalanceAccount(db, s, rewards[n].address, Balance(db, s, rewards[n].address) + rewards[n].amount, b);
    }
  }
}
