// The processor of one block, changing one shared state transaction by transaction.
module MutableProcessor {
  import opened Revisions
  import opened Wrappers
  import opened WorldState
  import opened IntraBlock
  import opened Journal
  import opened Evm
  import opened Ether
  import opened Refunds
  import opened Processor
  import opened BlockProcessor
  import opened Rewards
  import opened MutableState
  import opened MutableEvm
  import V = IntraBlock
  import P = Processor

  // ----- The end of a transaction -----

  lemma SameMap<K(!new), V>(m: map<K, V>, n: map<K, V>)
    requires forall k :: Get(m, k) == Get(n, k)
    ensures m == n
  {
    assert forall k :: k in m <==> Get(m, k).Some?;
    assert forall k :: k in n <==> Get(n, k).Some?;
    forall k | k in m ensures k in n && m[k] == n[k] {
      assert Get(m, k) == Get(n, k);
    }
    forall k | k in n ensures k in m {
      assert Get(m, k) == Get(n, k);
    }
  }

  function Dead(o: Option<Object>): (r: Option<Object>) {
    if o.Some? then Some(o.value.(current := None)) else None
  }

  /** What removing accounts does to one of them. */
  lemma DestructAt(db: World, s: State, gone: set<Address>, b: Address)
    ensures var t := P.Destruct(db, s, gone);
            && Get(t.objects, b) == (if b in gone then Dead(Load(db, s, b)) else Get(s.objects, b))
            && Get(t.incarnations, b) == (if b in gone then Some(IncarnationOf(s, b) + 1) else Get(s.incarnations, b))
  {
  }

  lemma DestructFrame(db: World, s: State, gone: set<Address>)
    ensures var t := P.Destruct(db, s, gone);
            t == s.(objects := t.objects, incarnations := t.incarnations, storage := s.storage - gone)
  {
  }

  lemma DestructOneMoreAt(db: World, s: State, gone: set<Address>, a: Address, b: Address)
    requires a !in gone
    ensures var u, w := P.Destruct(db, P.Destruct(db, s, gone), {a}), P.Destruct(db, s, gone + {a});
            Get(u.objects, b) == Get(w.objects, b) && Get(u.incarnations, b) == Get(w.incarnations, b)
  {
    hide P.Destruct;
    DestructAt(db, s, gone, b);
    DestructAt(db, P.Destruct(db, s, gone), {a}, b);
    DestructAt(db, s, gone + {a}, b);
  }

  /** Removing one more account. */
  lemma DestructOneMore(db: World, s: State, gone: set<Address>, a: Address)
    requires a !in gone
    ensures P.Destruct(db, P.Destruct(db, s, gone), {a}) == P.Destruct(db, s, gone + {a})
  {
    hide P.Destruct, Get;
    var t := P.Destruct(db, s, gone);
    var u := P.Destruct(db, t, {a});
    var w := P.Destruct(db, s, gone + {a});
    DestructFrame(db, s, gone);
    DestructFrame(db, t, {a});
    DestructFrame(db, s, gone + {a});
    forall b: Address
      ensures Get(u.objects, b) == Get(w.objects, b) && Get(u.incarnations, b) == Get(w.incarnations, b)
    {
      DestructOneMoreAt(db, s, gone, a, b);
    }
    SameMap(u.objects, w.objects);
    SameMap(u.incarnations, w.incarnations);
    assert u.storage == w.storage;
  }

  lemma DestructNone(db: World, s: State)
    ensures P.Destruct(db, s, {}) == s
  {
    var t := P.Destruct(db, s, {});
    assert t.objects == s.objects && t.storage == s.storage && t.incarnations == s.incarnations;
  }

  /** Removing one account, field by field. */
  lemma DestructOne(db: World, s: State, a: Address)
    ensures P.Destruct(db, s, {a}) == s.(
      objects := Put(s.objects, a, Dead(Load(db, s, a))),
      storage := s.storage - {a},
      incarnations := s.incarnations[a := IncarnationOf(s, a) + 1])
  {
    var t := P.Destruct(db, s, {a});
    var objects := Put(s.objects, a, Dead(Load(db, s, a)));
    var incarnations := s.incarnations[a := IncarnationOf(s, a) + 1];
    assert t == s.(objects := t.objects, incarnations := t.incarnations, storage := s.storage - {a});
    hide P.Destruct;
    forall b: Address ensures Get(t.objects, b) == Get(objects, b) && Get(t.incarnations, b) == Get(incarnations, b) {
      DestructAt(db, s, {a}, b);
    }
    SameMap(t.objects, objects);
    SameMap(t.incarnations, incarnations);
  }

  method Destruct(state: IntraBlockState, a: Address)
    modifies state
    ensures state.Value() == P.Destruct(state.db, old(state.Value()), {a})
  {
    hide P.Destruct;
    DestructOne(state.db, state.Value(), a);
    state.incarnations := state.incarnations[a := (if a in state.incarnations then state.incarnations[a] else 0) + 1];
    state.storage := state.storage - {a};
    var o := state.GetObject(a);
    if o.Some? {
      state.objects := state.objects[a := o.value.(current := None)];
    }
  }

  method DestructSelfdestructs(state: IntraBlockState)
    modifies state
    ensures state.Value() == P.Destruct(state.db, old(state.Value()), old(state.selfDestructs))
  {
    hide P.Destruct;
    var pending := state.selfDestructs;
    ghost var done := {};
    DestructNone(state.db, state.Value());
    while pending != {}
      invariant done !! pending && done + pending == old(state.selfDestructs)
      invariant state.Value() == P.Destruct(state.db, old(state.Value()), done)
      decreases |pending|
    {
      var a :| a in pending;
      DestructOneMore(state.db, old(state.Value()), done, a);
      Destruct(state, a);
      pending, done := pending - {a}, done + {a};
    }
    assert done == old(state.selfDestructs);
  }

  /** An account's liveness does not depend on others having been removed. */
  lemma StillDead(db: World, s: State, gone: set<Address>, a: Address)
    requires a !in gone
    ensures IsDead(db, P.Destruct(db, s, gone), a) == IsDead(db, s, a)
  {
    assert Load(db, P.Destruct(db, s, gone), a) == Load(db, s, a);
  }

  method DestructTouchedDead(state: IntraBlockState)
    modifies state
    ensures var s := old(state.Value());
            state.Value() == P.Destruct(state.db, s, set a | a in s.touched && IsDead(state.db, s, a))
  {
    hide P.Destruct, IsDead;
    ghost var s := state.Value();
    var pending := state.touched;
    ghost var done := {};
    DestructNone(state.db, s);
    while pending != {}
      invariant pending <= s.touched && done !! pending
      invariant forall a :: a in done <==> a in s.touched - pending && IsDead(state.db, s, a)
      invariant state.Value() == P.Destruct(state.db, s, done)
      decreases |pending|
    {
      var a :| a in pending;
      StillDead(state.db, s, done, a);
      if IsDead(state.db, state.Value(), a) {
        DestructOneMore(state.db, s, done, a);
        Destruct(state, a);
        done := done + {a};
      }
      pending := pending - {a};
    }
    assert done == set a | a in s.touched && IsDead(state.db, s, a);
  }

  function FinalizedAt(sto: Storage, k: nat): (r: Option<Committed>) {
    if k in sto.current then Some(Committed(if k in sto.committed then sto.committed[k].initial else 0, sto.current[k]))
    else Get(sto.committed, k)
  }

  lemma FinalizedSlot(sto: Storage, k: nat)
    ensures Get(Finalized(sto).committed, k) == FinalizedAt(sto, k)
  {
  }

  /** One account's slots: current values become original. */
  method FinalizeStorage(sto: Storage) returns (r: Storage)
    ensures r == Finalized(sto)
  {
    hide Finalized;
    var committed := sto.committed;
    var pending := sto.current.Keys;
    while pending != {}
      invariant pending <= sto.current.Keys
      invariant forall k :: Get(committed, k) == (if k in pending then Get(sto.committed, k) else FinalizedAt(sto, k))
      decreases |pending|
    {
      var k :| k in pending;
      assert Get(committed, k) == Get(sto.committed, k);
      var initial := if k in committed then committed[k].initial else 0;
      ghost var before := committed;
      committed := committed[k := Committed(initial, sto.current[k])];
      assert forall j :: j != k ==> Get(committed, j) == Get(before, j);
      pending := pending - {k};
    }
    r := Storage(committed, map[]);
    forall k ensures Get(committed, k) == Get(Finalized(sto).committed, k) {
      FinalizedSlot(sto, k);
    }
    SameMap(committed, Finalized(sto).committed);
    FinalizedIsEmpty(sto);
  }

  lemma FinalizedIsEmpty(sto: Storage)
    ensures Finalized(sto) == Storage(Finalized(sto).committed, map[])
  {
  }

  method FinishTransaction(state: IntraBlockState)
    modifies state
    ensures state.Value() == P.FinalizeTransaction(old(state.Value()))
  {
    hide Finalized;
    var pending := state.storage.Keys;
    ghost var before := state.storage;
    while pending != {}
      invariant pending <= before.Keys && state.storage.Keys == before.Keys
      invariant state.Value() == old(state.Value()).(storage := state.storage)
      invariant forall a | a in before :: state.storage[a] == if a in pending then before[a] else Finalized(before[a])
      decreases |pending|
    {
      var a :| a in pending;
      var sto := FinalizeStorage(state.storage[a]);
      state.storage := state.storage[a := sto];
      pending := pending - {a};
    }
    assert state.storage == P.FinalizeTransaction(old(state.Value())).storage;
  }

  // ----- The beginning of a transaction -----

  method Clear(state: IntraBlockState)
    modifies state
    ensures state.Value() == P.ClearJournalAndSubstate(old(state.Value()))
  {
    state.journal, state.selfDestructs, state.logs, state.touched, state.refund := [], {}, [], {}, 0;
    state.accessedAddresses, state.accessedKeys := {}, {};
  }

  method WarmAll(state: IntraBlockState, items: seq<AccessItem>)
    modifies state
    ensures state.Value() == P.WarmList(old(state.Value()), items)
  {
    hide V.AccessAccount, V.AccessStorage, P.WarmSlots;
    var i := 0;
    assert items[0..] == items;
    while i < |items|
      invariant 0 <= i <= |items| && P.WarmList(state.Value(), items[i..]) == P.WarmList(old(state.Value()), items)
    {
      assert items[i..][0] == items[i] && items[i..][1..] == items[i + 1..];
      var _ := state.AccessAccount(items[i].address);
      WarmAllSlots(state, items[i].address, items[i].slots);
      i := i + 1;
    }
  }

  method WarmAllSlots(state: IntraBlockState, a: Address, slots: seq<nat>)
    modifies state
    ensures state.Value() == P.WarmSlots(old(state.Value()), a, slots)
  {
    hide V.AccessStorage;
    var i := 0;
    assert slots[0..] == slots;
    while i < |slots|
      invariant 0 <= i <= |slots|
        && P.WarmSlots(state.Value(), a, slots[i..]) == P.WarmSlots(old(state.Value()), a, slots)
    {
      assert slots[i..][0] == slots[i] && slots[i..][1..] == slots[i + 1..];
      var _ := state.AccessStorage(a, slots[i]);
      i := i + 1;
    }
  }

  // ----- The processor -----

  class ExecutionProcessor {
    const env: Env
    const header: Header
    const state: IntraBlockState
    const machine: Machine
    var cumulativeGasUsed: int

    constructor (env: Env, header: Header)
      ensures this.env == env && this.header == header && fresh(state)
      ensures state.Value() == INITIAL_STATE && cumulativeGasUsed == 0 && Wired()
    {
      this.env, this.header := env, header;
      var s := new IntraBlockState(env.db);
      var m := new Machine(env, s);
      state, machine := s, m;
      cumulativeGasUsed := 0;
    }

    predicate Wired() {
      state.db == env.db && machine.env == env && machine.state == state
    }

    ghost predicate Valid()
      reads this, state
    {
      Wired() && Settled(env.db, state.Value()) && 0 <= cumulativeGasUsed <= header.gasLimit
    }

    /** The gas the remaining transactions may still use; it never underflows. */
    function AvailableGas(): (g: int)
      requires Valid()
      reads this, state
      ensures 0 <= g <= header.gasLimit
    {
      header.gasLimit - cumulativeGasUsed
    }

    method Prepare(txn: Txn)
      requires Wired() && Prevalidated(header, txn)
      modifies state
      ensures state.Value() == P.Prepare(env.db, old(state.Value()), header, txn)
    {
      hide V.AccessAccount, V.SubtractFromBalance, V.SetNonce, P.WarmList, P.ClearJournalAndSubstate;
      Clear(state);
      var _ := state.AccessAccount(txn.sender);
      state.SubtractFromBalance(txn.sender, txn.gasLimit * EffectivePrice(header, txn));
      if txn.to.Some? {
        var _ := state.AccessAccount(txn.to.value);
        state.SetNonce(txn.sender, txn.nonce + 1);
      }
      WarmAll(state, txn.accessList);
    }

    method RunMessage(txn: Txn, run: Execution, gas: int) returns (out: Output, ghost burned: int)
      requires Wired() && WellFormed(env.db, state.Value())
      modifies state
      ensures Outcome(Progress(state.Value(), burned), out) == old(P.RunMessage(env, state.Value(), txn, run, gas))
    {
      hide WellFormed, CallMessage, CreateMessage;
      match txn.to {
        case Some(to) =>
          out, burned := machine.Call(txn.sender, Message(Call, false, to, txn.value, gas), run.frame, run.precompile);
        case None =>
          out, burned := machine.Create(txn.sender, txn.value, gas, run.address, run.frame);
      }
    }

    method Sweep()
      requires Wired()
      modifies state
      ensures state.Value() == P.Sweep(env, old(state.Value()))
    {
      hide P.Destruct, IsDead;
      DestructSelfdestructs(state);
      if env.rev >= SPURIOUS {
        DestructTouchedDead(state);
      }
    }

    /** Buys the gas, runs the message, refunds, pays the miner, sweeps and finalizes. */
    method ExecuteTransaction(txn: Txn, run: Execution)
      returns (error: Option<TxError>, gasUsed: int, success: bool, ghost burned: int)
      requires Wired() && WellFormed(env.db, state.Value()) && Prevalidated(header, txn) && Metered(env.rev, txn, run)
      modifies state
      ensures match old(P.ExecuteTransaction(env, state.Value(), header, txn, run))
              case Rejected(e) => error == Some(e)
              case Applied(s, gas, ok, b) =>
                error == None && state.Value() == s && gasUsed == gas && success == ok && burned == b
    {
      hide WellFormed, P.Prepare, P.RunMessage, P.Sweep, P.FinalizeTransaction, Loses, RefundCovers, SameStorage,
           BalancesBut,
           Exists, IntrinsicGas, V.AddToBalance, Held, RefundedGas;
      PrepareBuysGas(env.db, state.Value(), header, txn);
      Prepare(txn);
      ghost var prepared := state.Value();
      var g0 := IntrinsicGas(env.rev, txn);
      gasUsed, success, burned := 0, false, 0;
      if txn.gasLimit < g0 {
        return Some(IntrinsicGasTooLow), 0, false, 0;
      }
      MessageFacts(env, state.Value(), txn, run, txn.gasLimit - g0);
      var out;
      out, burned := RunMessage(txn, run, txn.gasLimit - g0);
      var gasLeft := out.gasLeft + RefundedGas(env.rev, state.Value(), txn.gasLimit, out.gasLeft);
      state.AddToBalance(txn.sender, gasLeft * EffectivePrice(header, txn));
      gasUsed := txn.gasLimit - gasLeft;
      state.AddToBalance(header.beneficiary, gasUsed * PriorityFee(header, txn));
      burned := burned + Held(env.db, state.Value(), state.selfDestructs);
      Sweep();
      FinishTransaction(state);
      error, success := None, out.status == Success;
    }

    method ProcessTransaction(
      txn: Txn, run: Execution) returns (error: Option<TxError>, success: bool, ghost burned: int)
      requires Valid() && Prevalidated(header, txn) && Metered(env.rev, txn, run)
      modifies this, state
      ensures Wired()
      ensures match old(ValidateTransaction(env.db, state.Value(), header, AvailableGas(), txn))
              case Some(e) => error == Some(e)
              case None =>
                match old(P.ExecuteTransaction(env, state.Value(), header, txn, run))
                case Rejected(e) => error == Some(e)
                case Applied(s, gas, ok, b) =>
                  && error == None && success == ok && burned == b && state.Value() == s
                  && cumulativeGasUsed == old(cumulativeGasUsed) + gas && Valid()
    {
      hide WellFormed, NothingPending, P.ExecuteTransaction, P.ValidateTransaction, Total, NonNegative;
      success, burned := false, 0;
      error := ValidateTransaction(env.db, state.Value(), header, AvailableGas(), txn);
      if error.Some? {
        return;
      }
      ghost var before := state.Value();
      var gasUsed;
      error, gasUsed, success, burned := ExecuteTransaction(txn, run);
      if error.None? {
        OneTransaction(env, before, header, cumulativeGasUsed, txn, run);
        cumulativeGasUsed := cumulativeGasUsed + gasUsed;
      }
    }

    /** Executes the transactions in order and stops at the first that is rejected. */
    method ExecuteTransactions(
      txs: seq<Txn>, runs: seq<Execution>) returns (error: Option<TxError>, receipts: seq<Receipt>)
      requires Valid() && Admissible(env.rev, header, txs, runs)
      modifies this, state
      ensures match old(RunTransactions(env, state.Value(), header, cumulativeGasUsed, txs, runs))
              case BlockFailed(e) => error == Some(e)
              case BlockDone(s, rs, _) =>
                && error == None && receipts == rs && state.Value() == s
                && cumulativeGasUsed == LastGas(old(cumulativeGasUsed), rs) && Valid()
      ensures Wired()
    {
      hide WellFormed, NothingPending, P.ExecuteTransaction, P.ValidateTransaction, Total, NonNegative, Prevalidated,
           Metered;
      ghost var whole := RunTransactions(env, state.Value(), header, cumulativeGasUsed, txs, runs);
      receipts := [];
      var i := 0;
      ghost var burned := 0;
      while i < |txs|
        invariant 0 <= i <= |txs| && |receipts| == i && Valid()
        invariant cumulativeGasUsed == LastGas(old(cumulativeGasUsed), receipts)
        invariant whole == Prefixed(receipts, burned,
                                    RunTransactions(env, state.Value(), header, cumulativeGasUsed, txs[i..], runs[i..]))
      {
        assert txs[i..][0] == txs[i] && runs[i..][0] == runs[i];
        assert txs[i..][1..] == txs[i + 1..] && runs[i..][1..] == runs[i + 1..];
        var success;
        ghost var b;
        error, success, b := ProcessTransaction(txs[i], runs[i]);
        if error.Some? {
          return;
        }
        Append(receipts, burned, Receipt(success, cumulativeGasUsed), b,
               RunTransactions(env, state.Value(), header, cumulativeGasUsed, txs[i + 1..], runs[i + 1..]));
        receipts := receipts + [Receipt(success, cumulativeGasUsed)];
        burned := burned + b;
        i := i + 1;
      }
      error := None;
    }

    /** Credits the rewards one by one. */
    method CreditAll(rewards: seq<Reward>)
      requires Wired()
      modifies state
      ensures state.Value() == Credit(env.db, old(state.Value()), rewards)
    {
      hide V.AddToBalance;
      var i := 0;
      while i < |rewards|
        invariant 0 <= i <= |rewards| && state.Value() == Credit(env.db, old(state.Value()), rewards[..i])
      {
        assert rewards[..i + 1][..i] == rewards[..i];
        state.AddToBalance(rewards[i].address, rewards[i].amount);
        i := i + 1;
      }
      assert rewards[..i] == rewards;
    }

    /** Executes the transactions, then credits the ommers' miners and the miner. */
    method ExecuteBlock(txs: seq<Txn>, runs: seq<Execution>, number: nat, ommers: seq<Ommer>)
      returns (error: Option<TxError>, receipts: seq<Receipt>, rewards: seq<Reward>)
      requires Valid() && Admissible(env.rev, header, txs, runs) && Recent(number, ommers)
      modifies this, state
      ensures match old(RunTransactions(env, state.Value(), header, cumulativeGasUsed, txs, runs))
              case BlockFailed(e) => error == Some(e)
              case BlockDone(s, rs, _) =>
                && error == None && receipts == rs && state.Value() == Credit(env.db, s, rewards)
                && cumulativeGasUsed == LastGas(old(cumulativeGasUsed), rs)
                && AreRewards(env.rev, number, header.beneficiary, ommers, rewards)
    {
      hide *;
      rewards := [];
      error, receipts := ExecuteTransactions(txs, runs);
      if error.None? {
        rewards := Finalize(env.rev, number, header.beneficiary, ommers);
        CreditAll(rewards);
      }
    }
  }
}
