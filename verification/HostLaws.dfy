// What single host operations do, in the values that the specifications publish.
module HostLaws {
  import opened Revisions
  import opened WorldState
  import opened IntraBlock
  import opened Journal
  import opened Operations
  import opened Evm
  import opened EvmTheorems
  import opened Refunds

  /** Frontier is 0, Constantinople 5, Istanbul 7, Berlin 8, London 9: net metering applied in
      Constantinople and applies again from Istanbul on (EIP-1283, EIP-2200); reading costs
      200, then 800, then 100 once warm (EIP-1884, EIP-2929); clearing a slot gives 15000 back,
      and 4800 from London on (EIP-3529). */
  lemma StorageSchedule(rev: Revision)
    ensures NetMetered(rev) <==> rev == 5 || rev >= 7
    ensures SloadCost(rev) == if rev >= 8 then 100 else if rev == 7 then 800 else 200
    ensures ResetGas(rev) == if rev >= 8 then 2900 else 5000
    ensures ClearsRefund(rev) == if rev >= 9 then 4800 else 15_000
  {
  }

  /** The addresses 1 to 4 are precompiled contracts, 5 to 8 from Byzantium on, 9 from Istanbul. */
  lemma Precompiles(rev: Revision, a: Address)
    ensures IsPrecompiled(rev, a) <==> 1 <= a <= 4 || (5 <= a <= 8 && rev >= 4) || (a == 9 && rev >= 7)
  {
  }

  /** Without net metering a write gives 15000 back exactly when it clears a slot, and its status
      follows from the current and the new value. */
  lemma GrossMetering(env: Env, st: State, a: Address, k: nat, v: nat)
    requires WellFormed(env.db, st) && Exists(env.db, st, a) && !NetMetered(env.rev)
    ensures var current := CurrentStorage(env.db, st, a, k);
            var original := OriginalStorage(env.db, st, a, k);
            && HostSetStorage(env, st, a, k, v).refund - st.refund == (if current != 0 && v == 0 then 15_000 else 0)
            && StatusOf(env.rev, original, current, v) ==
                 (if current == v then Unchanged
                  else if current == 0 then Added
                  else if v == 0 then Deleted
                  else Modified)
  {
    hide WellFormed, HostSetStorage, CurrentStorage, OriginalStorage, Exists;
    SetStorageRefund(env, st, a, k, v);
  }

  /** With net metering the status of a changing write says whether the slot was still at its
      original value, and whether that was zero. */
  lemma NetStatus(rev: Revision, original: nat, current: nat, v: nat)
    requires NetMetered(rev)
    ensures StatusOf(rev, original, current, v) ==
      if current == v then Unchanged
      else if current != original then ModifiedAgain
      else if current == 0 then Added
      else Modified
  {
  }

  /** Under net metering a write to a slot takes back the refund for clearing it when it was
      cleared before, gives it when it is cleared now, and gives back the surcharge of the first
      write when the slot returns to its original value. */
  lemma NetRefund(env: Env, st: State, a: Address, k: nat, v: nat)
    requires WellFormed(env.db, st) && Exists(env.db, st, a) && NetMetered(env.rev)
    ensures var o, c := OriginalStorage(env.db, st, a, k), CurrentStorage(env.db, st, a, k);
            var clear := if env.rev >= 9 then 4800 else 15_000;
            var read := if env.rev >= 8 then 100 else if env.rev == 7 then 800 else 200;
            var reset := if env.rev >= 8 then 2900 else 5000;
            HostSetStorage(env, st, a, k, v).refund - st.refund ==
              When(c != v && o != 0 && v == 0, clear) - When(c != v && o != 0 && c == 0, clear)
              + When(c != v && v == o && o == 0, 20_000 - read) + When(c != v && v == o && o != 0, reset - read)
  {
    hide WellFormed, HostSetStorage, CurrentStorage, OriginalStorage, Exists;
    SetStorageRefund(env, st, a, k, v);
  }

  /** Self-destruction records the contract and gives its whole balance to the beneficiary, or
      burns it when that is the contract itself; storage stays until the transaction ends. */
  lemma SelfDestructMoves(env: Env, st: State, self: Address, beneficiary: Address, b: Address)
    requires WellFormed(env.db, st) && Exists(env.db, st, self)
    ensures var r := RunAction(env, st, self, SelfDestruct(beneficiary));
            var held := Balance(env.db, st, self);
            && SameStorage(env.db, st, r.state)
            && r.state.selfDestructs == st.selfDestructs + {self}
            && Balance(env.db, r.state, b) ==
                 (if b == self then 0 else Balance(env.db, st, b) + When(b == beneficiary, held))
            && r.burned == When(beneficiary == self, held)
  {
    hide WellFormed, Advances, CurrentStorage, OriginalStorage, SetBalance, Balance;
    HostSelfDestructKeeps(env, st, self, beneficiary);
    var s := RecordSelfdestruct(st, self);
    var v := Balance(env.db, s, beneficiary) + Balance(env.db, s, self);
    SetBalanceSubstate(env.db, s, beneficiary, v);
    SetBalanceSubstate(env.db, SetBalance(env.db, s, beneficiary, v), self, 0);
  }

  /** The operations that only look, record or warm. */
  lemma LeafActions(env: Env, st: State, self: Address, a: Address, k: nat, log: nat)
    requires WellFormed(env.db, st) && Exists(env.db, st, self)
    ensures Restored(env.db, st, RunAction(env, st, self, ReadAccount(a)).state)
    ensures Restored(env.db, st, RunAction(env, st, self, SLoad(k)).state)
    ensures RunAction(env, st, self, EmitLog(log)).state == st.(logs := st.logs + [log])
    ensures var t := RunAction(env, st, self, WarmAccount(a)).state;
            && t == st.(accessedAddresses := t.accessedAddresses, journal := t.journal)
            && t.accessedAddresses == st.accessedAddresses + if IsPrecompiled(env.rev, a) then {} else {a}
    ensures var t := RunAction(env, st, self, WarmSlot(a, k)).state;
            && t == st.(accessedKeys := t.accessedKeys, journal := t.journal)
            && t.accessedKeys == st.accessedKeys + {(a, k)}
  {
    hide WellFormed, Caches, GetObject, CacheSlot, Keeps;
    GetObjectCaches(env.db, st, a);
    GetObjectLogs(env.db, st, a);
    CacheSlotCaches(env.db, st, self, k, false);
    CacheSlotLogs(env.db, st, self, k, false);
  }

  /** A touch is taken back with everything else, except that of the third precompiled contract,
      which survives the failure of the frame that touched it. */
  lemma OnlyRipemdStaysTouched(st: State, a: Address)
    requires a !in st.touched
    ensures var t := Touch(st, a);
            && a in t.touched && Revertible(t, TakeSnapshot(st).journalSize)
            && (a in RevertToSnapshot(t, TakeSnapshot(st)).touched <==> a == 3)
  {
    var t := Touch(st, a);
    if a != 3 {
      assert t.journal[|st.journal|] == Touched(a);
      assert Pop(t).touched == t.touched - {a} && |Pop(t).journal| == |st.journal|;
      assert Revertible(Pop(t), |st.journal|) && Unroll(Pop(t), |st.journal|) == Pop(t);
      assert Unroll(t, |st.journal|) == Pop(t);
      assert a !in Pop(t).touched;
    }
  }
}
