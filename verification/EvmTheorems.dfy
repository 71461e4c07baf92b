// What holds of every tree of nested calls, creations, reverts and self-destructions.
module EvmTheorems {
  import opened Revisions
  import opened WorldState
  import opened IntraBlock
  import opened Journal
  import opened Operations
  import opened Evm

  // ----- Failed frames leave no trace -----

  /** r is s: accounts, storage, substate, logs and refund, up to what is cached. */
  ghost predicate Restored(db: World, s: State, r: State) {
    Caches(db, s, r) && r.logs == s.logs && r.refund == s.refund
  }

  /** Restored states cannot be told apart by any read. */
  lemma RestoredReadsTheSame(db: World, s: State, r: State)
    requires Restored(db, s, r)
    ensures forall a :: Current(db, r, a) == Current(db, s, a)
    ensures forall a, k :: OriginalStorage(db, r, a, k) == OriginalStorage(db, s, a, k)
    ensures forall a, k :: CurrentStorage(db, r, a, k) == CurrentStorage(db, s, a, k)
    ensures r.selfDestructs == s.selfDestructs && r.accessedAddresses == s.accessedAddresses
    ensures r.accessedKeys == s.accessedKeys && r.touched - {RIPEMD} == s.touched - {RIPEMD}
  {
    CachesSameReads(db, s, r);
  }

  lemma FinishRestores(db: World, s: State, reached: Progress, out: Output)
    requires WellFormed(db, s) && Keeps(db, s, reached.state) && out.status != Success
    ensures Restored(db, s, Finish(db, s, reached, out).progress.state)
    ensures Finish(db, s, reached, out).progress.burned == 0
  {
    hide WellFormed, Caches;
    RevertKeeps(db, s, reached.state);
  }

  /** A message call that does not succeed leaves everything as it was on entry. */
  lemma FailedCallRestores(env: Env, st: State, sender: Address, msg: Message, frame: Frame, pre: Precompile)
    requires WellFormed(env.db, st)
    requires !msg.kind.Call? ==> Exists(env.db, st, sender)
    requires CallMessage(env, st, sender, msg, frame, pre).output.status != Success
    ensures Restored(env.db, st, CallMessage(env, st, sender, msg, frame, pre).progress.state)
  {
    hide WellFormed, Keeps, Enter, RunActions, HasCode, Caches, Balance, Exists;
    var recipient := if msg.kind.Call? then msg.target else sender;
    CachesNothing(env.db, st);
    if (msg.kind.DelegateCall? || Balance(env.db, st, sender) >= msg.value)
       && !(msg.value == 0 && env.rev >= SPURIOUS && !IsPrecompiled(env.rev, msg.target)
            && !Exists(env.db, st, msg.target)) {
      var s := Enter(env.db, st, sender, recipient, msg);
      if IsPrecompiled(env.rev, msg.target) {
        FinishRestores(env.db, st, Progress(s, 0), PrecompileOutput(msg.gas, pre));
      } else if HasCode(env.db, st, msg.target) {
        EnteredExists(env.db, st, s, sender, recipient, msg);
        var reached := RunActions(env, s, recipient, frame.actions);
        KeepsTwice(env.db, st, s, reached.state);
        FinishRestores(env.db, st, reached, Output(frame.status, frame.gasLeft));
      }
    }
  }

  /** A creation that does not succeed leaves at most the creator's raised nonce and the
      warm address, both of them only if the creator could pay. */
  lemma FailedCreateRestores(
    env: Env, st: State, sender: Address, endowment: nat, gas: int, address: Address, frame: Frame)
    requires WellFormed(env.db, st)
    requires CreateMessage(env, st, sender, endowment, gas, address, frame).output.status != Success
    ensures var r := CreateMessage(env, st, sender, endowment, gas, address, frame).progress.state;
            if Balance(env.db, st, sender) < endowment then Restored(env.db, st, r)
            else Restored(env.db, Announce(env.db, st, sender, address), r)
  {
    hide WellFormed, Keeps, Announce, Found, RunActions, HasCode, Caches, Balance, Deploy;
    CachesNothing(env.db, st);
    if Balance(env.db, st, sender) >= endowment {
      var s := Announce(env.db, st, sender, address);
      CachesNothing(env.db, s);
      KeepsIsWellFormed(env.db, st, s);
      if AccountOf(env.db, s, address).nonce == 0 && !HasCode(env.db, s, address) {
        var t := Found(env, s, sender, address, endowment);
        KeepsIsWellFormed(env.db, s, t);
        var reached := RunActions(env, t, address, frame.actions);
        KeepsTwice(env.db, s, t, reached.state);
        KeepsIsWellFormed(env.db, s, reached.state);
        var deployed := Deploy(env, reached, address, frame);
        KeepsTwice(env.db, s, reached.state, deployed.progress.state);
        FinishRestores(env.db, s, deployed.progress, deployed.output);
      }
    }
  }

  /** Announcing a creation changes one nonce and warms one address, and nothing else. */
  lemma AnnounceChangesOneNonce(db: World, st: State, sender: Address, address: Address)
    requires WellFormed(db, st)
    ensures var s := Announce(db, st, sender, address);
            && AccountOf(db, s, sender) == AccountOf(db, st, sender).(nonce := AccountOf(db, st, sender).nonce + 1)
            && (forall b :: b != sender ==> AccountOf(db, s, b) == AccountOf(db, st, b))
            && SameStorage(db, st, s)
            && s.accessedAddresses == st.accessedAddresses + {address} && s.accessedKeys == st.accessedKeys
            && s.logs == st.logs && s.refund == st.refund && s.selfDestructs == st.selfDestructs
  {
    hide WellFormed, Keeps, SameStorage, SameBalances;
    var n := AccountOf(db, st, sender).nonce + 1;
    SetNonceKeeps(db, st, sender, n);
    var t := SetNonce(db, st, sender, n);
    SameObjectsSameAccounts(db, t, AccessAccount(t, address));
  }

  // ----- Gas -----

  /** A call gives back between none and all of its gas, if the interpreter does. */
  lemma CallGasBounds(env: Env, st: State, sender: Address, msg: Message, frame: Frame, pre: Precompile)
    requires WellFormed(env.db, st)
    requires !msg.kind.Call? ==> Exists(env.db, st, sender)
    requires 0 <= frame.gasLeft <= msg.gas
    ensures var out := CallMessage(env, st, sender, msg, frame, pre).output;
            0 <= out.gasLeft <= msg.gas && (out.status !in {Success, Revert, InsufficientBalance} ==> out.gasLeft == 0)
  {
    hide WellFormed, Keeps, Enter, RunActions, HasCode, Caches, Balance, Exists;
    CachesNothing(env.db, st);
    CachesKeeps(env.db, st, st);
    var recipient := if msg.kind.Call? then msg.target else sender;
    if (msg.kind.DelegateCall? || Balance(env.db, st, sender) >= msg.value)
       && !(msg.value == 0 && env.rev >= SPURIOUS && !IsPrecompiled(env.rev, msg.target)
            && !Exists(env.db, st, msg.target)) {
      var s := Enter(env.db, st, sender, recipient, msg);
      if !IsPrecompiled(env.rev, msg.target) && HasCode(env.db, st, msg.target) {
        EnteredExists(env.db, st, s, sender, recipient, msg);
        var reached := RunActions(env, s, recipient, frame.actions);
        KeepsTwice(env.db, st, s, reached.state);
      }
    }
  }

  lemma CreateGasBounds(
    env: Env, st: State, sender: Address, endowment: nat, gas: int, address: Address, frame: Frame)
    requires WellFormed(env.db, st)
    requires 0 <= frame.gasLeft <= gas
    ensures var out := CreateMessage(env, st, sender, endowment, gas, address, frame).output;
            0 <= out.gasLeft <= gas && (out.status !in {Success, Revert, InsufficientBalance} ==> out.gasLeft == 0)
  {
    hide WellFormed, Keeps, Announce, Found, RunActions, HasCode, Caches, Balance;
    CachesNothing(env.db, st);
    if Balance(env.db, st, sender) >= endowment {
      var s := Announce(env.db, st, sender, address);
      KeepsIsWellFormed(env.db, st, s);
      if AccountOf(env.db, s, address).nonce == 0 && !HasCode(env.db, s, address) {
        var t := Found(env, s, sender, address, endowment);
        KeepsIsWellFormed(env.db, s, t);
        var reached := RunActions(env, t, address, frame.actions);
        KeepsTwice(env.db, s, t, reached.state);
        KeepsIsWellFormed(env.db, s, reached.state);
        var deployed := Deploy(env, reached, address, frame);
        KeepsTwice(env.db, s, reached.state, deployed.progress.state);
      }
    }
  }

  // ----- When a creation succeeds -----

  predicate DepositPaid(frame: Frame) {
    frame.gasLeft >= 0 && frame.gasLeft >= frame.codeLength * G_CODE_DEPOSIT
  }

  /** The returned code may be deployed: EIP-3541, EIP-170 and the code deposit. */
  predicate Deployable(rev: Revision, frame: Frame) {
    && !(rev >= LONDON && frame.codeLength > 0 && frame.firstByte == 0xEF)
    && !(rev >= SPURIOUS && frame.codeLength > MAX_CODE_SIZE)
    && (DepositPaid(frame) || rev < HOMESTEAD)
  }

  /** A creation succeeds exactly when the creator can pay, the address is unused, the
      initialisation succeeds and its code may be deployed; then the code is at the address
      and the deposit is charged, except that before Homestead an unaffordable deposit is
      waived and no code is set. */
  lemma CreationSucceedsIff(
    env: Env, st: State, sender: Address, endowment: nat, gas: int, address: Address, frame: Frame)
    requires WellFormed(env.db, st)
    ensures var r := CreateMessage(env, st, sender, endowment, gas, address, frame);
            var s := Announce(env.db, st, sender, address);
            && (r.output.status == Success <==>
                  && Balance(env.db, st, sender) >= endowment
                  && AccountOf(env.db, s, address).nonce == 0 && !HasCode(env.db, s, address)
                  && frame.status == Success && Deployable(env.rev, frame))
            && (r.output.status == Success && DepositPaid(frame) ==>
                  && AccountOf(env.db, r.progress.state, address).codeHash == frame.codeHash
                  && r.output.gasLeft == frame.gasLeft - frame.codeLength * G_CODE_DEPOSIT)
            && (r.output.status == Success && !DepositPaid(frame) ==> r.output.gasLeft == frame.gasLeft)
  {
    hide WellFormed, Keeps, Announce, Found, RunActions, HasCode, Caches, Balance, SetCode, AccountOf;
    CachesNothing(env.db, st);
    if Balance(env.db, st, sender) >= endowment {
      var s := Announce(env.db, st, sender, address);
      KeepsIsWellFormed(env.db, st, s);
      if AccountOf(env.db, s, address).nonce == 0 && !HasCode(env.db, s, address) {
        var t := Found(env, s, sender, address, endowment);
        KeepsIsWellFormed(env.db, s, t);
        var reached := RunActions(env, t, address, frame.actions);
        KeepsTwice(env.db, s, t, reached.state);
        KeepsIsWellFormed(env.db, s, reached.state);
        var deployed := Deploy(env, reached, address, frame);
        KeepsTwice(env.db, s, reached.state, deployed.progress.state);
        SetCodeAccount(env.db, reached.state, address, frame.codeHash, address);
      }
    }
  }

  /** How a creation fails: for lack of ether with all its gas, on a used address with none, as
      its initialisation did, with the gas left after a revert and none otherwise, or with none
      because its code may not be deployed. */
  lemma CreationFailure(
    env: Env, st: State, sender: Address, endowment: nat, gas: int, address: Address, frame: Frame)
    requires WellFormed(env.db, st)
    ensures var out := CreateMessage(env, st, sender, endowment, gas, address, frame).output;
            var funds := Balance(env.db, st, sender) >= endowment;
            var s := Announce(env.db, st, sender, address);
            var free := AccountOf(env.db, s, address).nonce == 0 && !HasCode(env.db, s, address);
            var reserved := env.rev >= 9 && frame.codeLength > 0 && frame.firstByte == 0xEF;
            && (!funds ==> out == Output(InsufficientBalance, gas))
            && (funds && !free ==> out == Output(InvalidInstruction, 0))
            && (funds && free && frame.status != Success ==>
                  out == Output(frame.status, if frame.status == Revert then frame.gasLeft else 0))
            && (funds && free && frame.status == Success && !Deployable(env.rev, frame) ==>
                  out == Output(if reserved then ContractValidationFailure else OutOfGas, 0))
  {
    hide WellFormed, Keeps, Announce, Found, RunActions, HasCode, Caches, Balance, SetCode, AccountOf;
    CachesNothing(env.db, st);
    if Balance(env.db, st, sender) >= endowment {
      var s := Announce(env.db, st, sender, address);
      KeepsIsWellFormed(env.db, st, s);
      if AccountOf(env.db, s, address).nonce == 0 && !HasCode(env.db, s, address) {
        var t := Found(env, s, sender, address, endowment);
        KeepsIsWellFormed(env.db, s, t);
        var reached := RunActions(env, t, address, frame.actions);
        KeepsTwice(env.db, s, t, reached.state);
        KeepsIsWellFormed(env.db, s, reached.state);
        KeepsTwice(env.db, s, reached.state, Deploy(env, reached, address, frame).progress.state);
      }
    }
  }

  /** What a creation finds at its address when its initialisation begins: the balance that was
      there and the endowment, no code, empty storage, and a nonce of one from Spurious Dragon
      on (EIP-161), before that of zero. */
  lemma FoundAccount(env: Env, st: State, sender: Address, address: Address, v: nat, k: nat)
    requires WellFormed(env.db, st) && sender != address
    ensures var t := Found(env, st, sender, address, v);
            var acc := AccountOf(env.db, t, address);
            && acc.nonce == (if env.rev >= 3 then 1 else 0) && acc.codeHash == EMPTY_HASH
            && acc.balance == Balance(env.db, st, address) + v
            && CurrentStorage(env.db, t, address, k) == 0 && OriginalStorage(env.db, t, address, k) == 0
  {
    hide WellFormed, Advances, SetBalance, CreateContract, SetNonce, Exists, AccountOf, OriginalStorage, CurrentStorage;
    var db := env.db;
    var u := CreateContract(db, st, address);
    CreateContractKeeps(db, st, address);
    NewAccount(db, st, address);
    SetNonceKeeps(db, u, address, 1);
    var w := if env.rev >= SPURIOUS then SetNonce(db, u, address, 1) else u;
    TransferKeeps(db, w, sender, address, v);
    var x := Balance(db, w, sender) - v;
    SetBalanceAccount(db, w, sender, x, address);
    var y := SetBalance(db, w, sender, x);
    SetBalanceAccount(db, y, address, Balance(db, y, address) + v, address);
    assert CurrentStorage(db, Transfer(db, w, sender, address, v), address, k) == CurrentStorage(db, w, address, k);
    assert OriginalStorage(db, Transfer(db, w, sender, address, v), address, k) == OriginalStorage(db, w, address, k);
  }

  lemma NewAccount(db: World, st: State, a: Address)
    ensures AccountOf(db, CreateContract(db, st, a), a) == DEFAULT_ACCOUNT.(balance := Balance(db, st, a))
  {
  }

  /** A successful creation whose initialisation does nothing moves the endowment to the new
      address; code is there exactly if its deposit was paid. */
  lemma CreationMovesEndowment(
    env: Env, st: State, sender: Address, endowment: nat, gas: int, address: Address, frame: Frame, b: Address)
    requires WellFormed(env.db, st) && frame.actions == [] && sender != address
    requires CreateMessage(env, st, sender, endowment, gas, address, frame).output.status == Success
    ensures var t := CreateMessage(env, st, sender, endowment, gas, address, frame).progress.state;
            && Balance(env.db, t, b) ==
                 Balance(env.db, st, b) - When(b == sender, endowment) + When(b == address, endowment)
            && AccountOf(env.db, t, address).codeHash == if DepositPaid(frame) then frame.codeHash else EMPTY_HASH
  {
    hide WellFormed, Keeps, Announce, Found, HasCode, Caches, SetCode, AccountOf, SameStorage;
    CachesNothing(env.db, st);
    var s := Announce(env.db, st, sender, address);
    KeepsIsWellFormed(env.db, st, s);
    var t := Found(env, s, sender, address, endowment);
    KeepsIsWellFormed(env.db, s, t);
    FoundAccount(env, s, sender, address, endowment, 0);
    var reached := RunActions(env, t, address, frame.actions);
    KeepsTwice(env.db, s, t, reached.state);
    KeepsIsWellFormed(env.db, s, reached.state);
    var deployed := Deploy(env, reached, address, frame);
    KeepsTwice(env.db, s, reached.state, deployed.progress.state);
    SetCodeAccount(env.db, reached.state, address, frame.codeHash, b);
    SetCodeAccount(env.db, reached.state, address, frame.codeHash, address);
  }
}
