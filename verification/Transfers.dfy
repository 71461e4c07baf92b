// Who pays and who is paid: the exact effect of the fees and of a plain transfer.
module Transfers {
  import opened Revisions
  import opened WorldState
  import opened IntraBlock
  import opened Journal
  import opened Operations
  import opened Evm
  import opened Ether
  import opened Refunds
  import opened Processor
  import opened Nonces

  /** The refund goes to the sender and the priority fee to the miner, and nobody else's
      balance changes. */
  lemma PayDelivers(env: Env, st: State, h: Header, txn: Txn, gasLeft: int, b: Address)
    requires Prevalidated(h, txn)
    ensures Balance(env.db, Pay(env, st, h, txn, gasLeft), b) == Balance(env.db, st, b)
              + When(b == txn.sender, gasLeft * EffectivePrice(h, txn))
              + When(b == h.beneficiary, (txn.gasLimit - gasLeft) * PriorityFee(h, txn))
  {
    hide SetBalance, AccountOf;
    var x, y := gasLeft * EffectivePrice(h, txn), (txn.gasLimit - gasLeft) * PriorityFee(h, txn);
    var s := AddToBalance(env.db, st, txn.sender, x);
    SetBalanceAccount(env.db, st, txn.sender, Balance(env.db, st, txn.sender) + x, b);
    SetBalanceAccount(env.db, s, h.beneficiary, Balance(env.db, s, h.beneficiary) + y, b);
  }

  /** With nothing destroyed, sweeping and finalizing change no balance. */
  lemma SweepChangesNoBalance(env: Env, s: State, b: Address)
    requires WellFormed(env.db, s) && s.selfDestructs == {}
    ensures Balance(env.db, FinalizeTransaction(Sweep(env, s)), b) == Balance(env.db, s, b)
  {
    hide WellFormed, Destruct, Load;
    var t := Destruct(env.db, s, s.selfDestructs);
    DestructRemoves(env.db, s, s.selfDestructs);
    DestructWellFormed(env.db, s, s.selfDestructs);
    var dead := set a | a in t.touched && IsDead(env.db, t, a);
    DestructRemoves(env.db, t, dead);
    var u := Sweep(env, s);
    assert Current(env.db, t, b) == Current(env.db, s, b);
    SameObjectsSame(env.db, u, FinalizeTransaction(u), b);
  }

  lemma TransferQuiet(db: World, s: State, sender: Address, recipient: Address, v: int)
    ensures var t := Transfer(db, s, sender, recipient, v);
            t.refund == s.refund && t.selfDestructs == s.selfDestructs
  {
    hide SetBalance, Balance;
    var x := Balance(db, s, sender) - v;
    SetBalanceRefund(db, s, sender, x);
    SetBalanceAccount(db, s, sender, x, sender);
    var u := SetBalance(db, s, sender, x);
    var y := Balance(db, u, recipient) + v;
    SetBalanceRefund(db, u, recipient, y);
    SetBalanceAccount(db, u, recipient, y, recipient);
  }

  /** A message to an account without code moves the value and returns all gas. */
  lemma PlainMessage(env: Env, s: State, txn: Txn, run: Execution, gas: int)
    requires WellFormed(env.db, s) && Balance(env.db, s, txn.sender) >= txn.value
    requires txn.to.Some? && !IsPrecompiled(env.rev, txn.to.value) && !HasCode(env.db, s, txn.to.value)
    ensures var r := RunMessage(env, s, txn, run, gas);
            && r.output == Output(Success, gas) && r.progress.burned == 0
            && r.progress.state.refund == s.refund && r.progress.state.selfDestructs == s.selfDestructs
            && (forall b :: Balance(env.db, r.progress.state, b) ==
                  Balance(env.db, s, b) - When(b == txn.sender, txn.value) + When(b == txn.to.value, txn.value))
  {
    hide WellFormed, Keeps, Transfer, Exists, HasCode, SameStorage, Balance;
    TransferKeeps(env.db, s, txn.sender, txn.to.value, txn.value);
    TransferQuiet(env.db, s, txn.sender, txn.to.value, txn.value);
  }

  lemma NoRefund(rev: Revision, st: State, gasLimit: int, gasLeft: int)
    requires st.refund == 0 && st.selfDestructs == {} && gasLeft <= gasLimit
    ensures RefundedGas(rev, st, gasLimit, gasLeft) == 0
  {
  }

  lemma PreparedIsClean(db: World, st: State, h: Header, txn: Txn)
    requires Prevalidated(h, txn)
    ensures Prepare(db, st, h, txn).selfDestructs == {}
  {
    hide SetBalance, SetNonce, WarmList, AccountOf;
    var s := AccessAccount(ClearJournalAndSubstate(st), txn.sender);
    var v := Balance(db, s, txn.sender) - txn.gasLimit * EffectivePrice(h, txn);
    SetBalanceAccount(db, s, txn.sender, v, txn.sender);
    var t := SetBalance(db, s, txn.sender, v);
    if txn.to.Some? {
      var w := AccessAccount(t, txn.to.value);
      SetNonceAccount(db, w, txn.sender, txn.nonce + 1, txn.sender);
      WarmListFrame(SetNonce(db, w, txn.sender, txn.nonce + 1), txn.accessList);
    } else {
      WarmListFrame(t, txn.accessList);
    }
  }

  lemma TargetHasNoCode(db: World, st: State, h: Header, available: int, txn: Txn)
    requires Prevalidated(h, txn) && ValidateTransaction(db, st, h, available, txn).None?
    requires txn.to.Some? && !HasCode(db, st, txn.to.value)
    ensures !HasCode(db, Prepare(db, st, h, txn), txn.to.value)
  {
    hide Prepare;
    PrepareNonce(db, st, h, txn, txn.to.value, AccountOf(db, st, txn.to.value).nonce);
  }

  lemma Payment(limit: int, left: int, price: int)
    ensures limit * price - left * price == (limit - left) * price
  {
  }

  /** A validated transfer to an account without code succeeds, uses exactly its intrinsic gas,
      and changes exactly these balances: the sender pays the value and the gas at the
      effective price, the recipient gets the value and the miner the priority fee. */
  lemma PlainTransfer(env: Env, st: State, h: Header, available: int, txn: Txn, run: Execution)
    requires Settled(env.db, st) && Prevalidated(h, txn) && Metered(env.rev, txn, run)
    requires ValidateTransaction(env.db, st, h, available, txn).None?
    requires txn.to.Some? && !IsPrecompiled(env.rev, txn.to.value) && !HasCode(env.db, st, txn.to.value)
    requires txn.gasLimit >= IntrinsicGas(env.rev, txn)
    ensures var r := ExecuteTransaction(env, st, h, txn, run);
            && r.Applied? && r.success && r.gasUsed == IntrinsicGas(env.rev, txn)
            && (forall b :: Balance(env.db, r.state, b) == Balance(env.db, st, b)
                  - When(b == txn.sender, txn.value + r.gasUsed * EffectivePrice(h, txn))
                  + When(b == txn.to.value, txn.value)
                  + When(b == h.beneficiary, r.gasUsed * PriorityFee(h, txn)))
  {
    hide WellFormed, Prepare, RunMessage, Sweep, Pay, FinalizeTransaction, RefundCovers, SameStorage, Balance,
         Exists, IntrinsicGas, RefundedGas, Held, NothingPending, ValidateTransaction, Loses, HasCode;
    var db := env.db;
    PrepareBuysGas(db, st, h, txn);
    PreparedIsClean(db, st, h, txn);
    TargetHasNoCode(db, st, h, available, txn);
    ValueIsLeft(db, st, h, available, txn);
    var s := Prepare(db, st, h, txn);
    var gas := txn.gasLimit - IntrinsicGas(env.rev, txn);
    MessageFacts(env, s, txn, run, gas);
    PlainMessage(env, s, txn, run, gas);
    var t := RunMessage(env, s, txn, run, gas).progress.state;
    NoRefund(env.rev, t, txn.gasLimit, gas);
    PayTotal(env, t, h, txn, gas);
    var u := Pay(env, t, h, txn, gas);
    Payment(txn.gasLimit, gas, EffectivePrice(h, txn));
    assert u.selfDestructs == {} by {
      PayKeepsDestructs(env, t, h, txn, gas);
    }
    var r := ExecuteTransaction(env, st, h, txn, run);
    forall b ensures Balance(db, r.state, b) == Balance(db, st, b)
                  - When(b == txn.sender, txn.value + r.gasUsed * EffectivePrice(h, txn))
                  + When(b == txn.to.value, txn.value)
                  + When(b == h.beneficiary, r.gasUsed * PriorityFee(h, txn))
    {
      PayDelivers(env, t, h, txn, gas, b);
      SweepChangesNoBalance(env, u, b);
    }
  }

  lemma PayKeepsDestructs(env: Env, st: State, h: Header, txn: Txn, gasLeft: int)
    requires Prevalidated(h, txn)
    ensures Pay(env, st, h, txn, gasLeft).selfDestructs == st.selfDestructs
  {
    hide SetBalance, Balance;
    var x, y := gasLeft * EffectivePrice(h, txn), (txn.gasLimit - gasLeft) * PriorityFee(h, txn);
    var s := AddToBalance(env.db, st, txn.sender, x);
    SetBalanceAccount(env.db, st, txn.sender, Balance(env.db, st, txn.sender) + x, txn.sender);
    SetBalanceAccount(env.db, s, h.beneficiary, Balance(env.db, s, h.beneficiary) + y, txn.sender);
  }
}
