// What single steps of transaction and block processing answer, stated from outside.
module TransactionLaws {
  import opened Revisions
  import opened Wrappers
  import opened WorldState
  import opened IntraBlock
  import opened Journal
  import opened Operations
  import opened Evm
  import opened EvmTheorems
  import opened Actors
  import opened Ether
  import opened Refunds
  import opened Processor
  import opened BlockProcessor

  // ----- Before -----

  /** A transaction is accepted exactly when its sender has no code, its nonce is the sender's,
      the sender can pay for all its gas at the highest price and the value, and its gas limit
      fits what the block has left; otherwise the first of these that is missed is the error. */
  lemma AcceptedIff(db: World, st: State, h: Header, available: int, txn: Txn)
    ensures var acc := AccountOf(db, st, txn.sender);
            var r := ValidateTransaction(db, st, h, available, txn);
            var plain := acc.codeHash == EMPTY_HASH;
            var next := acc.nonce == txn.nonce;
            var funded := acc.balance >= txn.gasLimit * txn.maxFee + txn.value;
            && (r.None? <==> plain && next && funded && txn.gasLimit <= available)
            && (r == Some(SenderNoEOA) <==> !plain)
            && (r == Some(WrongNonce) <==> plain && !next)
            && (r == Some(InsufficientFunds) <==> plain && next && !funded)
            && (r == Some(BlockGasLimitExceeded) <==> plain && next && funded && txn.gasLimit > available)
  {
  }

  /** The price paid per gas is the lower of the highest fee and the base fee with the highest
      priority fee (EIP-1559); the miner's share is what exceeds the base fee. */
  lemma PriceIsLower(h: Header, txn: Txn)
    requires Prevalidated(h, txn)
    ensures var base := if h.baseFee.Some? then h.baseFee.value else 0;
            var p := EffectivePrice(h, txn);
            && p <= txn.maxFee && p <= base + txn.maxPriority
            && (p == txn.maxFee || p == base + txn.maxPriority)
            && PriorityFee(h, txn) == p - base
  {
  }

  /** An empty transaction costs 21000 gas, and 32000 more if it creates a contract from
      Homestead on; each zero byte adds 4, each other byte 68, or 16 from Istanbul on (EIP-2028);
      each listed address adds 2400 and each listed slot 1900 (EIP-2930). */
  lemma IntrinsicCharges(rev: Revision, txn: Txn, item: AccessItem, k: nat)
    ensures txn.zeroBytes == txn.nonZeroBytes == 0 && txn.accessList == [] ==>
              IntrinsicGas(rev, txn) == 21_000 + (if txn.to.None? && rev >= 1 then 32_000 else 0)
    ensures IntrinsicGas(rev, txn.(zeroBytes := txn.zeroBytes + 1)) == IntrinsicGas(rev, txn) + 4
    ensures IntrinsicGas(rev, txn.(nonZeroBytes := txn.nonZeroBytes + 1)) ==
              IntrinsicGas(rev, txn) + (if rev >= 7 then 16 else 68)
    ensures IntrinsicGas(rev, txn.(accessList := [item] + txn.accessList)) ==
              IntrinsicGas(rev, txn) + 2400 + 1900 * |item.slots|
  {
    var list := [item] + txn.accessList;
    assert list[1..] == txn.accessList;
    assert ListedSlots(list) == |item.slots| + ListedSlots(txn.accessList);
    Spread(|txn.accessList|, 2400);
    SpreadMany(|item.slots|, ListedSlots(txn.accessList), 1900);
    Spread(txn.zeroBytes, 4);
    Spread(txn.nonZeroBytes, 16);
    Spread(txn.nonZeroBytes, 68);
  }

  lemma Spread(n: int, x: int)
    ensures (n + 1) * x == n * x + x
  {
  }

  lemma SpreadMany(m: int, n: int, x: int)
    ensures (m + n) * x == x * m + n * x
  {
  }

  function ListedAddresses(items: seq<AccessItem>): (r: set<Address>) {
    set i | 0 <= i < |items| :: items[i].address
  }

  function ListedKeys(items: seq<AccessItem>): (r: set<Slot>) {
    set i, j | 0 <= i < |items| && 0 <= j < |items[i].slots| :: (items[i].address, items[i].slots[j])
  }

  lemma {:induction false} WarmSlotsWarms(st: State, a: Address, slots: seq<nat>)
    ensures var t := WarmSlots(st, a, slots);
            && t == st.(accessedKeys := t.accessedKeys, journal := t.journal)
            && t.accessedKeys == st.accessedKeys + set j | 0 <= j < |slots| :: (a, slots[j])
    decreases |slots|
  {
    if slots != [] {
      var s := AccessStorage(st, a, slots[0]);
      WarmSlotsWarms(s, a, slots[1..]);
      assert forall j | 0 < j < |slots| :: slots[j] == slots[1..][j - 1];
      assert forall j | 0 <= j < |slots[1..]| :: slots[1..][j] == slots[j + 1];
    }
  }

  lemma {:induction false} WarmListWarms(st: State, items: seq<AccessItem>)
    ensures var t := WarmList(st, items);
            && t == st.(accessedAddresses := t.accessedAddresses, accessedKeys := t.accessedKeys, journal := t.journal)
            && t.accessedAddresses == st.accessedAddresses + ListedAddresses(items)
            && t.accessedKeys == st.accessedKeys + ListedKeys(items)
    decreases |items|
  {
    hide WarmSlots;
    if items != [] {
      var first, rest := items[0], items[1..];
      var s := AccessAccount(st, first.address);
      var u := WarmSlots(s, first.address, first.slots);
      WarmSlotsWarms(s, first.address, first.slots);
      WarmListWarms(u, rest);
      ListedMore(items);
    }
  }

  lemma ListedMore(items: seq<AccessItem>)
    requires items != []
    ensures ListedAddresses(items) == {items[0].address} + ListedAddresses(items[1..])
    ensures ListedKeys(items) ==
      (set j | 0 <= j < |items[0].slots| :: (items[0].address, items[0].slots[j])) + ListedKeys(items[1..])
  {
    var rest := items[1..];
    assert forall i | 0 < i < |items| :: items[i] == rest[i - 1];
    assert forall i | 0 <= i < |rest| :: rest[i] == items[i + 1];
  }

  /** When the message begins the sender, the recipient and everything listed are warm and
      nothing else is; nothing is logged or destroyed, and only the sender is touched. */
  lemma PreparedSubstate(db: World, st: State, h: Header, txn: Txn)
    requires Prevalidated(h, txn)
    ensures var s := Prepare(db, st, h, txn);
            && s.accessedAddresses ==
                 {txn.sender} + (if txn.to.Some? then {txn.to.value} else {}) + ListedAddresses(txn.accessList)
            && s.accessedKeys == ListedKeys(txn.accessList)
            && s.logs == [] && s.selfDestructs == {} && s.refund == 0 && s.touched == {txn.sender}
  {
    hide WarmList, ListedAddresses, ListedKeys, Balance, SetBalance, SetNonce, EffectivePrice;
    var c := AccessAccount(ClearJournalAndSubstate(st), txn.sender);
    var v := Balance(db, c, txn.sender) - txn.gasLimit * EffectivePrice(h, txn);
    SetBalanceSubstate(db, c, txn.sender, v);
    var t := SetBalance(db, c, txn.sender, v);
    var u := match txn.to
             case Some(to) => SetNonce(db, AccessAccount(t, to), txn.sender, txn.nonce + 1)
             case None => t;
    if txn.to.Some? {
      SetNonceSubstate(db, AccessAccount(t, txn.to.value), txn.sender, txn.nonce + 1);
    }
    WarmListWarms(u, txn.accessList);
  }

  // ----- After -----

  /** When the message begins the sender has paid for all its gas, its nonce is raised if it
      calls, and every other account is as it was. */
  lemma PreparedAccount(db: World, st: State, h: Header, txn: Txn, b: Address)
    requires Prevalidated(h, txn)
    ensures var acc := AccountOf(db, st, b);
            AccountOf(db, Prepare(db, st, h, txn), b) ==
              if b != txn.sender then acc
              else acc.(balance := acc.balance - txn.gasLimit * EffectivePrice(h, txn),
                        nonce := if txn.to.Some? then txn.nonce + 1 else acc.nonce)
  {
    hide SetBalance, SetNonce, WarmList, EffectivePrice, ListedAddresses, ListedKeys;
    var s := AccessAccount(ClearJournalAndSubstate(st), txn.sender);
    var v := Balance(db, s, txn.sender) - txn.gasLimit * EffectivePrice(h, txn);
    SetBalanceAccount(db, s, txn.sender, v, b);
    var t := SetBalance(db, s, txn.sender, v);
    var u := match txn.to
             case Some(to) => SetNonce(db, AccessAccount(t, to), txn.sender, txn.nonce + 1)
             case None => t;
    if txn.to.Some? {
      SetNonceAccount(db, AccessAccount(t, txn.to.value), txn.sender, txn.nonce + 1, b);
    }
    WarmListWarms(u, txn.accessList);
  }

  /** What the counter offers: the refund, and 24000 for every destroyed account before London. */
  function Offered(rev: Revision, st: State): (c: int) {
    st.refund + if rev < 9 then 24_000 * |st.selfDestructs| else 0
  }

  /** g is the largest part of the offer that is at most half of the consumed gas, or a fifth of
      it from London on. */
  ghost predicate IsLargestRefund(rev: Revision, offered: int, consumed: int, g: int) {
    var q := if rev >= 9 then 5 else 2;
    0 <= g <= offered && q * g <= consumed && (g == offered || q * (g + 1) > consumed)
  }

  lemma RefundIsLargest(rev: Revision, st: State, gasLimit: int, gasLeft: int)
    requires gasLeft <= gasLimit && st.refund >= 0
    ensures IsLargestRefund(rev, Offered(rev, st), gasLimit - gasLeft, RefundedGas(rev, st, gasLimit, gasLeft))
  {
    var consumed := gasLimit - gasLeft;
    assert 5 * (consumed / 5) <= consumed < 5 * (consumed / 5 + 1);
    assert 2 * (consumed / 2) <= consumed < 2 * (consumed / 2 + 1);
  }

  /** Of the gas that an applied transaction consumed it is given back the largest refund that is
      offered and allowed, and it is successful exactly when its message was. */
  lemma TransactionAnswers(env: Env, st: State, h: Header, txn: Txn, run: Execution)
    requires Settled(env.db, st) && Prevalidated(h, txn) && Metered(env.rev, txn, run)
    requires ExecuteTransaction(env, st, h, txn, run).Applied?
    ensures var r := ExecuteTransaction(env, st, h, txn, run);
            var s := Prepare(env.db, st, h, txn);
            var out := (PrepareBuysGas(env.db, st, h, txn);
                        RunMessage(env, s, txn, run, txn.gasLimit - IntrinsicGas(env.rev, txn)));
            var consumed := txn.gasLimit - out.output.gasLeft;
            && (r.success <==> out.output.status == Success)
            && IsLargestRefund(env.rev, Offered(env.rev, out.progress.state), consumed, consumed - r.gasUsed)
  {
    hide WellFormed, Prepare, RunMessage, Sweep, Pay, FinalizeTransaction, RefundCovers, SameStorage, BalancesBut,
         Exists, IntrinsicGas, Loses, RefundedGas, Held, IsLargestRefund, Offered;
    PrepareBuysGas(env.db, st, h, txn);
    var s := Prepare(env.db, st, h, txn);
    FreshStateCovers(env, st, s);
    var gas := txn.gasLimit - IntrinsicGas(env.rev, txn);
    MessageFacts(env, s, txn, run, gas);
    var out := RunMessage(env, s, txn, run, gas);
    CoveringIsNotNegative(env, out.progress.state);
    RefundIsLargest(env.rev, out.progress.state, txn.gasLimit, out.output.gasLeft);
  }

  /** A transaction that is rejected while executing had too little gas for its intrinsic charge. */
  lemma RejectedIff(env: Env, st: State, h: Header, txn: Txn, run: Execution)
    requires Settled(env.db, st) && Prevalidated(h, txn) && Metered(env.rev, txn, run)
    ensures var r := ExecuteTransaction(env, st, h, txn, run);
            && (r.Rejected? <==> txn.gasLimit < IntrinsicGas(env.rev, txn))
            && (r.Rejected? ==> r.error == IntrinsicGasTooLow)
  {
    hide WellFormed, Prepare, RunMessage, Sweep, Pay, FinalizeTransaction, RefundCovers, SameStorage, BalancesBut,
         Exists, IntrinsicGas, Loses, RefundedGas, Held;
  }

  /** At the end of a transaction exactly the accounts that destroyed themselves are gone and,
      from Spurious Dragon on, the touched ones that are left without nonce, balance and code
      (EIP-161); every other account is as it was. */
  lemma SweepExactly(env: Env, s: State, b: Address)
    requires WellFormed(env.db, s)
    ensures var acc := AccountOf(env.db, s, b);
            var empty := acc.nonce == 0 && acc.balance == 0 && acc.codeHash == EMPTY_HASH;
            Current(env.db, FinalizeTransaction(Sweep(env, s)), b) ==
              if b in s.selfDestructs || (env.rev >= 3 && b in s.touched && empty) then None
              else Current(env.db, s, b)
  {
    hide WellFormed, Destruct, Load;
    var t := Destruct(env.db, s, s.selfDestructs);
    DestructRemoves(env.db, s, s.selfDestructs);
    DestructWellFormed(env.db, s, s.selfDestructs);
    assert t.touched == s.touched by {
      DestructKeepsTouched(env.db, s, s.selfDestructs);
    }
    assert Current(env.db, t, b) == if b in s.selfDestructs then None else Current(env.db, s, b);
    var dead := set a | a in t.touched && IsDead(env.db, t, a);
    DestructRemoves(env.db, t, dead);
    var u := Sweep(env, s);
    CurrentAfterFinalize(env.db, u, b);
  }

  lemma DestructKeepsTouched(db: World, s: State, gone: set<Address>)
    ensures Destruct(db, s, gone).touched == s.touched
  {
  }

  lemma CurrentAfterFinalize(db: World, s: State, b: Address)
    ensures Current(db, FinalizeTransaction(s), b) == Current(db, s, b)
  {
  }

  lemma SweepSlot(env: Env, s: State, b: Address, k: nat)
    requires WellFormed(env.db, s)
    ensures var t := FinalizeTransaction(Sweep(env, s));
            var v := if Exists(env.db, t, b) then CurrentStorage(env.db, s, b, k) else 0;
            CurrentStorage(env.db, t, b, k) == OriginalStorage(env.db, t, b, k) == v
  {
    hide WellFormed, Destruct, Load, CurrentAt, Base;
    var t := Destruct(env.db, s, s.selfDestructs);
    DestructRemoves(env.db, s, s.selfDestructs);
    DestructSlots(env.db, s, s.selfDestructs);
    DestructWellFormed(env.db, s, s.selfDestructs);
    var dead := set a | a in t.touched && IsDead(env.db, t, a);
    DestructRemoves(env.db, t, dead);
    DestructSlots(env.db, t, dead);
    SweepLoses(env, s);
    var u := Sweep(env, s);
    FinalizeKeeps(env.db, u);
    CurrentAfterFinalize(env.db, u, b);
  }

  lemma BalanceSet(db: World, s: State, a: Address, v: int, b: Address)
    ensures Current(db, SetBalance(db, s, a, v), b) ==
              if b == a then Some(AccountOf(db, s, a).(balance := v)) else Current(db, s, b)
  {
  }

  /** What paying leaves at an address, if an account is there. */
  function Paid(db: World, st: State, h: Header, txn: Txn, gasLeft: int, b: Address): (acc: Account)
    requires Prevalidated(h, txn)
  {
    var acc := AccountOf(db, st, b);
    acc.(balance := acc.balance + When(b == txn.sender, gasLeft * EffectivePrice(h, txn))
                    + When(b == h.beneficiary, (txn.gasLimit - gasLeft) * PriorityFee(h, txn)))
  }

  lemma PayLeaves(env: Env, st: State, h: Header, txn: Txn, gasLeft: int, b: Address, k: nat)
    requires WellFormed(env.db, st) && Prevalidated(h, txn)
    ensures var t := Pay(env, st, h, txn, gasLeft);
            && WellFormed(env.db, t)
            && t.selfDestructs == st.selfDestructs && t.touched == st.touched + {txn.sender, h.beneficiary}
            && CurrentStorage(env.db, t, b, k) == CurrentStorage(env.db, st, b, k)
            && Current(env.db, t, b) ==
                 if Exists(env.db, st, b) || b == txn.sender || b == h.beneficiary
                 then Some(Paid(env.db, st, h, txn, gasLeft, b)) else None
  {
    hide WellFormed, Advances, SetBalance, CurrentStorage, OriginalStorage, Load;
    var db := env.db;
    var x, y := gasLeft * EffectivePrice(h, txn), (txn.gasLimit - gasLeft) * PriorityFee(h, txn);
    var v := Balance(db, st, txn.sender) + x;
    var s := SetBalance(db, st, txn.sender, v);
    SetBalanceKeeps(db, st, txn.sender, v);
    SetBalanceSubstate(db, st, txn.sender, v);
    BalanceSet(db, st, txn.sender, v, b);
    BalanceSet(db, st, txn.sender, v, h.beneficiary);
    var w := Balance(db, s, h.beneficiary) + y;
    SetBalanceKeeps(db, s, h.beneficiary, w);
    SetBalanceSubstate(db, s, h.beneficiary, w);
    BalanceSet(db, s, h.beneficiary, w, b);
  }

  /** What an applied transaction leaves at every address and in every slot, in terms of the
      state in which its message ended: the price of the unused gas goes back to the sender and
      the priority fee on the used gas to the miner; then the destroyed accounts go, with fees
      they were paid, and from Spurious Dragon on the touched ones that are empty; the slots of
      accounts that stay keep their current values as the next original ones. */
  lemma TransactionLeaves(env: Env, st: State, h: Header, txn: Txn, run: Execution, b: Address, k: nat)
    requires Settled(env.db, st) && Prevalidated(h, txn) && Metered(env.rev, txn, run)
    requires ExecuteTransaction(env, st, h, txn, run).Applied?
    ensures var r := ExecuteTransaction(env, st, h, txn, run);
            var t := (PrepareBuysGas(env.db, st, h, txn);
                      RunMessage(env, Prepare(env.db, st, h, txn), txn, run,
                                 txn.gasLimit - IntrinsicGas(env.rev, txn)).progress.state);
            var paid := b == txn.sender || b == h.beneficiary;
            var acc := Paid(env.db, t, h, txn, txn.gasLimit - r.gasUsed, b);
            var empty := acc.nonce == 0 && acc.balance == 0 && acc.codeHash == EMPTY_HASH;
            var gone := b in t.selfDestructs || (env.rev >= 3 && (b in t.touched || paid) && empty);
            var stays := (paid || Exists(env.db, t, b)) && !gone;
            var v := if stays then CurrentStorage(env.db, t, b, k) else 0;
            && Current(env.db, r.state, b) == (if stays then Some(acc) else None)
            && CurrentStorage(env.db, r.state, b, k) == OriginalStorage(env.db, r.state, b, k) == v
  {
    hide WellFormed, Prepare, RunMessage, Sweep, Pay, FinalizeTransaction, RefundCovers, SameStorage, BalancesBut,
         IntrinsicGas, Loses, RefundedGas, Held, Current, CurrentStorage, OriginalStorage;
    PrepareBuysGas(env.db, st, h, txn);
    var s := Prepare(env.db, st, h, txn);
    var gas := txn.gasLimit - IntrinsicGas(env.rev, txn);
    MessageFacts(env, s, txn, run, gas);
    var t := RunMessage(env, s, txn, run, gas).progress.state;
    var r := ExecuteTransaction(env, st, h, txn, run);
    var gasLeft := txn.gasLimit - r.gasUsed;
    var u := Pay(env, t, h, txn, gasLeft);
    assert r.state == FinalizeTransaction(Sweep(env, u));
    PayLeaves(env, t, h, txn, gasLeft, b, k);
    SweepExactly(env, u, b);
    SweepSlot(env, u, b, k);
  }

  /** A transaction without recipient creates a contract, with its value as the endowment. */
  lemma CreationMessage(env: Env, s: State, txn: Txn, run: Execution, gas: int, b: Address)
    requires WellFormed(env.db, s) && txn.to.None? && run.frame.actions == [] && txn.sender != run.address
    requires RunMessage(env, s, txn, run, gas).output.status == Success
    ensures var t := RunMessage(env, s, txn, run, gas).progress.state;
            Balance(env.db, t, b) ==
              Balance(env.db, s, b) - When(b == txn.sender, txn.value) + When(b == run.address, txn.value)
  {
    hide WellFormed, CreateMessage, Balance;
    CreationMovesEndowment(env, s, txn.sender, txn.value, gas, run.address, run.frame, b);
  }

  /** A transaction with a recipient calls it, with its value and its own sender. */
  lemma CallTransaction(env: Env, s: State, txn: Txn, run: Execution, gas: int, b: Address)
    requires WellFormed(env.db, s) && txn.to.Some? && run.frame.actions == []
    requires RunMessage(env, s, txn, run, gas).output.status == Success
    ensures var t := RunMessage(env, s, txn, run, gas).progress.state;
            Balance(env.db, t, b) ==
              Balance(env.db, s, b) - When(b == txn.sender, txn.value) + When(b == txn.to.value, txn.value)
  {
    hide WellFormed, CallMessage, Balance;
    var msg := Message(Call, false, txn.to.value, txn.value, gas);
    CallMovesValue(env, s, txn.sender, msg, run.frame, run.precompile, b);
  }

  // ----- Blocks -----

  /** A block of one transaction. */
  lemma OneInBlock(env: Env, st: State, h: Header, used: int, txn: Txn, run: Execution)
    requires Settled(env.db, st) && Admissible(env.rev, h, [txn], [run])
    ensures Prevalidated(h, txn) && Metered(env.rev, txn, run)
    ensures var error := ValidateTransaction(env.db, st, h, h.gasLimit - used, txn);
            var one := ExecuteTransaction(env, st, h, txn, run);
            RunTransactions(env, st, h, used, [txn], [run]) ==
              if error.Some? then BlockFailed(error.value)
              else if one.Rejected? then BlockFailed(one.error)
              else BlockDone(one.state, [Receipt(one.success, used + one.gasUsed)], one.burned)
  {
    hide WellFormed, NothingPending, ExecuteTransaction, ValidateTransaction, Prevalidated, Metered;
    assert Prevalidated(h, [txn][0]) && Metered(env.rev, [txn][0], [run][0]);
    assert [txn][1..] == [] && [run][1..] == [];
    if ValidateTransaction(env.db, st, h, h.gasLimit - used, txn).None?
       && ExecuteTransaction(env, st, h, txn, run).Applied? {
      TransactionConserves(env, st, h, h.gasLimit - used, txn, run);
    }
  }

  lemma AdmissibleParts(rev: Revision, h: Header, xs: seq<Txn>, ys: seq<Txn>, us: seq<Execution>, vs: seq<Execution>)
    requires |xs| == |us| && Admissible(rev, h, xs + ys, us + vs)
    ensures Admissible(rev, h, xs, us) && Admissible(rev, h, ys, vs)
  {
    hide Prevalidated, Metered;
    forall i | 0 <= i < |xs| ensures Prevalidated(h, xs[i]) && Metered(rev, xs[i], us[i]) {
      assert Prevalidated(h, (xs + ys)[i]) && Metered(rev, (xs + ys)[i], (us + vs)[i]);
    }
    forall i | 0 <= i < |ys| ensures Prevalidated(h, ys[i]) && Metered(rev, ys[i], vs[i]) {
      assert Prevalidated(h, (xs + ys)[|xs| + i]) && Metered(rev, (xs + ys)[|xs| + i], (us + vs)[|xs| + i]);
    }
  }

  /** A longer block is its first part, and then the rest from the state and the gas reached;
      the first part's error is its own. With the law for one transaction this says all about
      every block. */
  lemma {:induction false} BlockInParts(
    env: Env, st: State, h: Header, used: int, xs: seq<Txn>, ys: seq<Txn>, us: seq<Execution>, vs: seq<Execution>)
    requires Settled(env.db, st) && |xs| == |us| && Admissible(env.rev, h, xs + ys, us + vs)
    requires 0 <= used <= h.gasLimit
    ensures Admissible(env.rev, h, xs, us) && Admissible(env.rev, h, ys, vs)
    ensures var first := RunTransactions(env, st, h, used, xs, us);
            match first
            case BlockFailed(e) => RunTransactions(env, st, h, used, xs + ys, us + vs) == first
            case BlockDone(s, receipts, burned) =>
              && Settled(env.db, s)
              && RunTransactions(env, st, h, used, xs + ys, us + vs) ==
                   Prefixed(receipts, burned, RunTransactions(env, s, h, LastGas(used, receipts), ys, vs))
    decreases |xs|
  {
    hide WellFormed, NothingPending, ExecuteTransaction, ValidateTransaction, Prevalidated, Metered, Total, NonNegative;
    AdmissibleParts(env.rev, h, xs, ys, us, vs);
    if xs == [] {
      assert xs + ys == ys && us + vs == vs;
      NothingPrefixed(RunTransactions(env, st, h, used, ys, vs));
    } else {
      assert (xs + ys)[0] == xs[0] && (us + vs)[0] == us[0];
      assert (xs + ys)[1..] == xs[1..] + ys && (us + vs)[1..] == us[1..] + vs;
      if ValidateTransaction(env.db, st, h, h.gasLimit - used, xs[0]).None?
         && ExecuteTransaction(env, st, h, xs[0], us[0]).Applied? {
        var one := ExecuteTransaction(env, st, h, xs[0], us[0]);
        OneTransaction(env, st, h, used, xs[0], us[0]);
        BlockInParts(env, one.state, h, used + one.gasUsed, xs[1..], ys, us[1..], vs);
        var rest := RunTransactions(env, one.state, h, used + one.gasUsed, xs[1..], us[1..]);
        if rest.BlockDone? {
          var receipt := Receipt(one.success, used + one.gasUsed);
          assert LastGas(used, [receipt] + rest.receipts) == LastGas(used + one.gasUsed, rest.receipts);
          PrefixedTwice(receipt, one.burned, rest.receipts, rest.burned,
            RunTransactions(env, rest.state, h, LastGas(used + one.gasUsed, rest.receipts), ys, vs));
        }
      }
    }
  }

  lemma NothingPrefixed(r: BlockResult)
    ensures Prefixed([], 0, r) == r
  {
    if r.BlockDone? {
      assert [] + r.receipts == r.receipts;
    }
  }

  lemma PrefixedTwice(receipt: Receipt, x: int, receipts: seq<Receipt>, y: int, r: BlockResult)
    ensures Prefixed([receipt], x, Prefixed(receipts, y, r)) == Prefixed([receipt] + receipts, x + y, r)
  {
    if r.BlockDone? {
      assert [receipt] + (receipts + r.receipts) == [receipt] + receipts + r.receipts;
    }
  }
}
