// Nonces: no tree of nested frames touches the nonce or code of an account that has been
// used and has no code, so every transaction of a sender needs a nonce of its own.
module Nonces {
  import opened Revisions
  import opened Wrappers
  import opened WorldState
  import opened IntraBlock
  import opened Journal
  import opened Operations
  import opened Evm
  import opened Ether
  import opened Refunds
  import opened Processor
  import opened BlockProcessor

  /** Nonce, code and standing of one account are the same. */
  ghost predicate SameIdentity(db: World, s: State, t: State, b: Address) {
    && AccountOf(db, t, b).nonce == AccountOf(db, s, b).nonce
    && AccountOf(db, t, b).codeHash == AccountOf(db, s, b).codeHash
    && (b in t.selfDestructs <==> b in s.selfDestructs)
  }

  /** An account without code and with this nonce, not about to be destroyed. */
  ghost predicate Plain(db: World, st: State, b: Address, n: nat) {
    AccountOf(db, st, b).nonce == n && AccountOf(db, st, b).codeHash == EMPTY_HASH && b !in st.selfDestructs
  }

  lemma SetBalanceIdentity(db: World, s: State, a: Address, v: int, b: Address)
    ensures SameIdentity(db, s, SetBalance(db, s, a, v), b)
  {
    hide SetBalance, AccountOf;
    SetBalanceAccount(db, s, a, v, b);
  }

  lemma SetNonceIdentity(db: World, s: State, a: Address, nonce: nat, b: Address)
    ensures var t := SetNonce(db, s, a, nonce);
            && (a == b && Plain(db, s, b, AccountOf(db, s, b).nonce) ==> Plain(db, t, b, nonce))
            && (a != b ==> SameIdentity(db, s, t, b))
  {
    hide SetNonce, AccountOf;
    SetNonceAccount(db, s, a, nonce, b);
  }

  lemma SetCodeIdentity(db: World, s: State, a: Address, codeHash: nat, b: Address)
    requires a != b
    ensures SameIdentity(db, s, SetCode(db, s, a, codeHash), b)
  {
    hide SetCode, AccountOf;
    SetCodeAccount(db, s, a, codeHash, b);
  }

  lemma CreateContractIdentity(db: World, s: State, a: Address, b: Address)
    requires a != b
    ensures SameIdentity(db, s, CreateContract(db, s, a), b)
  {
  }

  lemma CachesIdentity(db: World, s: State, t: State, b: Address)
    requires Caches(db, s, t)
    ensures SameIdentity(db, s, t, b)
  {
    hide Load, CommittedAt, CurrentAt;
    CachesSameReads(db, s, t);
    assert Current(db, t, b) == Current(db, s, b);
  }

  lemma HostSetStorageIdentity(env: Env, s: State, a: Address, k: nat, v: nat, b: Address)
    requires WellFormed(env.db, s)
    ensures SameIdentity(env.db, s, HostSetStorage(env, s, a, k, v), b)
  {
    hide WellFormed, Caches, CacheSlot, RefundParts, OriginalStorage, CurrentStorage;
    var c := CacheSlot(env.db, s, a, k, false);
    CacheSlotCaches(env.db, s, a, k, false);
    CachesIdentity(env.db, s, c, b);
    SameObjectsSameAccounts(env.db, c, HostSetStorage(env, s, a, k, v));
    assert HostSetStorage(env, s, a, k, v).selfDestructs == c.selfDestructs;
  }

  lemma SelfDestructIdentity(env: Env, s: State, a: Address, beneficiary: Address, b: Address)
    requires a != b
    ensures SameIdentity(env.db, s, HostSelfDestruct(env, s, a, beneficiary), b)
  {
    hide SetBalance;
    var t := RecordSelfdestruct(s, a);
    SameObjectsSameAccounts(env.db, s, t);
    var v := Balance(env.db, t, beneficiary) + Balance(env.db, t, a);
    SetBalanceIdentity(env.db, t, beneficiary, v, b);
    SetBalanceIdentity(env.db, SetBalance(env.db, t, beneficiary, v), a, 0, b);
  }

  lemma TransferIdentity(db: World, s: State, sender: Address, recipient: Address, v: int, b: Address)
    ensures SameIdentity(db, s, Transfer(db, s, sender, recipient, v), b)
  {
    hide SetBalance;
    var u := SubtractFromBalance(db, s, sender, v);
    SetBalanceIdentity(db, s, sender, Balance(db, s, sender) - v, b);
    SetBalanceIdentity(db, u, recipient, Balance(db, u, recipient) + v, b);
  }

  lemma EnterIdentity(db: World, st: State, sender: Address, recipient: Address, msg: Message, b: Address)
    requires WellFormed(db, st)
    ensures SameIdentity(db, st, Enter(db, st, sender, recipient, msg), b)
  {
    hide WellFormed, Keeps, Transfer;
    TransferIdentity(db, st, sender, recipient, msg.value, b);
    SameObjectsSameAccounts(db, st, Touch(st, recipient));
  }

  lemma FinishIdentity(db: World, s: State, reached: Progress, out: Output, b: Address, n: nat)
    requires WellFormed(db, s) && Keeps(db, s, reached.state)
    requires Plain(db, s, b, n) && Plain(db, reached.state, b, n)
    ensures Plain(db, Finish(db, s, reached, out).progress.state, b, n)
  {
    hide WellFormed, Caches, SameStorage, SameBalances;
    if out.status != Success {
      RevertKeeps(db, s, reached.state);
      CachesIdentity(db, s, Finish(db, s, reached, out).progress.state, b);
    }
  }

  lemma FoundIdentity(env: Env, st: State, sender: Address, address: Address, v: nat, b: Address)
    requires WellFormed(env.db, st) && address != b
    ensures SameIdentity(env.db, st, Found(env, st, sender, address, v), b)
  {
    hide WellFormed, Keeps, Transfer, CreateContract, SetNonce, Balance;
    var s := CreateContract(env.db, st, address);
    CreateContractIdentity(env.db, st, address, b);
    SetNonceIdentity(env.db, s, address, 1, b);
    var t := if env.rev >= SPURIOUS then SetNonce(env.db, s, address, 1) else s;
    TransferIdentity(env.db, t, sender, address, v, b);
  }

  lemma AnnounceIdentity(db: World, st: State, sender: Address, address: Address, b: Address, n: nat)
    requires WellFormed(db, st) && Plain(db, st, b, n)
    ensures Plain(db, Announce(db, st, sender, address), b, if sender == b then n + 1 else n)
  {
    hide WellFormed, Keeps, SetNonce, SameStorage, SameBalances;
    var s := SetNonce(db, st, sender, AccountOf(db, st, sender).nonce + 1);
    SetNonceIdentity(db, st, sender, AccountOf(db, st, sender).nonce + 1, b);
    SameObjectsSameAccounts(db, s, AccessAccount(s, address));
  }

  // ----- Every tree of frames -----

  /** A message call with everything nested in it leaves a plain account plain. */
  lemma {:induction false} CallKeepsPlain(
    env: Env, st: State, sender: Address, msg: Message, frame: Frame, pre: Precompile, b: Address, n: nat)
    requires WellFormed(env.db, st) && Plain(env.db, st, b, n) && n > 0
    requires !msg.kind.Call? ==> Exists(env.db, st, sender) && sender != b
    ensures Plain(env.db, CallMessage(env, st, sender, msg, frame, pre).progress.state, b, n)
    decreases frame, 0
  {
    hide WellFormed, Keeps, Enter, RunActions, Caches, Balance, Exists, Finish, Plain;
    CachesNothing(env.db, st);
    var recipient := if msg.kind.Call? then msg.target else sender;
    if (msg.kind.DelegateCall? || Balance(env.db, st, sender) >= msg.value)
       && !(msg.value == 0 && env.rev >= SPURIOUS && !IsPrecompiled(env.rev, msg.target)
            && !Exists(env.db, st, msg.target)) {
      var s := Enter(env.db, st, sender, recipient, msg);
      EnterIdentity(env.db, st, sender, recipient, msg, b);
      StaysPlain(env.db, st, s, b, n);
      if IsPrecompiled(env.rev, msg.target) {
        FinishIdentity(env.db, st, Progress(s, 0), PrecompileOutput(msg.gas, pre), b, n);
      } else if HasCode(env.db, st, msg.target) {
        PlainHasNoCode(env.db, st, b, n);
        EnteredExists(env.db, st, s, sender, recipient, msg);
        var reached := RunActions(env, s, recipient, frame.actions);
        ActionsKeepPlain(env, s, recipient, frame.actions, b, n);
        KeepsTwice(env.db, st, s, reached.state);
        FinishIdentity(env.db, st, reached, Output(frame.status, frame.gasLeft), b, n);
      }
    }
  }

  lemma StaysPlain(db: World, s: State, t: State, b: Address, n: nat)
    requires Plain(db, s, b, n) && SameIdentity(db, s, t, b)
    ensures Plain(db, t, b, n)
  {
  }

  lemma PlainHasNoCode(db: World, s: State, b: Address, n: nat)
    requires Plain(db, s, b, n)
    ensures !HasCode(db, s, b) && AccountOf(db, s, b).nonce == n
  {
  }

  lemma DeployIdentity(env: Env, reached: Progress, address: Address, frame: Frame, b: Address, n: nat)
    requires WellFormed(env.db, reached.state) && Plain(env.db, reached.state, b, n) && address != b
    ensures Plain(env.db, Deploy(env, reached, address, frame).progress.state, b, n)
  {
    hide WellFormed, Keeps, SetCode;
    SetCodeIdentity(env.db, reached.state, address, frame.codeHash, b);
  }

  /** A creation does too, except that it raises the creator's own nonce by one. */
  lemma {:induction false} CreateKeepsPlain(
    env: Env, st: State, sender: Address, endowment: nat, gas: int, address: Address, frame: Frame, b: Address, n: nat)
    requires WellFormed(env.db, st) && Plain(env.db, st, b, n) && (sender != b ==> n > 0)
    ensures Plain(env.db, CreateMessage(env, st, sender, endowment, gas, address, frame).progress.state, b,
                  if sender == b && Balance(env.db, st, sender) >= endowment then n + 1 else n)
    decreases frame, 0
  {
    hide WellFormed, Keeps, Announce, Found, RunActions, HasCode, Caches, Balance, Deploy, Finish, SameStorage, Plain;
    CachesNothing(env.db, st);
    if Balance(env.db, st, sender) >= endowment {
      var m := if sender == b then n + 1 else n;
      var s := Announce(env.db, st, sender, address);
      AnnounceIdentity(env.db, st, sender, address, b, n);
      KeepsIsWellFormed(env.db, st, s);
      PlainHasNoCode(env.db, s, b, m);
      if AccountOf(env.db, s, address).nonce == 0 && !HasCode(env.db, s, address) {
        var t := Found(env, s, sender, address, endowment);
        FoundIdentity(env, s, sender, address, endowment, b);
        StaysPlain(env.db, s, t, b, m);
        KeepsIsWellFormed(env.db, s, t);
        var reached := RunActions(env, t, address, frame.actions);
        ActionsKeepPlain(env, t, address, frame.actions, b, m);
        KeepsTwice(env.db, s, t, reached.state);
        KeepsIsWellFormed(env.db, s, reached.state);
        var deployed := Deploy(env, reached, address, frame);
        DeployIdentity(env, reached, address, frame, b, m);
        KeepsTwice(env.db, s, reached.state, deployed.progress.state);
        FinishIdentity(env.db, s, deployed.progress, deployed.output, b, m);
      }
    }
  }

  lemma {:induction false} ActionKeepsPlain(env: Env, st: State, self: Address, act: Action, b: Address, n: nat)
    requires WellFormed(env.db, st) && Exists(env.db, st, self)
    requires Plain(env.db, st, b, n) && n > 0 && self != b
    ensures Plain(env.db, RunAction(env, st, self, act).state, b, n)
    decreases act, 0
  {
    hide WellFormed, Keeps, HostSetStorage, HostSelfDestruct, Caches, GetObject, CacheSlot, SameStorage, SetBalance,
         SameBalances, CallMessage, CreateMessage, Exists, Balance, StorageBut, AccountOf;
    var r := RunAction(env, st, self, act);
    match act
    case ReadAccount(a) =>
      GetObjectCaches(env.db, st, a);
      CachesIdentity(env.db, st, r.state, b);
    case SLoad(k) =>
      CacheSlotCaches(env.db, st, self, k, false);
      CachesIdentity(env.db, st, r.state, b);
    case SStore(k, v) =>
      HostSetStorageIdentity(env, st, self, k, v, b);
    case EmitLog(log) =>
      SameObjectsIdentity(env.db, st, r.state, b);
    case WarmAccount(a) =>
      SameObjectsIdentity(env.db, st, r.state, b);
    case WarmSlot(a, k) =>
      SameObjectsIdentity(env.db, st, r.state, b);
    case SelfDestruct(a) =>
      SelfDestructIdentity(env, st, self, a, b);
    case CallOut(msg, callee, pre) =>
      CallKeepsPlain(env, st, self, msg, callee, pre, b, n);
    case CreateOut(endowment, gas, address, init) =>
      CreateKeepsPlain(env, st, self, endowment, gas, address, init, b, n);
  }

  lemma SameObjectsIdentity(db: World, s: State, t: State, b: Address)
    requires s.objects == t.objects && s.selfDestructs == t.selfDestructs
    ensures SameIdentity(db, s, t, b)
  {
  }

  lemma {:induction false} ActionsKeepPlain(
    env: Env, st: State, self: Address, actions: seq<Action>, b: Address, n: nat)
    requires WellFormed(env.db, st) && Exists(env.db, st, self)
    requires Plain(env.db, st, b, n) && n > 0 && self != b
    ensures Plain(env.db, RunActions(env, st, self, actions).state, b, n)
    decreases actions, 0
  {
    hide WellFormed, Advances, RunAction, Exists, SameStorage, Plain;
    if actions != [] {
      var p := RunAction(env, st, self, actions[0]);
      ActionKeepsPlain(env, st, self, actions[0], b, n);
      ActionsKeepPlain(env, p.state, self, actions[1..], b, n);
    }
  }

  // ----- Transactions -----

  /** An account without code and with this nonce. */
  ghost predicate HasNonce(db: World, st: State, b: Address, n: nat) {
    AccountOf(db, st, b).nonce == n && AccountOf(db, st, b).codeHash == EMPTY_HASH
  }

  lemma {:induction false} WarmSlotsFrame(st: State, a: Address, slots: seq<nat>)
    ensures WarmSlots(st, a, slots).objects == st.objects && WarmSlots(st, a, slots).selfDestructs == st.selfDestructs
    decreases |slots|
  {
    if slots != [] {
      WarmSlotsFrame(AccessStorage(st, a, slots[0]), a, slots[1..]);
    }
  }

  lemma {:induction false} WarmListFrame(st: State, items: seq<AccessItem>)
    ensures WarmList(st, items).objects == st.objects && WarmList(st, items).selfDestructs == st.selfDestructs
    decreases |items|
  {
    hide WarmSlots;
    if items != [] {
      var t := AccessAccount(st, items[0].address);
      var u := WarmSlots(t, items[0].address, items[0].slots);
      WarmSlotsFrame(t, items[0].address, items[0].slots);
      WarmListFrame(u, items[1..]);
    }
  }

  /** Before the message a plain call raises the sender's nonce, and no other. */
  lemma PrepareNonce(db: World, st: State, h: Header, txn: Txn, b: Address, n: nat)
    requires Prevalidated(h, txn) && HasNonce(db, st, b, n) && (b == txn.sender ==> n == txn.nonce)
    ensures Plain(db, Prepare(db, st, h, txn), b, if b == txn.sender && txn.to.Some? then n + 1 else n)
  {
    hide SetBalance, SetNonce, WarmList, AccountOf;
    var c := ClearJournalAndSubstate(st);
    SameObjectsSame(db, st, c, b);
    var s := AccessAccount(c, txn.sender);
    SameObjectsSame(db, c, s, b);
    var v := Balance(db, s, txn.sender) - txn.gasLimit * EffectivePrice(h, txn);
    SetBalanceAccount(db, s, txn.sender, v, b);
    var t := SetBalance(db, s, txn.sender, v);
    var u := match txn.to
             case Some(to) => SetNonce(db, AccessAccount(t, to), txn.sender, txn.nonce + 1)
             case None => t;
    if txn.to.Some? {
      var w := AccessAccount(t, txn.to.value);
      SameObjectsSame(db, t, w, b);
      SetNonceAccount(db, w, txn.sender, txn.nonce + 1, b);
    }
    WarmListFrame(u, txn.accessList);
    SameObjectsSame(db, u, WarmList(u, txn.accessList), b);
  }

  lemma SameObjectsSame(db: World, s: State, t: State, b: Address)
    requires s.objects == t.objects
    ensures AccountOf(db, t, b) == AccountOf(db, s, b)
  {
  }

  /** After its gas is bought, a validated sender can still pay the value. */
  lemma ValueIsLeft(db: World, st: State, h: Header, available: int, txn: Txn)
    requires WellFormed(db, st) && Prevalidated(h, txn) && ValidateTransaction(db, st, h, available, txn).None?
    ensures Balance(db, Prepare(db, st, h, txn), txn.sender) >= txn.value
  {
    hide WellFormed, Prepare, SameStorage, Exists, Balance;
    PrepareBuysGas(db, st, h, txn);
    Monotone(txn.gasLimit, EffectivePrice(h, txn), txn.maxFee);
    assert Balance(db, st, txn.sender) >= txn.gasLimit * txn.maxFee + txn.value by {
      ValidatedBalance(db, st, h, available, txn);
    }
  }

  lemma ValidatedBalance(db: World, st: State, h: Header, available: int, txn: Txn)
    requires ValidateTransaction(db, st, h, available, txn).None?
    ensures Balance(db, st, txn.sender) >= txn.gasLimit * txn.maxFee + txn.value
    ensures HasNonce(db, st, txn.sender, txn.nonce) && txn.gasLimit <= available
  {
  }

  /** After the message the sender's nonce is one above the transaction's. */
  lemma MessageNonce(env: Env, s: State, txn: Txn, run: Execution, gas: int, b: Address, n: nat)
    requires WellFormed(env.db, s) && Balance(env.db, s, txn.sender) >= txn.value
    requires Plain(env.db, s, b, if b == txn.sender && txn.to.Some? then n + 1 else n)
    requires b != txn.sender ==> n > 0
    ensures Plain(env.db, RunMessage(env, s, txn, run, gas).progress.state, b, if b == txn.sender then n + 1 else n)
  {
    hide WellFormed, Plain, CallMessage, CreateMessage, Balance;
    match txn.to
    case Some(to) =>
      CallKeepsPlain(env, s, txn.sender, Message(Call, false, to, txn.value, gas), run.frame, run.precompile, b,
        if b == txn.sender then n + 1 else n);
    case None =>
      CreateKeepsPlain(env, s, txn.sender, txn.value, gas, run.address, run.frame, b, n);
  }

  lemma PayIdentity(env: Env, s: State, h: Header, txn: Txn, gasLeft: int, b: Address)
    requires Prevalidated(h, txn)
    ensures SameIdentity(env.db, s, Pay(env, s, h, txn, gasLeft), b)
  {
    hide SetBalance, Balance;
    var x, y := gasLeft * EffectivePrice(h, txn), (txn.gasLimit - gasLeft) * PriorityFee(h, txn);
    SetBalanceIdentity(env.db, s, txn.sender, Balance(env.db, s, txn.sender) + x, b);
    var t := AddToBalance(env.db, s, txn.sender, x);
    SetBalanceIdentity(env.db, t, h.beneficiary, Balance(env.db, t, h.beneficiary) + y, b);
  }

  /** Sweeping spares an account that was used and not destroyed. */
  lemma SweepSpares(env: Env, s: State, b: Address, n: nat)
    requires WellFormed(env.db, s) && Plain(env.db, s, b, n) && n > 0
    ensures HasNonce(env.db, FinalizeTransaction(Sweep(env, s)), b, n)
  {
    hide WellFormed, Destruct, Load;
    var t := Destruct(env.db, s, s.selfDestructs);
    DestructRemoves(env.db, s, s.selfDestructs);
    DestructWellFormed(env.db, s, s.selfDestructs);
    assert Current(env.db, t, b) == Current(env.db, s, b);
    var dead := set a | a in t.touched && IsDead(env.db, t, a);
    DestructRemoves(env.db, t, dead);
    var u := Sweep(env, s);
    assert Current(env.db, u, b) == Current(env.db, s, b);
    SameObjectsSame(env.db, u, FinalizeTransaction(u), b);
  }

  /** Whatever the message does, an applied transaction leaves its sender with a nonce one
      higher, and leaves every other used account without code its nonce. */
  lemma TransactionNonce(env: Env, st: State, h: Header, available: int, txn: Txn, run: Execution, b: Address, n: nat)
    requires Settled(env.db, st) && Prevalidated(h, txn) && Metered(env.rev, txn, run)
    requires ValidateTransaction(env.db, st, h, available, txn).None?
    requires ExecuteTransaction(env, st, h, txn, run).Applied?
    requires HasNonce(env.db, st, b, n) && (b != txn.sender ==> n > 0)
    ensures HasNonce(env.db, ExecuteTransaction(env, st, h, txn, run).state, b, if b == txn.sender then n + 1 else n)
  {
    hide WellFormed, Prepare, RunMessage, Sweep, Pay, FinalizeTransaction, RefundCovers, SameStorage, BalancesBut,
         Balance,
         Exists, IntrinsicGas, RefundedGas, Held, NothingPending, Plain, HasNonce, ValidateTransaction, Loses;
    ValidatedBalance(env.db, st, h, available, txn);
    OneNonce(env.db, st, b, n, txn);
    PrepareNonce(env.db, st, h, txn, b, n);
    PrepareBuysGas(env.db, st, h, txn);
    ValueIsLeft(env.db, st, h, available, txn);
    var s := Prepare(env.db, st, h, txn);
    var gas := txn.gasLimit - IntrinsicGas(env.rev, txn);
    var m := if b == txn.sender then n + 1 else n;
    MessageFacts(env, s, txn, run, gas);
    MessageNonce(env, s, txn, run, gas, b, n);
    var out := RunMessage(env, s, txn, run, gas);
    var t := out.progress.state;
    var gasLeft := out.output.gasLeft + RefundedGas(env.rev, t, txn.gasLimit, out.output.gasLeft);
    PayIdentity(env, t, h, txn, gasLeft, b);
    var u := Pay(env, t, h, txn, gasLeft);
    StaysPlain(env.db, t, u, b, m);
    PayTotal(env, t, h, txn, gasLeft);
    SweepSpares(env, u, b, m);
  }

  lemma OneNonce(db: World, st: State, b: Address, n: nat, txn: Txn)
    requires HasNonce(db, st, b, n) && HasNonce(db, st, txn.sender, txn.nonce)
    ensures b == txn.sender ==> n == txn.nonce
  {
  }

  /** No transaction can be applied twice in a row: replaying it fails on its nonce, with any
      header and any amount of gas available. */
  lemma ReplayIsRejected(
    env: Env, st: State, h: Header, available: int, txn: Txn, run: Execution, h': Header, available': int)
    requires Settled(env.db, st) && Prevalidated(h, txn) && Metered(env.rev, txn, run)
    requires ValidateTransaction(env.db, st, h, available, txn).None?
    requires ExecuteTransaction(env, st, h, txn, run).Applied?
    ensures ValidateTransaction(env.db, ExecuteTransaction(env, st, h, txn, run).state, h', available', txn) ==
      Some(WrongNonce)
  {
    hide WellFormed, NothingPending, ExecuteTransaction;
    ValidatedBalance(env.db, st, h, available, txn);
    TransactionNonce(env, st, h, available, txn, run, txn.sender, txn.nonce);
  }

  // ----- Blocks -----

  /** From an account's nonce on, a block takes its transactions only with higher nonces. */
  lemma {:induction false} NoncesFrom(
    env: Env, st: State, h: Header, used: int, txs: seq<Txn>, runs: seq<Execution>, b: Address, n: nat)
    requires Settled(env.db, st) && Admissible(env.rev, h, txs, runs)
    requires RunTransactions(env, st, h, used, txs, runs).BlockDone?
    requires HasNonce(env.db, st, b, n) && n > 0
    ensures forall i | 0 <= i < |txs| :: txs[i].sender == b ==> txs[i].nonce >= n
    decreases |txs|
  {
    hide WellFormed, NothingPending, ExecuteTransaction, ValidateTransaction, Total, NonNegative, Prevalidated,
         Metered, HasNonce;
    if txs != [] {
      var one := ExecuteTransaction(env, st, h, txs[0], runs[0]);
      ValidatedBalance(env.db, st, h, h.gasLimit - used, txs[0]);
      OneNonce(env.db, st, b, n, txs[0]);
      TransactionConserves(env, st, h, h.gasLimit - used, txs[0], runs[0]);
      TransactionNonce(env, st, h, h.gasLimit - used, txs[0], runs[0], b, n);
      var m := if b == txs[0].sender then n + 1 else n;
      NoncesFrom(env, one.state, h, used + one.gasUsed, txs[1..], runs[1..], b, m);
    }
  }

  /** In every executed block the transactions of one sender carry strictly rising nonces;
      in particular no transaction occurs twice. */
  lemma {:induction false} BlockNoncesRise(
    env: Env, st: State, h: Header, used: int, txs: seq<Txn>, runs: seq<Execution>, i: nat, j: nat)
    requires Settled(env.db, st) && Admissible(env.rev, h, txs, runs)
    requires RunTransactions(env, st, h, used, txs, runs).BlockDone?
    requires i < j < |txs| && txs[i].sender == txs[j].sender
    ensures txs[i].nonce < txs[j].nonce
    decreases |txs|
  {
    hide WellFormed, NothingPending, ExecuteTransaction, ValidateTransaction, Total, NonNegative, Prevalidated,
         Metered, HasNonce;
    var one := ExecuteTransaction(env, st, h, txs[0], runs[0]);
    TransactionConserves(env, st, h, h.gasLimit - used, txs[0], runs[0]);
    if i > 0 {
      BlockNoncesRise(env, one.state, h, used + one.gasUsed, txs[1..], runs[1..], i - 1, j - 1);
    } else {
      var b := txs[0].sender;
      ValidatedBalance(env.db, st, h, h.gasLimit - used, txs[0]);
      TransactionNonce(env, st, h, h.gasLimit - used, txs[0], runs[0], b, txs[0].nonce);
      NoncesFrom(env, one.state, h, used + one.gasUsed, txs[1..], runs[1..], b, txs[0].nonce + 1);
      assert txs[1..][j - 1].nonce >= txs[0].nonce + 1;
    }
  }
}
