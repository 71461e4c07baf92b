// A block whose undo record is wrong: one transaction destroys a contract, the next creates
// it again at the same address and writes a slot that held a value before the block.
module Recreation {
  import opened Revisions
  import opened Wrappers
  import opened WorldState
  import opened IntraBlock
  import opened Journal
  import opened Operations
  import opened Evm
  import opened EvmTheorems
  import opened Ether
  import opened Refunds
  import opened Processor
  import opened BlockProcessor
  import opened Nonces
  import opened Rewards
  import opened UndoRecords

  // ----- What stays known through single operations -----

  /** Cached accounts and wiped addresses stay. */
  ghost predicate Grows(s: State, t: State) {
    s.objects.Keys <= t.objects.Keys && s.incarnations.Keys <= t.incarnations.Keys
  }

  lemma SetBalanceGrows(db: World, s: State, a: Address, v: int)
    ensures Grows(s, SetBalance(db, s, a, v)) && a in SetBalance(db, s, a, v).objects
  {
  }

  lemma TransferGrows(db: World, s: State, sender: Address, recipient: Address, v: int)
    ensures Grows(s, Transfer(db, s, sender, recipient, v))
      && recipient in Transfer(db, s, sender, recipient, v).objects
  {
    hide SetBalance, Balance;
    var x := Balance(db, s, sender) - v;
    SetBalanceGrows(db, s, sender, x);
    var u := SetBalance(db, s, sender, x);
    SetBalanceGrows(db, u, recipient, Balance(db, u, recipient) + v);
  }

  lemma SetNonceGrows(db: World, s: State, a: Address, n: nat)
    ensures Grows(s, SetNonce(db, s, a, n))
  {
  }

  lemma SetCodeGrows(db: World, s: State, a: Address, codeHash: nat)
    ensures Grows(s, SetCode(db, s, a, codeHash))
  {
  }

  lemma HostSetStorageGrows(env: Env, s: State, a: Address, k: nat, v: nat)
    ensures Grows(s, HostSetStorage(env, s, a, k, v))
  {
    hide RefundParts, CurrentStorage, OriginalStorage;
  }

  lemma PayGrows(env: Env, s: State, h: Header, txn: Txn, gasLeft: int)
    requires Prevalidated(h, txn)
    ensures Grows(s, Pay(env, s, h, txn, gasLeft))
  {
    hide SetBalance, Balance;
    var x, y := gasLeft * EffectivePrice(h, txn), (txn.gasLimit - gasLeft) * PriorityFee(h, txn);
    SetBalanceGrows(env.db, s, txn.sender, Balance(env.db, s, txn.sender) + x);
    var t := AddToBalance(env.db, s, txn.sender, x);
    SetBalanceGrows(env.db, t, h.beneficiary, Balance(env.db, t, h.beneficiary) + y);
  }

  lemma DestructGrows(db: World, s: State, gone: set<Address>)
    ensures Grows(s, Destruct(db, s, gone)) && gone <= Destruct(db, s, gone).incarnations.Keys
  {
    var t := Destruct(db, s, gone);
    forall a | a in s.objects ensures a in t.objects {
      assert Load(db, s, a).Some?;
    }
  }

  lemma SweepGrows(env: Env, s: State)
    ensures Grows(s, FinalizeTransaction(Sweep(env, s)))
    ensures s.selfDestructs <= FinalizeTransaction(Sweep(env, s)).incarnations.Keys
  {
    hide Destruct, IsDead;
    var t := Destruct(env.db, s, s.selfDestructs);
    DestructGrows(env.db, s, s.selfDestructs);
    DestructGrows(env.db, t, set a | a in t.touched && IsDead(env.db, t, a));
  }

  lemma WarmListGrows(s: State, items: seq<AccessItem>)
    ensures Grows(s, WarmList(s, items))
  {
    WarmListFrame(s, items);
    WarmListIncarnations(s, items);
  }

  lemma {:induction false} WarmListIncarnations(s: State, items: seq<AccessItem>)
    ensures WarmList(s, items).incarnations == s.incarnations
    decreases |items|
  {
    hide WarmSlots;
    if items != [] {
      var t := AccessAccount(s, items[0].address);
      WarmSlotsIncarnations(t, items[0].address, items[0].slots);
      WarmListIncarnations(WarmSlots(t, items[0].address, items[0].slots), items[1..]);
    }
  }

  lemma {:induction false} WarmSlotsIncarnations(s: State, a: Address, slots: seq<nat>)
    ensures WarmSlots(s, a, slots).incarnations == s.incarnations
    decreases |slots|
  {
    if slots != [] {
      WarmSlotsIncarnations(AccessStorage(s, a, slots[0]), a, slots[1..]);
    }
  }

  /** Preparing a plain call changes no account but the sender's, and forgets nothing. */
  lemma PrepareKeepsOthers(db: World, st: State, h: Header, txn: Txn, b: Address)
    requires Prevalidated(h, txn) && txn.to.Some? && b != txn.sender
    ensures var s := Prepare(db, st, h, txn);
            AccountOf(db, s, b) == AccountOf(db, st, b) && Grows(st, s) && s.selfDestructs == {}
  {
    hide SetBalance, SetNonce, WarmList, AccountOf;
    var c := ClearJournalAndSubstate(st);
    SameObjectsSame(db, st, c, b);
    var s := AccessAccount(c, txn.sender);
    SameObjectsSame(db, c, s, b);
    var v := Balance(db, s, txn.sender) - txn.gasLimit * EffectivePrice(h, txn);
    SetBalanceAccount(db, s, txn.sender, v, b);
    SetBalanceGrows(db, s, txn.sender, v);
    var t := SetBalance(db, s, txn.sender, v);
    var w := AccessAccount(t, txn.to.value);
    SameObjectsSame(db, t, w, b);
    SetNonceAccount(db, w, txn.sender, txn.nonce + 1, b);
    SetNonceGrows(db, w, txn.sender, txn.nonce + 1);
    var u := SetNonce(db, w, txn.sender, txn.nonce + 1);
    WarmListFrame(u, txn.accessList);
    WarmListGrows(u, txn.accessList);
    SameObjectsSame(db, u, WarmList(u, txn.accessList), b);
  }

  // ----- Destroying -----

  lemma SelfDestructRecords(env: Env, s: State, a: Address, beneficiary: Address)
    ensures var t := HostSelfDestruct(env, s, a, beneficiary);
            a in t.selfDestructs && a in t.objects && Grows(s, t)
  {
    hide SetBalance;
    var t := RecordSelfdestruct(s, a);
    var v := Balance(env.db, t, beneficiary) + Balance(env.db, t, a);
    SetBalanceAccount(env.db, t, beneficiary, v, a);
    SetBalanceGrows(env.db, t, beneficiary, v);
    var u := SetBalance(env.db, t, beneficiary, v);
    SetBalanceAccount(env.db, u, a, 0, a);
    SetBalanceGrows(env.db, u, a, 0);
  }

  /** What a call does when it runs to success: the transfer, then the frame's actions. */
  lemma SuccessfulCall(
    env: Env, s: State, sender: Address, c: Address, value: nat, gas: int, frame: Frame, pre: Precompile)
    requires WellFormed(env.db, s) && HasCode(env.db, s, c) && !IsPrecompiled(env.rev, c)
    requires Balance(env.db, s, sender) >= value && frame.status == Success
    ensures var e := Transfer(env.db, s, sender, c, value);
            && WellFormed(env.db, e) && Exists(env.db, e, c)
            && CallMessage(env, s, sender, Message(Call, false, c, value, gas), frame, pre).progress.state
               == RunActions(env, e, c, frame.actions).state
            && CallMessage(env, s, sender, Message(Call, false, c, value, gas), frame, pre).output
               == Output(Success, frame.gasLeft)
  {
    hide WellFormed, Keeps, Transfer, RunActions, HasCode, Caches, Balance, Exists;
    CachesNothing(env.db, s);
    CodeExists(env.db, s, c);
    var msg := Message(Call, false, c, value, gas);
    var e := Enter(env.db, s, sender, c, msg);
    TransferKeeps(env.db, s, sender, c, value);
    EnteredExists(env.db, s, e, sender, c, msg);
    KeepsTwice(env.db, s, e, RunActions(env, e, c, frame.actions).state);
  }

  /** The account is in the cache as removed, and its address is known to have been wiped. */
  ghost predicate Gone(db: World, st: State, c: Address) {
    c in st.objects && c in st.incarnations && Current(db, st, c).None?
  }

  lemma SweepRemoves(env: Env, s: State, c: Address)
    requires WellFormed(env.db, s) && c in s.selfDestructs && c in s.objects
    ensures Gone(env.db, FinalizeTransaction(Sweep(env, s)), c)
  {
    hide WellFormed, Destruct, Load, IsDead;
    SweepGrows(env, s);
    var t := Destruct(env.db, s, s.selfDestructs);
    DestructRemoves(env.db, s, s.selfDestructs);
    DestructWellFormed(env.db, s, s.selfDestructs);
    DestructRemoves(env.db, t, set a | a in t.touched && IsDead(env.db, t, a));
    var u := Sweep(env, s);
    assert Current(env.db, u, c) == None;
    SameCurrent(env.db, u, FinalizeTransaction(u), c);
  }

  lemma SameCurrent(db: World, s: State, t: State, a: Address)
    requires s.objects == t.objects
    ensures Current(db, t, a) == Current(db, s, a)
  {
  }

  lemma SweepSparesCode(env: Env, s: State, f: Address)
    requires WellFormed(env.db, s) && HasCode(env.db, s, f) && f !in s.selfDestructs
    ensures HasCode(env.db, FinalizeTransaction(Sweep(env, s)), f)
  {
    hide WellFormed, Destruct, Load;
    var t := Destruct(env.db, s, s.selfDestructs);
    DestructRemoves(env.db, s, s.selfDestructs);
    DestructWellFormed(env.db, s, s.selfDestructs);
    assert Current(env.db, t, f) == Current(env.db, s, f);
    DestructRemoves(env.db, t, set a | a in t.touched && IsDead(env.db, t, a));
    var u := Sweep(env, s);
    assert Current(env.db, u, f) == Current(env.db, s, f);
    SameCurrent(env.db, u, FinalizeTransaction(u), f);
  }

  /** A transaction that makes the contract destroy itself leaves it gone, and leaves any other
      contract its code. */
  lemma Destroys(
    env: Env, st: State, h: Header, available: int, txn: Txn, run: Execution, c: Address, b: Address, f: Address)
    requires Settled(env.db, st) && Prevalidated(h, txn) && Metered(env.rev, txn, run)
    requires ValidateTransaction(env.db, st, h, available, txn).None? && txn.gasLimit >= IntrinsicGas(env.rev, txn)
    requires txn.to == Some(c) && HasCode(env.db, st, c) && !IsPrecompiled(env.rev, c)
    requires run.frame.actions == [SelfDestruct(b)] && run.frame.status == Success
    requires f != c && HasCode(env.db, st, f)
    ensures var r := ExecuteTransaction(env, st, h, txn, run);
            r.Applied? && Gone(env.db, r.state, c) && HasCode(env.db, r.state, f)
  {
    hide WellFormed, Prepare, Sweep, Pay, FinalizeTransaction, RefundCovers, SameStorage, BalancesBut, Balance, Exists,
         IntrinsicGas, RefundedGas, Held, NothingPending, HasNonce, ValidateTransaction, Loses, CallMessage, Transfer,
         RunActions, HostSelfDestruct, AccountOf, Grows, Gone;
    ValidatedBalance(env.db, st, h, available, txn);
    SendersHaveNoCode(env.db, st, txn);
    PrepareBuysGas(env.db, st, h, txn);
    PrepareKeepsOthers(env.db, st, h, txn, c);
    PrepareKeepsOthers(env.db, st, h, txn, f);
    ValueIsLeft(env.db, st, h, available, txn);
    var s := Prepare(env.db, st, h, txn);
    var gas := txn.gasLimit - IntrinsicGas(env.rev, txn);
    MessageFacts(env, s, txn, run, gas);
    SuccessfulCall(env, s, txn.sender, c, txn.value, gas, run.frame, run.precompile);
    var e := Transfer(env.db, s, txn.sender, c, txn.value);
    OnlyAction(env, e, c, SelfDestruct(b));
    var t := HostSelfDestruct(env, e, c, b);
    SelfDestructRecords(env, e, c, b);
    TransferIdentity(env.db, s, txn.sender, c, txn.value, f);
    SelfDestructIdentity(env, e, c, b, f);
    var out := RunMessage(env, s, txn, run, gas);
    assert out.progress.state == t;
    var gasLeft := out.output.gasLeft + RefundedGas(env.rev, t, txn.gasLimit, out.output.gasLeft);
    PayTotal(env, t, h, txn, gasLeft);
    PayIdentity(env, t, h, txn, gasLeft, c);
    PayIdentity(env, t, h, txn, gasLeft, f);
    PayGrows(env, t, h, txn, gasLeft);
    var u := Pay(env, t, h, txn, gasLeft);
    StillCached(t, u, c);
    SweepRemoves(env, u, c);
    SweepSparesCode(env, u, f);
  }

  lemma StillCached(s: State, t: State, a: Address)
    requires Grows(s, t)
    ensures a in s.objects ==> a in t.objects
    ensures a in s.incarnations ==> a in t.incarnations
  {
  }

  lemma SendersHaveNoCode(db: World, st: State, txn: Txn)
    requires HasNonce(db, st, txn.sender, txn.nonce)
    ensures !HasCode(db, st, txn.sender)
  {
  }

  // ----- Creating again -----

  /** The new contract: nonce one, empty storage, cached, wiped. */
  lemma FoundFresh(env: Env, s: State, f: Address, c: Address, k: nat)
    requires WellFormed(env.db, s) && env.rev >= SPURIOUS
    ensures var t := Found(env, s, f, c, 0);
            && AccountOf(env.db, t, c).nonce == 1 && CurrentStorage(env.db, t, c, k) == 0
            && c in t.objects && c in t.incarnations && t.selfDestructs == s.selfDestructs
  {
    hide WellFormed, Advances, Transfer, CreateContract, SetNonce, Balance, Exists, AccountOf, OriginalStorage,
         CurrentStorage;
    var db := env.db;
    var u := CreateContract(db, s, c);
    CreateContractKeeps(db, s, c);
    CreatedIsCached(db, s, c);
    SetNonceKeeps(db, u, c, 1);
    SetNonceAccount(db, u, c, 1, c);
    SetNonceGrows(db, u, c, 1);
    var w := SetNonce(db, u, c, 1);
    TransferKeeps(db, w, f, c, 0);
    TransferIdentity(db, w, f, c, 0, c);
    TransferGrows(db, w, f, c, 0);
    TransferKeepsDestructs(db, w, f, c, 0);
    assert CurrentStorage(db, Transfer(db, w, f, c, 0), c, k) == CurrentStorage(db, w, c, k);
  }

  lemma CreatedIsCached(db: World, s: State, c: Address)
    ensures var t := CreateContract(db, s, c);
            c in t.objects && c in t.incarnations && t.selfDestructs == s.selfDestructs
  {
  }

  lemma TransferKeepsDestructs(db: World, s: State, a: Address, b: Address, v: int)
    ensures Transfer(db, s, a, b, v).selfDestructs == s.selfDestructs
  {
    hide SetBalance, Balance;
    var x := Balance(db, s, a) - v;
    SetBalanceAccount(db, s, a, x, a);
    var u := SetBalance(db, s, a, x);
    SetBalanceAccount(db, u, b, Balance(db, u, b) + v, b);
  }

  /** The contract is there, known to have been wiped, with this value in the slot. */
  ghost predicate Back(db: World, st: State, c: Address, k: nat, v: nat) {
    && c in st.objects && c in st.incarnations && c !in st.selfDestructs
    && AccountOf(db, st, c).nonce == 1 && CurrentStorage(db, st, c, k) == v
  }

  lemma WriteFresh(env: Env, t: State, c: Address, k: nat, v: nat)
    requires WellFormed(env.db, t) && Exists(env.db, t, c) && Back(env.db, t, c, k, 0)
    ensures Back(env.db, HostSetStorage(env, t, c, k, v), c, k, v)
  {
    hide WellFormed, Advances, HostSetStorage, AccountOf, OriginalStorage, CurrentStorage, Exists;
    HostSetStorageKeeps(env, t, c, k, v);
    HostSetStorageIdentity(env, t, c, k, v, c);
    HostSetStorageGrows(env, t, c, k, v);
  }

  lemma DeployBack(env: Env, t: State, c: Address, codeHash: nat, k: nat, v: nat)
    requires WellFormed(env.db, t) && Back(env.db, t, c, k, v)
    ensures Back(env.db, SetCode(env.db, t, c, codeHash), c, k, v)
  {
    hide WellFormed, Advances, SetCode, AccountOf, OriginalStorage, CurrentStorage, Exists;
    SetCodeKeeps(env.db, t, c, codeHash);
    SetCodeAccount(env.db, t, c, codeHash, c);
    SetCodeGrows(env.db, t, c, codeHash);
    assert CurrentStorage(env.db, SetCode(env.db, t, c, codeHash), c, k) == CurrentStorage(env.db, t, c, k);
  }

  /** A creation with no value whose initialisation writes one slot and returns no code. */
  lemma CreatesAgain(env: Env, e: State, f: Address, g: int, c: Address, init: Frame, k: nat, v: nat)
    requires WellFormed(env.db, e) && env.rev >= SPURIOUS && f != c
    requires Balance(env.db, e, f) >= 0 && AccountOf(env.db, e, c) == DEFAULT_ACCOUNT && c !in e.selfDestructs
    requires init.actions == [SStore(k, v)] && init.status == Success && init.codeLength == 0 && init.gasLeft >= 0
    ensures Back(env.db, CreateMessage(env, e, f, 0, g, c, init).progress.state, c, k, v)
  {
    hide WellFormed, Keeps, Announce, Found, RunActions, Caches, Balance, Exists, AccountOf, HostSetStorage, SetCode,
         Back;
    CachesNothing(env.db, e);
    var s := Announce(env.db, e, f, c);
    KeepsIsWellFormed(env.db, e, s);
    AnnounceChangesOneNonce(env.db, e, f, c);
    var t := Found(env, s, f, c, 0);
    KeepsIsWellFormed(env.db, s, t);
    FoundFresh(env, s, f, c, k);
    StartsBack(env.db, t, c, k);
    OnlyAction(env, t, c, SStore(k, v));
    WriteFresh(env, t, c, k, v);
    var reached := RunActions(env, t, c, init.actions);
    KeepsTwice(env.db, s, t, reached.state);
    KeepsIsWellFormed(env.db, s, reached.state);
    DeployBack(env, reached.state, c, init.codeHash, k, v);
    KeepsTwice(env.db, s, reached.state, Deploy(env, reached, c, init).progress.state);
  }

  lemma StartsBack(db: World, t: State, c: Address, k: nat)
    requires AccountOf(db, t, c).nonce == 1 && CurrentStorage(db, t, c, k) == 0
    requires c in t.objects && c in t.incarnations && c !in t.selfDestructs
    ensures Back(db, t, c, k, 0)
  {
  }

  lemma PayBack(env: Env, t: State, h: Header, txn: Txn, gasLeft: int, c: Address, k: nat, v: nat)
    requires WellFormed(env.db, t) && Prevalidated(h, txn) && Back(env.db, t, c, k, v)
    ensures Back(env.db, Pay(env, t, h, txn, gasLeft), c, k, v)
  {
    hide WellFormed, Advances, SetBalance, AccountOf, OriginalStorage, CurrentStorage, Exists;
    var db := env.db;
    var x, y := gasLeft * EffectivePrice(h, txn), (txn.gasLimit - gasLeft) * PriorityFee(h, txn);
    PayIdentity(env, t, h, txn, gasLeft, c);
    PayGrows(env, t, h, txn, gasLeft);
    SetBalanceKeeps(db, t, txn.sender, Balance(db, t, txn.sender) + x);
    var s := AddToBalance(db, t, txn.sender, x);
    SetBalanceKeeps(db, s, h.beneficiary, Balance(db, s, h.beneficiary) + y);
    assert CurrentStorage(db, s, c, k) == CurrentStorage(db, t, c, k);
    assert CurrentStorage(db, Pay(env, t, h, txn, gasLeft), c, k) == CurrentStorage(db, s, c, k);
  }

  /** Removing other accounts leaves an account's slots. */
  lemma DestructKeepsOthers(db: World, s: State, gone: set<Address>, c: Address, k: nat)
    requires WellFormed(db, s) && c !in gone
    ensures var t := Destruct(db, s, gone);
            Current(db, t, c) == Current(db, s, c) && CurrentStorage(db, t, c, k) == CurrentStorage(db, s, c, k)
  {
    hide WellFormed, Destruct, Load, CurrentAt, Base;
    DestructRemoves(db, s, gone);
    DestructSlots(db, s, gone);
  }

  /** At the end of the transaction the slot is committed, starting from zero. */
  lemma SweepCommits(env: Env, u: State, c: Address, k: nat, v: nat)
    requires WellFormed(env.db, u) && Back(env.db, u, c, k, v) && v != 0
    requires ReadSlot(env.db.storage, (c, k)) != 0
    ensures Rewritten(env.db, FinalizeTransaction(Sweep(env, u)), c, k)
  {
    hide WellFormed, Destruct, FinalizeTransaction, Load, CurrentAt, CommittedAt;
    var db := env.db;
    var t := Destruct(db, u, u.selfDestructs);
    DestructKeepsOthers(db, u, u.selfDestructs, c, k);
    DestructWellFormed(db, u, u.selfDestructs);
    var dead := set a | a in t.touched && IsDead(db, t, a);
    DestructKeepsOthers(db, t, dead, c, k);
    DestructWellFormed(db, t, dead);
    SweepGrows(env, u);
    var w := Sweep(env, u);
    FinalizeKeeps(db, w);
    FinalizeKeepsObjects(w);
    var z := FinalizeTransaction(w);
    SameCurrent(db, w, z, c);
    assert OriginalStorage(db, z, c, k) == v;
    assert Base(db, z, c, k) == v;
    CachedCurrent(db, z, c);
  }

  lemma FinalizeKeepsObjects(s: State)
    ensures FinalizeTransaction(s).objects == s.objects && FinalizeTransaction(s).incarnations == s.incarnations
  {
  }

  lemma CachedCurrent(db: World, s: State, a: Address)
    requires a in s.objects
    ensures Current(db, s, a) == s.objects[a].current
  {
  }

  /** A transaction that calls a factory, which creates the gone contract again with an
      initialisation that writes one of its old slots, leaves that slot rewritten. */
  lemma Recreates(
    env: Env, st: State, h: Header, available: int, txn: Txn, run: Execution, f: Address, c: Address, g: int,
    init: Frame,
    k: nat, v: nat)
    requires Settled(env.db, st) && Prevalidated(h, txn) && Metered(env.rev, txn, run) && NonNegative(env.db, st)
    requires ValidateTransaction(env.db, st, h, available, txn).None? && txn.gasLimit >= IntrinsicGas(env.rev, txn)
    requires env.rev >= SPURIOUS && f != c && txn.sender != c && Gone(env.db, st, c)
    requires txn.to == Some(f) && HasCode(env.db, st, f) && !IsPrecompiled(env.rev, f)
    requires run.frame.actions == [CreateOut(0, g, c, init)] && run.frame.status == Success
    requires init.actions == [SStore(k, v)] && init.status == Success && init.codeLength == 0 && init.gasLeft >= 0
    requires v != 0 && ReadSlot(env.db.storage, (c, k)) != 0
    ensures var r := ExecuteTransaction(env, st, h, txn, run);
            r.Applied? && Rewritten(env.db, r.state, c, k)
  {
    hide WellFormed, Prepare, Sweep, Pay, FinalizeTransaction, RefundCovers, SameStorage, BalancesBut, Balance, Exists,
         IntrinsicGas, RefundedGas, Held, NothingPending, HasNonce, ValidateTransaction, CallMessage, CreateMessage,
         Transfer, RunActions, AccountOf, Grows, Back, NonNegative, Total, Rewritten;
    ValidatedBalance(env.db, st, h, available, txn);
    SendersHaveNoCode(env.db, st, txn);
    PurchaseIsCovered(h, txn, Balance(env.db, st, txn.sender));
    PrepareTotal(env.db, st, h, txn);
    PrepareBuysGas(env.db, st, h, txn);
    PrepareKeepsOthers(env.db, st, h, txn, c);
    PrepareKeepsOthers(env.db, st, h, txn, f);
    ValueIsLeft(env.db, st, h, available, txn);
    GoneIsDefault(env.db, st, c);
    var s := Prepare(env.db, st, h, txn);
    var gas := txn.gasLimit - IntrinsicGas(env.rev, txn);
    MessageFacts(env, s, txn, run, gas);
    SuccessfulCall(env, s, txn.sender, f, txn.value, gas, run.frame, run.precompile);
    var e := Transfer(env.db, s, txn.sender, f, txn.value);
    TransferConserves(env.db, s, txn.sender, f, txn.value);
    OneBalance(env.db, e, f);
    TransferOthers(env.db, s, txn.sender, f, txn.value, c);
    OnlyAction(env, e, f, CreateOut(0, g, c, init));
    CreatesAgain(env, e, f, g, c, init, k, v);
    var out := RunMessage(env, s, txn, run, gas);
    var t := out.progress.state;
    var gasLeft := out.output.gasLeft + RefundedGas(env.rev, t, txn.gasLimit, out.output.gasLeft);
    PayTotal(env, t, h, txn, gasLeft);
    PayBack(env, t, h, txn, gasLeft, c, k, v);
    SweepCommits(env, Pay(env, t, h, txn, gasLeft), c, k, v);
  }

  lemma GoneIsDefault(db: World, st: State, c: Address)
    requires Gone(db, st, c)
    ensures AccountOf(db, st, c) == DEFAULT_ACCOUNT
  {
  }

  lemma OneBalance(db: World, st: State, a: Address)
    requires NonNegative(db, st)
    ensures Balance(db, st, a) >= 0
  {
  }

  lemma TransferOthers(db: World, s: State, sender: Address, recipient: Address, v: int, c: Address)
    requires c != sender && c != recipient
    ensures var t := Transfer(db, s, sender, recipient, v);
            AccountOf(db, t, c) == AccountOf(db, s, c) && t.selfDestructs == s.selfDestructs
  {
    hide SetBalance, AccountOf;
    var x := Balance(db, s, sender) - v;
    SetBalanceAccount(db, s, sender, x, c);
    var u := SetBalance(db, s, sender, x);
    SetBalanceAccount(db, u, recipient, Balance(db, u, recipient) + v, c);
  }

  // ----- Rewards -----

  lemma {:induction false} CreditKeepsRewritten(db: World, st: State, rewards: seq<Reward>, a: Address, k: nat)
    requires Rewritten(db, st, a, k)
    ensures Rewritten(db, Credit(db, st, rewards), a, k)
  {
    hide Rewritten;
    if rewards != [] {
      var n := |rewards| - 1;
      CreditKeepsRewritten(db, st, rewards[..n], a, k);
      var s := Credit(db, st, rewards[..n]);
      RewrittenStays(db, s, rewards[n].address, Balance(db, s, rewards[n].address) + rewards[n].amount, a, k);
    }
  }

  lemma RewrittenStays(db: World, s: State, b: Address, v: int, a: Address, k: nat)
    requires Rewritten(db, s, a, k)
    ensures Rewritten(db, SetBalance(db, s, b, v), a, k)
  {
  }

  // ----- One such block -----

  const SENDER: Address := 0x5e4de4
  const FACTORY: Address := 0xfac704
  const CONTRACT: Address := 0xc0de

  /** A sender, a factory, and a contract with the value five in slot seven. */
  const BEFORE := World(
    map[SENDER := Account(0, 0, EMPTY_HASH), FACTORY := Account(1, 0, 98), CONTRACT := Account(1, 0, 99)],
    map[(CONTRACT, 7) := 5])

  const ENV := Env(BEFORE, CONSTANTINOPLE)
  const HEADER := Header(None, 1_000_000, SENDER)

  const FIRST := Txn(SENDER, 0, 0, 0, 100_000, Some(CONTRACT), 0, 0, 0, [])
  const SECOND := Txn(SENDER, 1, 0, 0, 100_000, Some(FACTORY), 0, 0, 0, [])

  /** The contract destroys itself. */
  const FIRST_RUN := Execution(
    Frame([SelfDestruct(SENDER)], Success, 50_000, 0, 0, EMPTY_HASH), Precompile(None, false), 0)

  /** Nine goes into slot seven. */
  const INIT := Frame([SStore(7, 9)], Success, 1_000, 0, 0, EMPTY_HASH)

  /** The factory creates the contract again. */
  const SECOND_RUN := Execution(
    Frame([CreateOut(0, 40_000, CONTRACT, INIT)], Success, 10_000, 0, 0, EMPTY_HASH), Precompile(None, false), 0)

  lemma Intrinsic()
    ensures IntrinsicGas(CONSTANTINOPLE, FIRST) == 21_000 && IntrinsicGas(CONSTANTINOPLE, SECOND) == 21_000
  {
  }

  lemma Allowed()
    ensures Admissible(CONSTANTINOPLE, HEADER, [FIRST, SECOND], [FIRST_RUN, SECOND_RUN])
  {
    hide IntrinsicGas;
    Intrinsic();
  }

  lemma AtFirst()
    ensures NonNegative(BEFORE, INITIAL_STATE)
      && ValidateTransaction(BEFORE, INITIAL_STATE, HEADER, 1_000_000, FIRST).None?
    ensures HasCode(BEFORE, INITIAL_STATE, CONTRACT) && HasCode(BEFORE, INITIAL_STATE, FACTORY)
  {
  }

  lemma NextIsValid(st: State, available: int)
    requires HasNonce(BEFORE, st, SENDER, 1) && NonNegative(BEFORE, st) && available >= 100_000
    ensures ValidateTransaction(BEFORE, st, HEADER, available, SECOND).None?
  {
    assert Balance(BEFORE, st, SENDER) >= 0;
  }

  lemma SenderGoesOn(env: Env, st: State, h: Header, available: int, txn: Txn, run: Execution)
    requires Settled(env.db, st) && NonNegative(env.db, st) && Prevalidated(h, txn) && Metered(env.rev, txn, run)
    requires ValidateTransaction(env.db, st, h, available, txn).None?
    requires ExecuteTransaction(env, st, h, txn, run).Applied?
    ensures var r := ExecuteTransaction(env, st, h, txn, run);
            && Settled(env.db, r.state) && NonNegative(env.db, r.state) && r.gasUsed <= txn.gasLimit
            && HasNonce(env.db, r.state, txn.sender, txn.nonce + 1)
  {
    hide ExecuteTransaction, ValidateTransaction, Settled, NonNegative, HasNonce, Prepare, RunMessage, Total, Metered,
         IntrinsicGas;
    ValidatedBalance(env.db, st, h, available, txn);
    TransactionConserves(env, st, h, available, txn, run);
    TransactionGas(env, st, h, txn, run);
    TransactionNonce(env, st, h, available, txn, run, txn.sender, txn.nonce);
  }

  /** The first transaction leaves the contract gone, the factory in place and the sender able
      to send the second. */
  lemma FirstTransaction() returns (r: TxResult)
    ensures Settled(BEFORE, INITIAL_STATE) && Prevalidated(HEADER, FIRST) && Metered(CONSTANTINOPLE, FIRST, FIRST_RUN)
    ensures r == ExecuteTransaction(ENV, INITIAL_STATE, HEADER, FIRST, FIRST_RUN) && r.Applied?
    ensures Settled(BEFORE, r.state) && NonNegative(BEFORE, r.state)
    ensures Gone(BEFORE, r.state, CONTRACT) && HasCode(BEFORE, r.state, FACTORY)
    ensures ValidateTransaction(BEFORE, r.state, HEADER, 1_000_000 - r.gasUsed, SECOND).None?
  {
    hide ExecuteTransaction, ValidateTransaction, WellFormed, NothingPending, IntrinsicGas, HasCode, Gone, NonNegative,
         HasNonce, Prepare, RunMessage, Total;
    StartIsSettled(BEFORE);
    Allowed();
    Intrinsic();
    AtFirst();
    assert Admissible(CONSTANTINOPLE, HEADER, [FIRST, SECOND], [FIRST_RUN, SECOND_RUN]);
    assert Prevalidated(HEADER, [FIRST, SECOND][0])
      && Metered(CONSTANTINOPLE, [FIRST, SECOND][0], [FIRST_RUN, SECOND_RUN][0]);
    Destroys(ENV, INITIAL_STATE, HEADER, 1_000_000, FIRST, FIRST_RUN, CONTRACT, SENDER, FACTORY);
    r := ExecuteTransaction(ENV, INITIAL_STATE, HEADER, FIRST, FIRST_RUN);
    SenderGoesOn(ENV, INITIAL_STATE, HEADER, 1_000_000, FIRST, FIRST_RUN);
    NextIsValid(r.state, 1_000_000 - r.gasUsed);
  }

  lemma SecondTransaction(st: State, available: int) returns (r: TxResult)
    requires Settled(BEFORE, st) && NonNegative(BEFORE, st) && Gone(BEFORE, st, CONTRACT)
      && HasCode(BEFORE, st, FACTORY)
    requires ValidateTransaction(BEFORE, st, HEADER, available, SECOND).None?
    ensures Prevalidated(HEADER, SECOND) && Metered(CONSTANTINOPLE, SECOND, SECOND_RUN)
    ensures r == ExecuteTransaction(ENV, st, HEADER, SECOND, SECOND_RUN) && r.Applied?
    ensures Settled(BEFORE, r.state) && Rewritten(BEFORE, r.state, CONTRACT, 7)
  {
    hide ExecuteTransaction, ValidateTransaction, WellFormed, NothingPending, IntrinsicGas, HasCode, Gone, NonNegative,
         Rewritten;
    Intrinsic();
    Allowed();
    assert Prevalidated(HEADER, [FIRST, SECOND][1])
      && Metered(CONSTANTINOPLE, [FIRST, SECOND][1], [FIRST_RUN, SECOND_RUN][1]);
    Recreates(ENV, st, HEADER, available, SECOND, SECOND_RUN, FACTORY, CONTRACT, 40_000, INIT, 7, 9);
    TransactionConserves(ENV, st, HEADER, available, SECOND, SECOND_RUN);
    r := ExecuteTransaction(ENV, st, HEADER, SECOND, SECOND_RUN);
  }

  /** If the first transaction is applied and the rest of the block is done, so is the block. */
  lemma RunFirst(
    env: Env, st: State, h: Header, used: int, txs: seq<Txn>, runs: seq<Execution>, one: TxResult, end: State)
    requires Settled(env.db, st) && Admissible(env.rev, h, txs, runs) && txs != []
    requires ValidateTransaction(env.db, st, h, h.gasLimit - used, txs[0]).None?
    requires one == ExecuteTransaction(env, st, h, txs[0], runs[0]) && one.Applied? && Settled(env.db, one.state)
    requires Ends(env, one.state, h, used + one.gasUsed, txs[1..], runs[1..], end)
    ensures Ends(env, st, h, used, txs, runs, end)
  {
    hide ExecuteTransaction, ValidateTransaction, WellFormed, NothingPending, Prevalidated, Metered;
  }

  ghost predicate Ends(env: Env, st: State, h: Header, used: int, txs: seq<Txn>, runs: seq<Execution>, end: State) {
    && Settled(env.db, st) && Admissible(env.rev, h, txs, runs)
    && var r := RunTransactions(env, st, h, used, txs, runs);
       r.BlockDone? && r.state == end
  }

  /** The block is executed, and whatever rewards it pays, undoing it does not give the database
      back: slot seven of the contract held five before the block and reads zero after. */
  lemma RecreatedContractLosesSlot(rewards: seq<Reward>)
    ensures Admissible(ENV.rev, HEADER, [FIRST, SECOND], [FIRST_RUN, SECOND_RUN])
    ensures RunBlock(ENV, HEADER, [FIRST, SECOND], [FIRST_RUN, SECOND_RUN]).BlockDone?
    ensures var st := FinalState(ENV, HEADER, [FIRST, SECOND], [FIRST_RUN, SECOND_RUN], rewards);
            var cs := ChangeSetOf(st);
            var back := Restore(Commit(BEFORE, cs), RecordAfter(EMPTY_RECORD, BEFORE, cs));
            && Rewritten(BEFORE, st, CONTRACT, 7)
            && ReadSlot(BEFORE.storage, (CONTRACT, 7)) == 5 && ReadSlot(back.storage, (CONTRACT, 7)) == 0
            && back != BEFORE
  {
    hide ExecuteTransaction, ValidateTransaction, WellFormed, NothingPending, HasCode, Gone, NonNegative, Rewritten,
         Credit, ChangeSetOf, Restore, Commit, RecordAfter, Prevalidated, Metered;
    var txs, runs := [FIRST, SECOND], [FIRST_RUN, SECOND_RUN];
    Allowed();
    var one := FirstTransaction();
    var two := SecondTransaction(one.state, 1_000_000 - one.gasUsed);
    assert txs[1..] == [SECOND] && runs[1..] == [SECOND_RUN] && [SECOND][1..] == [] && [SECOND_RUN][1..] == [];
    StartIsSettled(BEFORE);
    AtFirst();
    assert Ends(ENV, two.state, HEADER, one.gasUsed + two.gasUsed, [], [], two.state);
    RunFirst(ENV, one.state, HEADER, one.gasUsed, [SECOND], [SECOND_RUN], two, two.state);
    RunFirst(ENV, INITIAL_STATE, HEADER, 0, txs, runs, one, two.state);
    CreditKeepsRewritten(BEFORE, two.state, rewards, CONTRACT, 7);
    FinalIsWellFormed(ENV, HEADER, txs, runs, rewards);
    RewrittenSlotIsLost(BEFORE, FinalState(ENV, HEADER, txs, runs, rewards), CONTRACT, 7);
    ExecutedBlockUndoIff(ENV, HEADER, txs, runs, rewards);
  }
}
