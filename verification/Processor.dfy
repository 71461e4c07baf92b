// Transactions and blocks: gas is bought, the message runs, unused gas is refunded, the
// miner is paid and destroyed accounts are swept away.
module Processor {
  import opened Revisions
  import opened Wrappers
  import opened WorldState
  import opened IntraBlock
  import opened Journal
  import opened Operations
  import opened Evm
  import opened EvmTheorems
  import opened Ether
  import opened Refunds

  const G_TRANSACTION := 21_000
  const G_TX_CREATE := 32_000
  const G_TX_DATA_ZERO := 4
  const G_TX_DATA_NON_ZERO_FRONTIER := 68
  const G_TX_DATA_NON_ZERO_ISTANBUL := 16
  const ACCESS_LIST_ADDRESS_COST := 2400
  const R_SELF_DESTRUCT := 24_000
  const MAX_REFUND_QUOTIENT_FRONTIER := 2
  const MAX_REFUND_QUOTIENT_LONDON := 5

  datatype Header = Header(baseFee: Option<nat>, gasLimit: nat, beneficiary: Address)

  datatype AccessItem = AccessItem(address: Address, slots: seq<nat>)

  /** A transaction; a missing recipient means contract creation. */
  datatype Txn = Txn(
    sender: Address,
    nonce: nat,
    maxFee: nat,
    maxPriority: nat,
    gasLimit: nat,
    to: Option<Address>,
    value: nat,
    zeroBytes: nat,
    nonZeroBytes: nat,
    accessList: seq<AccessItem>)

  /** What the interpreter will do with the transaction's message. */
  datatype Execution = Execution(frame: Frame, precompile: Precompile, address: Address)

  datatype TxError = SenderNoEOA | WrongNonce | InsufficientFunds | BlockGasLimitExceeded | IntrinsicGasTooLow

  datatype TxResult = Rejected(error: TxError) | Applied(state: State, gasUsed: int, success: bool, burned: int)

  // ----- Prices and charges -----

  function BaseFee(h: Header): (f: nat) {
    if h.baseFee.Some? then h.baseFee.value else 0
  }

  /** The checks made before execution that concern fees. */
  predicate Prevalidated(h: Header, txn: Txn) {
    txn.maxFee >= BaseFee(h) && txn.maxPriority <= txn.maxFee
  }

  function PriorityFee(h: Header, txn: Txn): (f: nat)
    requires Prevalidated(h, txn)
  {
    if txn.maxPriority < txn.maxFee - BaseFee(h) then txn.maxPriority else txn.maxFee - BaseFee(h)
  }

  function EffectivePrice(h: Header, txn: Txn): (p: nat)
    requires Prevalidated(h, txn)
    ensures BaseFee(h) <= p <= txn.maxFee
  {
    PriorityFee(h, txn) + BaseFee(h)
  }

  function ListedSlots(items: seq<AccessItem>): (n: nat) {
    if items == [] then 0 else |items[0].slots| + ListedSlots(items[1..])
  }

  function IntrinsicGas(rev: Revision, txn: Txn): (g: nat)
    ensures g >= G_TRANSACTION
  {
    G_TRANSACTION
    + (if txn.to.None? && rev >= HOMESTEAD then G_TX_CREATE else 0)
    + |txn.accessList| * ACCESS_LIST_ADDRESS_COST
    + ListedSlots(txn.accessList) * ACCESS_LIST_STORAGE_KEY_COST
    + txn.nonZeroBytes * (if rev >= ISTANBUL then G_TX_DATA_NON_ZERO_ISTANBUL else G_TX_DATA_NON_ZERO_FRONTIER)
    + txn.zeroBytes * G_TX_DATA_ZERO
  }

  function ValidateTransaction(db: World, st: State, h: Header, available: int, txn: Txn): (r: Option<TxError>) {
    var acc := AccountOf(db, st, txn.sender);
    if acc.codeHash != EMPTY_HASH then Some(SenderNoEOA)
    else if acc.nonce != txn.nonce then Some(WrongNonce)
    else if acc.balance < txn.gasLimit * txn.maxFee + txn.value then Some(InsufficientFunds)
    else if available < txn.gasLimit then Some(BlockGasLimitExceeded)
    else None
  }

  // ----- Before the message -----

  function ClearJournalAndSubstate(st: State): (r: State) {
    st.(journal := [], selfDestructs := {}, logs := [], touched := {}, refund := 0,
        accessedAddresses := {}, accessedKeys := {})
  }

  function WarmSlots(st: State, a: Address, slots: seq<nat>): (r: State)
    decreases |slots|
  {
    if slots == [] then st else WarmSlots(AccessStorage(st, a, slots[0]), a, slots[1..])
  }

  function WarmList(st: State, items: seq<AccessItem>): (r: State)
    decreases |items|
  {
    if items == [] then st
    else WarmList(WarmSlots(AccessAccount(st, items[0].address), items[0].address, items[0].slots), items[1..])
  }

  /** Gas is bought at the effective price; a plain call raises the nonce here. */
  function Prepare(db: World, st: State, h: Header, txn: Txn): (r: State)
    requires Prevalidated(h, txn)
  {
    var s := AccessAccount(ClearJournalAndSubstate(st), txn.sender);
    var t := SubtractFromBalance(db, s, txn.sender, txn.gasLimit * EffectivePrice(h, txn));
    var u := match txn.to
             case Some(to) => SetNonce(db, AccessAccount(t, to), txn.sender, txn.nonce + 1)
             case None => t;
    WarmList(u, txn.accessList)
  }

  /** Same accounts, storage and refund; only the substate moved. */
  ghost predicate Quiet(db: World, s: State, t: State) {
    Keeps(db, s, t) && SameStorage(db, s, t) && SameBalances(db, s, t) && t.refund == s.refund
  }

  lemma QuietTwice(db: World, s: State, t: State, u: State)
    requires Quiet(db, s, t) && Quiet(db, t, u)
    ensures Quiet(db, s, u)
  {
    hide Keeps, OriginalStorage, CurrentStorage, Balance;
    KeepsTwice(db, s, t, u);
  }

  lemma QuietNothing(db: World, s: State)
    requires WellFormed(db, s)
    ensures Quiet(db, s, s)
  {
    hide WellFormed, Keeps, SameStorage, SameBalances;
    CachesNothing(db, s);
    CachesKeeps(db, s, s);
  }

  lemma {:induction false} WarmSlotsQuiet(db: World, s: State, a: Address, slots: seq<nat>)
    requires WellFormed(db, s)
    ensures Quiet(db, s, WarmSlots(s, a, slots))
    decreases |slots|
  {
    hide WellFormed, Quiet;
    if slots == [] {
      QuietNothing(db, s);
    } else {
      var t := AccessStorage(s, a, slots[0]);
      assert Quiet(db, s, t) by { OneSlotQuiet(db, s, a, slots[0]); }
      QuietIsWellFormed(db, s, t);
      WarmSlotsQuiet(db, t, a, slots[1..]);
      QuietTwice(db, s, t, WarmSlots(t, a, slots[1..]));
    }
  }

  lemma OneSlotQuiet(db: World, s: State, a: Address, k: nat)
    requires WellFormed(db, s)
    ensures Quiet(db, s, AccessStorage(s, a, k))
  {
    hide WellFormed, Keeps, SameStorage, SameBalances;
    AccessStorageKeeps(db, s, a, k);
  }

  lemma OneAccountQuiet(db: World, s: State, a: Address)
    requires WellFormed(db, s)
    ensures Quiet(db, s, AccessAccount(s, a))
  {
    hide WellFormed, Keeps, SameStorage, SameBalances;
    AccessAccountKeeps(db, s, a);
  }

  lemma QuietIsWellFormed(db: World, s: State, t: State)
    requires Quiet(db, s, t)
    ensures WellFormed(db, t)
  {
  }

  lemma {:induction false} WarmListQuiet(db: World, s: State, items: seq<AccessItem>)
    requires WellFormed(db, s)
    ensures Quiet(db, s, WarmList(s, items))
    decreases |items|
  {
    hide WellFormed, Quiet, WarmSlots;
    if items == [] {
      QuietNothing(db, s);
    } else {
      var t := AccessAccount(s, items[0].address);
      OneAccountQuiet(db, s, items[0].address);
      QuietIsWellFormed(db, s, t);
      var u := WarmSlots(t, items[0].address, items[0].slots);
      WarmSlotsQuiet(db, t, items[0].address, items[0].slots);
      QuietTwice(db, s, t, u);
      QuietIsWellFormed(db, s, u);
      WarmListQuiet(db, u, items[1..]);
      QuietTwice(db, s, u, WarmList(u, items[1..]));
    }
  }

  lemma ClearedSubstate(db: World, s: State)
    requires WellFormed(db, s)
    ensures var t := ClearJournalAndSubstate(s);
            WellFormed(db, t) && SameStorage(db, s, t) && SameBalances(db, s, t) && t.refund == 0
    ensures forall a :: AccountOf(db, ClearJournalAndSubstate(s), a) == AccountOf(db, s, a)
  {
    hide CommittedAt, Base, CurrentAt, SameSlot, Load;
    var t := ClearJournalAndSubstate(s);
    SameStorageSameSlots(db, s, t);
    SameObjectsSameAccounts(db, s, t);
    forall b, k | !Exists(db, t, b) ensures Base(db, t, b, k) == 0 && CurrentAt(t, b, k) in {None, Some(0)} {
      assert CurrentAt(s, b, k) in {None, Some(0)};
    }
    assert forall b, k :: Recorded(db, s, b, k);
  }

  /** After preparation only the sender's balance differs, by the price of all its gas. */
  lemma PrepareBuysGas(db: World, st: State, h: Header, txn: Txn)
    requires WellFormed(db, st) && Prevalidated(h, txn)
    ensures var t := Prepare(db, st, h, txn);
            var cost := txn.gasLimit * EffectivePrice(h, txn);
            && WellFormed(db, t) && SameStorage(db, st, t) && t.refund == 0 && Exists(db, t, txn.sender)
            && BalancesBut(db, st, t, txn.sender, Balance(db, st, txn.sender) - cost)
  {
    hide WellFormed, Advances, OriginalStorage, CurrentStorage, SetBalance, SetNonce, WarmList, Balance;
    var cost := txn.gasLimit * EffectivePrice(h, txn);
    var c := ClearJournalAndSubstate(st);
    ClearedSubstate(db, st);
    var s := AccessAccount(c, txn.sender);
    OneAccountQuiet(db, c, txn.sender);
    var t := SubtractFromBalance(db, s, txn.sender, cost);
    SetBalanceKeeps(db, s, txn.sender, Balance(db, s, txn.sender) - cost);
    SetBalanceRefund(db, s, txn.sender, Balance(db, s, txn.sender) - cost);
    QuietNothing(db, t);
    var u := match txn.to
             case Some(to) => SetNonce(db, AccessAccount(t, to), txn.sender, txn.nonce + 1)
             case None => t;
    if txn.to.Some? {
      OneAccountQuiet(db, t, txn.to.value);
      SetNonceKeeps(db, AccessAccount(t, txn.to.value), txn.sender, txn.nonce + 1);
      SetNonceRefund(db, AccessAccount(t, txn.to.value), txn.sender, txn.nonce + 1);
      KeepsTwice(db, t, AccessAccount(t, txn.to.value), u);
    }
    WarmListQuiet(db, u, txn.accessList);
  }

  // ----- After the message -----

  function RefundQuotient(rev: Revision): (q: nat)
    ensures q > 0
  {
    if rev >= LONDON then MAX_REFUND_QUOTIENT_LONDON else MAX_REFUND_QUOTIENT_FRONTIER
  }

  /** The refund counter, capped at a fraction of the gas consumed. */
  function RefundedGas(rev: Revision, st: State, gasLimit: int, gasLeft: int): (g: int)
    requires gasLeft <= gasLimit
  {
    var refund := st.refund + (if rev < LONDON then R_SELF_DESTRUCT * |st.selfDestructs| else 0);
    var cap := (gasLimit - gasLeft) / RefundQuotient(rev);
    if refund < cap then refund else cap
  }

  /** At least the non-refundable fraction of the consumed gas is paid for. */
  lemma RefundIsCapped(rev: Revision, st: State, gasLimit: int, gasLeft: int)
    requires gasLeft <= gasLimit && st.refund >= 0
    ensures var g := RefundedGas(rev, st, gasLimit, gasLeft);
            var consumed, q := gasLimit - gasLeft, RefundQuotient(rev);
            0 <= g <= consumed && q * (consumed - g) >= (q - 1) * consumed
  {
    var consumed := gasLimit - gasLeft;
    if rev >= LONDON {
      assert RefundQuotient(rev) == 5;
      assert 5 * (consumed / 5) <= consumed;
    } else {
      assert RefundQuotient(rev) == 2;
      assert 2 * (consumed / 2) <= consumed;
    }
  }

  /** Removes accounts at the end of a transaction; this is not journalled. */
  function Destruct(db: World, st: State, gone: set<Address>): (r: State) {
    st.(objects := map a | a in st.objects.Keys + gone && Load(db, st, a).Some? ::
          if a in gone then Load(db, st, a).value.(current := None) else st.objects[a],
        storage := st.storage - gone,
        incarnations := map a | a in st.incarnations.Keys + gone ::
          IncarnationOf(st, a) + (if a in gone then 1 else 0))
  }

  lemma DestructRemoves(db: World, s: State, gone: set<Address>)
    requires WellFormed(db, s)
    ensures var t := Destruct(db, s, gone);
            && (forall a :: Current(db, t, a) == if a in gone then None else Current(db, s, a))
            && (forall a <- t.objects :: t.objects[a].initial == Get(db.accounts, a))
  {
    var t := Destruct(db, s, gone);
    forall a ensures Current(db, t, a) == if a in gone then None else Current(db, s, a) {
      if a in gone && Load(db, s, a).None? {
        assert a !in t.objects;
      }
    }
  }

  lemma DestructSlots(db: World, s: State, gone: set<Address>)
    ensures var t := Destruct(db, s, gone);
            && (forall a, k :: CommittedAt(t, a, k) == if a in gone then None else CommittedAt(s, a, k))
            && (forall a, k :: CurrentAt(t, a, k) == if a in gone then None else CurrentAt(s, a, k))
            && (forall a, k :: Base(db, t, a, k) == if a in gone then 0 else Base(db, s, a, k))
  {
    var t := Destruct(db, s, gone);
    assert forall a | a in gone :: StorageOf(t, a) == NO_STORAGE && a in t.incarnations;
    assert forall a | a !in gone :: StorageOf(t, a) == StorageOf(s, a);
  }

  lemma DestructWellFormed(db: World, s: State, gone: set<Address>)
    requires WellFormed(db, s)
    ensures WellFormed(db, Destruct(db, s, gone))
  {
    hide Load, CurrentAt, CommittedAt, Base;
    var t := Destruct(db, s, gone);
    DestructRemoves(db, s, gone);
    DestructSlots(db, s, gone);
    forall a, k | !Exists(db, t, a) ensures Base(db, t, a, k) == 0 && CurrentAt(t, a, k) in {None, Some(0)} {
      if a !in gone {
        assert CurrentAt(s, a, k) in {None, Some(0)};
      }
    }
    forall a, k ensures Recorded(db, t, a, k) {
      assert Recorded(db, s, a, k);
    }
  }

  /** The ether held below n by a set of accounts. */
  function HeldBelow(db: World, st: State, who: set<Address>, n: nat): (r: int)
    requires n <= ADDRESS_SPACE
  {
    if n == 0 then 0
    else HeldBelow(db, st, who, n - 1) + (if n - 1 in who then Balance(db, st, n - 1) else 0)
  }

  function Held(db: World, st: State, who: set<Address>): (r: int) {
    HeldBelow(db, st, who, ADDRESS_SPACE)
  }

  lemma {:induction false} DestructTotal(db: World, s: State, gone: set<Address>, n: nat)
    requires WellFormed(db, s) && n <= ADDRESS_SPACE
    ensures TotalBelow(db, Destruct(db, s, gone), n) == TotalBelow(db, s, n) - HeldBelow(db, s, gone, n)
  {
    hide WellFormed, Destruct, Load;
    if n > 0 {
      DestructTotal(db, s, gone, n - 1);
      DestructRemoves(db, s, gone);
      var a: Address := n - 1;
      assert Current(db, Destruct(db, s, gone), a) == if a in gone then None else Current(db, s, a);
    }
  }

  lemma {:induction false} EmptyHandsHoldNothing(db: World, s: State, who: set<Address>, n: nat)
    requires n <= ADDRESS_SPACE && forall a <- who :: Balance(db, s, a) == 0
    ensures HeldBelow(db, s, who, n) == 0
  {
    if n > 0 {
      EmptyHandsHoldNothing(db, s, who, n - 1);
    }
  }

  lemma {:induction false} HeldNonNegative(db: World, s: State, who: set<Address>, n: nat)
    requires n <= ADDRESS_SPACE && NonNegative(db, s)
    ensures HeldBelow(db, s, who, n) >= 0
  {
    hide Balance;
    if n > 0 {
      HeldNonNegative(db, s, who, n - 1);
      var a: Address := n - 1;
      assert Balance(db, s, a) >= 0;
    }
  }

  /** Self-destructed accounts go first, then, from Spurious Dragon on, touched dead ones. */
  function Sweep(env: Env, st: State): (r: State) {
    var s := Destruct(env.db, st, st.selfDestructs);
    if env.rev >= SPURIOUS then Destruct(env.db, s, set a | a in s.touched && IsDead(env.db, s, a)) else s
  }

  lemma SweepLoses(env: Env, s: State)
    requires WellFormed(env.db, s)
    ensures WellFormed(env.db, Sweep(env, s))
    ensures Loses(env.db, s, Sweep(env, s), Held(env.db, s, s.selfDestructs))
  {
    hide WellFormed, Destruct, TotalBelow;
    var db := env.db;
    var t := Destruct(db, s, s.selfDestructs);
    DestructLoses(db, s, s.selfDestructs);
    var dead := set a | a in t.touched && IsDead(db, t, a);
    DestructLoses(db, t, dead);
    assert Held(db, t, dead) == 0 by { EmptyHandsHoldNothing(db, t, dead, ADDRESS_SPACE); }
  }

  lemma DestructLoses(db: World, s: State, gone: set<Address>)
    requires WellFormed(db, s)
    ensures WellFormed(db, Destruct(db, s, gone))
    ensures Loses(db, s, Destruct(db, s, gone), Held(db, s, gone))
  {
    hide WellFormed, Destruct, TotalBelow, Load;
    var t := Destruct(db, s, gone);
    DestructWellFormed(db, s, gone);
    DestructTotal(db, s, gone, ADDRESS_SPACE);
    DestructRemoves(db, s, gone);
    if NonNegative(db, s) {
      HeldNonNegative(db, s, gone, ADDRESS_SPACE);
      forall a ensures Balance(db, t, a) >= 0 {
        assert Balance(db, s, a) >= 0;
        assert Current(db, t, a) == if a in gone then None else Current(db, s, a);
      }
    }
  }

  /** Current values become the original values of the next transaction. */
  function FinalizeTransaction(st: State): (r: State) {
    st.(storage := map a | a in st.storage :: Finalized(st.storage[a]))
  }

  function Finalized(sto: Storage): (r: Storage) {
    Storage(map k | k in sto.committed.Keys + sto.current.Keys ::
              if k in sto.current
              then Committed(if k in sto.committed then sto.committed[k].initial else 0, sto.current[k])
              else sto.committed[k],
            map[])
  }

  /** No slot has been written since the last transaction ended. */
  ghost predicate NothingPending(st: State) {
    forall a <- st.storage :: st.storage[a].current == map[]
  }

  lemma FinalizeSlots(db: World, s: State)
    ensures var t := FinalizeTransaction(s);
            && (forall a, k :: CurrentAt(t, a, k) == None)
            && (forall a, k :: CommittedAt(t, a, k) ==
                  if CurrentAt(s, a, k).None? then CommittedAt(s, a, k)
                  else Some(Committed(if CommittedAt(s, a, k).Some? then CommittedAt(s, a, k).value.initial else 0,
                                      CurrentAt(s, a, k).value)))
            && (forall a, k :: Base(db, t, a, k) ==
                  if CurrentAt(s, a, k).Some? then CurrentAt(s, a, k).value else Base(db, s, a, k))
  {
    var t := FinalizeTransaction(s);
    forall a, k
      ensures CurrentAt(t, a, k) == None
      ensures CommittedAt(t, a, k) ==
        if CurrentAt(s, a, k).None? then CommittedAt(s, a, k)
        else Some(Committed(if CommittedAt(s, a, k).Some? then CommittedAt(s, a, k).value.initial else 0,
                            CurrentAt(s, a, k).value))
      ensures Base(db, t, a, k) ==
        if CurrentAt(s, a, k).Some? then CurrentAt(s, a, k).value else Base(db, s, a, k)
    {
      if a in s.storage {
        assert StorageOf(t, a) == Finalized(s.storage[a]);
      } else {
        assert StorageOf(t, a) == NO_STORAGE;
      }
    }
  }

  /** Finalizing makes current values original and changes no current value. */
  lemma FinalizeKeeps(db: World, s: State)
    requires WellFormed(db, s)
    ensures var t := FinalizeTransaction(s);
            && WellFormed(db, t) && NothingPending(t) && SameBalances(db, s, t)
            && (forall a, k :: CurrentStorage(db, t, a, k) == CurrentStorage(db, s, a, k))
            && (forall a, k :: OriginalStorage(db, t, a, k) == CurrentStorage(db, s, a, k))
  {
    hide CurrentAt, Base, Load, CommittedAt;
    var t := FinalizeTransaction(s);
    FinalizeSlots(db, s);
    SameObjectsSameAccounts(db, s, t);
    forall a, k | !Exists(db, t, a) ensures Base(db, t, a, k) == 0 && CurrentAt(t, a, k) in {None, Some(0)} {
      assert CurrentAt(s, a, k) in {None, Some(0)};
    }
    forall a, k ensures Recorded(db, t, a, k) {
      assert Recorded(db, s, a, k);
    }
  }

  lemma NothingPendingNothingCleared(db: World, st: State)
    requires NothingPending(st)
    ensures Cleared(db, st) == {}
  {
  }

  // ----- One transaction -----

  /** The interpreter returns no more gas than it was given. */
  ghost predicate Metered(rev: Revision, txn: Txn, run: Execution) {
    txn.gasLimit >= IntrinsicGas(rev, txn) ==> 0 <= run.frame.gasLeft <= txn.gasLimit - IntrinsicGas(rev, txn)
  }

  function RunMessage(env: Env, st: State, txn: Txn, run: Execution, gas: int): (r: Outcome)
    requires WellFormed(env.db, st)
  {
    match txn.to
    case Some(to) =>
      CallMessage(env, st, txn.sender, Message(Call, false, to, txn.value, gas), run.frame, run.precompile)
    case None => CreateMessage(env, st, txn.sender, txn.value, gas, run.address, run.frame)
  }

  lemma MessageFacts(env: Env, st: State, txn: Txn, run: Execution, gas: int)
    requires WellFormed(env.db, st) && 0 <= run.frame.gasLeft <= gas
    ensures var r := RunMessage(env, st, txn, run, gas);
            && WellFormed(env.db, r.progress.state)
            && Loses(env.db, st, r.progress.state, r.progress.burned)
            && 0 <= r.output.gasLeft <= gas
            && (RefundCovers(env, st) ==> RefundCovers(env, r.progress.state))
  {
    hide WellFormed, Loses, RefundCovers, CallMessage, CreateMessage, Advances;
    match txn.to
    case Some(to) =>
      var msg := Message(Call, false, to, txn.value, gas);
      CallConserves(env, st, txn.sender, msg, run.frame, run.precompile);
      CallGasBounds(env, st, txn.sender, msg, run.frame, run.precompile);
      if RefundCovers(env, st) {
        CallCovers(env, st, txn.sender, msg, run.frame, run.precompile);
      }
    case None =>
      CreateConserves(env, st, txn.sender, txn.value, gas, run.address, run.frame);
      CreateGasBounds(env, st, txn.sender, txn.value, gas, run.address, run.frame);
      if RefundCovers(env, st) {
        CreateCovers(env, st, txn.sender, txn.value, gas, run.address, run.frame);
      }
  }

  /** Unused gas goes back to the sender and the priority fee to the miner. */
  function Pay(env: Env, st: State, h: Header, txn: Txn, gasLeft: int): (r: State)
    requires Prevalidated(h, txn)
  {
    var s := AddToBalance(env.db, st, txn.sender, gasLeft * EffectivePrice(h, txn));
    AddToBalance(env.db, s, h.beneficiary, (txn.gasLimit - gasLeft) * PriorityFee(h, txn))
  }

  function ExecuteTransaction(env: Env, st: State, h: Header, txn: Txn, run: Execution): (r: TxResult)
    requires WellFormed(env.db, st) && Prevalidated(h, txn) && Metered(env.rev, txn, run)
  {
    hide WellFormed, Prepare, RunMessage, Sweep, Pay, FinalizeTransaction, Loses, RefundCovers, SameStorage,
         BalancesBut,
         Exists, IntrinsicGas;
    PrepareBuysGas(env.db, st, h, txn);
    var s := Prepare(env.db, st, h, txn);
    var g0 := IntrinsicGas(env.rev, txn);
    if txn.gasLimit < g0 then Rejected(IntrinsicGasTooLow)
    else
      MessageFacts(env, s, txn, run, txn.gasLimit - g0);
      var out := RunMessage(env, s, txn, run, txn.gasLimit - g0);
      var t := out.progress.state;
      var gasLeft := out.output.gasLeft + RefundedGas(env.rev, t, txn.gasLimit, out.output.gasLeft);
      var u := Pay(env, t, h, txn, gasLeft);
      Applied(FinalizeTransaction(Sweep(env, u)),
              txn.gasLimit - gasLeft,
              out.output.status == Success,
              out.progress.burned + Held(env.db, u, u.selfDestructs))
  }

  lemma PayTotal(env: Env, st: State, h: Header, txn: Txn, gasLeft: int)
    requires WellFormed(env.db, st) && Prevalidated(h, txn)
    ensures var t := Pay(env, st, h, txn, gasLeft);
            && WellFormed(env.db, t)
            && Total(env.db, t) == Total(env.db, st) + gasLeft * EffectivePrice(h, txn)
                                   + (txn.gasLimit - gasLeft) * PriorityFee(h, txn)
            && (NonNegative(env.db, st) && 0 <= gasLeft <= txn.gasLimit ==> NonNegative(env.db, t))
  {
    hide WellFormed, SetBalance, Balance, Total;
    var db := env.db;
    var x, y := gasLeft * EffectivePrice(h, txn), (txn.gasLimit - gasLeft) * PriorityFee(h, txn);
    SetBalanceTotal(db, st, txn.sender, Balance(db, st, txn.sender) + x);
    var s := AddToBalance(db, st, txn.sender, x);
    SetBalanceTotal(db, s, h.beneficiary, Balance(db, s, h.beneficiary) + y);
    if 0 <= gasLeft <= txn.gasLimit {
      Product(gasLeft, EffectivePrice(h, txn));
      Product(txn.gasLimit - gasLeft, PriorityFee(h, txn));
    }
  }

  lemma Product(x: nat, y: nat)
    ensures x * y >= 0
  {
  }

  /** The fees of a transaction add up: what is bought minus what is returned and what the
      miner gets is the base fee on the gas used. */
  lemma FeesBalance(h: Header, txn: Txn, gasLeft: int)
    requires Prevalidated(h, txn)
    ensures txn.gasLimit * EffectivePrice(h, txn) - gasLeft * EffectivePrice(h, txn)
              - (txn.gasLimit - gasLeft) * PriorityFee(h, txn)
         == (txn.gasLimit - gasLeft) * BaseFee(h)
  {
    var used, p := txn.gasLimit - gasLeft, EffectivePrice(h, txn);
    assert txn.gasLimit * p - gasLeft * p == used * p;
    assert used * p == used * PriorityFee(h, txn) + used * BaseFee(h);
  }

  lemma PurchaseIsCovered(h: Header, txn: Txn, balance: int)
    requires Prevalidated(h, txn) && balance >= txn.gasLimit * txn.maxFee + txn.value
    ensures 0 <= txn.gasLimit * EffectivePrice(h, txn) <= balance
  {
    Monotone(txn.gasLimit, EffectivePrice(h, txn), txn.maxFee);
  }

  /** The state between two transactions of a block. */
  ghost predicate Settled(db: World, st: State) {
    WellFormed(db, st) && NothingPending(st)
  }

  /** Gas of one applied transaction: it pays for its intrinsic gas, stays within its limit,
      and pays for at least the non-refundable fraction of what it consumed. */
  lemma TransactionGas(env: Env, st: State, h: Header, txn: Txn, run: Execution)
    requires Settled(env.db, st) && Prevalidated(h, txn) && Metered(env.rev, txn, run)
    requires ExecuteTransaction(env, st, h, txn, run).Applied?
    ensures var used := ExecuteTransaction(env, st, h, txn, run).gasUsed;
            var s := Prepare(env.db, st, h, txn);
            var out := (PrepareBuysGas(env.db, st, h, txn);
                        RunMessage(env, s, txn, run, txn.gasLimit - IntrinsicGas(env.rev, txn)));
            var consumed := txn.gasLimit - out.output.gasLeft;
            && IntrinsicGas(env.rev, txn) <= consumed <= txn.gasLimit
            && 0 < used <= txn.gasLimit
            && RefundQuotient(env.rev) * used >= (RefundQuotient(env.rev) - 1) * consumed
  {
    hide WellFormed, Prepare, RunMessage, Sweep, Pay, FinalizeTransaction, RefundCovers, SameStorage, BalancesBut,
         Exists, IntrinsicGas, Cleared, Loses, RefundedGas, Held;
    PrepareBuysGas(env.db, st, h, txn);
    var s := Prepare(env.db, st, h, txn);
    FreshStateCovers(env, st, s);
    var gas := txn.gasLimit - IntrinsicGas(env.rev, txn);
    MessageFacts(env, s, txn, run, gas);
    var out := RunMessage(env, s, txn, run, gas);
    CoveringIsNotNegative(env, out.progress.state);
    RefundIsCapped(env.rev, out.progress.state, txn.gasLimit, out.output.gasLeft);
  }

  lemma FreshStateCovers(env: Env, st: State, s: State)
    requires NothingPending(st) && SameStorage(env.db, st, s) && s.refund == 0
    ensures RefundCovers(env, s)
  {
    hide SameStorage, Cleared;
    NothingPendingNothingCleared(env.db, st);
    SameStorageSameCleared(env.db, st, s);
  }

  /** No storage write of a transaction, at any depth, underflows the refund counter. */
  lemma TransactionNeverUnderflows(env: Env, st: State, h: Header, txn: Txn, run: Execution, gas: int)
    requires Settled(env.db, st) && Prevalidated(h, txn)
    ensures var s := Prepare(env.db, st, h, txn);
            && WellFormed(env.db, s)
            && match txn.to
               case Some(to) =>
                 var msg := Message(Call, false, to, txn.value, gas);
                 CallNeverUnderflows(env, s, txn.sender, msg, run.frame, run.precompile)
               case None => CreateNeverUnderflows(env, s, txn.sender, txn.value, gas, run.address, run.frame)
  {
    hide WellFormed, Prepare, SameStorage, BalancesBut, Exists, NothingPending, RefundCovers, CallNeverUnderflows,
         CreateNeverUnderflows, CallMessage, CreateMessage;
    PrepareBuysGas(env.db, st, h, txn);
    var s := Prepare(env.db, st, h, txn);
    FreshStateCovers(env, st, s);
    match txn.to
    case Some(to) =>
      CallCovers(env, s, txn.sender, Message(Call, false, to, txn.value, gas), run.frame, run.precompile);
    case None =>
      CreateCovers(env, s, txn.sender, txn.value, gas, run.address, run.frame);
  }

  /** Ether over one validated transaction: no purchase overdraws, no balance goes negative,
      and the total falls by exactly the base fee on the gas used plus what was destroyed. */
  lemma TransactionConserves(env: Env, st: State, h: Header, available: int, txn: Txn, run: Execution)
    requires Settled(env.db, st) && Prevalidated(h, txn) && Metered(env.rev, txn, run)
    requires ValidateTransaction(env.db, st, h, available, txn).None?
    requires ExecuteTransaction(env, st, h, txn, run).Applied?
    ensures var r := ExecuteTransaction(env, st, h, txn, run);
            && Settled(env.db, r.state)
            && Total(env.db, r.state) == Total(env.db, st) - r.gasUsed * BaseFee(h) - r.burned
            && (NonNegative(env.db, st) ==> NonNegative(env.db, r.state) && r.burned >= 0)
    ensures 0 <= txn.gasLimit * EffectivePrice(h, txn) <= Balance(env.db, st, txn.sender)
  {
    hide WellFormed, Prepare, RunMessage, Sweep, Pay, FinalizeTransaction, RefundCovers, SameStorage, BalancesBut,
         Exists, IntrinsicGas, Cleared, RefundedGas, Held, NothingPending, SameBalances, Total, NonNegative;
    var db := env.db;
    var s := Prepare(db, st, h, txn);
    var cost := txn.gasLimit * EffectivePrice(h, txn);
    PurchaseIsCovered(h, txn, Balance(db, st, txn.sender));
    PrepareTotal(db, st, h, txn);
    var gas := txn.gasLimit - IntrinsicGas(env.rev, txn);
    MessageFacts(env, s, txn, run, gas);
    var out := RunMessage(env, s, txn, run, gas);
    var t := out.progress.state;
    var gasLeft := out.output.gasLeft + RefundedGas(env.rev, t, txn.gasLimit, out.output.gasLeft);
    FreshStateCovers(env, st, s);
    CoveringIsNotNegative(env, t);
    RefundIsCapped(env.rev, t, txn.gasLimit, out.output.gasLeft);
    PayTotal(env, t, h, txn, gasLeft);
    var u := Pay(env, t, h, txn, gasLeft);
    SweepLoses(env, u);
    FinalizeKeeps(db, Sweep(env, u));
    SameBalancesLoseNothing(db, Sweep(env, u), FinalizeTransaction(Sweep(env, u)));
    FeesBalance(h, txn, gasLeft);
  }

  lemma PrepareTotal(db: World, st: State, h: Header, txn: Txn)
    requires WellFormed(db, st) && Prevalidated(h, txn)
    requires txn.gasLimit * EffectivePrice(h, txn) <= Balance(db, st, txn.sender)
    ensures var s := Prepare(db, st, h, txn);
            && WellFormed(db, s) && SameStorage(db, st, s) && s.refund == 0
            && Total(db, s) == Total(db, st) - txn.gasLimit * EffectivePrice(h, txn)
            && (NonNegative(db, st) ==> NonNegative(db, s))
  {
    hide WellFormed, Prepare, SameStorage, Balance, Exists, TotalBelow;
    PrepareBuysGas(db, st, h, txn);
    var s := Prepare(db, st, h, txn);
    var v := Balance(db, st, txn.sender) - txn.gasLimit * EffectivePrice(h, txn);
    TotalBelowBut(db, st, s, txn.sender, v, ADDRESS_SPACE);
  }
}
