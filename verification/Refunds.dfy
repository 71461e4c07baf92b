// The storage refund counter covers every slot that is currently cleared, so taking a
// clearing refund back never underflows it, through any nesting of frames and reverts.
module Refunds {
  import opened Revisions
  import opened WorldState
  import opened IntraBlock
  import opened Journal
  import opened Operations
  import opened Evm

  /** The slot was nonzero when the transaction began and is zero now. */
  ghost predicate IsCleared(db: World, st: State, a: Address, k: nat) {
    OriginalStorage(db, st, a, k) != 0 && CurrentStorage(db, st, a, k) == 0
  }

  ghost function Cleared(db: World, st: State): set<Slot> {
    set a, k | a in st.storage && k in st.storage[a].current && IsCleared(db, st, a, k) :: (a, k)
  }

  /** Only slots written in this transaction can be cleared. */
  lemma ClearedIsComplete(db: World, st: State, a: Address, k: nat)
    ensures (a, k) in Cleared(db, st) <==> IsCleared(db, st, a, k)
  {
  }

  /** Under net metering the counter holds at least one clearing refund for every cleared
      slot; at every revision it is not negative. */
  ghost predicate RefundCovers(env: Env, st: State) {
    st.refund >= if NetMetered(env.rev) then ClearsRefund(env.rev) * |Cleared(env.db, st)| else 0
  }

  lemma CoveringIsNotNegative(env: Env, st: State)
    requires RefundCovers(env, st)
    ensures st.refund >= 0
  {
  }

  lemma SameStorageSameCleared(db: World, s: State, t: State)
    requires SameStorage(db, s, t)
    ensures Cleared(db, t) == Cleared(db, s)
  {
    hide OriginalStorage, CurrentStorage, Cleared;
    forall c: Slot ensures c in Cleared(db, t) <==> c in Cleared(db, s) {
      ClearedIsComplete(db, s, c.0, c.1);
      ClearedIsComplete(db, t, c.0, c.1);
      assert OriginalStorage(db, t, c.0, c.1) == OriginalStorage(db, s, c.0, c.1);
    }
  }

  lemma SameStorageCovers(env: Env, s: State, t: State)
    requires RefundCovers(env, s) && SameStorage(env.db, s, t) && t.refund == s.refund
    ensures RefundCovers(env, t)
  {
    hide SameStorage, Cleared;
    SameStorageSameCleared(env.db, s, t);
  }

  /** Overwriting one slot can change only that slot's membership. */
  lemma OneSlotCleared(db: World, s: State, t: State, a: Address, k: nat, v: nat)
    requires StorageBut(db, s, t, a, k, v)
    ensures Cleared(db, t) - {(a, k)} == Cleared(db, s) - {(a, k)}
    ensures (a, k) in Cleared(db, s) <==> IsCleared(db, s, a, k)
    ensures (a, k) in Cleared(db, t) <==> OriginalStorage(db, s, a, k) != 0 && v == 0
  {
    hide OriginalStorage, CurrentStorage, Cleared;
    ClearedIsComplete(db, s, a, k);
    ClearedIsComplete(db, t, a, k);
    forall c: Slot | c != (a, k) ensures c in Cleared(db, t) <==> c in Cleared(db, s) {
      ClearedIsComplete(db, s, c.0, c.1);
      ClearedIsComplete(db, t, c.0, c.1);
      assert CurrentStorage(db, t, c.0, c.1) == CurrentStorage(db, s, c.0, c.1);
      assert OriginalStorage(db, t, c.0, c.1) == OriginalStorage(db, s, c.0, c.1);
    }
  }

  lemma CountOne<T>(s: set<T>, t: set<T>, x: T)
    requires s - {x} == t - {x}
    ensures |t| == |s| + (if x in t then 1 else 0) - (if x in s then 1 else 0)
  {
    assert x in s ==> |s - {x}| == |s| - 1;
    assert x in t ==> |t - {x}| == |t| - 1;
    assert x !in s ==> s - {x} == s;
    assert x !in t ==> t - {x} == t;
  }

  /** What is taken from the counter is there to be taken, and the write is covered after. */
  lemma SetStorageCovers(env: Env, s: State, a: Address, k: nat, v: nat)
    requires WellFormed(env.db, s) && Exists(env.db, s, a) && RefundCovers(env, s)
    ensures var current, original := CurrentStorage(env.db, s, a, k), OriginalStorage(env.db, s, a, k);
            current != v ==> s.refund >= RefundParts(env.rev, original, current, v).0
    ensures RefundCovers(env, HostSetStorage(env, s, a, k, v))
  {
    hide WellFormed, Keeps, OriginalStorage, CurrentStorage, Cleared, CacheSlot, SetStorage;
    var db := env.db;
    var t := HostSetStorage(env, s, a, k, v);
    HostSetStorageKeeps(env, s, a, k, v);
    OneSlotCleared(db, s, t, a, k, v);
    CountOne(Cleared(db, s), Cleared(db, t), (a, k));
    SetStorageRefund(env, s, a, k, v);
    var n, m, c := |Cleared(db, s)|, |Cleared(db, t)|, ClearsRefund(env.rev);
    assert m == n ==> c * m == c * n;
    assert m == n + 1 ==> c * m == c * n + c;
    assert m == n - 1 ==> c * m == c * n - c;
    assert (a, k) in Cleared(db, s) ==> c * n >= c by { Multiples(c, n); }
  }

  lemma Multiples(c: nat, n: nat)
    ensures n >= 1 ==> c * n >= c
  {
  }

  lemma SetStorageRefund(env: Env, s: State, a: Address, k: nat, v: nat)
    requires WellFormed(env.db, s) && Exists(env.db, s, a)
    ensures var current, original := CurrentStorage(env.db, s, a, k), OriginalStorage(env.db, s, a, k);
            var (taken, given) := RefundParts(env.rev, original, current, v);
            HostSetStorage(env, s, a, k, v).refund == if current == v then s.refund else s.refund - taken + given
  {
    hide WellFormed, Keeps, CacheSlot, RefundParts;
    CacheSlotLogs(env.db, s, a, k, false);
    SetStorageKeeps(env.db, s, a, k, v);
  }

  // ----- Frames -----

  lemma FinishCovers(env: Env, s: State, reached: Progress, out: Output)
    requires WellFormed(env.db, s) && Keeps(env.db, s, reached.state)
    requires RefundCovers(env, s) && RefundCovers(env, reached.state)
    ensures RefundCovers(env, Finish(env.db, s, reached, out).progress.state)
  {
    hide WellFormed, Caches, SameStorage, SameBalances, RefundCovers;
    if out.status != Success {
      RevertKeeps(env.db, s, reached.state);
      SameStorageCovers(env, s, Finish(env.db, s, reached, out).progress.state);
    }
  }

  lemma SetBalanceRefund(db: World, s: State, a: Address, v: int)
    ensures SetBalance(db, s, a, v).refund == s.refund
  {
  }

  lemma TransferCovers(env: Env, s: State, sender: Address, recipient: Address, v: int)
    requires WellFormed(env.db, s) && RefundCovers(env, s)
    ensures RefundCovers(env, Transfer(env.db, s, sender, recipient, v))
  {
    hide WellFormed, Keeps, SameStorage, RefundCovers, SetBalance, Balance, Exists;
    TransferKeeps(env.db, s, sender, recipient, v);
    SetBalanceRefund(env.db, s, sender, Balance(env.db, s, sender) - v);
    var u := SubtractFromBalance(env.db, s, sender, v);
    SetBalanceRefund(env.db, u, recipient, Balance(env.db, u, recipient) + v);
    SameStorageCovers(env, s, Transfer(env.db, s, sender, recipient, v));
  }

  lemma EnterCovers(env: Env, st: State, sender: Address, recipient: Address, msg: Message)
    requires WellFormed(env.db, st) && RefundCovers(env, st)
    ensures RefundCovers(env, Enter(env.db, st, sender, recipient, msg))
  {
    hide WellFormed, Keeps, SameStorage, RefundCovers, Transfer, SameBalances;
    if msg.kind.Call? && !msg.isStatic {
      TransferCovers(env, st, sender, recipient, msg.value);
    } else {
      TouchKeeps(env.db, st, recipient);
      CachesNothing(env.db, st);
      CachesKeeps(env.db, st, st);
      SameStorageCovers(env, st, Enter(env.db, st, sender, recipient, msg));
    }
  }

  lemma NewContractCovers(env: Env, s: State, a: Address)
    requires WellFormed(env.db, s) && RefundCovers(env, s)
    ensures RefundCovers(env, CreateContract(env.db, s, a))
  {
    hide WellFormed, Keeps, OriginalStorage, CurrentStorage, Cleared, Exists, SameBalances;
    var t := CreateContract(env.db, s, a);
    CreateContractKeeps(env.db, s, a);
    forall c | c in Cleared(env.db, t) ensures c in Cleared(env.db, s) {
      ClearedIsComplete(env.db, s, c.0, c.1);
      ClearedIsComplete(env.db, t, c.0, c.1);
      assert OriginalStorage(env.db, t, c.0, c.1) != 0;
      assert CurrentStorage(env.db, t, c.0, c.1) == CurrentStorage(env.db, s, c.0, c.1);
    }
    SubsetSize(Cleared(env.db, t), Cleared(env.db, s));
    Monotone(ClearsRefund(env.rev), |Cleared(env.db, t)|, |Cleared(env.db, s)|);
  }

  lemma SubsetSize<T>(x: set<T>, y: set<T>)
    requires x <= y
    ensures |x| <= |y|
  {
    assert |y| == |x| + |y - x| by {
      assert x + (y - x) == y;
    }
  }

  lemma Monotone(c: nat, m: nat, n: nat)
    requires m <= n
    ensures c * m <= c * n
  {
  }

  lemma FoundCovers(env: Env, st: State, sender: Address, address: Address, v: nat)
    requires WellFormed(env.db, st) && RefundCovers(env, st)
    ensures RefundCovers(env, Found(env, st, sender, address, v))
  {
    hide WellFormed, Transfer, CreateContract, SetNonce, SameStorage, SameBalances, Advances, RefundCovers, Exists,
         OriginalStorage, CurrentStorage;
    var db := env.db;
    var s := CreateContract(db, st, address);
    CreateContractKeeps(db, st, address);
    NewContractCovers(env, st, address);
    SetNonceKeeps(db, s, address, 1);
    SetNonceRefund(db, s, address, 1);
    var t := if env.rev >= SPURIOUS then SetNonce(db, s, address, 1) else s;
    if env.rev >= SPURIOUS {
      SameStorageCovers(env, s, t);
    }
    TransferCovers(env, t, sender, address, v);
  }

  lemma SetNonceRefund(db: World, s: State, a: Address, nonce: nat)
    ensures SetNonce(db, s, a, nonce).refund == s.refund
  {
  }

  lemma AnnounceCovers(env: Env, st: State, sender: Address, address: Address)
    requires WellFormed(env.db, st) && RefundCovers(env, st)
    ensures RefundCovers(env, Announce(env.db, st, sender, address))
  {
    hide WellFormed, Keeps, SameStorage, SameBalances, RefundCovers, SetNonce;
    SetNonceRefund(env.db, st, sender, AccountOf(env.db, st, sender).nonce + 1);
    SameStorageCovers(env, st, Announce(env.db, st, sender, address));
  }

  lemma DeployCovers(env: Env, reached: Progress, address: Address, frame: Frame)
    requires WellFormed(env.db, reached.state) && RefundCovers(env, reached.state)
    ensures RefundCovers(env, Deploy(env, reached, address, frame).progress.state)
  {
    hide WellFormed, SameStorage, Keeps, SameBalances, RefundCovers;
    SetCodeKeeps(env.db, reached.state, address, frame.codeHash);
    SameStorageCovers(env, reached.state, SetCode(env.db, reached.state, address, frame.codeHash));
  }

  // ----- Every write inside a tree -----

  /** No storage write made by the call, at any depth, takes more from the counter than it
      holds at that moment. */
  ghost predicate CallNeverUnderflows(
    env: Env, st: State, sender: Address, msg: Message, frame: Frame, pre: Precompile)
    requires WellFormed(env.db, st)
    requires !msg.kind.Call? ==> Exists(env.db, st, sender)
    decreases frame, 0
  {
    hide WellFormed, Keeps;
    var recipient := if msg.kind.Call? then msg.target else sender;
    var runs := (msg.kind.DelegateCall? || Balance(env.db, st, sender) >= msg.value)
                && !IsPrecompiled(env.rev, msg.target) && HasCode(env.db, st, msg.target);
    runs ==>
      var s := Enter(env.db, st, sender, recipient, msg);
      EnteredExists(env.db, st, s, sender, recipient, msg);
      ActionsNeverUnderflow(env, s, recipient, frame.actions)
  }

  ghost predicate CreateNeverUnderflows(
    env: Env, st: State, sender: Address, endowment: nat, gas: int, address: Address, frame: Frame)
    requires WellFormed(env.db, st)
    decreases frame, 0
  {
    hide WellFormed, Keeps, Announce, Found;
    Balance(env.db, st, sender) >= endowment ==>
      var s := Announce(env.db, st, sender, address);
      KeepsIsWellFormed(env.db, st, s);
      AccountOf(env.db, s, address).nonce == 0 && !HasCode(env.db, s, address) ==>
        var t := Found(env, s, sender, address, endowment);
        KeepsIsWellFormed(env.db, s, t);
        ActionsNeverUnderflow(env, t, address, frame.actions)
  }

  ghost predicate ActionNeverUnderflows(env: Env, st: State, self: Address, act: Action)
    requires WellFormed(env.db, st) && Exists(env.db, st, self)
    decreases act, 0
  {
    hide WellFormed, Exists;
    match act
    case SStore(k, v) =>
      var current := CurrentStorage(env.db, st, self, k);
      current != v ==> st.refund >= RefundParts(env.rev, OriginalStorage(env.db, st, self, k), current, v).0
    case CallOut(msg, callee, pre) => CallNeverUnderflows(env, st, self, msg, callee, pre)
    case CreateOut(endowment, gas, address, init) =>
      CreateNeverUnderflows(env, st, self, endowment, gas, address, init)
    case _ => true
  }

  ghost predicate ActionsNeverUnderflow(env: Env, st: State, self: Address, actions: seq<Action>)
    requires WellFormed(env.db, st) && Exists(env.db, st, self)
    decreases actions, 0
  {
    hide WellFormed, Advances, RunAction;
    actions != [] ==>
      && ActionNeverUnderflows(env, st, self, actions[0])
      && ActionsNeverUnderflow(env, RunAction(env, st, self, actions[0]).state, self, actions[1..])
  }

  /** A message call, with everything nested in it, keeps the counter covering and never
      underflows it. */
  lemma {:induction false} CallCovers(
    env: Env, st: State, sender: Address, msg: Message, frame: Frame, pre: Precompile)
    requires WellFormed(env.db, st) && RefundCovers(env, st)
    requires !msg.kind.Call? ==> Exists(env.db, st, sender)
    ensures RefundCovers(env, CallMessage(env, st, sender, msg, frame, pre).progress.state)
    ensures CallNeverUnderflows(env, st, sender, msg, frame, pre)
    decreases frame, 0
  {
    hide WellFormed, Keeps, Enter, RunActions, HasCode, Caches, Balance, Exists, RefundCovers, Finish,
         ActionsNeverUnderflow;
    if HasCode(env.db, st, msg.target) {
      CodeExists(env.db, st, msg.target);
    }
    CachesNothing(env.db, st);
    var recipient := if msg.kind.Call? then msg.target else sender;
    if (msg.kind.DelegateCall? || Balance(env.db, st, sender) >= msg.value)
       && !(msg.value == 0 && env.rev >= SPURIOUS && !IsPrecompiled(env.rev, msg.target)
            && !Exists(env.db, st, msg.target)) {
      var s := Enter(env.db, st, sender, recipient, msg);
      EnterCovers(env, st, sender, recipient, msg);
      if IsPrecompiled(env.rev, msg.target) {
        FinishCovers(env, st, Progress(s, 0), PrecompileOutput(msg.gas, pre));
      } else if HasCode(env.db, st, msg.target) {
        EnteredExists(env.db, st, s, sender, recipient, msg);
        var reached := RunActions(env, s, recipient, frame.actions);
        ActionsCover(env, s, recipient, frame.actions);
        KeepsTwice(env.db, st, s, reached.state);
        FinishCovers(env, st, reached, Output(frame.status, frame.gasLeft));
      }
    }
  }

  lemma {:induction false} CreateCovers(
    env: Env, st: State, sender: Address, endowment: nat, gas: int, address: Address, frame: Frame)
    requires WellFormed(env.db, st) && RefundCovers(env, st)
    ensures RefundCovers(env, CreateMessage(env, st, sender, endowment, gas, address, frame).progress.state)
    ensures CreateNeverUnderflows(env, st, sender, endowment, gas, address, frame)
    decreases frame, 0
  {
    hide WellFormed, Keeps, Announce, Found, RunActions, HasCode, Caches, Balance, Deploy, RefundCovers, Finish,
         SameStorage, ActionsNeverUnderflow;
    CachesNothing(env.db, st);
    if Balance(env.db, st, sender) >= endowment {
      var s := Announce(env.db, st, sender, address);
      AnnounceCovers(env, st, sender, address);
      KeepsIsWellFormed(env.db, st, s);
      if AccountOf(env.db, s, address).nonce == 0 && !HasCode(env.db, s, address) {
        var t := Found(env, s, sender, address, endowment);
        FoundCovers(env, s, sender, address, endowment);
        KeepsIsWellFormed(env.db, s, t);
        var reached := RunActions(env, t, address, frame.actions);
        ActionsCover(env, t, address, frame.actions);
        KeepsTwice(env.db, s, t, reached.state);
        KeepsIsWellFormed(env.db, s, reached.state);
        var deployed := Deploy(env, reached, address, frame);
        DeployCovers(env, reached, address, frame);
        KeepsTwice(env.db, s, reached.state, deployed.progress.state);
        FinishCovers(env, s, deployed.progress, deployed.output);
      }
    }
  }

  lemma {:induction false} ActionCovers(env: Env, st: State, self: Address, act: Action)
    requires WellFormed(env.db, st) && Exists(env.db, st, self) && RefundCovers(env, st)
    ensures RefundCovers(env, RunAction(env, st, self, act).state)
    ensures ActionNeverUnderflows(env, st, self, act)
    decreases act, 0
  {
    hide CallNeverUnderflows, CreateNeverUnderflows, RefundParts, OriginalStorage, CurrentStorage;
    hide WellFormed, Keeps, HostSetStorage, Caches, GetObject, CacheSlot, SameStorage, SetBalance,
         SameBalances, CallMessage, CreateMessage, Exists, Balance, StorageBut, RefundCovers;
    var r := RunAction(env, st, self, act);
    match act
    case ReadAccount(a) =>
      GetObjectCaches(env.db, st, a);
      GetObjectLogs(env.db, st, a);
      CachesKeeps(env.db, st, r.state);
      SameStorageCovers(env, st, r.state);
    case SLoad(k) =>
      CacheSlotCaches(env.db, st, self, k, false);
      CacheSlotLogs(env.db, st, self, k, false);
      CachesKeeps(env.db, st, r.state);
      SameStorageCovers(env, st, r.state);
    case SStore(k, v) =>
      SetStorageCovers(env, st, self, k, v);
    case EmitLog(log) =>
      AddLogKeeps(env.db, st, log);
      SameStorageCovers(env, st, r.state);
    case WarmAccount(a) =>
      AccessAccountKeeps(env.db, st, a);
      CachesNothing(env.db, st);
      CachesKeeps(env.db, st, st);
      SameStorageCovers(env, st, r.state);
    case WarmSlot(a, k) =>
      AccessStorageKeeps(env.db, st, a, k);
      SameStorageCovers(env, st, r.state);
    case SelfDestruct(b) =>
      HostSelfDestructKeeps(env, st, self, b);
      var s := RecordSelfdestruct(st, self);
      var v := Balance(env.db, s, b) + Balance(env.db, s, self);
      SetBalanceRefund(env.db, s, b, v);
      SetBalanceRefund(env.db, SetBalance(env.db, s, b, v), self, 0);
      SameStorageCovers(env, st, r.state);
    case CallOut(msg, callee, pre) =>
      CallCovers(env, st, self, msg, callee, pre);
    case CreateOut(endowment, gas, address, init) =>
      CreateCovers(env, st, self, endowment, gas, address, init);
  }

  lemma {:induction false} ActionsCover(env: Env, st: State, self: Address, actions: seq<Action>)
    requires WellFormed(env.db, st) && Exists(env.db, st, self) && RefundCovers(env, st)
    ensures RefundCovers(env, RunActions(env, st, self, actions).state)
    ensures ActionsNeverUnderflow(env, st, self, actions)
    decreases actions, 0
  {
    hide WellFormed, Advances, RefundCovers, RunAction, Exists, SameStorage, ActionNeverUnderflows;
    if actions != [] {
      var p := RunAction(env, st, self, actions[0]);
      ActionCovers(env, st, self, actions[0]);
      ActionsCover(env, p.state, self, actions[1..]);
    }
  }
}
