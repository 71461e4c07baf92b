// Whose storage a tree of frames may change: that of the addresses its frames run at. Code
// that is borrowed runs at the borrower's address.
module Actors {
  import opened Revisions
  import opened WorldState
  import opened IntraBlock
  import opened Journal
  import opened Operations
  import opened Evm

  // ----- The addresses that write -----

  /** The addresses at which a frame of the tree writes storage or a contract is created. The
      frame of a plain call runs at its target, any other call's at the caller. */
  function ActionWriters(self: Address, act: Action): (r: set<Address>)
    decreases act, 0
  {
    match act
    case SStore(_, _) => {self}
    case CallOut(msg, callee, _) => Writers(if msg.kind == Call then msg.target else self, callee.actions)
    case CreateOut(_, _, address, init) => {address} + Writers(address, init.actions)
    case _ => {}
  }

  function Writers(self: Address, actions: seq<Action>): (r: set<Address>)
    decreases actions, 0
  {
    if actions == [] then {} else ActionWriters(self, actions[0]) + Writers(self, actions[1..])
  }

  /** Storage is the same except at the given addresses. */
  ghost predicate StorageOutside(db: World, s: State, t: State, where: set<Address>) {
    forall a, k | a !in where ::
      && CurrentStorage(db, t, a, k) == CurrentStorage(db, s, a, k)
      && OriginalStorage(db, t, a, k) == OriginalStorage(db, s, a, k)
  }

  lemma SameIsOutside(db: World, s: State, t: State, where: set<Address>)
    requires SameStorage(db, s, t)
    ensures StorageOutside(db, s, t, where)
  {
  }

  lemma OutsideTwice(db: World, s: State, t: State, u: State, x: set<Address>, y: set<Address>)
    requires StorageOutside(db, s, t, x) && StorageOutside(db, t, u, y)
    ensures StorageOutside(db, s, u, x + y)
  {
  }

  lemma FinishOutside(db: World, s: State, reached: Progress, out: Output, where: set<Address>)
    requires WellFormed(db, s) && Keeps(db, s, reached.state) && StorageOutside(db, s, reached.state, where)
    ensures StorageOutside(db, s, Finish(db, s, reached, out).progress.state, where)
  {
    hide WellFormed, Caches, SameStorage, SameBalances, StorageOutside;
    if out.status != Success {
      RevertKeeps(db, s, reached.state);
      SameIsOutside(db, s, Finish(db, s, reached, out).progress.state, where);
    }
  }

  lemma EnterSame(db: World, st: State, sender: Address, recipient: Address, msg: Message)
    requires WellFormed(db, st)
    ensures SameStorage(db, st, Enter(db, st, sender, recipient, msg))
  {
    hide WellFormed, Keeps, SameStorage, Transfer, SameBalances;
    TransferKeeps(db, st, sender, recipient, msg.value);
    TouchKeeps(db, st, recipient);
    CachesNothing(db, st);
    CachesKeeps(db, st, st);
  }

  /** A message call changes storage only at the addresses where its frames write. */
  lemma {:induction false} CallWrites(
    env: Env, st: State, sender: Address, msg: Message, frame: Frame, pre: Precompile)
    requires WellFormed(env.db, st)
    requires !msg.kind.Call? ==> Exists(env.db, st, sender)
    ensures StorageOutside(env.db, st, CallMessage(env, st, sender, msg, frame, pre).progress.state,
                           Writers(if msg.kind == Call then msg.target else sender, frame.actions))
    decreases frame, 0
  {
    hide WellFormed, Keeps, Enter, RunActions, HasCode, Caches, Balance, Exists, Finish, StorageOutside, SameStorage,
         Writers;
    CachesNothing(env.db, st);
    CachesKeeps(env.db, st, st);
    var recipient := if msg.kind == Call then msg.target else sender;
    var where := Writers(recipient, frame.actions);
    SameIsOutside(env.db, st, st, where);
    if (msg.kind.DelegateCall? || Balance(env.db, st, sender) >= msg.value)
       && !(msg.value == 0 && env.rev >= SPURIOUS && !IsPrecompiled(env.rev, msg.target)
            && !Exists(env.db, st, msg.target)) {
      var s := Enter(env.db, st, sender, recipient, msg);
      EnterSame(env.db, st, sender, recipient, msg);
      SameIsOutside(env.db, st, s, where);
      if IsPrecompiled(env.rev, msg.target) {
        FinishOutside(env.db, st, Progress(s, 0), PrecompileOutput(msg.gas, pre), where);
      } else if HasCode(env.db, st, msg.target) {
        EnteredExists(env.db, st, s, sender, recipient, msg);
        var reached := RunActions(env, s, recipient, frame.actions);
        ActionsWrite(env, s, recipient, frame.actions);
        OutsideTwice(env.db, st, s, reached.state, where, where);
        SetPlusItself(where);
        KeepsTwice(env.db, st, s, reached.state);
        FinishOutside(env.db, st, reached, Output(frame.status, frame.gasLeft), where);
      }
    }
  }

  lemma SetPlusItself(x: set<Address>)
    ensures x + x == x
  {
  }

  lemma FoundOutside(env: Env, st: State, sender: Address, address: Address, v: nat)
    requires WellFormed(env.db, st)
    ensures StorageOutside(env.db, st, Found(env, st, sender, address, v), {address})
  {
    hide WellFormed, Transfer, CreateContract, SetNonce, SameBalances, Advances, Exists, OriginalStorage,
         CurrentStorage;
    var db := env.db;
    var s := CreateContract(db, st, address);
    CreateContractKeeps(db, st, address);
    SetNonceKeeps(db, s, address, 1);
    var t := if env.rev >= SPURIOUS then SetNonce(db, s, address, 1) else s;
    TransferKeeps(db, t, sender, address, v);
    var u := Transfer(db, t, sender, address, v);
    forall a, k | a !in {address}
      ensures CurrentStorage(db, u, a, k) == CurrentStorage(db, st, a, k)
      ensures OriginalStorage(db, u, a, k) == OriginalStorage(db, st, a, k)
    {
      assert CurrentStorage(db, u, a, k) == CurrentStorage(db, t, a, k);
      assert OriginalStorage(db, u, a, k) == OriginalStorage(db, t, a, k);
    }
  }

  lemma DeployOutside(env: Env, reached: Progress, address: Address, frame: Frame, where: set<Address>)
    requires WellFormed(env.db, reached.state)
    ensures StorageOutside(env.db, reached.state, Deploy(env, reached, address, frame).progress.state, where)
  {
    hide WellFormed, Keeps, SameStorage, SameBalances, StorageOutside, SetCode;
    SetCodeKeeps(env.db, reached.state, address, frame.codeHash);
    CachesNothing(env.db, reached.state);
    CachesKeeps(env.db, reached.state, reached.state);
    SameIsOutside(env.db, reached.state, Deploy(env, reached, address, frame).progress.state, where);
  }

  /** A creation changes storage only at its address and where its frames write. */
  lemma {:induction false} CreateWrites(
    env: Env, st: State, sender: Address, endowment: nat, gas: int, address: Address, frame: Frame)
    requires WellFormed(env.db, st)
    ensures StorageOutside(env.db, st, CreateMessage(env, st, sender, endowment, gas, address, frame).progress.state,
                           {address} + Writers(address, frame.actions))
    decreases frame, 0
  {
    hide WellFormed, Keeps, Announce, Found, RunActions, HasCode, Caches, Balance, Deploy, Finish, SameStorage,
         StorageOutside, Writers;
    CachesNothing(env.db, st);
    CachesKeeps(env.db, st, st);
    var inner := Writers(address, frame.actions);
    var where := {address} + inner;
    SameIsOutside(env.db, st, st, where);
    if Balance(env.db, st, sender) >= endowment {
      var s := Announce(env.db, st, sender, address);
      SameIsOutside(env.db, st, s, {});
      SameIsOutside(env.db, st, s, where);
      KeepsIsWellFormed(env.db, st, s);
      if AccountOf(env.db, s, address).nonce == 0 && !HasCode(env.db, s, address) {
        var t := Found(env, s, sender, address, endowment);
        FoundOutside(env, s, sender, address, endowment);
        KeepsIsWellFormed(env.db, s, t);
        var reached := RunActions(env, t, address, frame.actions);
        ActionsWrite(env, t, address, frame.actions);
        OutsideTwice(env.db, s, t, reached.state, {address}, inner);
        KeepsTwice(env.db, s, t, reached.state);
        KeepsIsWellFormed(env.db, s, reached.state);
        var deployed := Deploy(env, reached, address, frame);
        DeployOutside(env, reached, address, frame, where);
        OutsideTwice(env.db, s, reached.state, deployed.progress.state, where, where);
        SetPlusItself(where);
        KeepsTwice(env.db, s, reached.state, deployed.progress.state);
        FinishOutside(env.db, s, deployed.progress, deployed.output, where);
        var r := Finish(env.db, s, deployed.progress, deployed.output);
        OutsideTwice(env.db, st, s, r.progress.state, {}, where);
        EmptyPlus(where);
      }
    }
  }

  lemma EmptyPlus(x: set<Address>)
    ensures {} + x == x
  {
  }

  lemma SetStorageOutside(env: Env, s: State, a: Address, k: nat, v: nat)
    requires WellFormed(env.db, s) && Exists(env.db, s, a)
    ensures StorageOutside(env.db, s, HostSetStorage(env, s, a, k, v), {a})
  {
    hide WellFormed, Advances, OriginalStorage, CurrentStorage, HostSetStorage;
    HostSetStorageKeeps(env, s, a, k, v);
  }

  lemma {:induction false} ActionWrites(env: Env, st: State, self: Address, act: Action)
    requires WellFormed(env.db, st) && Exists(env.db, st, self)
    ensures StorageOutside(env.db, st, RunAction(env, st, self, act).state, ActionWriters(self, act))
    decreases act, 0
  {
    hide WellFormed, Keeps, HostSetStorage, HostSelfDestruct, Caches, GetObject, CacheSlot, SameStorage, SetBalance,
         SameBalances, CallMessage, CreateMessage, Exists, Balance, StorageBut, StorageOutside, Writers;
    var r := RunAction(env, st, self, act).state;
    match act
    case ReadAccount(a) =>
      GetObjectCaches(env.db, st, a);
      GetObjectLogs(env.db, st, a);
      CachesKeeps(env.db, st, r);
      SameIsOutside(env.db, st, r, {});
    case SLoad(k) =>
      CacheSlotCaches(env.db, st, self, k, false);
      CacheSlotLogs(env.db, st, self, k, false);
      CachesKeeps(env.db, st, r);
      SameIsOutside(env.db, st, r, {});
    case SStore(k, v) =>
      SetStorageOutside(env, st, self, k, v);
    case EmitLog(log) =>
      AddLogKeeps(env.db, st, log);
      SameIsOutside(env.db, st, r, {});
    case WarmAccount(a) =>
      AccessAccountKeeps(env.db, st, a);
      CachesNothing(env.db, st);
      CachesKeeps(env.db, st, st);
      SameIsOutside(env.db, st, r, {});
    case WarmSlot(a, k) =>
      AccessStorageKeeps(env.db, st, a, k);
      SameIsOutside(env.db, st, r, {});
    case SelfDestruct(b) =>
      HostSelfDestructKeeps(env, st, self, b);
      SameIsOutside(env.db, st, r, {});
    case CallOut(msg, callee, pre) =>
      CallWrites(env, st, self, msg, callee, pre);
    case CreateOut(endowment, gas, address, init) =>
      CreateWrites(env, st, self, endowment, gas, address, init);
  }

  lemma {:induction false} ActionsWrite(env: Env, st: State, self: Address, actions: seq<Action>)
    requires WellFormed(env.db, st) && Exists(env.db, st, self)
    ensures StorageOutside(env.db, st, RunActions(env, st, self, actions).state, Writers(self, actions))
    decreases actions, 0
  {
    hide WellFormed, Advances, RunAction, Exists, SameStorage, StorageOutside, ActionWriters;
    if actions == [] {
      CachesNothing(env.db, st);
      CachesKeeps(env.db, st, st);
      SameIsOutside(env.db, st, st, {});
    } else {
      var p := RunAction(env, st, self, actions[0]);
      ActionWrites(env, st, self, actions[0]);
      ActionsWrite(env, p.state, self, actions[1..]);
      var q := RunActions(env, p.state, self, actions[1..]);
      OutsideTwice(env.db, st, p.state, q.state, ActionWriters(self, actions[0]), Writers(self, actions[1..]));
    }
  }

  // ----- Where a write lands -----

  /** A frame that stores a value and succeeds leaves it at the target of a plain call, and at
      the caller when the code was borrowed. */
  lemma WriteLandsAt(
    env: Env, st: State, sender: Address, msg: Message, frame: Frame, pre: Precompile, k: nat, v: nat)
    requires WellFormed(env.db, st) && HasCode(env.db, st, msg.target) && !IsPrecompiled(env.rev, msg.target)
    requires !msg.kind.Call? ==> Exists(env.db, st, sender)
    requires msg.kind == DelegateCall || Balance(env.db, st, sender) >= msg.value
    requires frame.actions == [SStore(k, v)] && frame.status == Success
    ensures var r := CallMessage(env, st, sender, msg, frame, pre);
            && r.output == Output(Success, frame.gasLeft)
            && CurrentStorage(env.db, r.progress.state, if msg.kind == Call then msg.target else sender, k) == v
  {
    hide WellFormed, Keeps, Enter, HasCode, Caches, Balance, HostSetStorage, CurrentStorage, OriginalStorage,
         SameBalances;
    CachesNothing(env.db, st);
    assert Exists(env.db, st, msg.target) by {
      CodeExists(env.db, st, msg.target);
    }
    var recipient := if msg.kind == Call then msg.target else sender;
    var s := Enter(env.db, st, sender, recipient, msg);
    EnteredExists(env.db, st, s, sender, recipient, msg);
    var reached := RunActions(env, s, recipient, frame.actions);
    OnlyAction(env, s, recipient, SStore(k, v));
    HostSetStorageKeeps(env, s, recipient, k, v);
    KeepsTwice(env.db, st, s, reached.state);
  }

  // ----- When a call succeeds, what it returns and what it moves -----

  /** Operations take effect in their order: a list is its first part, and then the rest from the
      state reached. */
  lemma {:induction false} ActionsInParts(env: Env, st: State, self: Address, xs: seq<Action>, ys: seq<Action>)
    requires WellFormed(env.db, st) && Exists(env.db, st, self)
    ensures var p := RunActions(env, st, self, xs);
            && WellFormed(env.db, p.state) && Exists(env.db, p.state, self)
            && var q := RunActions(env, p.state, self, ys);
               RunActions(env, st, self, xs + ys) == Progress(q.state, p.burned + q.burned)
    decreases |xs|
  {
    hide WellFormed, Advances, RunAction, Exists;
    if xs == [] {
      assert xs + ys == ys;
    } else {
      assert (xs + ys)[1..] == xs[1..] + ys;
      var p := RunAction(env, st, self, xs[0]);
      ActionsInParts(env, p.state, self, xs[1..], ys);
    }
  }

  /** Whatever a frame does before, calls into itself included, the value it stores last in a slot
      is the one it holds. */
  lemma LastWriteStays(env: Env, st: State, self: Address, before: seq<Action>, k: nat, v: nat)
    requires WellFormed(env.db, st) && Exists(env.db, st, self)
    ensures CurrentStorage(env.db, RunActions(env, st, self, before + [SStore(k, v)]).state, self, k) == v
  {
    hide WellFormed, Advances, HostSetStorage, CurrentStorage, OriginalStorage, RunActions, Exists;
    ActionsInParts(env, st, self, before, [SStore(k, v)]);
    var s := RunActions(env, st, self, before).state;
    OnlyAction(env, s, self, SStore(k, v));
    HostSetStorageKeeps(env, s, self, k, v);
  }

  /** Nothing is done for a call without value to an account that does not exist. */
  predicate Skips(env: Env, st: State, msg: Message) {
    msg.value == 0 && env.rev >= 3 && !IsPrecompiled(env.rev, msg.target) && !Exists(env.db, st, msg.target)
  }

  /** The precompiled contract has a price, the call can pay it, and it succeeds. */
  predicate PrecompileRuns(msg: Message, pre: Precompile) {
    pre.gas.Some? && pre.gas.value <= msg.gas && pre.ok
  }

  /** A call succeeds exactly when the sender has the value, unless only code is borrowed with
      the caller's own value, and what it meets succeeds. It gives back all gas when nothing
      runs, all but the price of a precompiled contract, what the frame left, and nothing after
      a failure that is not a revert. */
  lemma CallSucceedsIff(env: Env, st: State, sender: Address, msg: Message, frame: Frame, pre: Precompile)
    requires WellFormed(env.db, st)
    requires !msg.kind.Call? ==> Exists(env.db, st, sender)
    ensures var out := CallMessage(env, st, sender, msg, frame, pre).output;
            var funds := msg.kind == DelegateCall || Balance(env.db, st, sender) >= msg.value;
            var precompiled := IsPrecompiled(env.rev, msg.target);
            var code := HasCode(env.db, st, msg.target);
            && (out.status == Success <==>
                  funds && if precompiled then PrecompileRuns(msg, pre) else code ==> frame.status == Success)
            && (!funds ==> out == Output(InsufficientBalance, msg.gas))
            && (funds && precompiled && PrecompileRuns(msg, pre) ==> out.gasLeft == msg.gas - pre.gas.value)
            && (funds && precompiled && !PrecompileRuns(msg, pre) ==> out.gasLeft == 0)
            && (funds && !precompiled && !code ==> out.gasLeft == msg.gas)
            && (funds && !precompiled && code ==>
                  && out.status == frame.status
                  && out.gasLeft == if frame.status == Success || frame.status == Revert then frame.gasLeft else 0)
    ensures Skips(env, st, msg) ==> CallMessage(env, st, sender, msg, frame, pre).progress.state == st
  {
    hide WellFormed, Keeps, Enter, RunActions, Caches, Balance;
    CachesNothing(env.db, st);
    CachesKeeps(env.db, st, st);
    if HasCode(env.db, st, msg.target) {
      CodeExists(env.db, st, msg.target);
    }
    var recipient := if msg.kind == Call then msg.target else sender;
    if (msg.kind == DelegateCall || Balance(env.db, st, sender) >= msg.value) && !Skips(env, st, msg) {
      var s := Enter(env.db, st, sender, recipient, msg);
      if !IsPrecompiled(env.rev, msg.target) && HasCode(env.db, st, msg.target) {
        EnteredExists(env.db, st, s, sender, recipient, msg);
        KeepsTwice(env.db, st, s, RunActions(env, s, recipient, frame.actions).state);
      }
    }
  }

  /** A successful call whose frame does nothing moves the value of a plain, non-static call
      from the sender to the target, and no ether otherwise; a plain call that is not skipped
      touches its target. */
  lemma CallMovesValue(env: Env, st: State, sender: Address, msg: Message, frame: Frame, pre: Precompile, b: Address)
    requires WellFormed(env.db, st)
    requires !msg.kind.Call? ==> Exists(env.db, st, sender)
    requires frame.actions == [] && CallMessage(env, st, sender, msg, frame, pre).output.status == Success
    ensures var t := CallMessage(env, st, sender, msg, frame, pre).progress.state;
            var moves := msg.kind == Call && !msg.isStatic;
            Balance(env.db, t, b) == Balance(env.db, st, b)
              - When(moves && b == sender, msg.value) + When(moves && b == msg.target, msg.value)
    ensures msg.kind == Call && !Skips(env, st, msg) ==>
              msg.target in CallMessage(env, st, sender, msg, frame, pre).progress.state.touched
  {
    hide WellFormed, Keeps, HasCode, Caches, Balance, Exists, Transfer, SameStorage;
    CachesNothing(env.db, st);
    CachesKeeps(env.db, st, st);
    var recipient := if msg.kind == Call then msg.target else sender;
    TransferKeeps(env.db, st, sender, recipient, msg.value);
    TouchKeeps(env.db, st, recipient);
    var s := Enter(env.db, st, sender, recipient, msg);
    TransferTouches(env.db, st, sender, recipient, msg.value);
    if HasCode(env.db, st, msg.target) {
      EnteredExists(env.db, st, s, sender, recipient, msg);
      KeepsTwice(env.db, st, s, RunActions(env, s, recipient, []).state);
    }
  }

  lemma TransferTouches(db: World, st: State, sender: Address, recipient: Address, v: int)
    ensures recipient in Transfer(db, st, sender, recipient, v).touched
    ensures recipient in Touch(st, recipient).touched
  {
    var s := SubtractFromBalance(db, st, sender, v);
    SetBalanceSubstate(db, s, recipient, Balance(db, s, recipient) + v);
    hide SetBalance, Balance, SubtractFromBalance;
  }
}
