// Conservation of ether: no tree of frames creates any, and what it destroys is exactly
// what accounts lose that destroy themselves in their own favour.
module Ether {
  import opened Revisions
  import opened WorldState
  import opened IntraBlock
  import opened Journal
  import opened Operations
  import opened Evm

  /** The ether held at addresses below n. */
  function TotalBelow(db: World, st: State, n: nat): (r: int)
    requires n <= ADDRESS_SPACE
  {
    if n == 0 then 0 else TotalBelow(db, st, n - 1) + Balance(db, st, n - 1)
  }

  function Total(db: World, st: State): (r: int) {
    TotalBelow(db, st, ADDRESS_SPACE)
  }

  ghost predicate NonNegative(db: World, st: State) {
    forall a :: Balance(db, st, a) >= 0
  }

  lemma {:induction false} SameTotalBelow(db: World, s: State, t: State, n: nat)
    requires n <= ADDRESS_SPACE && SameBalances(db, s, t)
    ensures TotalBelow(db, t, n) == TotalBelow(db, s, n)
  {
    hide Balance;
    if n > 0 {
      SameTotalBelow(db, s, t, n - 1);
      var a: Address := n - 1;
      assert Balance(db, t, a) == Balance(db, s, a);
    }
  }

  lemma {:induction false} TotalBelowBut(db: World, s: State, t: State, a: Address, v: int, n: nat)
    requires n <= ADDRESS_SPACE && BalancesBut(db, s, t, a, v)
    ensures TotalBelow(db, t, n) == TotalBelow(db, s, n) + if a < n then v - Balance(db, s, a) else 0
  {
    hide Balance;
    if n > 0 {
      TotalBelowBut(db, s, t, a, v, n - 1);
      var b: Address := n - 1;
      assert Balance(db, t, b) == if b == a then v else Balance(db, s, b);
    }
  }

  lemma {:induction false} OneBalanceAtMostTotal(db: World, st: State, a: Address, n: nat)
    requires NonNegative(db, st) && a < n <= ADDRESS_SPACE
    ensures 0 <= Balance(db, st, a) <= TotalBelow(db, st, n)
  {
    hide Balance;
    if a < n - 1 {
      OneBalanceAtMostTotal(db, st, a, n - 1);
      var b: Address := n - 1;
      assert Balance(db, st, b) >= 0;
    } else {
      TotalNonNegative(db, st, n - 1);
    }
  }

  lemma {:induction false} TotalNonNegative(db: World, st: State, n: nat)
    requires NonNegative(db, st) && n <= ADDRESS_SPACE
    ensures TotalBelow(db, st, n) >= 0
  {
    hide Balance;
    if n > 0 {
      TotalNonNegative(db, st, n - 1);
      var b: Address := n - 1;
      assert Balance(db, st, b) >= 0;
    }
  }

  /** From s to t exactly the given amount disappeared, and no balance went negative. */
  ghost predicate Loses(db: World, s: State, t: State, burned: int) {
    && Total(db, t) == Total(db, s) - burned
    && (NonNegative(db, s) ==> NonNegative(db, t) && burned >= 0)
  }

  lemma SameBalancesLoseNothing(db: World, s: State, t: State)
    requires SameBalances(db, s, t)
    ensures Loses(db, s, t, 0)
  {
    SameTotalBelow(db, s, t, ADDRESS_SPACE);
  }

  lemma LosesTwice(db: World, s: State, t: State, u: State, x: int, y: int)
    requires Loses(db, s, t, x) && Loses(db, t, u, y)
    ensures Loses(db, s, u, x + y)
  {
  }

  lemma SetBalanceTotal(db: World, s: State, a: Address, v: int)
    requires WellFormed(db, s)
    ensures WellFormed(db, SetBalance(db, s, a, v))
    ensures BalancesBut(db, s, SetBalance(db, s, a, v), a, v)
    ensures Total(db, SetBalance(db, s, a, v)) == Total(db, s) + v - Balance(db, s, a)
  {
    hide WellFormed, SetBalance, Advances, SameStorage, Balance, Exists, TotalBelow;
    SetBalanceKeeps(db, s, a, v);
    TotalBelowBut(db, s, SetBalance(db, s, a, v), a, v, ADDRESS_SPACE);
  }

  lemma TransferConserves(db: World, s: State, sender: Address, recipient: Address, v: nat)
    requires WellFormed(db, s) && Balance(db, s, sender) >= v
    ensures Loses(db, s, Transfer(db, s, sender, recipient, v), 0)
  {
    hide WellFormed, SetBalance, Balance, Total;
    SetBalanceTotal(db, s, sender, Balance(db, s, sender) - v);
    var u := SubtractFromBalance(db, s, sender, v);
    SetBalanceTotal(db, u, recipient, Balance(db, u, recipient) + v);
  }

  lemma SelfDestructLoses(env: Env, s: State, a: Address, beneficiary: Address)
    requires WellFormed(env.db, s)
    ensures var burned := if beneficiary == a then Balance(env.db, s, a) else 0;
            Loses(env.db, s, HostSelfDestruct(env, s, a, beneficiary), burned)
  {
    hide WellFormed, SetBalance, Balance, Total, RecordSelfdestruct, Advances, SameStorage, Exists;
    var db := env.db;
    var t := RecordSelfdestruct(s, a);
    RecordSelfdestructKeeps(db, s, a);
    SameBalancesLoseNothing(db, s, t);
    var v := Balance(db, t, beneficiary) + Balance(db, t, a);
    SetBalanceTotal(db, t, beneficiary, v);
    SetBalanceTotal(db, SetBalance(db, t, beneficiary, v), a, 0);
  }

  lemma FinishLoses(db: World, s: State, reached: Progress, out: Output)
    requires WellFormed(db, s) && Keeps(db, s, reached.state) && Loses(db, s, reached.state, reached.burned)
    ensures var r := Finish(db, s, reached, out).progress;
            Loses(db, s, r.state, r.burned)
  {
    hide WellFormed, Caches, Loses, SameStorage, Keeps, SameBalances;
    if out.status != Success {
      KeepsAdvances(db, s, reached.state);
      RevertKeeps(db, s, reached.state);
      SameBalancesLoseNothing(db, s, Finish(db, s, reached, out).progress.state);
    }
  }

  lemma EnterConserves(db: World, st: State, sender: Address, recipient: Address, msg: Message)
    requires WellFormed(db, st)
    requires msg.kind.Call? ==> Balance(db, st, sender) >= msg.value
    ensures Loses(db, st, Enter(db, st, sender, recipient, msg), 0)
  {
    hide WellFormed, Loses, Transfer, Touch, SameStorage, Balance, Keeps;
    if msg.kind.Call? && !msg.isStatic {
      TransferConserves(db, st, sender, recipient, msg.value);
    } else {
      TouchKeeps(db, st, recipient);
      SameBalancesLoseNothing(db, st, Enter(db, st, sender, recipient, msg));
    }
  }

  /** A message call, with everything nested in it, loses exactly what it burns. */
  lemma {:induction false} CallConserves(
    env: Env, st: State, sender: Address, msg: Message, frame: Frame, pre: Precompile)
    requires WellFormed(env.db, st)
    requires !msg.kind.Call? ==> Exists(env.db, st, sender)
    ensures var r := CallMessage(env, st, sender, msg, frame, pre).progress;
            Loses(env.db, st, r.state, r.burned)
    decreases frame, 0
  {
    hide WellFormed, Keeps, Enter, RunActions, HasCode, Caches, Balance, Exists, Loses, Finish;
    CachesNothing(env.db, st);
    var recipient := if msg.kind.Call? then msg.target else sender;
    SameBalancesLoseNothing(env.db, st, st);
    if (msg.kind.DelegateCall? || Balance(env.db, st, sender) >= msg.value)
       && !(msg.value == 0 && env.rev >= SPURIOUS && !IsPrecompiled(env.rev, msg.target)
            && !Exists(env.db, st, msg.target)) {
      var s := Enter(env.db, st, sender, recipient, msg);
      EnterConserves(env.db, st, sender, recipient, msg);
      if IsPrecompiled(env.rev, msg.target) {
        FinishLoses(env.db, st, Progress(s, 0), PrecompileOutput(msg.gas, pre));
      } else if HasCode(env.db, st, msg.target) {
        EnteredExists(env.db, st, s, sender, recipient, msg);
        var reached := RunActions(env, s, recipient, frame.actions);
        ActionsConserve(env, s, recipient, frame.actions);
        LosesTwice(env.db, st, s, reached.state, 0, reached.burned);
        KeepsTwice(env.db, st, s, reached.state);
        FinishLoses(env.db, st, reached, Output(frame.status, frame.gasLeft));
      }
    }
  }

  lemma DeployConserves(env: Env, reached: Progress, address: Address, frame: Frame)
    requires WellFormed(env.db, reached.state)
    ensures var r := Deploy(env, reached, address, frame).progress;
            Loses(env.db, reached.state, r.state, 0) && r.burned == reached.burned
  {
    hide WellFormed, Loses, SetCode, SameStorage, Keeps, SameBalances;
    SetCodeKeeps(env.db, reached.state, address, frame.codeHash);
    CachesNothing(env.db, reached.state);
    CachesKeeps(env.db, reached.state, reached.state);
    SameBalancesLoseNothing(env.db, reached.state, reached.state);
    SameBalancesLoseNothing(env.db, reached.state, SetCode(env.db, reached.state, address, frame.codeHash));
  }

  lemma FoundConserves(env: Env, st: State, sender: Address, address: Address, v: nat)
    requires WellFormed(env.db, st) && Balance(env.db, st, sender) >= v
    ensures Loses(env.db, st, Found(env, st, sender, address, v), 0)
  {
    hide WellFormed, Loses, Transfer, CreateContract, SetNonce, SameStorage, Balance, Advances, Exists;
    var db := env.db;
    var s := CreateContract(db, st, address);
    CreateContractKeeps(db, st, address);
    SetNonceKeeps(db, s, address, 1);
    var t := if env.rev >= SPURIOUS then SetNonce(db, s, address, 1) else s;
    SameBalancesLoseNothing(db, st, t);
    TransferConserves(db, t, sender, address, v);
    LosesTwice(db, st, t, Transfer(db, t, sender, address, v), 0, 0);
  }

  lemma {:induction false} CreateConserves(
    env: Env, st: State, sender: Address, endowment: nat, gas: int, address: Address, frame: Frame)
    requires WellFormed(env.db, st)
    ensures var r := CreateMessage(env, st, sender, endowment, gas, address, frame).progress;
            Loses(env.db, st, r.state, r.burned)
    decreases frame, 0
  {
    hide WellFormed, Keeps, Announce, Found, RunActions, HasCode, Caches, Balance, Deploy, Loses, Finish, SameStorage;
    CachesNothing(env.db, st);
    SameBalancesLoseNothing(env.db, st, st);
    if Balance(env.db, st, sender) >= endowment {
      var s := Announce(env.db, st, sender, address);
      SameBalancesLoseNothing(env.db, st, s);
      KeepsIsWellFormed(env.db, st, s);
      if AccountOf(env.db, s, address).nonce == 0 && !HasCode(env.db, s, address) {
        var t := Found(env, s, sender, address, endowment);
        FoundConserves(env, s, sender, address, endowment);
        KeepsIsWellFormed(env.db, s, t);
        var reached := RunActions(env, t, address, frame.actions);
        ActionsConserve(env, t, address, frame.actions);
        LosesTwice(env.db, s, t, reached.state, 0, reached.burned);
        KeepsTwice(env.db, s, t, reached.state);
        KeepsIsWellFormed(env.db, s, reached.state);
        var deployed := Deploy(env, reached, address, frame);
        DeployConserves(env, reached, address, frame);
        LosesTwice(env.db, s, reached.state, deployed.progress.state, reached.burned, 0);
        KeepsTwice(env.db, s, reached.state, deployed.progress.state);
        FinishLoses(env.db, s, deployed.progress, deployed.output);
        var r := Finish(env.db, s, deployed.progress, deployed.output).progress;
        LosesTwice(env.db, st, s, r.state, 0, r.burned);
      }
    }
  }

  lemma {:induction false} ActionConserves(env: Env, st: State, self: Address, act: Action)
    requires WellFormed(env.db, st) && Exists(env.db, st, self)
    ensures var r := RunAction(env, st, self, act);
            Loses(env.db, st, r.state, r.burned)
    decreases act, 0
  {
    hide WellFormed, Keeps, HostSetStorage, HostSelfDestruct, Loses, Caches, GetObject, CacheSlot, SameStorage,
         SameBalances, CallMessage, CreateMessage, Exists, Balance, StorageBut;
    var r := RunAction(env, st, self, act);
    match act
    case ReadAccount(a) =>
      GetObjectCaches(env.db, st, a);
      GetObjectLogs(env.db, st, a);
      CachesKeeps(env.db, st, r.state);
      SameBalancesLoseNothing(env.db, st, r.state);
    case SLoad(k) =>
      CacheSlotCaches(env.db, st, self, k, false);
      CacheSlotLogs(env.db, st, self, k, false);
      CachesKeeps(env.db, st, r.state);
      SameBalancesLoseNothing(env.db, st, r.state);
    case SStore(k, v) =>
      HostSetStorageKeeps(env, st, self, k, v);
      SameBalancesLoseNothing(env.db, st, r.state);
    case EmitLog(log) =>
      AddLogKeeps(env.db, st, log);
      SameBalancesLoseNothing(env.db, st, r.state);
    case WarmAccount(a) =>
      AccessAccountKeeps(env.db, st, a);
      CachesNothing(env.db, st);
      CachesKeeps(env.db, st, st);
      SameBalancesLoseNothing(env.db, st, r.state);
    case WarmSlot(a, k) =>
      AccessStorageKeeps(env.db, st, a, k);
      SameBalancesLoseNothing(env.db, st, r.state);
    case SelfDestruct(b) =>
      SelfDestructLoses(env, st, self, b);
    case CallOut(msg, callee, pre) =>
      CallConserves(env, st, self, msg, callee, pre);
    case CreateOut(endowment, gas, address, init) =>
      CreateConserves(env, st, self, endowment, gas, address, init);
  }

  lemma {:induction false} ActionsConserve(env: Env, st: State, self: Address, actions: seq<Action>)
    requires WellFormed(env.db, st) && Exists(env.db, st, self)
    ensures var r := RunActions(env, st, self, actions);
            Loses(env.db, st, r.state, r.burned)
    decreases actions, 0
  {
    hide WellFormed, Advances, Loses, RunAction, Exists, SameStorage;
    if actions == [] {
      SameBalancesLoseNothing(env.db, st, st);
    } else {
      var p := RunAction(env, st, self, actions[0]);
      ActionConserves(env, st, self, actions[0]);
      var q := RunActions(env, p.state, self, actions[1..]);
      ActionsConserve(env, p.state, self, actions[1..]);
      LosesTwice(env.db, st, p.state, q.state, p.burned, q.burned);
    }
  }
}
