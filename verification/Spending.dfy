// Whose ether a tree of frames may spend: only that of the addresses its frames run at.
module Spending {
  import opened Revisions
  import opened WorldState
  import opened IntraBlock
  import opened Journal
  import opened Operations
  import opened Evm
  import opened Ether

  /** The addresses at which a frame of the tree sends value, endows a contract or destroys
      itself. */
  function ActionSpenders(self: Address, act: Action): (r: set<Address>)
    decreases act, 0
  {
    match act
    case SelfDestruct(_) => {self}
    case CallOut(msg, callee, _) =>
      (if msg.kind == Call && !msg.isStatic && msg.value > 0 then {self} else {})
      + Spenders(if msg.kind == Call then msg.target else self, callee.actions)
    case CreateOut(endowment, _, address, init) =>
      (if endowment > 0 then {self} else {}) + Spenders(address, init.actions)
    case _ => {}
  }

  function Spenders(self: Address, actions: seq<Action>): (r: set<Address>)
    decreases actions, 0
  {
    if actions == [] then {} else ActionSpenders(self, actions[0]) + Spenders(self, actions[1..])
  }

  /** No balance has fallen except at the given addresses. */
  ghost predicate NoneFell(db: World, s: State, t: State, where: set<Address>) {
    forall a | a !in where :: Balance(db, t, a) >= Balance(db, s, a)
  }

  lemma SameFell(db: World, s: State, t: State, where: set<Address>)
    requires SameBalances(db, s, t)
    ensures NoneFell(db, s, t, where)
  {
  }

  lemma FellTwice(db: World, s: State, t: State, u: State, x: set<Address>, y: set<Address>)
    requires NoneFell(db, s, t, x) && NoneFell(db, t, u, y)
    ensures NoneFell(db, s, u, x + y)
  {
  }

  lemma FinishFell(db: World, s: State, reached: Progress, out: Output, where: set<Address>)
    requires WellFormed(db, s) && Keeps(db, s, reached.state) && NoneFell(db, s, reached.state, where)
    ensures NoneFell(db, s, Finish(db, s, reached, out).progress.state, where)
  {
    hide WellFormed, Caches, SameStorage, SameBalances, NoneFell;
    if out.status != Success {
      RevertKeeps(db, s, reached.state);
      SameFell(db, s, Finish(db, s, reached, out).progress.state, where);
    }
  }

  /** What a call itself spends, at its sender. */
  function Payer(sender: Address, msg: Message): (r: set<Address>) {
    if msg.kind == Call && !msg.isStatic && msg.value > 0 then {sender} else {}
  }

  lemma EnterFell(db: World, st: State, sender: Address, recipient: Address, msg: Message)
    requires WellFormed(db, st)
    ensures NoneFell(db, st, Enter(db, st, sender, recipient, msg), Payer(sender, msg))
  {
    hide WellFormed, Keeps, SameStorage, Transfer, Balance, Exists;
    TransferKeeps(db, st, sender, recipient, msg.value);
    TouchKeeps(db, st, recipient);
  }

  /** A message call takes ether only from its sender, when it carries value, and from the
      addresses where its frames spend. */
  lemma {:induction false} CallSpends(
    env: Env, st: State, sender: Address, msg: Message, frame: Frame, pre: Precompile)
    requires WellFormed(env.db, st) && NonNegative(env.db, st)
    requires !msg.kind.Call? ==> Exists(env.db, st, sender)
    ensures NoneFell(env.db, st, CallMessage(env, st, sender, msg, frame, pre).progress.state,
                     Payer(sender, msg) + Spenders(if msg.kind == Call then msg.target else sender, frame.actions))
    decreases frame, 0
  {
    hide WellFormed, Keeps, Enter, RunActions, HasCode, Caches, Balance, Exists, Finish, NoneFell, SameStorage,
         SameBalances, Spenders, Payer, NonNegative, Total;
    CachesNothing(env.db, st);
    CachesKeeps(env.db, st, st);
    var recipient := if msg.kind == Call then msg.target else sender;
    var own, inner := Payer(sender, msg), Spenders(recipient, frame.actions);
    SameFell(env.db, st, st, own + inner);
    if (msg.kind.DelegateCall? || Balance(env.db, st, sender) >= msg.value)
       && !(msg.value == 0 && env.rev >= SPURIOUS && !IsPrecompiled(env.rev, msg.target)
            && !Exists(env.db, st, msg.target)) {
      var s := Enter(env.db, st, sender, recipient, msg);
      EnterFell(env.db, st, sender, recipient, msg);
      EnterConserves(env.db, st, sender, recipient, msg);
      Widen(env.db, st, s, own, inner);
      if IsPrecompiled(env.rev, msg.target) {
        FinishFell(env.db, st, Progress(s, 0), PrecompileOutput(msg.gas, pre), own + inner);
      } else if HasCode(env.db, st, msg.target) {
        EnteredExists(env.db, st, s, sender, recipient, msg);
        var reached := RunActions(env, s, recipient, frame.actions);
        ActionsSpend(env, s, recipient, frame.actions);
        FellTwice(env.db, st, s, reached.state, own, inner);
        KeepsTwice(env.db, st, s, reached.state);
        FinishFell(env.db, st, reached, Output(frame.status, frame.gasLeft), own + inner);
      }
    }
  }

  lemma Widen(db: World, s: State, t: State, x: set<Address>, y: set<Address>)
    requires NoneFell(db, s, t, x)
    ensures NoneFell(db, s, t, x + y)
  {
  }

  lemma FoundFell(env: Env, st: State, sender: Address, address: Address, v: nat)
    requires WellFormed(env.db, st)
    ensures NoneFell(env.db, st, Found(env, st, sender, address, v), if v > 0 then {sender} else {})
  {
    hide WellFormed, Keeps, Found, Balance, Exists;
    var t := Found(env, st, sender, address, v);
  }

  lemma DeployFell(env: Env, reached: Progress, address: Address, frame: Frame, where: set<Address>)
    requires WellFormed(env.db, reached.state)
    ensures NoneFell(env.db, reached.state, Deploy(env, reached, address, frame).progress.state, where)
  {
    hide WellFormed, Keeps, SameStorage, SameBalances, NoneFell, SetCode;
    SetCodeKeeps(env.db, reached.state, address, frame.codeHash);
    CachesNothing(env.db, reached.state);
    CachesKeeps(env.db, reached.state, reached.state);
    SameFell(env.db, reached.state, Deploy(env, reached, address, frame).progress.state, where);
  }

  /** A creation takes ether only from its creator, when it is endowed, and from the addresses
      where its frames spend. */
  lemma {:induction false} CreateSpends(
    env: Env, st: State, sender: Address, endowment: nat, gas: int, address: Address, frame: Frame)
    requires WellFormed(env.db, st) && NonNegative(env.db, st)
    ensures NoneFell(env.db, st, CreateMessage(env, st, sender, endowment, gas, address, frame).progress.state,
                     (if endowment > 0 then {sender} else {}) + Spenders(address, frame.actions))
    decreases frame, 0
  {
    hide WellFormed, Keeps, Announce, Found, RunActions, HasCode, Caches, Balance, Deploy, Finish, SameStorage,
         NoneFell, Spenders, SameBalances, NonNegative, Total;
    CachesNothing(env.db, st);
    CachesKeeps(env.db, st, st);
    var own, inner := if endowment > 0 then {sender} else {}, Spenders(address, frame.actions);
    var where := own + inner;
    SameFell(env.db, st, st, where);
    if Balance(env.db, st, sender) >= endowment {
      var s := Announce(env.db, st, sender, address);
      SameFell(env.db, st, s, where);
      SameBalancesLoseNothing(env.db, st, s);
      SameSender(env.db, st, s, sender);
      KeepsIsWellFormed(env.db, st, s);
      if AccountOf(env.db, s, address).nonce == 0 && !HasCode(env.db, s, address) {
        var t := Found(env, s, sender, address, endowment);
        FoundFell(env, s, sender, address, endowment);
        FoundConserves(env, s, sender, address, endowment);
        KeepsIsWellFormed(env.db, s, t);
        var reached := RunActions(env, t, address, frame.actions);
        ActionsSpend(env, t, address, frame.actions);
        FellTwice(env.db, s, t, reached.state, own, inner);
        KeepsTwice(env.db, s, t, reached.state);
        KeepsIsWellFormed(env.db, s, reached.state);
        var deployed := Deploy(env, reached, address, frame);
        DeployFell(env, reached, address, frame, where);
        FellTwice(env.db, s, reached.state, deployed.progress.state, where, where);
        assert where + where == where;
        KeepsTwice(env.db, s, reached.state, deployed.progress.state);
        FinishFell(env.db, s, deployed.progress, deployed.output, where);
        var r := Finish(env.db, s, deployed.progress, deployed.output);
        FellTwice(env.db, st, s, r.progress.state, where, where);
      }
    }
  }

  lemma SameSender(db: World, s: State, t: State, a: Address)
    requires SameBalances(db, s, t)
    ensures Balance(db, t, a) == Balance(db, s, a)
  {
  }

  lemma SelfDestructFell(env: Env, st: State, self: Address, b: Address)
    requires WellFormed(env.db, st) && NonNegative(env.db, st)
    ensures NoneFell(env.db, st, HostSelfDestruct(env, st, self, b), {self})
  {
    hide WellFormed, Keeps, SameStorage, HostSelfDestruct, Balance;
    HostSelfDestructKeeps(env, st, self, b);
    assert Balance(env.db, st, self) >= 0;
  }

  lemma {:induction false} ActionSpends(env: Env, st: State, self: Address, act: Action)
    requires WellFormed(env.db, st) && Exists(env.db, st, self) && NonNegative(env.db, st)
    ensures NoneFell(env.db, st, RunAction(env, st, self, act).state, ActionSpenders(self, act))
    decreases act, 0
  {
    hide WellFormed, Keeps, HostSetStorage, HostSelfDestruct, Caches, GetObject, CacheSlot, SameStorage, SetBalance,
         SameBalances, CallMessage, CreateMessage, Exists, Balance, StorageBut, NoneFell, Spenders, NonNegative;
    var r := RunAction(env, st, self, act).state;
    match act
    case ReadAccount(a) =>
      GetObjectCaches(env.db, st, a);
      GetObjectLogs(env.db, st, a);
      CachesKeeps(env.db, st, r);
      SameFell(env.db, st, r, {});
    case SLoad(k) =>
      CacheSlotCaches(env.db, st, self, k, false);
      CacheSlotLogs(env.db, st, self, k, false);
      CachesKeeps(env.db, st, r);
      SameFell(env.db, st, r, {});
    case SStore(k, v) =>
      HostSetStorageKeeps(env, st, self, k, v);
      SameFell(env.db, st, r, {});
    case EmitLog(log) =>
      AddLogKeeps(env.db, st, log);
      SameFell(env.db, st, r, {});
    case WarmAccount(a) =>
      AccessAccountKeeps(env.db, st, a);
      CachesNothing(env.db, st);
      CachesKeeps(env.db, st, st);
      SameFell(env.db, st, r, {});
    case WarmSlot(a, k) =>
      AccessStorageKeeps(env.db, st, a, k);
      SameFell(env.db, st, r, {});
    case SelfDestruct(b) =>
      SelfDestructFell(env, st, self, b);
    case CallOut(msg, callee, pre) =>
      CallSpends(env, st, self, msg, callee, pre);
    case CreateOut(endowment, gas, address, init) =>
      CreateSpends(env, st, self, endowment, gas, address, init);
  }

  lemma {:induction false} ActionsSpend(env: Env, st: State, self: Address, actions: seq<Action>)
    requires WellFormed(env.db, st) && Exists(env.db, st, self) && NonNegative(env.db, st)
    ensures NoneFell(env.db, st, RunActions(env, st, self, actions).state, Spenders(self, actions))
    decreases actions, 0
  {
    hide WellFormed, Advances, RunAction, Exists, SameStorage, NoneFell, ActionSpenders, NonNegative, Total;
    if actions == [] {
      CachesNothing(env.db, st);
      CachesKeeps(env.db, st, st);
      SameFell(env.db, st, st, {});
    } else {
      var p := RunAction(env, st, self, actions[0]);
      ActionSpends(env, st, self, actions[0]);
      ActionConserves(env, st, self, actions[0]);
      ActionsSpend(env, p.state, self, actions[1..]);
      var q := RunActions(env, p.state, self, actions[1..]);
      FellTwice(env.db, st, p.state, q.state, ActionSpenders(self, actions[0]), Spenders(self, actions[1..]));
    }
  }
}
