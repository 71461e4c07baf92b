// The machine that runs message calls and creations by changing one shared state, taking
// snapshots and reverting to them.
module MutableEvm {
  import opened Revisions
  import opened WorldState
  import opened IntraBlock
  import opened Journal
  import opened Operations
  import opened Evm
  import opened MutableState
  import V = IntraBlock

  class Machine {
    const env: Env
    const state: IntraBlockState

    constructor (env: Env, state: IntraBlockState)
      requires state.db == env.db
      ensures this.env == env && this.state == state && Valid()
    {
      this.env, this.state := env, state;
    }

    predicate Valid() {
      state.db == env.db
    }

    method Call(sender: Address, msg: Message, frame: Frame, pre: Precompile) returns (out: Output, ghost burned: int)
      requires Valid() && WellFormed(env.db, state.Value())
      requires !msg.kind.Call? ==> Exists(env.db, state.Value(), sender)
      modifies state
      ensures Outcome(Progress(state.Value(), burned), out)
           == old(CallMessage(env, state.Value(), sender, msg, frame, pre))
      decreases frame, 0
    {
      hide WellFormed, Keeps, Caches, Touch, SetBalance, RunActions, Revertible, Unroll;
      ghost var before := state.Value();
      ghost var whole := CallMessage(env, before, sender, msg, frame, pre);
      var recipient := if msg.kind.Call? then msg.target else sender;
      burned := 0;
      if !msg.kind.DelegateCall? && Balance(env.db, state.Value(), sender) < msg.value {
        return Output(InsufficientBalance, msg.gas), 0;
      }
      var precompiled := IsPrecompiled(env.rev, msg.target);
      var hasCode := HasCode(env.db, state.Value(), msg.target);
      if msg.value == 0 && env.rev >= SPURIOUS && !precompiled && !Exists(env.db, state.Value(), msg.target) {
        return Output(Success, msg.gas), 0;
      }
      var snapshot := state.TakeSnapshot();
      if msg.kind.Call? {
        if msg.isStatic {
          state.Touch(recipient);
        } else {
          state.SubtractFromBalance(sender, msg.value);
          state.AddToBalance(recipient, msg.value);
        }
      }
      ghost var entered := Enter(env.db, before, sender, recipient, msg);
      assert state.Value() == entered;
      if precompiled {
        out := PrecompileOutput(msg.gas, pre);
        assert whole == Finish(env.db, before, Progress(entered, 0), out);
      } else if !hasCode {
        return Output(Success, msg.gas), 0;
      } else {
        EnteredExists(env.db, before, entered, sender, recipient, msg);
        burned := Run(recipient, frame.actions);
        out := Output(frame.status, frame.gasLeft);
        KeepsTwice(env.db, before, entered, state.Value());
        assert whole == Finish(env.db, before, Progress(state.Value(), burned), out);
      }
      if out.status != Success {
        KeepsAdvances(env.db, before, state.Value());
        RevertKeeps(env.db, before, state.Value());
        state.RevertToSnapshot(snapshot);
        burned := 0;
        if out.status != Revert {
          out := out.(gasLeft := 0);
        }
      }
    }

    method Create(sender: Address, endowment: nat, gas: int, address: Address, frame: Frame)
      returns (out: Output, ghost burned: int)
      requires Valid() && WellFormed(env.db, state.Value())
      modifies state
      ensures Outcome(Progress(state.Value(), burned), out)
           == old(CreateMessage(env, state.Value(), sender, endowment, gas, address, frame))
      decreases frame, 0
    {
      hide WellFormed, Keeps, Caches, SetBalance, RunActions, Revertible, Unroll, SetCode, SetNonce, CreateContract,
           AccessAccount, Deploy, HasCode;
      ghost var before := state.Value();
      ghost var whole := CreateMessage(env, before, sender, endowment, gas, address, frame);
      burned := 0;
      if Balance(env.db, state.Value(), sender) < endowment {
        return Output(InsufficientBalance, gas), 0;
      }
      state.SetNonce(sender, AccountOf(env.db, state.Value(), sender).nonce + 1);
      var _ := state.AccessAccount(address);
      ghost var announced := Announce(env.db, before, sender, address);
      KeepsIsWellFormed(env.db, before, announced);
      if AccountOf(env.db, state.Value(), address).nonce != 0 || HasCode(env.db, state.Value(), address) {
        return Output(InvalidInstruction, 0), 0;
      }
      var snapshot := state.TakeSnapshot();
      state.CreateContract(address);
      if env.rev >= SPURIOUS {
        state.SetNonce(address, 1);
      }
      state.SubtractFromBalance(sender, endowment);
      state.AddToBalance(address, endowment);
      ghost var founded := Found(env, announced, sender, address, endowment);
      assert state.Value() == founded;
      KeepsIsWellFormed(env.db, announced, founded);
      burned := Run(address, frame.actions);
      ghost var reached := Progress(state.Value(), burned);
      KeepsTwice(env.db, announced, founded, reached.state);
      KeepsIsWellFormed(env.db, announced, reached.state);
      ghost var deployed := Deploy(env, reached, address, frame);
      KeepsTwice(env.db, announced, reached.state, deployed.progress.state);
      assert whole == Finish(env.db, announced, deployed.progress, deployed.output);
      out := DeployCode(address, frame, burned);
      assert deployed == Outcome(Progress(state.Value(), burned), out);
      if out.status != Success {
        KeepsAdvances(env.db, announced, state.Value());
        RevertKeeps(env.db, announced, state.Value());
        state.RevertToSnapshot(snapshot);
        burned := 0;
        if out.status != Revert {
          out := out.(gasLeft := 0);
        }
      }
    }

    /** Checks, charges for and sets the code returned by a successful initialisation. */
    method DeployCode(address: Address, frame: Frame, ghost burned: int) returns (out: Output)
      requires Valid() && WellFormed(env.db, state.Value())
      modifies state
      ensures Outcome(Progress(state.Value(), burned), out)
           == old(Deploy(env, Progress(state.Value(), burned), address, frame))
    {
      hide WellFormed, Keeps, V.SetCode;
      out := Output(frame.status, frame.gasLeft);
      if out.status == Success {
        var deployGas := frame.codeLength * G_CODE_DEPOSIT;
        if env.rev >= LONDON && frame.codeLength > 0 && frame.firstByte == 0xEF {
          out := out.(status := ContractValidationFailure);
        } else if env.rev >= SPURIOUS && frame.codeLength > MAX_CODE_SIZE {
          out := out.(status := OutOfGas);
        } else if out.gasLeft >= 0 && out.gasLeft >= deployGas {
          out := out.(gasLeft := out.gasLeft - deployGas);
          state.SetCode(address, frame.codeHash);
        } else if env.rev >= HOMESTEAD {
          out := out.(status := OutOfGas);
        }
      }
    }

    /** Storage write with its refund bookkeeping. */
    method SetStorage(a: Address, k: nat, v: nat) returns (status: StorageStatus)
      requires Valid() && WellFormed(env.db, state.Value()) && Exists(env.db, state.Value(), a)
      modifies state
      ensures state.Value() == old(HostSetStorage(env, state.Value(), a, k, v))
      ensures status == old(StatusOf(env.rev, OriginalStorage(env.db, state.Value(), a, k),
                                     CurrentStorage(env.db, state.Value(), a, k), v))
    {
      hide WellFormed, Keeps, CacheSlot, V.SetStorage, OriginalStorage, CurrentStorage;
      ghost var before := state.Value();
      var current := CurrentStorage(env.db, state.Value(), a, k);
      if current == v {
        var _ := state.GetStorage(a, k, false);
        return Unchanged;
      }
      state.SetStorage(a, k, v);
      SetStorageKeeps(env.db, before, a, k, v);
      var original := OriginalStorage(env.db, state.Value(), a, k);
      if !NetMetered(env.rev) {
        if current == 0 {
          return Added;
        } else if v == 0 {
          state.AddRefund(R_SCLEAR);
          return Deleted;
        } else {
          return Modified;
        }
      }
      var clears := ClearsRefund(env.rev);
      if original == current {
        if original == 0 {
          return Added;
        }
        if v == 0 {
          state.AddRefund(clears);
        }
        return Modified;
      }
      if original != 0 {
        if current == 0 {
          state.SubtractRefund(clears);
        }
        if v == 0 {
          state.AddRefund(clears);
        }
      }
      if original == v {
        state.AddRefund(if original == 0 then G_SSET - SloadCost(env.rev) else ResetGas(env.rev) - SloadCost(env.rev));
      }
      return ModifiedAgain;
    }

    method SelfDestruct(a: Address, beneficiary: Address)
      requires Valid()
      modifies state
      ensures state.Value() == old(HostSelfDestruct(env, state.Value(), a, beneficiary))
    {
      hide V.SetBalance;
      state.RecordSelfdestruct(a);
      var balance := Balance(env.db, state.Value(), a);
      state.AddToBalance(beneficiary, balance);
      state.SetBalance(a, 0);
    }

    method Step(self: Address, act: Action) returns (ghost burned: int)
      requires Valid() && WellFormed(env.db, state.Value()) && Exists(env.db, state.Value(), self)
      modifies state
      ensures Progress(state.Value(), burned) == old(RunAction(env, state.Value(), self, act))
      decreases act, 0
    {
      hide WellFormed, Keeps, CacheSlot, HostSetStorage, HostSelfDestruct, V.GetObject, CallMessage, CreateMessage,
           Exists, Balance;
      burned := 0;
      match act {
        case ReadAccount(a) =>
          var _ := state.GetObject(a);
        case SLoad(k) =>
          var _ := state.GetStorage(self, k, false);
        case SStore(k, v) =>
          var _ := SetStorage(self, k, v);
        case EmitLog(log) =>
          state.AddLog(log);
        case WarmAccount(a) =>
          if !IsPrecompiled(env.rev, a) {
            var _ := state.AccessAccount(a);
          }
        case WarmSlot(a, k) =>
          var _ := state.AccessStorage(a, k);
        case SelfDestruct(b) =>
          burned := if b == self then Balance(env.db, state.Value(), self) else 0;
          SelfDestruct(self, b);
        case CallOut(msg, callee, pre) =>
          var _, lost := Call(self, msg, callee, pre);
          burned := lost;
        case CreateOut(endowment, gas, address, init) =>
          var _, lost := Create(self, endowment, gas, address, init);
          burned := lost;
      }
    }

    method Run(self: Address, actions: seq<Action>) returns (ghost burned: int)
      requires Valid() && WellFormed(env.db, state.Value()) && Exists(env.db, state.Value(), self)
      modifies state
      ensures Progress(state.Value(), burned) == old(RunActions(env, state.Value(), self, actions))
      decreases actions, 0
    {
      hide WellFormed, Advances, RunAction, Exists;
      burned := 0;
      if actions != [] {
        var first := Step(self, actions[0]);
        var rest := Run(self, actions[1..]);
        burned := first + rest;
      }
    }
  }
}
