// Message calls and contract creations over the state of a block. The bytecode
// interpreter is an arbitrary finite tree: each frame lists the host operations it asked
// for, in order, and the status, gas and code it returned.
module Evm {
  import opened Revisions
  import opened Wrappers
  import opened WorldState
  import opened IntraBlock
  import opened Journal
  import opened Operations

  const G_SLOAD_TANGERINE_WHISTLE := 200
  const G_SLOAD_ISTANBUL := 800
  const WARM_STORAGE_READ_COST := 100
  const COLD_SLOAD_COST := 2100
  const ACCESS_LIST_STORAGE_KEY_COST := 1900
  const G_SSET := 20_000
  const G_SRESET := 5_000
  const R_SCLEAR := 15_000
  const G_CODE_DEPOSIT := 200
  const MAX_CODE_SIZE := 0x6000

  datatype Status =
    | Success
    | Revert
    | OutOfGas
    | InvalidInstruction
    | PrecompileFailure
    | ContractValidationFailure
    | InsufficientBalance
    | OtherFailure(code: nat)

  datatype CallKind = Call | CallCode | DelegateCall

  datatype Message = Message(kind: CallKind, isStatic: bool, target: Address, value: nat, gas: int)

  /** What a precompiled contract would charge and whether it succeeds. */
  datatype Precompile = Precompile(gas: Option<nat>, ok: bool)

  /** One run of the interpreter. The last three fields describe the code a creation returns. */
  datatype Frame = Frame(
    actions: seq<Action>,
    status: Status,
    gasLeft: int,
    codeLength: nat,
    firstByte: nat,
    codeHash: nat)

  datatype Action =
    | ReadAccount(address: Address)
    | SLoad(key: nat)
    | SStore(key: nat, value: nat)
    | EmitLog(log: nat)
    | WarmAccount(address: Address)
    | WarmSlot(address: Address, key: nat)
    | SelfDestruct(beneficiary: Address)
    | CallOut(message: Message, callee: Frame, precompile: Precompile)
    | CreateOut(endowment: nat, gas: int, address: Address, init: Frame)

  datatype Env = Env(db: World, rev: Revision)

  datatype Output = Output(status: Status, gasLeft: int)

  /** The state reached, and the ether destroyed on the way by accounts that destroyed
      themselves in their own favour. */
  datatype Progress = Progress(state: State, burned: int)

  datatype Outcome = Outcome(progress: Progress, output: Output)

  // ----- Storage writes and their refunds -----

  predicate NetMetered(rev: Revision) {
    rev >= ISTANBUL || rev == CONSTANTINOPLE
  }

  function SloadCost(rev: Revision): (c: nat) {
    if rev >= BERLIN then WARM_STORAGE_READ_COST
    else if rev >= ISTANBUL then G_SLOAD_ISTANBUL
    else G_SLOAD_TANGERINE_WHISTLE
  }

  function ResetGas(rev: Revision): (c: nat) {
    if rev >= BERLIN then G_SRESET - COLD_SLOAD_COST else G_SRESET
  }

  function ClearsRefund(rev: Revision): (c: nat) {
    if rev >= LONDON then ResetGas(rev) + ACCESS_LIST_STORAGE_KEY_COST else R_SCLEAR
  }

  datatype StorageStatus = Unchanged | Modified | ModifiedAgain | Added | Deleted

  /** What replacing a slot's current value does to the refund counter, as its parts: what is
      taken away first, and what is added after. */
  function RefundParts(rev: Revision, original: nat, current: nat, value: nat): (r: (nat, nat)) {
    if !NetMetered(rev) then (0, if current != 0 && value == 0 then R_SCLEAR else 0)
    else if original == current then (0, if original != 0 && value == 0 then ClearsRefund(rev) else 0)
    else
      var taken := if original != 0 && current == 0 then ClearsRefund(rev) else 0;
      var cleared := if original != 0 && value == 0 then ClearsRefund(rev) else 0;
      var restored := if original != value then 0
                      else if original == 0 then G_SSET - SloadCost(rev)
                      else ResetGas(rev) - SloadCost(rev);
      (taken, cleared + restored)
  }

  function StatusOf(rev: Revision, original: nat, current: nat, value: nat): (r: StorageStatus) {
    if current == value then Unchanged
    else if !NetMetered(rev) then
      if current == 0 then Added else if value == 0 then Deleted else Modified
    else if original == current then
      if original == 0 then Added else Modified
    else ModifiedAgain
  }

  function HostSetStorage(env: Env, st: State, a: Address, k: nat, v: nat): (r: State) {
    var current := CurrentStorage(env.db, st, a, k);
    if current == v then CacheSlot(env.db, st, a, k, false)
    else
      var s := SetStorage(env.db, st, a, k, v);
      var (taken, given) := RefundParts(env.rev, OriginalStorage(env.db, s, a, k), current, v);
      AddRefund(SubtractRefund(s, taken), given)
  }

  lemma HostSetStorageKeeps(env: Env, s: State, a: Address, k: nat, v: nat)
    requires WellFormed(env.db, s) && Exists(env.db, s, a)
    ensures var t := HostSetStorage(env, s, a, k, v);
            && Keeps(env.db, s, t) && SameBalances(env.db, s, t) && StorageBut(env.db, s, t, a, k, v)
  {
    hide WellFormed, Advances, OriginalStorage, CurrentStorage, CacheSlot, SetStorage, RefundParts;
    var db := env.db;
    var c := CacheSlot(db, s, a, k, false);
    CacheSlotCaches(db, s, a, k, false);
    CacheSlotLogs(db, s, a, k, false);
    CachesKeeps(db, s, c);
    var t := SetStorage(db, s, a, k, v);
    SetStorageKeeps(db, s, a, k, v);
    var (taken, given) := RefundParts(env.rev, OriginalStorage(db, t, a, k), CurrentStorage(db, s, a, k), v);
    var u := SubtractRefund(t, taken);
    SubtractRefundKeeps(db, t, taken);
    AddRefundKeeps(db, u, given);
    KeepsTwice(db, s, t, u);
    KeepsTwice(db, s, u, AddRefund(u, given));
  }

  // ----- Self-destruction and transfers -----

  function HostSelfDestruct(env: Env, st: State, a: Address, beneficiary: Address): (r: State) {
    var s := RecordSelfdestruct(st, a);
    SetBalance(env.db, AddToBalance(env.db, s, beneficiary, Balance(env.db, s, a)), a, 0)
  }

  lemma HostSelfDestructKeeps(env: Env, s: State, a: Address, beneficiary: Address)
    requires WellFormed(env.db, s)
    ensures var t := HostSelfDestruct(env, s, a, beneficiary);
            && Keeps(env.db, s, t) && SameStorage(env.db, s, t)
            && (forall b :: Balance(env.db, t, b) ==
                  if b == a then 0
                  else if b == beneficiary then Balance(env.db, s, b) + Balance(env.db, s, a)
                  else Balance(env.db, s, b))
  {
    hide WellFormed, Advances, OriginalStorage, CurrentStorage, SetBalance, RecordSelfdestruct, Balance, Exists;
    var db := env.db;
    var t := RecordSelfdestruct(s, a);
    RecordSelfdestructKeeps(db, s, a);
    var v := Balance(db, t, beneficiary) + Balance(db, t, a);
    var u := SetBalance(db, t, beneficiary, v);
    SetBalanceKeeps(db, t, beneficiary, v);
    SetBalanceKeeps(db, u, a, 0);
    KeepsTwice(db, s, t, u);
    KeepsTwice(db, s, u, SetBalance(db, u, a, 0));
  }

  function Transfer(db: World, st: State, sender: Address, recipient: Address, v: int): (r: State) {
    AddToBalance(db, SubtractFromBalance(db, st, sender, v), recipient, v)
  }

  lemma TransferKeeps(db: World, s: State, sender: Address, recipient: Address, v: int)
    requires WellFormed(db, s)
    ensures var t := Transfer(db, s, sender, recipient, v);
            && Keeps(db, s, t) && SameStorage(db, s, t) && Exists(db, t, recipient)
            && (forall b :: Balance(db, t, b) ==
                  Balance(db, s, b) - (if b == sender then v else 0) + (if b == recipient then v else 0))
  {
    hide WellFormed, Advances, OriginalStorage, CurrentStorage, SetBalance, Balance;
    var u := SubtractFromBalance(db, s, sender, v);
    SetBalanceKeeps(db, s, sender, Balance(db, s, sender) - v);
    SetBalanceKeeps(db, u, recipient, Balance(db, u, recipient) + v);
    KeepsTwice(db, s, u, Transfer(db, s, sender, recipient, v));
  }

  // ----- Frames -----

  function NumberOfPrecompiles(rev: Revision): (n: nat) {
    if rev < BYZANTIUM then 4 else if rev < ISTANBUL then 8 else 9
  }

  predicate IsPrecompiled(rev: Revision, a: Address) {
    0 < a <= NumberOfPrecompiles(rev)
  }

  predicate HasCode(db: World, st: State, a: Address) {
    AccountOf(db, st, a).codeHash != EMPTY_HASH
  }

  /** A frame that did not succeed is reverted to its snapshot and, unless it asked for that,
      loses its gas. */
  function Finish(db: World, snapshot: State, reached: Progress, out: Output): (r: Outcome)
    requires WellFormed(db, snapshot) && Keeps(db, snapshot, reached.state)
    ensures Keeps(db, snapshot, r.progress.state)
  {
    if out.status == Success then Outcome(reached, out)
    else
      RevertKeeps(db, snapshot, reached.state);
      Outcome(Progress(RevertToSnapshot(reached.state, TakeSnapshot(snapshot)), 0),
              Output(out.status, if out.status == Revert then out.gasLeft else 0))
  }

  function PrecompileOutput(gas: int, pre: Precompile): (r: Output) {
    if pre.gas.None? || pre.gas.value > gas then Output(OutOfGas, gas)
    else if pre.ok then Output(Success, gas - pre.gas.value)
    else Output(PrecompileFailure, gas)
  }

  /** The value transfer, or bare touch, at the start of a message call. */
  function Enter(db: World, st: State, sender: Address, recipient: Address, msg: Message): (r: State)
    requires WellFormed(db, st)
    ensures Keeps(db, st, r)
    ensures msg.kind.Call? && !msg.isStatic ==> Exists(db, r, recipient)
  {
    if !msg.kind.Call? then CachesNothing(db, st); CachesKeeps(db, st, st); st
    else if msg.isStatic then TouchKeeps(db, st, recipient); Touch(st, recipient)
    else TransferKeeps(db, st, sender, recipient, msg.value); Transfer(db, st, sender, recipient, msg.value)
  }

  /** A message call. The recipient is the target of a plain call and the caller itself
      when only the target's code is borrowed. */
  function CallMessage(env: Env, st: State, sender: Address, msg: Message, frame: Frame, pre: Precompile): (r: Outcome)
    requires WellFormed(env.db, st)
    requires !msg.kind.Call? ==> Exists(env.db, st, sender)
    ensures Keeps(env.db, st, r.progress.state)
    decreases frame, 0
  {
    hide WellFormed, Keeps;
    var recipient := if msg.kind.Call? then msg.target else sender;
    var precompiled := IsPrecompiled(env.rev, msg.target);
    CachesNothing(env.db, st);
    CachesKeeps(env.db, st, st);
    if !msg.kind.DelegateCall? && Balance(env.db, st, sender) < msg.value then
      Outcome(Progress(st, 0), Output(InsufficientBalance, msg.gas))
    else if msg.value == 0 && env.rev >= SPURIOUS && !precompiled && !Exists(env.db, st, msg.target) then
      Outcome(Progress(st, 0), Output(Success, msg.gas))
    else
      var s := Enter(env.db, st, sender, recipient, msg);
      if precompiled then Finish(env.db, st, Progress(s, 0), PrecompileOutput(msg.gas, pre))
      else if !HasCode(env.db, st, msg.target) then Outcome(Progress(s, 0), Output(Success, msg.gas))
      else
        EnteredExists(env.db, st, s, sender, recipient, msg);
        var reached := RunActions(env, s, recipient, frame.actions);
        KeepsTwice(env.db, st, s, reached.state);
        Finish(env.db, st, reached, Output(frame.status, frame.gasLeft))
  }

  lemma EnteredExists(db: World, st: State, s: State, sender: Address, recipient: Address, msg: Message)
    requires WellFormed(db, st) && Keeps(db, st, s) && HasCode(db, st, msg.target)
    requires s == Enter(db, st, sender, recipient, msg)
    requires recipient == if msg.kind.Call? then msg.target else sender
    requires !msg.kind.Call? ==> Exists(db, st, sender)
    ensures WellFormed(db, s) && Exists(db, s, recipient)
  {
    hide WellFormed, Advances;
  }

  /** How a successful initialisation ends: the returned code is checked, paid for and set. */
  function Deploy(env: Env, reached: Progress, address: Address, frame: Frame): (r: Outcome)
    requires WellFormed(env.db, reached.state)
    ensures Keeps(env.db, reached.state, r.progress.state)
  {
    CachesNothing(env.db, reached.state);
    CachesKeeps(env.db, reached.state, reached.state);
    SetCodeKeeps(env.db, reached.state, address, frame.codeHash);
    var deployGas := frame.codeLength * G_CODE_DEPOSIT;
    if frame.status != Success then Outcome(reached, Output(frame.status, frame.gasLeft))
    else if env.rev >= LONDON && frame.codeLength > 0 && frame.firstByte == 0xEF then
      Outcome(reached, Output(ContractValidationFailure, frame.gasLeft))
    else if env.rev >= SPURIOUS && frame.codeLength > MAX_CODE_SIZE then
      Outcome(reached, Output(OutOfGas, frame.gasLeft))
    else if frame.gasLeft >= 0 && frame.gasLeft >= deployGas then
      Outcome(reached.(state := SetCode(env.db, reached.state, address, frame.codeHash)),
              Output(Success, frame.gasLeft - deployGas))
    else if env.rev >= HOMESTEAD then Outcome(reached, Output(OutOfGas, frame.gasLeft))
    else Outcome(reached, Output(Success, frame.gasLeft))
  }

  /** The creator's nonce goes up and the new address becomes warm; both survive failure. */
  function Announce(db: World, st: State, sender: Address, address: Address): (r: State)
    requires WellFormed(db, st)
    ensures Keeps(db, st, r) && SameStorage(db, st, r) && SameBalances(db, st, r)
  {
    hide WellFormed, Advances, OriginalStorage, CurrentStorage;
    var s := SetNonce(db, st, sender, AccountOf(db, st, sender).nonce + 1);
    SetNonceKeeps(db, st, sender, AccountOf(db, st, sender).nonce + 1);
    AccessAccountKeeps(db, s, address);
    KeepsTwice(db, st, s, AccessAccount(s, address));
    AccessAccount(s, address)
  }

  /** The fresh contract with its endowment. */
  function Found(env: Env, st: State, sender: Address, address: Address, v: nat): (r: State)
    requires WellFormed(env.db, st)
    ensures Keeps(env.db, st, r) && Exists(env.db, r, address)
    ensures forall b :: Balance(env.db, r, b) ==
              Balance(env.db, st, b) - (if b == sender then v else 0) + (if b == address then v else 0)
  {
    hide WellFormed, Advances, OriginalStorage, CurrentStorage, Transfer, CreateContract, SetNonce;
    var s := CreateContract(env.db, st, address);
    CreateContractKeeps(env.db, st, address);
    SetNonceKeeps(env.db, s, address, 1);
    CachesNothing(env.db, s);
    CachesKeeps(env.db, s, s);
    var t := if env.rev >= SPURIOUS then SetNonce(env.db, s, address, 1) else s;
    TransferKeeps(env.db, t, sender, address, v);
    KeepsTwice(env.db, st, s, t);
    KeepsTwice(env.db, st, t, Transfer(env.db, t, sender, address, v));
    Transfer(env.db, t, sender, address, v)
  }

  /** A contract creation at an address derived by hashing, which is given here. */
  function CreateMessage(
    env: Env, st: State, sender: Address, endowment: nat, gas: int, address: Address, frame: Frame):
    (r: Outcome)
    requires WellFormed(env.db, st)
    ensures Keeps(env.db, st, r.progress.state)
    decreases frame, 0
  {
    hide WellFormed, Keeps, Announce, Found;
    CachesNothing(env.db, st);
    CachesKeeps(env.db, st, st);
    if Balance(env.db, st, sender) < endowment then Outcome(Progress(st, 0), Output(InsufficientBalance, gas))
    else
      var s := Announce(env.db, st, sender, address);
      KeepsIsWellFormed(env.db, st, s);
      if AccountOf(env.db, s, address).nonce != 0 || HasCode(env.db, s, address) then
        Outcome(Progress(s, 0), Output(InvalidInstruction, 0))
      else
        var t := Found(env, s, sender, address, endowment);
        KeepsIsWellFormed(env.db, s, t);
        var reached := RunActions(env, t, address, frame.actions);
        KeepsTwice(env.db, s, t, reached.state);
        KeepsIsWellFormed(env.db, s, reached.state);
        var deployed := Deploy(env, reached, address, frame);
        KeepsTwice(env.db, s, reached.state, deployed.progress.state);
        var r := Finish(env.db, s, deployed.progress, deployed.output);
        KeepsTwice(env.db, st, s, r.progress.state);
        r
  }

  lemma KeepsIsWellFormed(db: World, s: State, t: State)
    requires Keeps(db, s, t)
    ensures WellFormed(db, t)
  {
  }

  /** One host operation asked for by the frame running at address self. */
  function RunAction(env: Env, st: State, self: Address, act: Action): (r: Progress)
    requires WellFormed(env.db, st) && Exists(env.db, st, self)
    ensures Keeps(env.db, st, r.state)
    decreases act, 0
  {
    hide WellFormed, Keeps, HostSetStorage, HostSelfDestruct;
    match act
    case ReadAccount(a) =>
      GetObjectCaches(env.db, st, a); CachesKeeps(env.db, st, GetObject(env.db, st, a));
      Progress(GetObject(env.db, st, a), 0)
    case SLoad(k) =>
      CacheSlotCaches(env.db, st, self, k, false);
      CacheSlotLogs(env.db, st, self, k, false);
      CachesKeeps(env.db, st, CacheSlot(env.db, st, self, k, false));
      Progress(CacheSlot(env.db, st, self, k, false), 0)
    case SStore(k, v) =>
      HostSetStorageKeeps(env, st, self, k, v);
      Progress(HostSetStorage(env, st, self, k, v), 0)
    case EmitLog(log) =>
      AddLogKeeps(env.db, st, log);
      Progress(AddLog(st, log), 0)
    case WarmAccount(a) =>
      AccessAccountKeeps(env.db, st, a);
      CachesNothing(env.db, st); CachesKeeps(env.db, st, st);
      Progress(if IsPrecompiled(env.rev, a) then st else AccessAccount(st, a), 0)
    case WarmSlot(a, k) =>
      AccessStorageKeeps(env.db, st, a, k);
      Progress(AccessStorage(st, a, k), 0)
    case SelfDestruct(b) =>
      HostSelfDestructKeeps(env, st, self, b);
      Progress(HostSelfDestruct(env, st, self, b), if b == self then Balance(env.db, st, self) else 0)
    case CallOut(msg, callee, pre) =>
      CallMessage(env, st, self, msg, callee, pre).progress
    case CreateOut(endowment, gas, address, init) =>
      CreateMessage(env, st, self, endowment, gas, address, init).progress
  }

  function RunActions(env: Env, st: State, self: Address, actions: seq<Action>): (r: Progress)
    requires WellFormed(env.db, st) && Exists(env.db, st, self)
    ensures Keeps(env.db, st, r.state)
    decreases actions, 0
  {
    hide WellFormed, Advances;
    if actions == [] then CachesNothing(env.db, st); CachesKeeps(env.db, st, st); Progress(st, 0)
    else
      var p := RunAction(env, st, self, actions[0]);
      var q := RunActions(env, p.state, self, actions[1..]);
      KeepsTwice(env.db, st, p.state, q.state);
      Progress(q.state, p.burned + q.burned)
  }

  lemma CodeExists(db: World, st: State, a: Address)
    requires HasCode(db, st, a)
    ensures Exists(db, st, a)
  {
  }

  lemma OnlyAction(env: Env, s: State, self: Address, act: Action)
    requires WellFormed(env.db, s) && Exists(env.db, s, self)
    ensures RunActions(env, s, self, [act]).state == RunAction(env, s, self, act).state
  {
    hide WellFormed, Advances, RunAction, Exists;
    var p := RunAction(env, s, self, act);
    assert [act][1..] == [];
    assert RunActions(env, p.state, self, []).state == p.state;
  }

  function When(c: bool, v: int): (r: int) {
    if c then v else 0
  }
}
