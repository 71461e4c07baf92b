// The state of one block under execution: accounts and storage cached over the
// database, a journal of reversible changes, and the substate of one transaction.
module IntraBlock {
  import opened Wrappers
  import opened WorldState

  const EMPTY_HASH: nat := 0xc5d2460186f7233c927e7db2dcc703c0e500b653ca82273b7bfad8045d85a470

  const DEFAULT_ACCOUNT := Account(0, 0, EMPTY_HASH)

  // The address whose touch survives a revert; see Appendix K of the Yellow Paper.
  const RIPEMD: Address := 3

  datatype Object = Object(initial: Option<Account>, current: Option<Account>)

  datatype Committed = Committed(initial: nat, original: nat)

  datatype Storage = Storage(committed: map<nat, Committed>, current: map<nat, nat>)

  const NO_STORAGE := Storage(map[], map[])

  /** A reversible change. NewContract stands for the three changes that creating a contract
      journals together: the object, the incarnation and the storage. */
  datatype Delta =
    | Create(address: Address)
    | Update(address: Address, previous: Object)
    | UpdateBalance(address: Address, balance: int)
    | NewContract(address: Address, replaced: Option<Object>, wiped: Option<Storage>)
    | Selfdestruct(address: Address)
    | Touched(address: Address)
    | StorageChange(address: Address, key: nat, value: nat)
    | StorageAccess(address: Address, key: nat)
    | AccountAccess(address: Address)

  datatype State = State(
    objects: map<Address, Object>,
    storage: map<Address, Storage>,
    incarnations: map<Address, nat>,
    journal: seq<Delta>,
    selfDestructs: set<Address>,
    logs: seq<nat>,
    touched: set<Address>,
    refund: int,
    accessedAddresses: set<Address>,
    accessedKeys: set<Slot>)

  const INITIAL_STATE := State(map[], map[], map[], [], {}, [], {}, 0, {}, {})

  // ----- Reading -----

  /** The object at an address, loaded from the database when it is not cached. */
  function Load(db: World, st: State, a: Address): (r: Option<Object>) {
    if a in st.objects then Some(st.objects[a])
    else if a in db.accounts then Some(Object(Some(db.accounts[a]), Some(db.accounts[a])))
    else None
  }

  function Current(db: World, st: State, a: Address): (r: Option<Account>) {
    match Load(db, st, a)
    case Some(o) => o.current
    case None => None
  }

  predicate Exists(db: World, st: State, a: Address) {
    Current(db, st, a).Some?
  }

  function AccountOf(db: World, st: State, a: Address): (r: Account) {
    match Current(db, st, a)
    case Some(acc) => acc
    case None => DEFAULT_ACCOUNT
  }

  function Balance(db: World, st: State, a: Address): (r: int) {
    AccountOf(db, st, a).balance
  }

  predicate IsDead(db: World, st: State, a: Address) {
    var acc := AccountOf(db, st, a);
    acc.codeHash == EMPTY_HASH && acc.nonce == 0 && acc.balance == 0
  }

  function StorageOf(st: State, a: Address): (r: Storage) {
    if a in st.storage then st.storage[a] else NO_STORAGE
  }

  function CommittedAt(st: State, a: Address, k: nat): (r: Option<Committed>) {
    Get(StorageOf(st, a).committed, k)
  }

  function CurrentAt(st: State, a: Address, k: nat): (r: Option<nat>) {
    Get(StorageOf(st, a).current, k)
  }

  /** The value a slot had at the beginning of the transaction. */
  function Base(db: World, st: State, a: Address, k: nat): (v: nat) {
    match CommittedAt(st, a, k)
    case Some(c) => c.original
    case None => if a in db.accounts && a !in st.incarnations then ReadSlot(db.storage, (a, k)) else 0
  }

  function OriginalStorage(db: World, st: State, a: Address, k: nat): (v: nat) {
    if Exists(db, st, a) then Base(db, st, a, k) else 0
  }

  function CurrentStorage(db: World, st: State, a: Address, k: nat): (v: nat) {
    if !Exists(db, st, a) then 0
    else match CurrentAt(st, a, k)
         case Some(v) => v
         case None => Base(db, st, a, k)
  }

  // ----- Changing -----

  /** Reading an account caches it. */
  function GetObject(db: World, st: State, a: Address): (r: State) {
    match Load(db, st, a)
    case Some(o) => st.(objects := st.objects[a := o])
    case None => st
  }

  /** Makes sure an account exists, journalling its creation. */
  function EnsureObject(db: World, st: State, a: Address): (r: State)
    ensures a in r.objects && r.objects[a].current.Some?
  {
    match Load(db, st, a)
    case Some(o) =>
      if o.current.Some? then st.(objects := st.objects[a := o])
      else st.(objects := st.objects[a := o.(current := Some(DEFAULT_ACCOUNT))],
               journal := st.journal + [Update(a, o)])
    case None =>
      st.(objects := st.objects[a := Object(None, Some(DEFAULT_ACCOUNT))],
          journal := st.journal + [Create(a)])
  }

  function WithAccount(st: State, a: Address, acc: Account, d: Delta): (r: State)
    requires a in st.objects
  {
    st.(objects := st.objects[a := st.objects[a].(current := Some(acc))], journal := st.journal + [d])
  }

  function Touch(st: State, a: Address): (r: State) {
    if a in st.touched then st
    else if a == RIPEMD then st.(touched := st.touched + {a})
    else st.(touched := st.touched + {a}, journal := st.journal + [Touched(a)])
  }

  function SetBalance(db: World, st: State, a: Address, v: int): (r: State) {
    var s := EnsureObject(db, st, a);
    var acc := s.objects[a].current.value;
    Touch(WithAccount(s, a, acc.(balance := v), UpdateBalance(a, acc.balance)), a)
  }

  function AddToBalance(db: World, st: State, a: Address, v: int): (r: State) {
    SetBalance(db, st, a, Balance(db, st, a) + v)
  }

  function SubtractFromBalance(db: World, st: State, a: Address, v: int): (r: State) {
    SetBalance(db, st, a, Balance(db, st, a) - v)
  }

  function SetNonce(db: World, st: State, a: Address, nonce: nat): (r: State) {
    var s := EnsureObject(db, st, a);
    WithAccount(s, a, s.objects[a].current.value.(nonce := nonce), Update(a, s.objects[a]))
  }

  function SetCode(db: World, st: State, a: Address, codeHash: nat): (r: State) {
    var s := EnsureObject(db, st, a);
    WithAccount(s, a, s.objects[a].current.value.(codeHash := codeHash), Update(a, s.objects[a]))
  }

  function AccessAccount(st: State, a: Address): (r: State) {
    if a in st.accessedAddresses then st
    else st.(accessedAddresses := st.accessedAddresses + {a}, journal := st.journal + [AccountAccess(a)])
  }

  function AccessStorage(st: State, a: Address, k: nat): (r: State) {
    if (a, k) in st.accessedKeys then st
    else st.(accessedKeys := st.accessedKeys + {(a, k)}, journal := st.journal + [StorageAccess(a, k)])
  }

  function RecordSelfdestruct(st: State, a: Address): (r: State) {
    if a in st.selfDestructs then st
    else st.(selfDestructs := st.selfDestructs + {a}, journal := st.journal + [Selfdestruct(a)])
  }

  function IncarnationOf(st: State, a: Address): (n: nat) {
    if a in st.incarnations then st.incarnations[a] else 0
  }

  /** A fresh object that keeps the balance, a new incarnation and empty storage. */
  function CreateContract(db: World, st: State, a: Address): (r: State) {
    var o := Load(db, st, a);
    st.(objects := st.objects[a := Object(if o.Some? then o.value.initial else None,
                                          Some(DEFAULT_ACCOUNT.(balance := Balance(db, st, a))))],
        incarnations := st.incarnations[a := IncarnationOf(st, a) + 1],
        storage := st.storage - {a},
        journal := st.journal + [NewContract(a, o, Get(st.storage, a))])
  }

  /** Reading a slot caches the account and, when the value comes from the database, the slot. */
  function CacheSlot(db: World, st: State, a: Address, k: nat, original: bool): (r: State) {
    if !Exists(db, st, a) then GetObject(db, st, a)
    else
      var s := GetObject(db, st, a);
      var sto := StorageOf(s, a);
      if (!original && k in sto.current) || k in sto.committed
         || s.objects[a].initial.None? || a in s.incarnations
      then s.(storage := s.storage[a := sto])
      else
        var v := ReadSlot(db.storage, (a, k));
        s.(storage := s.storage[a := sto.(committed := sto.committed[k := Committed(v, v)])])
  }

  function SetStorage(db: World, st: State, a: Address, k: nat, v: nat): (r: State) {
    var previous := CurrentStorage(db, st, a, k);
    var s := CacheSlot(db, st, a, k, false);
    if previous == v then s
    else
      var sto := StorageOf(s, a);
      s.(storage := s.storage[a := sto.(current := sto.current[k := v])],
         journal := s.journal + [StorageChange(a, k, previous)])
  }

  function AddLog(st: State, log: nat): (r: State) {
    st.(logs := st.logs + [log])
  }

  function AddRefund(st: State, amount: int): (r: State) {
    st.(refund := st.refund + amount)
  }

  function SubtractRefund(st: State, amount: nat): (r: State) {
    st.(refund := st.refund - amount)
  }

  // ----- Reverting -----

  /** The unwraps and the unreachable branch of reverting a change do not fire. */
  predicate CanRevert(st: State, d: Delta) {
    match d
    case UpdateBalance(a, _) => a in st.objects && st.objects[a].current.Some?
    case NewContract(a, _, _) => a in st.incarnations && st.incarnations[a] > 0
    case _ => true
  }

  function RevertDelta(st: State, d: Delta): (r: State)
    requires CanRevert(st, d)
  {
    match d
    case Create(a) => st.(objects := st.objects - {a})
    case Update(a, previous) => st.(objects := st.objects[a := previous])
    case UpdateBalance(a, b) =>
      var o := st.objects[a];
      st.(objects := st.objects[a := o.(current := Some(o.current.value.(balance := b)))])
    case NewContract(a, replaced, wiped) =>
      st.(storage := Put(st.storage, a, wiped),
          incarnations := Put(st.incarnations, a,
                              if st.incarnations[a] == 1 then None else Some(st.incarnations[a] - 1)),
          objects := Put(st.objects, a, replaced))
    case Selfdestruct(a) => st.(selfDestructs := st.selfDestructs - {a})
    case Touched(a) => st.(touched := st.touched - {a})
    case StorageChange(a, k, v) =>
      var sto := StorageOf(st, a);
      st.(storage := st.storage[a := sto.(current := sto.current[k := v])])
    case StorageAccess(a, k) => st.(accessedKeys := st.accessedKeys - {(a, k)})
    case AccountAccess(a) => st.(accessedAddresses := st.accessedAddresses - {a})
  }

  /** The state with the last journal entry reverted. */
  function Pop(st: State): (r: State)
    requires |st.journal| > 0 && CanRevert(st, st.journal[|st.journal| - 1])
    ensures |r.journal| == |st.journal| - 1
  {
    RevertDelta(st, st.journal[|st.journal| - 1]).(journal := st.journal[..|st.journal| - 1])
  }

  /** Every journal entry above position n can be reverted in turn. */
  predicate Revertible(st: State, n: nat)
    decreases |st.journal|
  {
    |st.journal| <= n || (CanRevert(st, st.journal[|st.journal| - 1]) && Revertible(Pop(st), n))
  }

  function Unroll(st: State, n: nat): (r: State)
    requires Revertible(st, n)
    decreases |st.journal|
  {
    if |st.journal| <= n then st else Unroll(Pop(st), n)
  }

  datatype Snapshot = Snapshot(journalSize: nat, logSize: nat, refund: int)

  function TakeSnapshot(st: State): (s: Snapshot) {
    Snapshot(|st.journal|, |st.logs|, st.refund)
  }

  function RevertToSnapshot(st: State, s: Snapshot): (r: State)
    requires Revertible(st, s.journalSize) && s.logSize <= |st.logs|
  {
    Unroll(st, s.journalSize).(logs := st.logs[..s.logSize], refund := s.refund)
  }

  // ----- What reverting means -----

  /** Objects start from the database, incarnations are counted from one, an account that
      does not exist has no storage, and slots remember where they started. */
  ghost predicate WellFormed(db: World, st: State) {
    && (forall a <- st.incarnations :: st.incarnations[a] > 0)
    && (forall a <- st.objects :: st.objects[a].initial == Get(db.accounts, a))
    && (forall a, k {:trigger CurrentAt(st, a, k)} :: !Exists(db, st, a) ==>
          Base(db, st, a, k) == 0 && CurrentAt(st, a, k) in {None, Some(0)})
    && (forall a, k :: Recorded(db, st, a, k))
  }

  /** A committed slot remembers the database's value, or zero for an account that is new or
      was wiped; a written slot of a database account is committed. */
  ghost predicate Recorded(db: World, st: State, a: Address, k: nat) {
    var live := a in db.accounts && a !in st.incarnations;
    && (CommittedAt(st, a, k).Some? ==>
          CommittedAt(st, a, k).value.initial == if live then ReadSlot(db.storage, (a, k)) else 0)
    && (live && CurrentAt(st, a, k).Some? ==> CommittedAt(st, a, k).Some?)
  }

  /** t is s with, at most, more of the database cached: same accounts. */
  ghost predicate SameObject(db: World, s: State, t: State, a: Address) {
    Load(db, t, a) == Load(db, s, a) && (a in s.objects ==> a in t.objects)
  }

  /** Same, for one slot: a value may have been cached, or the current value written down
      where it was implied. */
  ghost predicate SameSlot(db: World, s: State, t: State, a: Address, k: nat) {
    && (|| CommittedAt(t, a, k) == CommittedAt(s, a, k)
        || (&& CommittedAt(s, a, k) == None
            && CommittedAt(t, a, k) == Some(Committed(ReadSlot(db.storage, (a, k)), ReadSlot(db.storage, (a, k))))
            && a in db.accounts && a !in s.incarnations))
    && (|| CurrentAt(t, a, k) == CurrentAt(s, a, k)
        || (&& CurrentAt(s, a, k) == None && CurrentAt(t, a, k) == Some(Base(db, s, a, k))
            && (CommittedAt(t, a, k).Some? || a !in db.accounts || a in s.incarnations)))
  }

  ghost predicate SameFrame(s: State, t: State) {
    && s.journal == t.journal && s.incarnations == t.incarnations && s.selfDestructs == t.selfDestructs
    && s.accessedAddresses == t.accessedAddresses && s.accessedKeys == t.accessedKeys
    && s.touched <= t.touched <= s.touched + {RIPEMD}
  }

  ghost predicate Caches(db: World, s: State, t: State) {
    && SameFrame(s, t)
    && (forall a :: SameObject(db, s, t, a))
    && (forall a, k :: SameSlot(db, s, t, a, k))
  }
}
