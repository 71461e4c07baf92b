// What each operation on the state of a block does to accounts, balances and storage,
// and that every one of them can be taken back.
module Operations {
  import opened Wrappers
  import opened WorldState
  import opened IntraBlock
  import opened Journal

  lemma EnsureObjectKeeps(db: World, s: State, a: Address)
    requires WellFormed(db, s)
    ensures var t := EnsureObject(db, s, a);
            Keeps(db, s, t) && SameStorage(db, s, t) && SameBalances(db, s, t)
    ensures EnsureObject(db, s, a).objects[a].current.value == AccountOf(db, s, a)
  {
    hide Advances, Keeps, SameStorage, Base, CurrentAt;
    EnsureObjectAdvances(db, s, a);
    ObjectChangeKeeps(db, s, EnsureObject(db, s, a), a);
  }

  lemma WithAccountKeeps(db: World, s: State, a: Address, acc: Account, d: Delta)
    requires WellFormed(db, s) && a in s.objects && s.objects[a].current.Some?
    requires || d == Update(a, s.objects[a])
             || (d == UpdateBalance(a, s.objects[a].current.value.balance)
                 && acc == s.objects[a].current.value.(balance := acc.balance))
    ensures var t := WithAccount(s, a, acc, d);
            Keeps(db, s, t) && SameStorage(db, s, t) && BalancesBut(db, s, t, a, acc.balance)
  {
    hide Advances, Keeps, SameStorage, Base, CurrentAt;
    var t := WithAccount(s, a, acc, d);
    assert RevertDelta(t, d).objects == s.objects;
    SameObjectsSameAccounts(db, s, RevertDelta(t, d));
    forall b ensures Load(db, RevertDelta(t, d), b) == Load(db, s, b) {
      assert SameObject(db, s, RevertDelta(t, d), b);
    }
    ObjectUndone(db, s, t, d);
    ObjectChangeKeeps(db, s, t, a);
  }

  /** A change outside accounts and storage keeps both. */
  lemma SubstateChangeKeeps(db: World, s: State, t: State)
    requires WellFormed(db, s) && Advances(db, s, t)
    requires t.objects == s.objects && t.storage == s.storage && t.incarnations == s.incarnations
    ensures Keeps(db, s, t) && SameStorage(db, s, t) && SameBalances(db, s, t)
  {
    hide Advances, CommittedAt, Base, CurrentAt, SameSlot, Load;
    SameStorageSameSlots(db, s, t);
    SameObjectsSameAccounts(db, s, t);
    forall b, k | !Exists(db, t, b) ensures Base(db, t, b, k) == 0 && CurrentAt(t, b, k) in {None, Some(0)} {
      assert CurrentAt(s, b, k) in {None, Some(0)};
    }
    assert forall b, k :: Recorded(db, s, b, k);
  }

  lemma SubstateDeltaKeeps(db: World, s: State, t: State, d: Delta)
    requires WellFormed(db, s) && t.journal == s.journal + [d] && t.logs == s.logs && CanRevert(t, d)
    requires t.objects == s.objects && t.storage == s.storage && t.incarnations == s.incarnations
    requires SameFrame(s, Pop(t))
    requires d.Selfdestruct? || d.Touched? || d.StorageAccess? || d.AccountAccess?
    ensures Keeps(db, s, t) && SameStorage(db, s, t) && SameBalances(db, s, t)
  {
    hide WellFormed, Keeps, SameStorage, SameBalances, Advances;
    SameStorageSameSlots(db, s, Pop(t));
    SameObjectsSameAccounts(db, s, Pop(t));
    OneDeltaAdvances(db, s, t, d);
    SubstateChangeKeeps(db, s, t);
  }

  lemma TouchKeeps(db: World, s: State, a: Address)
    requires WellFormed(db, s)
    ensures var t := Touch(s, a);
            Keeps(db, s, t) && SameStorage(db, s, t) && SameBalances(db, s, t)
  {
    hide WellFormed, Keeps, SameStorage, SameBalances;
    var t := Touch(s, a);
    if a in s.touched {
      CachesNothing(db, s);
      CachesKeeps(db, s, s);
    } else if a == RIPEMD {
      SameStorageSameSlots(db, s, t);
      SameObjectsSameAccounts(db, s, t);
      CachesKeeps(db, s, t);
    } else {
      SubstateDeltaKeeps(db, s, t, Touched(a));
    }
  }

  lemma AccessAccountKeeps(db: World, s: State, a: Address)
    requires WellFormed(db, s)
    ensures var t := AccessAccount(s, a);
            Keeps(db, s, t) && SameStorage(db, s, t) && SameBalances(db, s, t)
  {
    hide WellFormed, Keeps, SameStorage, SameBalances;
    if a in s.accessedAddresses {
      CachesNothing(db, s);
      CachesKeeps(db, s, s);
    } else {
      SubstateDeltaKeeps(db, s, AccessAccount(s, a), AccountAccess(a));
    }
  }

  lemma AccessStorageKeeps(db: World, s: State, a: Address, k: nat)
    requires WellFormed(db, s)
    ensures var t := AccessStorage(s, a, k);
            Keeps(db, s, t) && SameStorage(db, s, t) && SameBalances(db, s, t)
  {
    hide WellFormed, Keeps, SameStorage, SameBalances;
    if (a, k) in s.accessedKeys {
      CachesNothing(db, s);
      CachesKeeps(db, s, s);
    } else {
      SubstateDeltaKeeps(db, s, AccessStorage(s, a, k), StorageAccess(a, k));
    }
  }

  lemma RecordSelfdestructKeeps(db: World, s: State, a: Address)
    requires WellFormed(db, s)
    ensures var t := RecordSelfdestruct(s, a);
            Keeps(db, s, t) && SameStorage(db, s, t) && SameBalances(db, s, t)
  {
    hide WellFormed, Keeps, SameStorage, SameBalances;
    if a in s.selfDestructs {
      CachesNothing(db, s);
      CachesKeeps(db, s, s);
    } else {
      SubstateDeltaKeeps(db, s, RecordSelfdestruct(s, a), Selfdestruct(a));
    }
  }

  lemma SetBalanceKeeps(db: World, s: State, a: Address, v: int)
    requires WellFormed(db, s)
    ensures var t := SetBalance(db, s, a, v);
            && Keeps(db, s, t) && SameStorage(db, s, t) && BalancesBut(db, s, t, a, v) && Exists(db, t, a)
  {
    hide WellFormed, Advances, OriginalStorage, CurrentStorage, Touch;
    var t := EnsureObject(db, s, a);
    var acc := t.objects[a].current.value;
    var u := WithAccount(t, a, acc.(balance := v), UpdateBalance(a, acc.balance));
    EnsureObjectKeeps(db, s, a);
    WithAccountKeeps(db, t, a, acc.(balance := v), UpdateBalance(a, acc.balance));
    TouchKeeps(db, u, a);
    KeepsTwice(db, s, t, u);
    KeepsTwice(db, s, u, Touch(u, a));
    assert Exists(db, u, a);
  }

  lemma SetNonceKeeps(db: World, s: State, a: Address, nonce: nat)
    requires WellFormed(db, s)
    ensures var t := SetNonce(db, s, a, nonce);
            && Keeps(db, s, t) && SameStorage(db, s, t) && SameBalances(db, s, t)
            && AccountOf(db, t, a) == AccountOf(db, s, a).(nonce := nonce)
            && forall b :: b != a ==> AccountOf(db, t, b) == AccountOf(db, s, b)
  {
    hide WellFormed, Advances, OriginalStorage, CurrentStorage;
    var t := EnsureObject(db, s, a);
    var acc := t.objects[a].current.value.(nonce := nonce);
    EnsureObjectKeeps(db, s, a);
    WithAccountKeeps(db, t, a, acc, Update(a, t.objects[a]));
    KeepsTwice(db, s, t, SetNonce(db, s, a, nonce));
  }

  lemma SetCodeKeeps(db: World, s: State, a: Address, codeHash: nat)
    requires WellFormed(db, s)
    ensures var t := SetCode(db, s, a, codeHash);
            && Keeps(db, s, t) && SameStorage(db, s, t) && SameBalances(db, s, t)
  {
    hide WellFormed, Advances, OriginalStorage, CurrentStorage;
    var t := EnsureObject(db, s, a);
    var acc := t.objects[a].current.value.(codeHash := codeHash);
    EnsureObjectKeeps(db, s, a);
    WithAccountKeeps(db, t, a, acc, Update(a, t.objects[a]));
    KeepsTwice(db, s, t, SetCode(db, s, a, codeHash));
  }

  lemma AddLogKeeps(db: World, s: State, log: nat)
    requires WellFormed(db, s)
    ensures var t := AddLog(s, log);
            Keeps(db, s, t) && SameStorage(db, s, t) && SameBalances(db, s, t)
  {
    hide WellFormed, Keeps, SameStorage, SameBalances;
    var t := AddLog(s, log);
    SameStorageSameSlots(db, s, t);
    SameObjectsSameAccounts(db, s, t);
    CachesKeeps(db, s, t);
  }

  lemma AddRefundKeeps(db: World, s: State, amount: int)
    requires WellFormed(db, s)
    ensures var t := AddRefund(s, amount);
            Keeps(db, s, t) && SameStorage(db, s, t) && SameBalances(db, s, t)
  {
    hide WellFormed, Keeps, SameStorage, SameBalances;
    var t := AddRefund(s, amount);
    SameStorageSameSlots(db, s, t);
    SameObjectsSameAccounts(db, s, t);
    CachesKeeps(db, s, t);
  }

  lemma SubtractRefundKeeps(db: World, s: State, amount: nat)
    requires WellFormed(db, s)
    ensures var t := SubtractRefund(s, amount);
            Keeps(db, s, t) && SameStorage(db, s, t) && SameBalances(db, s, t)
  {
    hide WellFormed, Keeps, SameStorage, SameBalances;
    var t := SubtractRefund(s, amount);
    SameStorageSameSlots(db, s, t);
    SameObjectsSameAccounts(db, s, t);
    CachesKeeps(db, s, t);
  }

  lemma RevertKeeps(db: World, s: State, t: State)
    requires WellFormed(db, s) && Advances(db, s, t)
    ensures var r := RevertToSnapshot(t, TakeSnapshot(s));
            && Caches(db, s, r) && r.logs == s.logs && r.refund == s.refund
            && Keeps(db, s, r) && SameStorage(db, s, r) && SameBalances(db, s, r)
  {
    hide WellFormed, Keeps, SameStorage, SameBalances, Caches;
    RevertRestores(db, s, t);
    CachesKeeps(db, s, RevertToSnapshot(t, TakeSnapshot(s)));
  }

  /** A new contract keeps the balance at its address and starts with empty storage. */
  lemma CreateContractKeeps(db: World, s: State, a: Address)
    requires WellFormed(db, s)
    ensures var t := CreateContract(db, s, a);
            && Keeps(db, s, t) && SameBalances(db, s, t) && Exists(db, t, a)
            && (forall b, k :: OriginalStorage(db, t, b, k) == if b == a then 0 else OriginalStorage(db, s, b, k))
            && (forall b, k :: CurrentStorage(db, t, b, k) == if b == a then 0 else CurrentStorage(db, s, b, k))
  {
    hide Advances, CommittedAt, Base, CurrentAt, StorageOf, CreateContract, Load;
    var t := CreateContract(db, s, a);
    NewContractAdvances(db, s, a);
    NewContractStorage(db, s, a);
    NewContractAccounts(db, s, a);
    forall b, k | !Exists(db, t, b) ensures Base(db, t, b, k) == 0 && CurrentAt(t, b, k) in {None, Some(0)} {
      assert b != a && CurrentAt(s, b, k) in {None, Some(0)};
    }
    forall b, k ensures Recorded(db, t, b, k) {
      assert Recorded(db, s, b, k);
    }
  }

  lemma NewContractAccounts(db: World, s: State, a: Address)
    requires WellFormed(db, s)
    ensures var t := CreateContract(db, s, a);
            && (forall b :: Current(db, t, b) ==
                  if b == a then Some(DEFAULT_ACCOUNT.(balance := Balance(db, s, a))) else Current(db, s, b))
            && (forall b <- t.objects :: t.objects[b].initial == Get(db.accounts, b))
            && (forall b <- t.incarnations :: t.incarnations[b] > 0)
            && (forall b :: b in t.incarnations <==> b == a || b in s.incarnations)
  {
    hide CommittedAt, Base, CurrentAt, StorageOf;
  }

  lemma NewContractStorage(db: World, s: State, a: Address)
    ensures var t := CreateContract(db, s, a);
            && (forall b, k :: CommittedAt(t, b, k) == if b == a then None else CommittedAt(s, b, k))
            && (forall b, k :: CurrentAt(t, b, k) == if b == a then None else CurrentAt(s, b, k))
            && (forall b, k :: Base(db, t, b, k) == if b == a then 0 else Base(db, s, b, k))
  {
    var t := CreateContract(db, s, a);
    assert StorageOf(t, a) == NO_STORAGE;
    assert forall b | b != a :: StorageOf(t, b) == StorageOf(s, b);
  }

  lemma NewContractAdvances(db: World, s: State, a: Address)
    requires WellFormed(db, s)
    ensures Advances(db, s, CreateContract(db, s, a))
  {
    hide Advances, CommittedAt, Base, CurrentAt, StorageOf, SameSlot, Caches, Recorded, Balance;
    var t := CreateContract(db, s, a);
    var d := NewContract(a, Load(db, s, a), Get(s.storage, a));
    var u := Pop(t);
    PutBack(s.storage, a);
    PutAgain(s.incarnations, a, IncarnationOf(s, a) + 1);
    assert u == s.(objects := Put(t.objects, a, Load(db, s, a)));
    assert Put(t.objects, a, Load(db, s, a)) == Put(s.objects, a, Load(db, s, a));
    ObjectCached(db, s, u, a);
    OneDeltaAdvances(db, s, t, d);
  }

  lemma PutBack<K, V>(m: map<K, V>, k: K)
    ensures Put(m - {k}, k, Get(m, k)) == m
  {
  }

  lemma PutAgain<K, V>(m: map<K, V>, k: K, v: V)
    ensures Put(m[k := v], k, Get(m, k)) == m
  {
  }

  lemma ObjectCached(db: World, s: State, u: State, a: Address)
    requires u == s.(objects := Put(s.objects, a, Load(db, s, a)))
    ensures Caches(db, s, u)
  {
    hide CommittedAt, Base, CurrentAt, StorageOf, SameSlot;
    SameStorageSameSlots(db, s, u);
  }

  lemma CacheSlotCaches(db: World, s: State, a: Address, k: nat, original: bool)
    requires WellFormed(db, s)
    ensures Caches(db, s, CacheSlot(db, s, a, k, original))
  {
    GetObjectCaches(db, s, a);
    var t := CacheSlot(db, s, a, k, original);
    assert t.objects == GetObject(db, s, a).objects;
    forall b ensures SameObject(db, s, t, b) {
      assert SameObject(db, s, GetObject(db, s, a), b);
    }
    forall b, j ensures SameSlot(db, s, t, b, j) {
    }
  }

  /** All slots are the same, except that slot k of a has the current value v. */
  ghost predicate StorageBut(db: World, s: State, t: State, a: Address, k: nat, v: nat) {
    && (forall b, j :: OriginalStorage(db, t, b, j) == OriginalStorage(db, s, b, j))
    && (forall b, j :: CurrentStorage(db, t, b, j) == if b == a && j == k then v else CurrentStorage(db, s, b, j))
  }

  /** The state with one slot of an existing account overwritten and journalled. */
  function WriteSlotAt(st: State, a: Address, k: nat, v: nat, d: Delta): (r: State) {
    var sto := StorageOf(st, a);
    st.(storage := st.storage[a := sto.(current := sto.current[k := v])], journal := st.journal + [d])
  }

  lemma WriteSlotStorage(db: World, s: State, a: Address, k: nat, v: nat, d: Delta)
    ensures var t := WriteSlotAt(s, a, k, v, d);
            && (forall b, j :: CurrentAt(t, b, j) == if b == a && j == k then Some(v) else CurrentAt(s, b, j))
            && (forall b, j :: CommittedAt(t, b, j) == CommittedAt(s, b, j))
            && (forall b, j :: Base(db, t, b, j) == Base(db, s, b, j))
  {
    var t := WriteSlotAt(s, a, k, v, d);
    assert forall b | b != a :: StorageOf(t, b) == StorageOf(s, b);
  }

  /** The slot's starting value is on record, or known to be zero. */
  ghost predicate Backed(db: World, st: State, a: Address, k: nat) {
    CommittedAt(st, a, k).Some? || a !in db.accounts || a in st.incarnations
  }

  lemma WriteSlotAdvances(db: World, s: State, a: Address, k: nat, v: nat)
    requires Exists(db, s, a) && Backed(db, s, a, k)
    ensures Advances(db, s, WriteSlotAt(s, a, k, v, StorageChange(a, k, CurrentStorage(db, s, a, k))))
  {
    var previous := CurrentStorage(db, s, a, k);
    var d := StorageChange(a, k, previous);
    var t := WriteSlotAt(s, a, k, v, d);
    var u := Pop(t);
    assert StorageOf(u, a).committed == StorageOf(s, a).committed;
    assert StorageOf(u, a).current == StorageOf(s, a).current[k := previous];
    assert forall b | b != a :: StorageOf(u, b) == StorageOf(s, b);
    SameObjectsSameAccounts(db, s, u);
    forall b, j ensures SameSlot(db, s, u, b, j) {
    }
    hide *;
    OneDeltaAdvances(db, s, t, d);
  }

  lemma WriteSlotKeeps(db: World, s: State, a: Address, k: nat, v: nat)
    requires WellFormed(db, s) && Exists(db, s, a) && Backed(db, s, a, k)
    ensures var t := WriteSlotAt(s, a, k, v, StorageChange(a, k, CurrentStorage(db, s, a, k)));
            && Keeps(db, s, t) && SameBalances(db, s, t)
            && StorageBut(db, s, t, a, k, v)
  {
    hide Advances, CommittedAt, Base, CurrentAt, StorageOf, Load;
    var d := StorageChange(a, k, CurrentStorage(db, s, a, k));
    var t := WriteSlotAt(s, a, k, v, d);
    WriteSlotAdvances(db, s, a, k, v);
    WriteSlotStorage(db, s, a, k, v, d);
    SameObjectsSameAccounts(db, s, t);
    forall b, j | !Exists(db, t, b) ensures Base(db, t, b, j) == 0 && CurrentAt(t, b, j) in {None, Some(0)} {
      assert b != a && CurrentAt(s, b, j) in {None, Some(0)};
    }
    forall b, j ensures Recorded(db, t, b, j) {
      assert Recorded(db, s, b, j);
    }
  }

  lemma SetStorageKeeps(db: World, s: State, a: Address, k: nat, v: nat)
    requires WellFormed(db, s) && Exists(db, s, a)
    ensures var t := SetStorage(db, s, a, k, v);
            && Keeps(db, s, t) && SameBalances(db, s, t)
            && StorageBut(db, s, t, a, k, v)
  {
    hide WellFormed, Advances, OriginalStorage, CurrentStorage, CacheSlot;
    var c := CacheSlot(db, s, a, k, false);
    CacheSlotCaches(db, s, a, k, false);
    CacheSlotLogs(db, s, a, k, false);
    CachesKeeps(db, s, c);
    if CurrentStorage(db, s, a, k) != v {
      CacheSlotBacks(db, s, a, k);
      WriteSlotKeeps(db, c, a, k, v);
      KeepsTwice(db, s, c, SetStorage(db, s, a, k, v));
    }
  }

  /** Reading a slot before writing it puts its starting value on record. */
  lemma CacheSlotBacks(db: World, s: State, a: Address, k: nat)
    requires WellFormed(db, s) && Exists(db, s, a)
    ensures Backed(db, CacheSlot(db, s, a, k, false), a, k)
  {
    assert Recorded(db, s, a, k);
    assert GetObject(db, s, a).objects[a].initial == Get(db.accounts, a);
  }

  lemma CacheSlotLogs(db: World, s: State, a: Address, k: nat, original: bool)
    ensures CacheSlot(db, s, a, k, original).logs == s.logs
    ensures CacheSlot(db, s, a, k, original).refund == s.refund
  {
  }

  lemma GetObjectLogs(db: World, s: State, a: Address)
    ensures GetObject(db, s, a).logs == s.logs && GetObject(db, s, a).refund == s.refund
  {
  }

  // ----- What each operation does to every account -----

  lemma EnsureObjectAccount(db: World, s: State, a: Address, b: Address)
    ensures var t := EnsureObject(db, s, a);
            AccountOf(db, t, b) == AccountOf(db, s, b) && t.selfDestructs == s.selfDestructs
    ensures EnsureObject(db, s, a).objects[a].current.value == AccountOf(db, s, a)
  {
  }

  lemma WithAccountAccount(db: World, s: State, a: Address, acc: Account, d: Delta, b: Address)
    requires a in s.objects
    ensures AccountOf(db, WithAccount(s, a, acc, d), b) == if b == a then acc else AccountOf(db, s, b)
  {
  }

  /** Setting a balance changes that balance and nothing else of any account. */
  lemma SetBalanceAccount(db: World, s: State, a: Address, v: int, b: Address)
    ensures var t := SetBalance(db, s, a, v);
            && AccountOf(db, t, b) == (if b == a then AccountOf(db, s, a).(balance := v) else AccountOf(db, s, b))
            && t.selfDestructs == s.selfDestructs
  {
    hide AccountOf;
    var t := EnsureObject(db, s, a);
    var acc := t.objects[a].current.value;
    var u := WithAccount(t, a, acc.(balance := v), UpdateBalance(a, acc.balance));
    EnsureObjectAccount(db, s, a, b);
    WithAccountAccount(db, t, a, acc.(balance := v), UpdateBalance(a, acc.balance), b);
    TouchAccount(db, u, a, b);
  }

  /** Setting a balance touches the account and leaves the rest of the substate. */
  lemma SetBalanceSubstate(db: World, s: State, a: Address, v: int)
    ensures var t := SetBalance(db, s, a, v);
            && t == s.(objects := t.objects, journal := t.journal, touched := s.touched + {a})
  {
    assert a in s.touched ==> s.touched == s.touched + {a};
  }

  lemma SetNonceSubstate(db: World, s: State, a: Address, n: nat)
    ensures var t := SetNonce(db, s, a, n);
            && t == s.(objects := t.objects, journal := t.journal)
  {
  }

  lemma TouchAccount(db: World, s: State, a: Address, b: Address)
    ensures AccountOf(db, Touch(s, a), b) == AccountOf(db, s, b) && Touch(s, a).selfDestructs == s.selfDestructs
  {
  }

  /** Setting a nonce changes that nonce and nothing else of any account. */
  lemma SetNonceAccount(db: World, s: State, a: Address, nonce: nat, b: Address)
    ensures var t := SetNonce(db, s, a, nonce);
            && AccountOf(db, t, b) == (if b == a then AccountOf(db, s, a).(nonce := nonce) else AccountOf(db, s, b))
            && t.selfDestructs == s.selfDestructs
  {
    hide AccountOf;
    var t := EnsureObject(db, s, a);
    EnsureObjectAccount(db, s, a, b);
    WithAccountAccount(db, t, a, t.objects[a].current.value.(nonce := nonce), Update(a, t.objects[a]), b);
  }

  /** Setting code changes that code hash and nothing else of any account. */
  lemma SetCodeAccount(db: World, s: State, a: Address, codeHash: nat, b: Address)
    ensures var t := SetCode(db, s, a, codeHash);
            && AccountOf(db, t, b) ==
               (if b == a then AccountOf(db, s, a).(codeHash := codeHash) else AccountOf(db, s, b))
            && t.selfDestructs == s.selfDestructs
  {
    hide AccountOf;
    var t := EnsureObject(db, s, a);
    EnsureObjectAccount(db, s, a, b);
    WithAccountAccount(db, t, a, t.objects[a].current.value.(codeHash := codeHash), Update(a, t.objects[a]), b);
  }
}
