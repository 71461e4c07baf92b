// Reverting to a snapshot restores what was there: the journal of reversible changes
// refines keeping a copy of the state.
module Journal {
  import opened Wrappers
  import opened WorldState
  import opened IntraBlock

  // ----- Having more of the database cached is invisible, and stays so under reverts -----

  lemma CachesNothing(db: World, s: State)
    ensures Caches(db, s, s)
  {
  }

  lemma CachesTwice(db: World, s: State, t: State, u: State)
    requires Caches(db, s, t) && Caches(db, t, u)
    ensures Caches(db, s, u)
  {
    hide Load, CommittedAt, CurrentAt;
    forall a ensures SameObject(db, s, u, a) {
      assert SameObject(db, s, t, a) && SameObject(db, t, u, a);
    }
    forall a, k ensures SameSlot(db, s, u, a, k) {
      assert SameSlot(db, s, t, a, k) && SameSlot(db, t, u, a, k);
    }
  }

  lemma SameCanRevert(db: World, s: State, t: State, d: Delta)
    requires SameFrame(s, t) && SameObject(db, s, t, d.address) && CanRevert(s, d)
    ensures CanRevert(t, d)
  {
  }

  lemma RevertKeepsObject(db: World, s: State, t: State, d: Delta, a: Address)
    requires SameFrame(s, t) && SameObject(db, s, t, a) && CanRevert(s, d) && CanRevert(t, d)
    ensures SameObject(db, RevertDelta(s, d), RevertDelta(t, d), a)
  {
  }

  lemma RevertKeepsSlot(db: World, s: State, t: State, d: Delta, a: Address, k: nat)
    requires SameFrame(s, t) && SameSlot(db, s, t, a, k) && CanRevert(s, d) && CanRevert(t, d)
    ensures SameSlot(db, RevertDelta(s, d), RevertDelta(t, d), a, k)
  {
    match d
    case NewContract(b, _, _) => RevertNewContract(db, s, t, d, a, k);
    case StorageChange(b, j, v) =>
    case _ => JournalIsNoSlot(db, s, t, RevertDelta(s, d), RevertDelta(t, d), a, k);
  }

  lemma RevertNewContract(db: World, s: State, t: State, d: Delta, a: Address, k: nat)
    requires d.NewContract? && SameFrame(s, t) && SameSlot(db, s, t, a, k) && CanRevert(s, d) && CanRevert(t, d)
    ensures SameSlot(db, RevertDelta(s, d), RevertDelta(t, d), a, k)
  {
    var s', t' := RevertDelta(s, d), RevertDelta(t, d);
    if a == d.address {
      assert StorageOf(s', a) == StorageOf(t', a);
    } else {
      assert StorageOf(s', a) == StorageOf(s, a) && StorageOf(t', a) == StorageOf(t, a);
      assert a in s'.incarnations <==> a in s.incarnations;
    }
  }

  lemma RevertKeepsFrame(s: State, t: State, d: Delta)
    requires SameFrame(s, t) && CanRevert(s, d) && CanRevert(t, d)
    ensures SameFrame(RevertDelta(s, d), RevertDelta(t, d))
  {
  }

  lemma PopKeepsCaches(db: World, s: State, t: State)
    requires Caches(db, s, t) && |s.journal| > 0 && CanRevert(s, s.journal[|s.journal| - 1])
    ensures CanRevert(t, s.journal[|s.journal| - 1])
    ensures Caches(db, Pop(s), Pop(t))
  {
    hide RevertDelta, CanRevert, Load, CommittedAt, CurrentAt, Base;
    var d := s.journal[|s.journal| - 1];
    assert SameObject(db, s, t, d.address);
    SameCanRevert(db, s, t, d);
    RevertKeepsFrame(s, t, d);
    forall b ensures SameObject(db, Pop(s), Pop(t), b) {
      assert SameObject(db, s, t, b);
      RevertKeepsObject(db, s, t, d, b);
      JournalIsNoObject(db, RevertDelta(s, d), RevertDelta(t, d), Pop(s), Pop(t), b);
    }
    forall b, k ensures SameSlot(db, Pop(s), Pop(t), b, k) {
      assert SameSlot(db, s, t, b, k);
      RevertKeepsSlot(db, s, t, d, b, k);
      JournalIsNoSlot(db, RevertDelta(s, d), RevertDelta(t, d), Pop(s), Pop(t), b, k);
    }
  }

  lemma JournalIsNoObject(db: World, s: State, t: State, s': State, t': State, a: Address)
    requires SameObject(db, s, t, a) && s'.objects == s.objects && t'.objects == t.objects
    ensures SameObject(db, s', t', a)
  {
  }

  lemma JournalIsNoSlot(db: World, s: State, t: State, s': State, t': State, a: Address, k: nat)
    requires SameSlot(db, s, t, a, k) && s'.storage == s.storage && t'.storage == t.storage
    requires s'.incarnations == s.incarnations
    ensures SameSlot(db, s', t', a, k)
  {
  }

  lemma {:induction false} UnrollKeepsCaches(db: World, s: State, t: State, n: nat)
    requires Caches(db, s, t) && Revertible(s, n)
    ensures Revertible(t, n) && Caches(db, Unroll(s, n), Unroll(t, n))
    decreases |s.journal|
  {
    hide Caches, Pop, CanRevert;
    SameJournals(db, s, t);
    if |s.journal| > n {
      PopKeepsCaches(db, s, t);
      UnrollKeepsCaches(db, Pop(s), Pop(t), n);
    }
  }

  lemma SameJournals(db: World, s: State, t: State)
    requires Caches(db, s, t)
    ensures s.journal == t.journal
  {
  }

  // ----- Unrolling in stages -----

  lemma {:induction false} UnrollInStages(st: State, m: nat, n: nat)
    requires n <= m && Revertible(st, m) && Revertible(Unroll(st, m), n)
    ensures Revertible(st, n) && Unroll(st, n) == Unroll(Unroll(st, m), n)
    decreases |st.journal|
  {
    hide Pop, CanRevert;
    if |st.journal| > m {
      UnrollInStages(Pop(st), m, n);
    }
  }

  // ----- Advancing: changes that can be taken back -----

  /** t came after s by changes that the journal can take back. */
  ghost predicate Advances(db: World, s: State, t: State) {
    && s.journal <= t.journal && s.logs <= t.logs
    && Revertible(t, |s.journal|)
    && Caches(db, s, Unroll(t, |s.journal|))
  }

  lemma StandingStillAdvances(db: World, s: State, t: State)
    requires Caches(db, s, t) && s.logs <= t.logs
    ensures Advances(db, s, t)
  {
  }

  lemma AdvancesTwice(db: World, s: State, t: State, u: State)
    requires Advances(db, s, t) && Advances(db, t, u)
    ensures Advances(db, s, u)
  {
    hide Caches, Revertible, Unroll;
    var n, m := |s.journal|, |t.journal|;
    UnrollKeepsCaches(db, t, Unroll(u, m), n);
    UnrollInStages(u, m, n);
    CachesTwice(db, s, Unroll(t, n), Unroll(u, n));
  }

  /** Reverting to a snapshot gives back the state the snapshot was taken in. */
  lemma RevertRestores(db: World, s: State, t: State)
    requires Advances(db, s, t)
    ensures var r := RevertToSnapshot(t, TakeSnapshot(s));
            Caches(db, s, r) && r.logs == s.logs && r.refund == s.refund
  {
    hide Revertible, Unroll;
    var u := Unroll(t, |s.journal|);
    var r := RevertToSnapshot(t, TakeSnapshot(s));
    forall a ensures SameObject(db, s, r, a) {
      assert SameObject(db, s, u, a);
    }
    forall a, k ensures SameSlot(db, s, r, a, k) {
      assert SameSlot(db, s, u, a, k);
    }
  }

  // ----- Caching is invisible -----

  lemma CachesSameReads(db: World, s: State, t: State)
    requires Caches(db, s, t)
    ensures forall a :: Current(db, t, a) == Current(db, s, a)
    ensures forall a, k :: Base(db, t, a, k) == Base(db, s, a, k)
    ensures forall a, k :: OriginalStorage(db, t, a, k) == OriginalStorage(db, s, a, k)
    ensures forall a, k :: CurrentStorage(db, t, a, k) == CurrentStorage(db, s, a, k)
  {
    hide Load, CommittedAt, CurrentAt;
    forall a ensures Current(db, t, a) == Current(db, s, a) {
      assert SameObject(db, s, t, a);
    }
    forall a, k ensures Base(db, t, a, k) == Base(db, s, a, k)
                     && CurrentStorage(db, t, a, k) == CurrentStorage(db, s, a, k)
    {
      assert SameSlot(db, s, t, a, k);
    }
  }

  lemma CachesWellFormed(db: World, s: State, t: State)
    requires WellFormed(db, s) && Caches(db, s, t)
    ensures WellFormed(db, t)
  {
    CachesSameReads(db, s, t);
    forall a | a in t.objects ensures t.objects[a].initial == Get(db.accounts, a) {
      assert SameObject(db, s, t, a);
    }
    forall a, k | !Exists(db, t, a) ensures Base(db, t, a, k) == 0 && CurrentAt(t, a, k) in {None, Some(0)} {
      assert SameSlot(db, s, t, a, k);
      assert Current(db, t, a) == Current(db, s, a);
      assert Base(db, t, a, k) == Base(db, s, a, k);
      assert CurrentAt(s, a, k) in {None, Some(0)};
    }
    forall a, k ensures Recorded(db, t, a, k) {
      assert SameSlot(db, s, t, a, k);
      assert Recorded(db, s, a, k);
    }
  }

  // ----- Every operation advances -----

  lemma OneDeltaAdvances(db: World, s: State, t: State, d: Delta)
    requires t.journal == s.journal + [d] && s.logs <= t.logs && CanRevert(t, d)
    requires Caches(db, s, Pop(t))
    ensures Advances(db, s, t)
  {
    hide Caches, Pop, CanRevert;
    assert Revertible(Pop(t), |s.journal|);
    assert Unroll(t, |s.journal|) == Unroll(Pop(t), |s.journal|);
  }

  lemma SameStorageSameSlots(db: World, s: State, t: State)
    requires s.storage == t.storage && s.incarnations == t.incarnations
    ensures forall a, k :: SameSlot(db, s, t, a, k)
    ensures forall a, k :: CommittedAt(t, a, k) == CommittedAt(s, a, k)
    ensures forall a, k :: CurrentAt(t, a, k) == CurrentAt(s, a, k)
    ensures forall a, k :: Base(db, t, a, k) == Base(db, s, a, k)
    ensures forall a, k :: Recorded(db, t, a, k) == Recorded(db, s, a, k)
  {
  }

  lemma SameObjectsSameAccounts(db: World, s: State, t: State)
    requires s.objects == t.objects
    ensures forall a :: SameObject(db, s, t, a)
    ensures forall a :: Current(db, t, a) == Current(db, s, a)
  {
  }

  /** Well-formedness and all accounts are kept, and the change can be taken back. */
  ghost predicate Keeps(db: World, s: State, t: State) {
    && WellFormed(db, t)
    && Advances(db, s, t)
    && (forall a :: Exists(db, s, a) ==> Exists(db, t, a))
  }

  ghost predicate SameStorage(db: World, s: State, t: State) {
    forall a, k ::
      && OriginalStorage(db, t, a, k) == OriginalStorage(db, s, a, k)
      && CurrentStorage(db, t, a, k) == CurrentStorage(db, s, a, k)
  }

  /** All balances are the same, except that a has balance v. */
  ghost predicate BalancesBut(db: World, s: State, t: State, a: Address, v: int) {
    forall b :: Balance(db, t, b) == if b == a then v else Balance(db, s, b)
  }

  ghost predicate SameBalances(db: World, s: State, t: State) {
    forall b :: Balance(db, t, b) == Balance(db, s, b)
  }

  lemma KeepsAdvances(db: World, s: State, t: State)
    requires Keeps(db, s, t)
    ensures Advances(db, s, t)
  {
  }

  lemma KeepsTwice(db: World, s: State, t: State, u: State)
    requires Keeps(db, s, t) && Keeps(db, t, u)
    ensures Keeps(db, s, u)
  {
    hide WellFormed, Advances;
    AdvancesTwice(db, s, t, u);
  }

  lemma CachesKeeps(db: World, s: State, t: State)
    requires WellFormed(db, s) && Caches(db, s, t) && s.logs <= t.logs
    ensures Keeps(db, s, t) && SameStorage(db, s, t) && SameBalances(db, s, t)
  {
    hide WellFormed, Caches, Advances;
    CachesSameReads(db, s, t);
    CachesWellFormed(db, s, t);
    StandingStillAdvances(db, s, t);
  }

  lemma GetObjectCaches(db: World, s: State, a: Address)
    ensures Caches(db, s, GetObject(db, s, a))
  {
  }

  lemma EnsureObjectAdvances(db: World, s: State, a: Address)
    ensures Advances(db, s, EnsureObject(db, s, a))
  {
    hide Caches, Advances;
    var t := EnsureObject(db, s, a);
    match Load(db, s, a)
    case Some(o) =>
      if o.current.Some? {
        GetObjectCaches(db, s, a);
        StandingStillAdvances(db, s, t);
      } else {
        ObjectUndone(db, s, t, Update(a, o));
      }
    case None =>
      ObjectUndone(db, s, t, Create(a));
  }

  /** An object change followed by its journal entry can be taken back. */
  lemma ObjectUndone(db: World, s: State, t: State, d: Delta)
    requires t == s.(objects := t.objects, journal := s.journal + [d])
    requires d.Create? || d.Update? || d.UpdateBalance?
    requires CanRevert(t, d)
    requires forall a | a in s.objects :: a in t.objects
    requires d.Create? ==> d.address !in s.objects
    requires forall a :: Load(db, RevertDelta(t, d), a) == Load(db, s, a)
    ensures Advances(db, s, t)
  {
    hide SameSlot, CurrentAt, CommittedAt, Base, StorageOf, Load;
    var u := Pop(t);
    SameStorageSameSlots(db, s, u);
    SameObjectsSameAccounts(db, RevertDelta(t, d), u);
    forall a ensures SameObject(db, s, u, a) {
      assert SameObject(db, RevertDelta(t, d), u, a);
    }
    assert SameFrame(s, u);
    OneDeltaAdvances(db, s, t, d);
  }

  /** Changing only the cached object of an existing account, keeping its initial value. */
  lemma ObjectChangeKeeps(db: World, s: State, t: State, a: Address)
    requires WellFormed(db, s) && Advances(db, s, t)
    requires s.storage == t.storage && s.incarnations == t.incarnations
    requires forall b | b != a :: Load(db, t, b) == Load(db, s, b)
    requires forall b | b in t.objects :: b in s.objects || b == a
    requires a in t.objects && t.objects[a].initial == Get(db.accounts, a) && t.objects[a].current.Some?
    ensures Keeps(db, s, t) && SameStorage(db, s, t)
    ensures BalancesBut(db, s, t, a, t.objects[a].current.value.balance)
  {
    hide SameSlot, CurrentAt, CommittedAt, Base, StorageOf, Advances;
    SameStorageSameSlots(db, s, t);
    forall b, k ensures OriginalStorage(db, t, b, k) == OriginalStorage(db, s, b, k)
                     && CurrentStorage(db, t, b, k) == CurrentStorage(db, s, b, k)
    {
      assert CurrentAt(s, b, k) == CurrentAt(t, b, k);
    }
    forall b | b in t.objects && b != a ensures t.objects[b].initial == Get(db.accounts, b) {
      assert Load(db, t, b) == Load(db, s, b);
    }
    forall b, k | !Exists(db, t, b) ensures Base(db, t, b, k) == 0 && CurrentAt(t, b, k) in {None, Some(0)} {
      assert Load(db, t, b) == Load(db, s, b);
      assert CurrentAt(s, b, k) in {None, Some(0)};
    }
    assert forall b, k :: Recorded(db, s, b, k);
  }
}
