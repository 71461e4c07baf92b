// What an executed block writes to the database, and exactly when the undo record it
// leaves behind restores the database.
module UndoRecords {
  import opened Wrappers
  import opened WorldState
  import opened IntraBlock
  import opened Evm
  import opened Ether
  import opened Processor
  import opened BlockProcessor
  import opened Rewards

  /** The batch a block hands to the database: wiped addresses, committed slots of the
      accounts that exist, and every cached account. */
  function ChangeSetOf(st: State): (r: ChangeSet) {
    ChangeSet(
      st.incarnations.Keys,
      map a, k | a in st.storage && a in st.objects && st.objects[a].current.Some? && k in st.storage[a].committed ::
        (a, k) := Change(st.storage[a].committed[k].initial, st.storage[a].committed[k].original),
      map a | a in st.objects :: Change(st.objects[a].initial, st.objects[a].current))
  }

  /** The slot held a value before the block, its account was wiped during the block (or had
      left the slot behind without being in the database), and the account came back and
      wrote the slot again. */
  ghost predicate Rewritten(db: World, st: State, a: Address, k: nat) {
    && (a in st.incarnations || a !in db.accounts)
    && a in st.objects && st.objects[a].current.Some?
    && CommittedAt(st, a, k).Some?
    && ReadSlot(db.storage, (a, k)) != 0
  }

  lemma SlotChange(db: World, st: State, a: Address, k: nat)
    requires WellFormed(db, st)
    ensures var cs := ChangeSetOf(st);
            && ((a, k) in cs.slots <==> a in st.objects && st.objects[a].current.Some? && CommittedAt(st, a, k).Some?)
            && ((a, k) in cs.slots ==>
                  (cs.slots[(a, k)].initial != ReadSlot(db.storage, (a, k)) <==> Rewritten(db, st, a, k)))
  {
    assert Recorded(db, st, a, k);
  }

  /** The change set is faithful exactly when no wiped slot was written again. */
  lemma FaithfulUnlessRewritten(db: World, st: State)
    requires WellFormed(db, st)
    ensures Faithful(db, ChangeSetOf(st)) <==> forall a, k :: !Rewritten(db, st, a, k)
  {
    hide WellFormed, Recorded, CommittedAt, Rewritten, ChangeSetOf, FaithfulAccounts;
    var cs := ChangeSetOf(st);
    AccountsAreFaithful(db, st);
    if Faithful(db, cs) {
      forall a, k ensures !Rewritten(db, st, a, k) {
        SlotChange(db, st, a, k);
        if Rewritten(db, st, a, k) {
          RewrittenIsWritten(db, st, a, k);
        }
      }
    }
    if forall a, k :: !Rewritten(db, st, a, k) {
      forall s | s in cs.slots ensures cs.slots[s].initial == ReadSlot(db.storage, s) {
        SlotChange(db, st, s.0, s.1);
      }
    }
  }

  lemma AccountsAreFaithful(db: World, st: State)
    requires WellFormed(db, st)
    ensures FaithfulAccounts(db.accounts, ChangeSetOf(st).accounts)
  {
    hide Recorded, CommittedAt, CurrentAt, Base;
  }

  lemma RewrittenIsWritten(db: World, st: State, a: Address, k: nat)
    requires Rewritten(db, st, a, k)
    ensures (a, k) in ChangeSetOf(st).slots
  {
  }

  /** Writing the state gives a database that shows every account as the state does, and every
      slot of a cached account of the database at the value with which the next transaction
      would start; slots of other accounts stay unless the account was wiped. */
  lemma WriteShowsState(db: World, st: State, a: Address, k: nat)
    requires WellFormed(db, st)
    ensures var w := Commit(db, ChangeSetOf(st));
            && Get(w.accounts, a) == Current(db, st, a)
            && (a in st.objects && Exists(db, st, a) && (a in db.accounts || ReadSlot(db.storage, (a, k)) == 0) ==>
                  ReadSlot(w.storage, (a, k)) == OriginalStorage(db, st, a, k))
            && (!(a in st.objects && Exists(db, st, a)) ==>
                  ReadSlot(w.storage, (a, k)) == if a in st.incarnations then 0 else ReadSlot(db.storage, (a, k)))
  {
    hide WellFormed, CurrentAt, CommittedAt, ChangeSetOf, Commit;
    ShownAccount(db, st, a);
    SlotWritten(db, ChangeSetOf(st), (a, k));
    SlotInChanges(st, a, k);
  }

  lemma SlotInChanges(st: State, a: Address, k: nat)
    ensures var cs := ChangeSetOf(st);
            && ((a, k) in cs.slots <==> a in st.objects && st.objects[a].current.Some? && CommittedAt(st, a, k).Some?)
            && ((a, k) in cs.slots ==> cs.slots[(a, k)].current == CommittedAt(st, a, k).value.original)
            && (a in cs.erased <==> a in st.incarnations)
  {
  }

  lemma ShownAccount(db: World, st: State, a: Address)
    ensures Get(Commit(db, ChangeSetOf(st)).accounts, a) == Current(db, st, a)
  {
  }

  /** A slot after the changes: what was written, or nothing if wiped, or what it was. */
  lemma SlotWritten(w: World, cs: ChangeSet, s: Slot)
    ensures ReadSlot(Commit(w, cs).storage, s) ==
      if s in cs.slots then cs.slots[s].current
      else if s.0 in cs.erased then 0
      else ReadSlot(w.storage, s)
  {
  }

  lemma StartIsSettled(db: World)
    ensures Settled(db, INITIAL_STATE)
  {
    EmptyIsSettled(db, INITIAL_STATE);
  }

  lemma EmptyIsSettled(db: World, st: State)
    requires st.objects == map[] && st.storage == map[] && st.incarnations == map[]
    ensures Settled(db, st)
  {
    forall a, k ensures CommittedAt(st, a, k) == None && CurrentAt(st, a, k) == None {
      assert StorageOf(st, a) == NO_STORAGE;
    }
    hide CommittedAt, CurrentAt;
    forall a, k ensures Recorded(db, st, a, k) {
      assert CommittedAt(st, a, k) == None && CurrentAt(st, a, k) == None;
    }
    forall a, k | !Exists(db, st, a) ensures Base(db, st, a, k) == 0 && CurrentAt(st, a, k) in {None, Some(0)} {
      assert CommittedAt(st, a, k) == None && CurrentAt(st, a, k) == None;
    }
  }

  /** The transactions of a block from the database on. */
  ghost function RunBlock(env: Env, h: Header, txs: seq<Txn>, runs: seq<Execution>): BlockResult
    requires Admissible(env.rev, h, txs, runs)
  {
    StartIsSettled(env.db);
    RunTransactions(env, INITIAL_STATE, h, 0, txs, runs)
  }

  /** The state that an executed block hands to the database, rewards included. */
  ghost function FinalState(env: Env, h: Header, txs: seq<Txn>, runs: seq<Execution>, rewards: seq<Reward>): State
    requires Admissible(env.rev, h, txs, runs) && RunBlock(env, h, txs, runs).BlockDone?
  {
    Credit(env.db, RunBlock(env, h, txs, runs).state, rewards)
  }

  lemma FinalIsWellFormed(env: Env, h: Header, txs: seq<Txn>, runs: seq<Execution>, rewards: seq<Reward>)
    requires Admissible(env.rev, h, txs, runs) && RunBlock(env, h, txs, runs).BlockDone?
    ensures WellFormed(env.db, FinalState(env, h, txs, runs, rewards))
  {
    hide WellFormed, NothingPending, RunTransactions, Total, Credit, Climbs;
    StartIsSettled(env.db);
    WholeBlock(env, INITIAL_STATE, h, txs, runs, rewards);
  }

  /** For every executed block, rewards included: undoing what it wrote gives the database
      back exactly when no account that was wiped in the block wrote a slot that held a value
      before it. */
  lemma ExecutedBlockUndoIff(env: Env, h: Header, txs: seq<Txn>, runs: seq<Execution>, rewards: seq<Reward>)
    requires NoZeroSlots(env.db.storage)
    requires Admissible(env.rev, h, txs, runs) && RunBlock(env, h, txs, runs).BlockDone?
    ensures var st := FinalState(env, h, txs, runs, rewards);
            var cs := ChangeSetOf(st);
            Restore(Commit(env.db, cs), RecordAfter(EMPTY_RECORD, env.db, cs)) == env.db
            <==> forall a, k :: !Rewritten(env.db, st, a, k)
  {
    hide WellFormed, RunBlock, FinalState, Rewritten, ChangeSetOf, Faithful, Restore, Commit, RecordAfter;
    FinalIsWellFormed(env, h, txs, runs, rewards);
    var st := FinalState(env, h, txs, runs, rewards);
    FaithfulUnlessRewritten(env.db, st);
    UndoRestoresIff(env.db, ChangeSetOf(st));
  }

  /** A rewritten slot reads zero after the block is undone. */
  lemma RewrittenSlotIsLost(db: World, st: State, a: Address, k: nat)
    requires WellFormed(db, st) && Rewritten(db, st, a, k)
    ensures var cs := ChangeSetOf(st);
            ReadSlot(Restore(Commit(db, cs), RecordAfter(EMPTY_RECORD, db, cs)).storage, (a, k)) == 0
  {
    hide Commit, Base, Load, CurrentAt, FaithfulAccounts;
    var cs := ChangeSetOf(st);
    RewrittenIsWritten(db, st, a, k);
    assert Recorded(db, st, a, k);
    assert cs.slots[(a, k)].initial == 0;
    assert RecordAfter(EMPTY_RECORD, db, cs).slots[(a, k)] == 0;
  }
}
