// The in-memory database of accounts and storage slots, the per-block undo
// records it keeps, and the batch of changes that one executed block writes.
module WorldState {
  import opened Wrappers

  /** Twenty-byte addresses. */
  const ADDRESS_SPACE: nat := 0x1_0000000000_0000000000_0000000000_0000000000

  type Address = a: nat | a < ADDRESS_SPACE
  type Slot = (Address, nat)

  datatype Account = Account(nonce: nat, balance: int, codeHash: nat)

  /** Accounts and nonzero storage slots. A slot that is absent reads as zero. */
  datatype World = World(accounts: map<Address, Account>, storage: map<Slot, nat>)

  ghost predicate NoZeroSlots(storage: map<Slot, nat>) {
    forall s <- storage :: storage[s] != 0
  }

  /** Values as they were at the beginning of one block. */
  datatype UndoRecord = UndoRecord(accounts: map<Address, Option<Account>>, slots: map<Slot, nat>)

  const EMPTY_RECORD := UndoRecord(map[], map[])

  datatype Change<+T> = Change(initial: T, current: T)

  /** What one executed block hands to the database: the addresses whose storage was
      wiped, then the slots it touched, then the accounts it loaded. */
  datatype ChangeSet = ChangeSet(
    erased: set<Address>,
    slots: map<Slot, Change<nat>>,
    accounts: map<Address, Change<Option<Account>>>)

  // ----- Accounts: optional values -----

  function Get<K, V>(m: map<K, V>, k: K): (r: Option<V>) {
    if k in m then Some(m[k]) else None
  }

  function Put<K, V>(m: map<K, V>, k: K, o: Option<V>): (r: map<K, V>) {
    match o
    case Some(v) => m[k := v]
    case None => m - {k}
  }

  /** m with every key of over set to, or removed by, the value given there. */
  function Overlay<K, V>(m: map<K, V>, over: map<K, Option<V>>): (r: map<K, V>) {
    map k | k in m.Keys + over.Keys && (k in over ==> over[k].Some?) :: if k in over then over[k].value else m[k]
  }

  // ----- Slots: absent means zero -----

  function ReadSlot(storage: map<Slot, nat>, s: Slot): (v: nat) {
    if s in storage then storage[s] else 0
  }

  function WriteSlot(storage: map<Slot, nat>, s: Slot, v: nat): (r: map<Slot, nat>) {
    if v == 0 then storage - {s} else storage[s := v]
  }

  /** storage with every slot of over set to the value given there. */
  function OverlaySlots(storage: map<Slot, nat>, over: map<Slot, nat>): (r: map<Slot, nat>) {
    map s | s in storage.Keys + over.Keys && (s in over ==> over[s] != 0) :: if s in over then over[s] else storage[s]
  }

  function Initials<K, T>(m: map<K, Change<T>>): (r: map<K, T>) {
    map k | k in m :: m[k].initial
  }

  function Currents<K, T>(m: map<K, Change<T>>): (r: map<K, T>) {
    map k | k in m :: m[k].current
  }

  function SlotsOf(storage: map<Slot, nat>, erased: set<Address>): (r: map<Slot, nat>) {
    map s | s in storage && s.0 in erased :: storage[s]
  }

  function SlotsOutside(storage: map<Slot, nat>, erased: set<Address>): (r: map<Slot, nat>) {
    map s | s in storage && s.0 !in erased :: storage[s]
  }

  // ----- What a block's changes mean -----

  /** The world after the block's changes are written. */
  function Commit(w: World, cs: ChangeSet): (r: World) {
    World(Overlay(w.accounts, Currents(cs.accounts)),
          OverlaySlots(SlotsOutside(w.storage, cs.erased), Currents(cs.slots)))
  }

  /** The undo record the database holds after writing the changes, starting from rec. */
  function RecordAfter(rec: UndoRecord, w: World, cs: ChangeSet): (r: UndoRecord) {
    UndoRecord(rec.accounts + Initials(cs.accounts),
               rec.slots + SlotsOf(w.storage, cs.erased) + Initials(cs.slots))
  }

  /** The world after an undo record is applied. */
  function Restore(w: World, rec: UndoRecord): (r: World) {
    World(Overlay(w.accounts, rec.accounts), OverlaySlots(w.storage, rec.slots))
  }

  lemma CommitKeepsNoZero(w: World, cs: ChangeSet)
    requires NoZeroSlots(w.storage)
    ensures NoZeroSlots(Commit(w, cs).storage)
  {
  }

  lemma RestoreKeepsNoZero(w: World, rec: UndoRecord)
    requires NoZeroSlots(w.storage)
    ensures NoZeroSlots(Restore(w, rec).storage)
  {
  }

  /** The changes name the values that the database held at the beginning of the block. */
  ghost predicate Faithful(w: World, cs: ChangeSet) {
    && FaithfulAccounts(w.accounts, cs.accounts)
    && FaithfulSlots(w.storage, cs.slots)
  }

  ghost predicate FaithfulAccounts(accounts: map<Address, Account>, changes: map<Address, Change<Option<Account>>>) {
    forall a <- changes :: changes[a].initial == Get(accounts, a)
  }

  ghost predicate FaithfulSlots(storage: map<Slot, nat>, changes: map<Slot, Change<nat>>) {
    forall s <- changes :: changes[s].initial == ReadSlot(storage, s)
  }

  lemma AccountsRestoredIff(m: map<Address, Account>, changes: map<Address, Change<Option<Account>>>)
    ensures Overlay(Overlay(m, Currents(changes)), Initials(changes)) == m <==> FaithfulAccounts(m, changes)
  {
    var back := Overlay(Overlay(m, Currents(changes)), Initials(changes));
    if back == m {
      forall a | a in changes ensures changes[a].initial == Get(m, a) {
        assert a in Initials(changes);
        assert Get(back, a) == changes[a].initial;
      }
    }
  }

  lemma SlotsRestoredIff(m: map<Slot, nat>, erased: set<Address>, changes: map<Slot, Change<nat>>)
    requires NoZeroSlots(m)
    ensures m == OverlaySlots(OverlaySlots(SlotsOutside(m, erased), Currents(changes)),
                              SlotsOf(m, erased) + Initials(changes))
            <==> FaithfulSlots(m, changes)
  {
    var rec := SlotsOf(m, erased) + Initials(changes);
    var back := OverlaySlots(OverlaySlots(SlotsOutside(m, erased), Currents(changes)), rec);
    if back == m {
      forall s | s in changes ensures changes[s].initial == ReadSlot(m, s) {
        assert s in rec && rec[s] == changes[s].initial;
        assert ReadSlot(back, s) == rec[s];
      }
    }
  }

  /** Undoing a block gives back the world it started from exactly when the block
      reported the right initial values. */
  lemma UndoRestoresIff(w: World, cs: ChangeSet)
    requires NoZeroSlots(w.storage)
    ensures Restore(Commit(w, cs), RecordAfter(EMPTY_RECORD, w, cs)) == w <==> Faithful(w, cs)
  {
    AccountsRestoredIff(w.accounts, cs.accounts);
    SlotsRestoredIff(w.storage, cs.erased, cs.slots);
    FreshRecord(w, cs);
  }

  lemma FreshRecord(w: World, cs: ChangeSet)
    ensures RecordAfter(EMPTY_RECORD, w, cs)
         == UndoRecord(Initials(cs.accounts), SlotsOf(w.storage, cs.erased) + Initials(cs.slots))
  {
    PlusEmpty(Initials(cs.accounts));
    PlusEmpty(SlotsOf(w.storage, cs.erased));
  }

  lemma PlusEmpty<K, V>(m: map<K, V>)
    ensures map[] + m == m == m + map[]
  {
  }

  lemma OverlayOne<K, V>(m: map<K, V>, over: map<K, Option<V>>, k: K)
    requires k in over
    ensures Overlay(Put(m, k, over[k]), over - {k}) == Overlay(m, over)
  {
  }

  lemma OverlaySlotsOne(m: map<Slot, nat>, over: map<Slot, nat>, s: Slot)
    requires s in over
    ensures OverlaySlots(WriteSlot(m, s, over[s]), over - {s}) == OverlaySlots(m, over)
  {
  }

  lemma OverlayNothing<K, V>(m: map<K, V>)
    ensures Overlay(m, map[]) == m
  {
  }

  lemma OverlaySlotsNothing(m: map<Slot, nat>)
    ensures OverlaySlots(m, map[]) == m
  {
  }

  lemma ChangesMinus<K, T>(changes: map<K, Change<T>>, k: K)
    requires k in changes
    ensures Currents(changes - {k}) == Currents(changes) - {k}
    ensures Initials(changes - {k}) == Initials(changes) - {k}
  {
  }

  lemma PlusOne<K, V>(m: map<K, V>, over: map<K, V>, k: K)
    requires k in over
    ensures m[k := over[k]] + (over - {k}) == m + over
  {
  }

  lemma NoChanges<K, T>(changes: map<K, Change<T>>)
    requires changes == map[]
    ensures Currents(changes) == map[] && Initials(changes) == map[]
  {
  }

  /** In-memory state: the part of the database that executing and unwinding blocks changes. */
  class InMemoryState {
    var accounts: map<Address, Account>
    var storage: map<Slot, nat>
    var undo: map<nat, UndoRecord>

    ghost function CurrentWorld(): World
      reads this
    {
      World(accounts, storage)
    }

    constructor (world: World)
      ensures CurrentWorld() == world && undo == map[]
    {
      accounts, storage, undo := world.accounts, world.storage, map[];
    }

    /** The undo record of a block; nothing to undo when there is none. */
    function RecordOf(number: nat): (r: UndoRecord)
      reads this
    {
      if number in undo then undo[number] else EMPTY_RECORD
    }

    /** Every touched account goes back to its recorded value, then every touched slot;
        the record is dropped. */
    method UnwindStateChanges(number: nat)
      modifies this
      ensures undo == old(undo) - {number}
      ensures CurrentWorld() == old(Restore(CurrentWorld(), RecordOf(number)))
    {
      var rec := RecordOf(number);
      undo := undo - {number};
      RestoreAccounts(rec.accounts);
      RestoreSlots(rec.slots);
    }

    method RestoreAccounts(initial: map<Address, Option<Account>>)
      modifies this`accounts
      ensures accounts == Overlay(old(accounts), initial)
    {
      var pending := initial;
      while pending != map[]
        invariant Overlay(accounts, pending) == Overlay(old(accounts), initial)
        decreases |pending|
      {
        var a :| a in pending;
        var rest := pending - {a};
        OverlayOne(accounts, pending, a);
        accounts := Put(accounts, a, pending[a]);
        pending := rest;
      }
      OverlayNothing(accounts);
    }

    method RestoreSlots(initial: map<Slot, nat>)
      modifies this`storage
      ensures storage == OverlaySlots(old(storage), initial)
    {
      var pending := initial;
      while pending != map[]
        invariant OverlaySlots(storage, pending) == OverlaySlots(old(storage), initial)
        decreases |pending|
      {
        var s :| s in pending;
        var rest := pending - {s};
        OverlaySlotsOne(storage, pending, s);
        storage := WriteSlot(storage, s, pending[s]);
        pending := rest;
      }
      OverlaySlotsNothing(storage);
    }

    /** Writes a block's changes and records the values they replace: wiped storage first,
        then slots, then accounts. */
    method WriteToDb(number: nat, cs: ChangeSet)
      modifies this
      ensures undo == old(undo)[number := RecordAfter(old(RecordOf(number)), old(CurrentWorld()), cs)]
      ensures CurrentWorld() == Commit(old(CurrentWorld()), cs)
    {
      hide Overlay, OverlaySlots, Currents, Initials, SlotsOf, SlotsOutside;
      var rec := RecordOf(number);
      undo := undo[number := rec.(slots := rec.slots + SlotsOf(storage, cs.erased))];
      storage := SlotsOutside(storage, cs.erased);
      UpdateSlots(number, cs.slots);
      UpdateAccounts(number, cs.accounts);
    }

    method UpdateSlots(number: nat, changes: map<Slot, Change<nat>>)
      requires number in undo
      modifies this`storage, this`undo
      ensures storage == OverlaySlots(old(storage), Currents(changes))
      ensures undo == old(undo)[number := old(undo)[number].(slots := old(undo)[number].slots + Initials(changes))]
    {
      var pending := changes;
      var rec := undo[number];
      while pending != map[]
        invariant OverlaySlots(storage, Currents(pending)) == OverlaySlots(old(storage), Currents(changes))
        invariant rec.accounts == old(undo)[number].accounts
        invariant rec.slots + Initials(pending) == old(undo)[number].slots + Initials(changes)
        invariant undo == old(undo)
        decreases |pending|
      {
        var s :| s in pending;
        OverlaySlotsOne(storage, Currents(pending), s);
        PlusOne(rec.slots, Initials(pending), s);
        ChangesMinus(pending, s);
        rec := rec.(slots := rec.slots[s := pending[s].initial]);
        storage := WriteSlot(storage, s, pending[s].current);
        pending := pending - {s};
      }
      NoChanges(pending);
      OverlaySlotsNothing(storage);
      PlusEmpty(rec.slots);
      undo := undo[number := rec];
    }

    method UpdateAccounts(number: nat, changes: map<Address, Change<Option<Account>>>)
      requires number in undo
      modifies this`accounts, this`undo
      ensures accounts == Overlay(old(accounts), Currents(changes))
      ensures undo ==
              old(undo)[number := old(undo)[number].(accounts := old(undo)[number].accounts + Initials(changes))]
    {
      var pending := changes;
      var rec := undo[number];
      while pending != map[]
        invariant Overlay(accounts, Currents(pending)) == Overlay(old(accounts), Currents(changes))
        invariant rec.slots == old(undo)[number].slots
        invariant rec.accounts + Initials(pending) == old(undo)[number].accounts + Initials(changes)
        invariant undo == old(undo)
        decreases |pending|
      {
        var a :| a in pending;
        OverlayOne(accounts, Currents(pending), a);
        PlusOne(rec.accounts, Initials(pending), a);
        ChangesMinus(pending, a);
        rec := rec.(accounts := rec.accounts[a := pending[a].initial]);
        accounts := Put(accounts, a, pending[a].current);
        pending := pending - {a};
      }
      NoChanges(pending);
      OverlayNothing(accounts);
      PlusEmpty(rec.accounts);
      undo := undo[number := rec];
    }
  }
}
