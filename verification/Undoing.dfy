// Undoing any number of blocks: exactly when their undo records, applied newest first,
// give back the world before all of them.
module Undoing {
  import opened WorldState

  /** The world after the changes of several blocks, oldest first. */
  ghost function CommitAll(w: World, css: seq<ChangeSet>): World
    decreases |css|
  {
    if css == [] then w else CommitAll(Commit(w, css[0]), css[1..])
  }

  /** The undo records those blocks leave behind. */
  ghost function RecordsOf(w: World, css: seq<ChangeSet>): seq<UndoRecord>
    decreases |css|
  {
    if css == [] then []
    else [RecordAfter(EMPTY_RECORD, w, css[0])] + RecordsOf(Commit(w, css[0]), css[1..])
  }

  /** The world after the records are applied, newest first. */
  ghost function Undone(w: World, records: seq<UndoRecord>): World {
    if records == [] then w else Restore(Undone(w, records[1..]), records[0])
  }

  /** The first block that mentions the account names the value it had before all of them. */
  ghost predicate AccountRight(w: World, css: seq<ChangeSet>, a: Address)
    decreases |css|
  {
    css == [] ||
    if a in css[0].accounts then css[0].accounts[a].initial == Get(w.accounts, a)
    else AccountRight(Commit(w, css[0]), css[1..], a)
  }

  /** The same for a slot; a block that wipes a slot without writing it records it rightly. */
  ghost predicate SlotRight(w: World, css: seq<ChangeSet>, s: Slot)
    decreases |css|
  {
    css == [] ||
    if s in css[0].slots then css[0].slots[s].initial == ReadSlot(w.storage, s)
    else s in SlotsOf(w.storage, css[0].erased) || SlotRight(Commit(w, css[0]), css[1..], s)
  }

  ghost predicate FirstMentionsRight(w: World, css: seq<ChangeSet>) {
    (forall a :: AccountRight(w, css, a)) && (forall s :: SlotRight(w, css, s))
  }

  lemma RestoreAt(w: World, rec: UndoRecord, a: Address, s: Slot)
    ensures Get(Restore(w, rec).accounts, a) == if a in rec.accounts then rec.accounts[a] else Get(w.accounts, a)
    ensures ReadSlot(Restore(w, rec).storage, s) == if s in rec.slots then rec.slots[s] else ReadSlot(w.storage, s)
  {
  }

  /** What a block's record does not mention, the block does not change. */
  lemma UnmentionedUnchanged(w: World, cs: ChangeSet, a: Address, s: Slot)
    ensures var rec := RecordAfter(EMPTY_RECORD, w, cs);
            && (a in rec.accounts <==> a in cs.accounts)
            && (a in rec.accounts ==> rec.accounts[a] == cs.accounts[a].initial)
            && (a !in rec.accounts ==> Get(Commit(w, cs).accounts, a) == Get(w.accounts, a))
            && (s in rec.slots <==> s in cs.slots || s in SlotsOf(w.storage, cs.erased))
            && (s in cs.slots ==> rec.slots[s] == cs.slots[s].initial)
            && (s in rec.slots && s !in cs.slots ==> rec.slots[s] == ReadSlot(w.storage, s))
            && (s !in rec.slots ==> ReadSlot(Commit(w, cs).storage, s) == ReadSlot(w.storage, s))
  {
    FreshRecord(w, cs);
  }

  /** Undoing the blocks brings an account, or a slot, back exactly if its first mention is right. */
  lemma {:induction false} UndoneAt(w: World, css: seq<ChangeSet>, a: Address, s: Slot)
    ensures var back := Undone(CommitAll(w, css), RecordsOf(w, css));
            && (Get(back.accounts, a) == Get(w.accounts, a) <==> AccountRight(w, css, a))
            && (ReadSlot(back.storage, s) == ReadSlot(w.storage, s) <==> SlotRight(w, css, s))
    decreases |css|
  {
    hide Commit, Restore, RecordAfter;
    if css != [] {
      var w1, rest := Commit(w, css[0]), css[1..];
      UndoneAt(w1, rest, a, s);
      UnmentionedUnchanged(w, css[0], a, s);
      var inner := Undone(CommitAll(w1, rest), RecordsOf(w1, rest));
      assert RecordsOf(w, css)[1..] == RecordsOf(w1, rest);
      RestoreAt(inner, RecordAfter(EMPTY_RECORD, w, css[0]), a, s);
    }
  }

  lemma {:induction false} UndoneNoZero(w: World, css: seq<ChangeSet>)
    requires NoZeroSlots(w.storage)
    ensures NoZeroSlots(Undone(CommitAll(w, css), RecordsOf(w, css)).storage)
    decreases |css|
  {
    hide Commit, Restore, RecordAfter, NoZeroSlots;
    if css != [] {
      CommitKeepsNoZero(w, css[0]);
      UndoneNoZero(Commit(w, css[0]), css[1..]);
      assert RecordsOf(w, css)[1..] == RecordsOf(Commit(w, css[0]), css[1..]);
      var inner := Undone(CommitAll(Commit(w, css[0]), css[1..]), RecordsOf(Commit(w, css[0]), css[1..]));
      RestoreKeepsNoZero(inner, RecordAfter(EMPTY_RECORD, w, css[0]));
    }
  }

  lemma SameWorld(v: World, w: World)
    requires NoZeroSlots(v.storage) && NoZeroSlots(w.storage)
    requires forall a :: Get(v.accounts, a) == Get(w.accounts, a)
    requires forall s :: ReadSlot(v.storage, s) == ReadSlot(w.storage, s)
    ensures v == w
  {
    assert forall a :: a in v.accounts <==> Get(v.accounts, a).Some?;
    assert forall a :: a in w.accounts <==> Get(w.accounts, a).Some?;
    forall a | a in v.accounts ensures a in w.accounts && v.accounts[a] == w.accounts[a] {
      assert Get(v.accounts, a) == Get(w.accounts, a);
    }
    forall s ensures s in v.storage <==> s in w.storage {
      assert ReadSlot(v.storage, s) == ReadSlot(w.storage, s);
    }
    forall s | s in v.storage ensures v.storage[s] == w.storage[s] {
      assert ReadSlot(v.storage, s) == ReadSlot(w.storage, s);
    }
    assert v.accounts == w.accounts && v.storage == w.storage;
  }

  /** Undoing any number of blocks, newest first, gives back the world before them exactly
      when, for every account and slot, the first block that mentions it names its value. */
  lemma UndoAllIff(w: World, css: seq<ChangeSet>)
    requires NoZeroSlots(w.storage)
    ensures Undone(CommitAll(w, css), RecordsOf(w, css)) == w <==> FirstMentionsRight(w, css)
  {
    hide Undone, CommitAll, RecordsOf, AccountRight, SlotRight, NoZeroSlots;
    var back := Undone(CommitAll(w, css), RecordsOf(w, css));
    UndoneNoZero(w, css);
    forall a: Address, s: Slot
      ensures Get(back.accounts, a) == Get(w.accounts, a) <==> AccountRight(w, css, a)
      ensures ReadSlot(back.storage, s) == ReadSlot(w.storage, s) <==> SlotRight(w, css, s)
    {
      UndoneAt(w, css, a, s);
    }
    var nobody: Address, nothing: Slot := 0, (0, 0);
    if FirstMentionsRight(w, css) {
      forall a ensures Get(back.accounts, a) == Get(w.accounts, a) {
        UndoneAt(w, css, a, nothing);
      }
      forall s ensures ReadSlot(back.storage, s) == ReadSlot(w.storage, s) {
        UndoneAt(w, css, nobody, s);
      }
      SameWorld(back, w);
    }
    if back == w {
      forall a ensures AccountRight(w, css, a) {
        UndoneAt(w, css, a, nothing);
      }
      forall s ensures SlotRight(w, css, s) {
        UndoneAt(w, css, nobody, s);
      }
    }
  }

  /** If every block names the right values, every first mention is right. */
  ghost predicate AllFaithful(w: World, css: seq<ChangeSet>)
    decreases |css|
  {
    css == [] || (Faithful(w, css[0]) && AllFaithful(Commit(w, css[0]), css[1..]))
  }

  lemma {:induction false} FaithfulAreRight(w: World, css: seq<ChangeSet>)
    requires AllFaithful(w, css)
    ensures FirstMentionsRight(w, css)
    decreases |css|
  {
    hide Commit;
    if css != [] {
      FaithfulAreRight(Commit(w, css[0]), css[1..]);
      forall a ensures AccountRight(w, css, a) {
        assert AccountRight(Commit(w, css[0]), css[1..], a);
      }
      forall s ensures SlotRight(w, css, s) {
        assert SlotRight(Commit(w, css[0]), css[1..], s);
      }
    }
  }

  // ----- One block more at the end -----

  lemma {:induction false} CommitAllSnoc(w: World, css: seq<ChangeSet>, cs: ChangeSet)
    ensures CommitAll(w, css + [cs]) == Commit(CommitAll(w, css), cs)
    ensures RecordsOf(w, css + [cs]) == RecordsOf(w, css) + [RecordAfter(EMPTY_RECORD, CommitAll(w, css), cs)]
    ensures AllFaithful(w, css + [cs]) <==> AllFaithful(w, css) && Faithful(CommitAll(w, css), cs)
    decreases |css|
  {
    hide Commit, RecordAfter, Faithful;
    if css == [] {
      assert [cs][1..] == [];
    } else {
      CommitAllSnoc(Commit(w, css[0]), css[1..], cs);
      assert (css + [cs])[1..] == css[1..] + [cs];
    }
  }

  lemma {:induction false} UndoneSnoc(w: World, records: seq<UndoRecord>, rec: UndoRecord)
    ensures Undone(w, records + [rec]) == Undone(Restore(w, rec), records)
    decreases |records|
  {
    hide Restore;
    if records == [] {
      assert [rec][1..] == [];
    } else {
      UndoneSnoc(w, records[1..], rec);
      assert (records + [rec])[1..] == records[1..] + [rec];
    }
  }
}
