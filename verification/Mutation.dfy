// A write buffer over a parent database transaction: reads see the pending changes, and
// committing makes the parent agree with what was read.
module Mutation {
  import opened ByteStrings
  import opened Wrappers
  import opened WorldState
  import opened SortedTables

  type TableName = string

  datatype Changes = Changes(insert: set<Bytes>, delete: set<Bytes>)

  const NO_CHANGES := Changes({}, {})

  /** Plain tables, tables with several values per key, and sequence counters. */
  datatype Database = Database(
    simple: map<TableName, map<Bytes, Bytes>>,
    dup: map<TableName, seq<Row>>,
    sequence: map<TableName, nat>)

  function ValueOf(tables: map<TableName, map<Bytes, Bytes>>, t: TableName, k: Bytes): (r: Option<Bytes>) {
    if t in tables then Get(tables[t], k) else None
  }

  function RowsOf(tables: map<TableName, seq<Row>>, t: TableName): (r: seq<Row>) {
    if t in tables then tables[t] else []
  }

  // ----- One cell of the database under the buffer -----

  datatype CellOp = Set(value: Bytes) | DeleteKey | DeletePair(value: Bytes)

  /** A plain cell's buffer entry: absent, or the pending value or deletion. */
  type Pending = Option<Option<Bytes>>

  function SimpleView(parent: Option<Bytes>, p: Pending): (r: Option<Bytes>) {
    if p.Some? then p.value else parent
  }

  function StepSimple(p: Pending, op: CellOp): (r: Pending) {
    match op
    case Set(v) => Some(Some(v))
    case DeleteKey => Some(None)
    case DeletePair(v) => if p == Some(Some(v)) then Some(None) else p
  }

  /** What the operation does to a cell of a database without a buffer. */
  function DirectSimple(current: Option<Bytes>, op: CellOp): (r: Option<Bytes>) {
    match op
    case Set(v) => Some(v)
    case DeleteKey => None
    case DeletePair(v) => if current == Some(v) then None else current
  }

  /** On plain tables the buffer behaves like the database except that deleting a pair whose
      value is only in the parent is lost. */
  lemma SimpleStepIff(parent: Option<Bytes>, p: Pending, op: CellOp)
    ensures SimpleView(parent, StepSimple(p, op)) == DirectSimple(SimpleView(parent, p), op)
            <==> !(op.DeletePair? && p.None? && parent == Some(op.value))
  {
  }

  ghost function DupView(parent: set<Bytes>, c: Changes): set<Bytes> {
    parent - c.delete + c.insert
  }

  ghost function StepDup(parent: set<Bytes>, c: Changes, op: CellOp): Changes {
    match op
    case Set(v) => Changes(c.insert + {v}, c.delete - {v})
    case DeleteKey => Changes({}, parent)
    case DeletePair(v) => Changes(c.insert - {v}, c.delete + {v})
  }

  ghost function DirectDup(current: set<Bytes>, op: CellOp): set<Bytes> {
    match op
    case Set(v) => current + {v}
    case DeleteKey => {}
    case DeletePair(v) => current - {v}
  }

  /** On tables with several values per key the buffer behaves like the database. */
  lemma DupStep(parent: set<Bytes>, c: Changes, op: CellOp)
    ensures DupView(parent, StepDup(parent, c, op)) == DirectDup(DupView(parent, c), op)
  {
  }

  // ----- Any sequence of operations on a cell -----

  function RunSimple(p: Pending, ops: seq<CellOp>): (r: Pending)
    decreases |ops|
  {
    if ops == [] then p else RunSimple(StepSimple(p, ops[0]), ops[1..])
  }

  function DirectRunSimple(current: Option<Bytes>, ops: seq<CellOp>): (r: Option<Bytes>)
    decreases |ops|
  {
    if ops == [] then current else DirectRunSimple(DirectSimple(current, ops[0]), ops[1..])
  }

  ghost predicate OnlyPairDeletes(ops: seq<CellOp>) {
    forall i | 0 <= i < |ops| :: ops[i].DeletePair?
  }

  ghost predicate DeletesPair(ops: seq<CellOp>, v: Bytes) {
    exists i :: 0 <= i < |ops| && ops[i] == DeletePair(v)
  }

  /** Once the buffer has an entry it behaves like the database. */
  lemma {:induction false} EntryRun(parent: Option<Bytes>, p: Pending, ops: seq<CellOp>)
    requires p.Some?
    ensures SimpleView(parent, RunSimple(p, ops)) == DirectRunSimple(p.value, ops)
    decreases |ops|
  {
    if ops != [] {
      EntryRun(parent, StepSimple(p, ops[0]), ops[1..]);
    }
  }

  /** A lost deletion is made good by the next write or deletion of the key, and only so. */
  lemma {:induction false} LostRun(v: Bytes, ops: seq<CellOp>)
    ensures SimpleView(Some(v), RunSimple(None, ops)) == DirectRunSimple(None, ops) <==> !OnlyPairDeletes(ops)
    decreases |ops|
  {
    if ops != [] {
      if ops[0].DeletePair? {
        LostRun(v, ops[1..]);
        assert forall i | 0 < i < |ops| :: ops[i] == ops[1..][i - 1];
      } else {
        EntryRun(Some(v), StepSimple(None, ops[0]), ops[1..]);
      }
    }
  }

  /** A run on a cell of a plain table ends as it would without the buffer, unless all it
      does is delete pairs, one of them a pair that only the parent holds. */
  lemma {:induction false} SimpleRunIff(parent: Option<Bytes>, p: Pending, ops: seq<CellOp>)
    ensures SimpleView(parent, RunSimple(p, ops)) == DirectRunSimple(SimpleView(parent, p), ops)
            <==> !(p.None? && OnlyPairDeletes(ops) && parent.Some? && DeletesPair(ops, parent.value))
    decreases |ops|
  {
    if p.Some? {
      EntryRun(parent, p, ops);
    } else if ops != [] {
      if !ops[0].DeletePair? {
        EntryRun(parent, StepSimple(p, ops[0]), ops[1..]);
      } else {
        assert forall i | 0 < i < |ops| :: ops[i] == ops[1..][i - 1];
        if parent == Some(ops[0].value) {
          LostRun(parent.value, ops[1..]);
        } else {
          SimpleRunIff(parent, p, ops[1..]);
        }
      }
    }
  }

  ghost function RunDup(parent: set<Bytes>, c: Changes, ops: seq<CellOp>): Changes
    decreases |ops|
  {
    if ops == [] then c else RunDup(parent, StepDup(parent, c, ops[0]), ops[1..])
  }

  ghost function DirectRunDup(current: set<Bytes>, ops: seq<CellOp>): set<Bytes>
    decreases |ops|
  {
    if ops == [] then current else DirectRunDup(DirectDup(current, ops[0]), ops[1..])
  }

  lemma {:induction false} DupRunAgrees(parent: set<Bytes>, c: Changes, ops: seq<CellOp>)
    ensures DupView(parent, RunDup(parent, c, ops)) == DirectRunDup(DupView(parent, c), ops)
    decreases |ops|
  {
    if ops != [] {
      DupStep(parent, c, ops[0]);
      DupRunAgrees(parent, StepDup(parent, c, ops[0]), ops[1..]);
    }
  }

  // ----- Helpers on finite sets -----

  /** The smaller of a candidate and the least element so far. */
  function Smaller(r: Option<Bytes>, x: Bytes): (o: Option<Bytes>) {
    if r.None? || Leq(x, r.value) then Some(x) else r
  }

  lemma SmallerIsLeast(seen: set<Bytes>, r: Option<Bytes>, x: Bytes)
    requires IsLeast(seen, r)
    ensures IsLeast(seen + {x}, Smaller(r, x))
  {
    LeqReflexive(x);
    if r.Some? {
      LeqTotal(x, r.value);
      forall y | y in seen && Leq(x, r.value) ensures Leq(x, y) {
        LeqTransitive(x, r.value, y);
      }
    }
  }

  method LeastOf(s: set<Bytes>) returns (r: Option<Bytes>)
    ensures IsLeast(s, r)
  {
    hide IsLeast, Smaller;
    r := None;
    var pending := s;
    assert IsLeast(s - pending, r) by { assert s - pending == {}; LeastOfNothing(); }
    while pending != {}
      invariant pending <= s
      invariant IsLeast(s - pending, r)
      decreases |pending|
    {
      var x :| x in pending;
      SmallerIsLeast(s - pending, r, x);
      assert s - (pending - {x}) == s - pending + {x};
      r := Smaller(r, x);
      pending := pending - {x};
    }
    assert s - {} == s;
  }

  lemma OverlayLookups(m: map<Bytes, Bytes>, over: map<Bytes, Option<Bytes>>)
    ensures forall k :: Get(Overlay(m, over), k) == if k in over then over[k] else Get(m, k)
  {
  }

  lemma UnchangedView(rows: seq<Row>)
    ensures forall k :: DupView(Values(rows, k), NO_CHANGES) == Values(rows, k)
  {
  }

  lemma EmptyIsSorted()
    ensures Sorted([])
  {
  }

  lemma LeastOfNothing()
    ensures IsLeast({}, None)
  {
  }

  // ----- The buffer -----

  class MutationBuffer {
    const parent: Database
    const isDupSort: TableName -> bool
    var simple: map<TableName, map<Bytes, Option<Bytes>>>
    var dup: map<TableName, map<Bytes, Changes>>
    var sequenceIncrement: map<TableName, nat>

    /** Buckets are filed by kind of table, and the parent's rows are in order. */
    ghost predicate Valid()
      reads this
    {
      && (forall t <- simple :: !isDupSort(t))
      && (forall t <- dup :: isDupSort(t))
      && (forall t <- parent.dup :: Sorted(parent.dup[t]))
    }

    constructor (parent: Database, isDupSort: TableName -> bool)
      requires forall t <- parent.dup :: Sorted(parent.dup[t])
      ensures Valid() && this.parent == parent && this.isDupSort == isDupSort
      ensures simple == map[] && dup == map[] && sequenceIncrement == map[]
    {
      this.parent, this.isDupSort := parent, isDupSort;
      simple, dup, sequenceIncrement := map[], map[], map[];
    }

    function Rows(t: TableName): (r: seq<Row>) {
      RowsOf(parent.dup, t)
    }

    function ParentValue(t: TableName, k: Bytes): (r: Option<Bytes>) {
      ValueOf(parent.simple, t, k)
    }

    function PendingAt(t: TableName, k: Bytes): (r: Pending)
      reads this
    {
      if t in simple then Get(simple[t], k) else None
    }

    function ChangesAt(t: TableName, k: Bytes): (r: Changes)
      reads this
    {
      if t in dup && k in dup[t] then dup[t][k] else NO_CHANGES
    }

    /** What a key of a plain table holds, pending changes included. */
    ghost function ViewSimple(t: TableName, k: Bytes): Option<Bytes>
      reads this
    {
      SimpleView(ParentValue(t, k), PendingAt(t, k))
    }

    /** What a key of a table with several values holds, pending changes included. */
    ghost function ViewDup(t: TableName, k: Bytes): set<Bytes>
      reads this
    {
      DupView(Values(Rows(t), k), ChangesAt(t, k))
    }

    /** Reads a key: its value, or its least value when it may hold several. */
    method Read(t: TableName, k: Bytes) returns (r: Option<Bytes>)
      requires Valid()
      ensures !isDupSort(t) ==> r == ViewSimple(t, k)
      ensures isDupSort(t) ==> IsLeast(ViewDup(t, k), r)
    {
      if t in simple {
        if k in simple[t] {
          return simple[t][k];
        }
        return ParentValue(t, k);
      }
      if t in dup && k in dup[t] {
        r := LeastVisible(Rows(t), k, dup[t][k]);
        return;
      }
      if isDupSort(t) {
        assert ViewDup(t, k) == Values(Rows(t), k);
        r := GetFirst(Rows(t), k);
      } else {
        r := ParentValue(t, k);
      }
    }

    method Write(t: TableName, k: Bytes, v: Bytes)
      requires Valid()
      modifies this`simple, this`dup
      ensures Valid() && Stepped(t, k, Set(v))
    {
      if isDupSort(t) {
        var c := ChangesAt(t, k);
        PutChanges(t, k, Changes(c.insert + {v}, c.delete - {v}));
      } else {
        PutPending(t, k, Some(v));
      }
    }

    method Delete(t: TableName, k: Bytes)
      requires Valid()
      modifies this`simple, this`dup
      ensures Valid() && Stepped(t, k, DeleteKey)
    {
      if isDupSort(t) {
        var values := AllValues(Rows(t), k);
        PutChanges(t, k, Changes({}, values));
      } else {
        PutPending(t, k, None);
      }
    }

    method DeleteValue(t: TableName, k: Bytes, v: Bytes)
      requires Valid()
      modifies this`simple, this`dup
      ensures Valid() && Stepped(t, k, DeletePair(v))
    {
      if isDupSort(t) {
        var c := ChangesAt(t, k);
        PutChanges(t, k, Changes(c.insert - {v}, c.delete + {v}));
      } else {
        var bucket := if t in simple then simple[t] else map[];
        if k in bucket && bucket[k] == Some(v) {
          bucket := bucket[k := None];
        }
        simple := simple[t := bucket];
      }
    }

    /** Writes every pending change to the parent. */
    method Commit() returns (db: Database)
      requires Valid()
      ensures forall u <- db.dup :: Sorted(db.dup[u])
      ensures forall t, k | !isDupSort(t) ::
                ValueOf(db.simple, t, k) == ViewSimple(t, k)
      ensures forall t, k | isDupSort(t) :: Values(RowsOf(db.dup, t), k) == ViewDup(t, k)
      ensures forall t :: (if t in db.sequence then db.sequence[t] else 0) == SequenceAt(t)
    {
      var tables := CommitSimple();
      var rows := CommitDup();
      var sequence := parent.sequence;
      var pending := sequenceIncrement.Keys;
      while pending != {}
        invariant pending <= sequenceIncrement.Keys
        invariant forall t :: (if t in sequence then sequence[t] else 0) ==
                    (if t in parent.sequence then parent.sequence[t] else 0)
                    + (if t in sequenceIncrement && t !in pending then sequenceIncrement[t] else 0)
        decreases |pending|
      {
        var t :| t in pending;
        if sequenceIncrement[t] > 0 {
          sequence := sequence[t := (if t in sequence then sequence[t] else 0) + sequenceIncrement[t]];
        }
        pending := pending - {t};
      }
      db := Database(tables, rows, sequence);
    }

    method CommitSimple() returns (tables: map<TableName, map<Bytes, Bytes>>)
      requires Valid()
      ensures forall t, k | !isDupSort(t) :: ValueOf(tables, t, k) == ViewSimple(t, k)
    {
      hide Overlay;
      tables := parent.simple;
      var pending := simple.Keys;
      while pending != {}
        invariant pending <= simple.Keys
        invariant forall t, k | t !in simple || t in pending :: ValueOf(tables, t, k) == ParentValue(t, k)
        invariant forall t, k | t in simple && t !in pending :: ValueOf(tables, t, k) == ViewSimple(t, k)
        decreases |pending|
      {
        var t :| t in pending;
        var before := if t in parent.simple then parent.simple[t] else map[];
        var table := CommitBucket(before, simple[t]);
        OverlayLookups(before, simple[t]);
        tables := tables[t := table];
        pending := pending - {t};
      }
    }

    method CommitDup() returns (tables: map<TableName, seq<Row>>)
      requires Valid()
      ensures forall u <- tables :: Sorted(tables[u])
      ensures forall t, k | isDupSort(t) :: Values(RowsOf(tables, t), k) == ViewDup(t, k)
    {
      hide Sorted, Values, DupView;
      tables := parent.dup;
      var pending := dup.Keys;
      while pending != {}
        invariant pending <= dup.Keys && forall u <- tables :: Sorted(tables[u])
        invariant forall t | t !in dup || t in pending :: RowsOf(tables, t) == Rows(t)
        invariant forall t, k | t in dup && t !in pending :: Values(RowsOf(tables, t), k) == ViewDup(t, k)
        decreases |pending|
      {
        var t :| t in pending;
        EmptyIsSorted();
        var rows := CommitRows(Rows(t), dup[t]);
        assert forall k :: Values(rows, k) == ViewDup(t, k) by { UnchangedView(Rows(t)); }
        tables := tables[t := rows];
        pending := pending - {t};
      }
      forall t, k | isDupSort(t) ensures Values(RowsOf(tables, t), k) == ViewDup(t, k) {
        if t !in dup {
          UnchangedView(Rows(t));
        }
      }
    }

    /** Reading and then committing gives what committing and then reading gives. */
    method ReadThenCommit(t: TableName, k: Bytes) returns (before: Option<Bytes>, after: Option<Bytes>)
      requires Valid()
      ensures before == after
    {
      before := Read(t, k);
      var db := Commit();
      after := ReadCommitted(db, isDupSort, t, k);
      if isDupSort(t) {
        LeastIsUnique(ViewDup(t, k), before, after);
      }
    }

    ghost function SequenceAt(t: TableName): nat
      reads this
    {
      (if t in parent.sequence then parent.sequence[t] else 0)
      + (if t in sequenceIncrement then sequenceIncrement[t] else 0)
    }

    method ReadSequence(t: TableName) returns (n: nat)
      ensures n == SequenceAt(t)
    {
      n := (if t in parent.sequence then parent.sequence[t] else 0)
           + (if t in sequenceIncrement then sequenceIncrement[t] else 0);
    }

    /** Raises a counter. The returned number is the increment pending so far, which is the
        counter's previous value exactly when the parent's counter is zero. */
    method IncrementSequence(t: TableName, amount: nat) returns (n: nat)
      modifies this`sequenceIncrement
      ensures forall u :: SequenceAt(u) == old(SequenceAt(u)) + if u == t then amount else 0
      ensures n == old(SequenceAt(t)) <==> t !in parent.sequence || parent.sequence[t] == 0
    {
      n := if t in sequenceIncrement then sequenceIncrement[t] else 0;
      sequenceIncrement := sequenceIncrement[t := n + amount];
    }

    /** Exactly one cell changed, as the operation says. */
    twostate predicate Stepped(t: TableName, k: Bytes, op: CellOp)
      reads this
    {
      && (forall u, j :: PendingAt(u, j) ==
            if u == t && j == k && !isDupSort(t) then StepSimple(old(PendingAt(u, j)), op) else old(PendingAt(u, j)))
      && (forall u, j :: ChangesAt(u, j) ==
            if u == t && j == k && isDupSort(t) then StepDup(Values(Rows(t), k), old(ChangesAt(u, j)), op)
            else old(ChangesAt(u, j)))
    }

    method PutPending(t: TableName, k: Bytes, o: Option<Bytes>)
      requires Valid() && !isDupSort(t)
      modifies this`simple
      ensures Valid()
      ensures forall u, j :: PendingAt(u, j) == if u == t && j == k then Some(o) else old(PendingAt(u, j))
    {
      var bucket := if t in simple then simple[t] else map[];
      simple := simple[t := bucket[k := o]];
    }

    method PutChanges(t: TableName, k: Bytes, c: Changes)
      requires Valid() && isDupSort(t)
      modifies this`dup
      ensures Valid()
      ensures forall u, j :: ChangesAt(u, j) == if u == t && j == k then c else old(ChangesAt(u, j))
    {
      var bucket := if t in dup then dup[t] else map[];
      dup := dup[t := bucket[k := c]];
    }
  }

  // ----- Cursor loops -----

  /** The least value of a key among the pending insertions and the parent's values that
      are not deleted, found by walking the parent's rows from the key's first one. */
  method LeastVisible(rows: seq<Row>, k: Bytes, c: Changes) returns (r: Option<Bytes>)
    requires Sorted(rows)
    ensures IsLeast(DupView(Values(rows, k), c), r)
  {
    var first := LeastOf(c.insert);
    var start := SeekExact(rows, k);
    var i := start;
    while i < |rows| && rows[i].key == k
      invariant start <= i <= |rows|
      invariant forall j | 0 <= j < start :: rows[j].key != k
      invariant forall j | start <= j < i :: rows[j].key == k && rows[j].value in c.delete
    {
      var parentValue := rows[i].value;
      if first.Some? && Less(first.value, parentValue) {
        InsertionIsLeast(rows, k, c, i, first.value);
        return first;
      }
      if parentValue !in c.delete {
        ParentIsLeast(rows, k, c, i, first);
        return Some(parentValue);
      }
      i := i + 1;
    }
    NothingLeft(rows, k, c, start, i);
    return first;
  }

  lemma InsertionIsLeast(rows: seq<Row>, k: Bytes, c: Changes, i: nat, x: Bytes)
    requires Sorted(rows) && i < |rows| && rows[i].key == k && IsLeast(c.insert, Some(x)) && Less(x, rows[i].value)
    requires forall j | 0 <= j < i :: rows[j].key == k ==> rows[j].value in c.delete
    ensures IsLeast(DupView(Values(rows, k), c), Some(x))
  {
    forall y | y in DupView(Values(rows, k), c) ensures Leq(x, y) {
      if y !in c.insert {
        ValuesMember(rows, k, y);
        var j :| 0 <= j < |rows| && rows[j] == Row(k, y);
        LaterIsLarger(rows, i, j);
        LeqTransitive(x, rows[i].value, y);
      }
    }
  }

  lemma ParentIsLeast(rows: seq<Row>, k: Bytes, c: Changes, i: nat, first: Option<Bytes>)
    requires Sorted(rows) && i < |rows| && rows[i].key == k && rows[i].value !in c.delete
    requires IsLeast(c.insert, first) && (first.Some? ==> !Less(first.value, rows[i].value))
    requires forall j | 0 <= j < i :: rows[j].key == k ==> rows[j].value in c.delete
    ensures IsLeast(DupView(Values(rows, k), c), Some(rows[i].value))
  {
    var x := rows[i].value;
    ValuesMember(rows, k, x);
    forall y | y in DupView(Values(rows, k), c) ensures Leq(x, y) {
      if y in c.insert {
        LeqTotal(x, first.value);
        LeqReflexive(x);
        LeqTransitive(x, first.value, y);
      } else {
        ValuesMember(rows, k, y);
        var j :| 0 <= j < |rows| && rows[j] == Row(k, y);
        LaterIsLarger(rows, i, j);
      }
    }
  }

  lemma NothingLeft(rows: seq<Row>, k: Bytes, c: Changes, start: nat, i: nat)
    requires Sorted(rows) && start <= i <= |rows| && (i < |rows| ==> rows[i].key != k)
    requires start < |rows| ==> rows[start].key == k
    requires forall j | 0 <= j < start :: rows[j].key != k
    requires forall j | start <= j < i :: rows[j].key == k && rows[j].value in c.delete
    ensures Values(rows, k) <= c.delete
    ensures DupView(Values(rows, k), c) == c.insert
  {
    forall y | y in Values(rows, k) ensures y in c.delete {
      ValuesMember(rows, k, y);
      var j :| 0 <= j < |rows| && rows[j] == Row(k, y);
      if i <= j {
        KeyIsPassed(rows, k, start, i, j);
      }
    }
  }

  /** All the values of a key, collected with a cursor. */
  method AllValues(rows: seq<Row>, k: Bytes) returns (values: set<Bytes>)
    requires Sorted(rows)
    ensures values == Values(rows, k)
  {
    var start := SeekExact(rows, k);
    var i := start;
    values := {};
    while i < |rows| && rows[i].key == k
      invariant start <= i <= |rows|
      invariant forall j | start <= j < i :: rows[j].key == k && rows[j].value in values
      invariant values <= Values(rows, k)
    {
      ValuesMember(rows, k, rows[i].value);
      values := values + {rows[i].value};
      i := i + 1;
    }
    NothingLeft(rows, k, Changes({}, values), start, i);
  }

  // ----- Committing -----

  /** Puts and deletes the pending values of one plain table. */
  method CommitBucket(table: map<Bytes, Bytes>, bucket: map<Bytes, Option<Bytes>>) returns (r: map<Bytes, Bytes>)
    ensures r == Overlay(table, bucket)
  {
    r := table;
    var pending := bucket;
    while pending != map[]
      invariant Overlay(r, pending) == Overlay(table, bucket)
      decreases |pending|
    {
      var k :| k in pending;
      OverlayOne(r, pending, k);
      r := Put(r, k, pending[k]);
      pending := pending - {k};
    }
    OverlayNothing(r);
  }

  /** Same rows except that the key k holds exactly the given values. */
  ghost predicate Replaced(rows: seq<Row>, r: seq<Row>, k: Bytes, values: set<Bytes>) {
    forall row :: row in r <==> if row.key == k then row.value in values else row in rows
  }

  /** Deletes a key's deleted values, then puts its inserted ones. */
  method CommitChanges(rows: seq<Row>, k: Bytes, c: Changes) returns (r: seq<Row>)
    requires Sorted(rows)
    ensures Sorted(r) && Replaced(rows, r, k, DupView(Values(rows, k), c))
  {
    hide Sorted, DeleteRow, InsertRow;
    r := rows;
    var pending := c.delete;
    while pending != {}
      invariant pending <= c.delete && Sorted(r)
      invariant forall row :: row in r <==> row in rows && !(row.key == k && row.value in c.delete - pending)
      decreases |pending|
    {
      var v :| v in pending;
      DeleteRowKeepsSorted(r, Row(k, v));
      r := DeleteRow(r, Row(k, v));
      pending := pending - {v};
    }
    pending := c.insert;
    while pending != {}
      invariant pending <= c.insert && Sorted(r)
      invariant forall row ::
                  row in r <==> (row in rows && !(row.key == k && row.value in c.delete))
                                || (row.key == k && row.value in c.insert - pending)
      decreases |pending|
    {
      var v :| v in pending;
      InsertRowKeepsSorted(r, Row(k, v));
      r := InsertRow(r, Row(k, v));
      pending := pending - {v};
    }
    forall row ensures row in r <==> if row.key == k then row.value in DupView(Values(rows, k), c) else row in rows {
      ValuesMember(rows, k, row.value);
      assert row.key == k ==> row == Row(k, row.value);
    }
  }

  method CommitRows(rows: seq<Row>, bucket: map<Bytes, Changes>) returns (r: seq<Row>)
    requires Sorted(rows)
    ensures Sorted(r)
    ensures forall k :: Values(r, k) == if k in bucket then DupView(Values(rows, k), bucket[k]) else Values(rows, k)
  {
    hide Sorted, Values, DupView;
    r := rows;
    var pending := bucket.Keys;
    while pending != {}
      invariant pending <= bucket.Keys && Sorted(r)
      invariant forall k :: Values(r, k) ==
                  (if k in bucket && k !in pending then DupView(Values(rows, k), bucket[k]) else Values(rows, k))
      decreases |pending|
    {
      var k :| k in pending;
      var next := CommitChanges(r, k, bucket[k]);
      ReplacedValues(r, next, k, DupView(Values(r, k), bucket[k]));
      r := next;
      pending := pending - {k};
    }
  }

  lemma ReplacedValues(rows: seq<Row>, r: seq<Row>, k: Bytes, values: set<Bytes>)
    requires Replaced(rows, r, k, values)
    ensures forall j :: Values(r, j) == if j == k then values else Values(rows, j)
  {
    forall j ensures Values(r, j) == if j == k then values else Values(rows, j) {
      forall v ensures v in Values(r, j) <==> v in (if j == k then values else Values(rows, j)) {
        ValuesMember(r, j, v);
        ValuesMember(rows, j, v);
        assert Row(j, v).key == j;
      }
    }
  }

  /** The value of a key in a committed database. */
  method ReadCommitted(db: Database, isDupSort: TableName -> bool, t: TableName, k: Bytes) returns (r: Option<Bytes>)
    requires forall u <- db.dup :: Sorted(db.dup[u])
    ensures !isDupSort(t) ==> r == ValueOf(db.simple, t, k)
    ensures isDupSort(t) ==> IsLeast(Values(RowsOf(db.dup, t), k), r)
  {
    if isDupSort(t) {
      r := GetFirst(RowsOf(db.dup, t), k);
    } else {
      r := ValueOf(db.simple, t, k);
    }
  }
}
