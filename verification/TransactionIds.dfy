// Block bodies and the transaction ids they own: importing bodies from another database,
// unwinding them, and reading them back.
module TransactionIds {
  import opened Wrappers

  type Hash = nat
  type Tx = seq<nat>

  datatype Body = Body(baseTxId: nat, txAmount: nat, ommers: seq<Hash>)
  datatype BodyRow = BodyRow(block: nat, hash: Hash, body: Body)
  datatype TxRow = TxRow(id: nat, tx: Tx)

  /** A block as it was imported. */
  datatype Imported = Imported(hash: Hash, ommers: seq<Hash>, txs: seq<Tx>)

  // ----- What the tables hold -----

  /** Every transaction, in block order. */
  function AllTxs(blocks: seq<Imported>): (r: seq<Tx>) {
    if blocks == [] then [] else AllTxs(blocks[..|blocks| - 1]) + blocks[|blocks| - 1].txs
  }

  /** Consecutive ids from the given one. */
  function Numbered(first: nat, txs: seq<Tx>): (r: seq<TxRow>)
    ensures |r| == |txs| && forall k | 0 <= k < |txs| :: r[k] == TxRow(first + k, txs[k])
  {
    seq(|txs|, k requires 0 <= k < |txs| => TxRow(first + k, txs[k]))
  }

  function BodyOf(first: nat, before: seq<Imported>, b: Imported): (r: BodyRow) {
    BodyRow(|before|, b.hash, Body(first + |AllTxs(before)|, |b.txs|, b.ommers))
  }

  /** One body per block number from zero, each owning the ids after those before it. */
  function Bodies(first: nat, blocks: seq<Imported>): (r: seq<BodyRow>)
    ensures |r| == |blocks|
  {
    if blocks == [] then []
    else
      var n := |blocks| - 1;
      Bodies(first, blocks[..n]) + [BodyOf(first, blocks[..n], blocks[n])]
  }

  lemma {:induction false} BodyAt(first: nat, blocks: seq<Imported>, i: nat)
    requires i < |blocks|
    ensures Bodies(first, blocks)[i] == BodyOf(first, blocks[..i], blocks[i])
  {
    var n := |blocks| - 1;
    if i < n {
      BodyAt(first, blocks[..n], i);
      assert blocks[..n][..i] == blocks[..i];
    }
  }

  /** The bodies' ranges follow one another without a gap and cover the transaction table. */
  lemma RangesTile(first: nat, blocks: seq<Imported>)
    requires blocks != []
    ensures var bodies, txs := Bodies(first, blocks), Numbered(first, AllTxs(blocks));
      && bodies[0].body.baseTxId == first
      && (forall i | 0 <= i < |bodies| - 1 ::
         bodies[i + 1].body.baseTxId == bodies[i].body.baseTxId + bodies[i].body.txAmount)
      && bodies[|bodies| - 1].body.baseTxId + bodies[|bodies| - 1].body.txAmount == first + |txs|
  {
    BodyAt(first, blocks, 0);
    assert blocks[..0] == [];
    var bodies := Bodies(first, blocks);
    forall i | 0 <= i < |bodies| - 1
      ensures bodies[i + 1].body.baseTxId == bodies[i].body.baseTxId + bodies[i].body.txAmount
    {
      BodyAt(first, blocks, i);
      BodyAt(first, blocks, i + 1);
      TxsUpTo(blocks, i);
    }
    BodyAt(first, blocks, |blocks| - 1);
    TxsUpTo(blocks, |blocks| - 1);
    assert blocks[..|blocks|] == blocks;
  }

  lemma TxsUpTo(blocks: seq<Imported>, i: nat)
    requires i < |blocks|
    ensures AllTxs(blocks[..i + 1]) == AllTxs(blocks[..i]) + blocks[i].txs
  {
    assert blocks[..i + 1][..i] == blocks[..i];
  }

  lemma {:induction false} TxsPrefix(blocks: seq<Imported>, i: nat)
    requires i <= |blocks|
    ensures AllTxs(blocks[..i]) <= AllTxs(blocks)
    decreases |blocks| - i
  {
    if i == |blocks| {
      assert blocks[..i] == blocks;
    } else {
      TxsPrefix(blocks, i + 1);
      TxsUpTo(blocks, i);
    }
  }

  /** Where a block's transactions lie among all of them. */
  lemma TxsOfBlock(blocks: seq<Imported>, i: nat)
    requires i < |blocks|
    ensures var n := |AllTxs(blocks[..i])|;
      n + |blocks[i].txs| <= |AllTxs(blocks)| && AllTxs(blocks)[n..n + |blocks[i].txs|] == blocks[i].txs
  {
    TxsPrefix(blocks, i + 1);
    TxsUpTo(blocks, i);
    var n := |AllTxs(blocks[..i])|;
    assert AllTxs(blocks)[n..n + |blocks[i].txs|] == AllTxs(blocks[..i + 1])[n..];
  }

  // ----- Cursors -----

  /** The position of the first row with at least this id. */
  function SeekTx(txs: seq<TxRow>, id: nat): (r: nat)
    ensures r <= |txs|
    ensures r < |txs| ==> txs[r].id >= id
    ensures forall k | 0 <= k < r :: txs[k].id < id
  {
    if txs == [] || txs[0].id >= id then 0 else 1 + SeekTx(txs[1..], id)
  }

  lemma SeekNumbered(first: nat, txs: seq<Tx>, k: nat)
    requires k <= |txs|
    ensures SeekTx(Numbered(first, txs), first + k) == k
  {
    var rows := Numbered(first, txs);
    var r := SeekTx(rows, first + k);
    assert r < |rows| ==> rows[r].id == first + r;
    assert k < |rows| ==> rows[k].id == first + k;
  }

  function Payloads(rows: seq<TxRow>): (r: seq<Tx>)
    ensures |r| == |rows| && forall k | 0 <= k < |rows| :: r[k] == rows[k].tx
  {
    seq(|rows|, k requires 0 <= k < |rows| => rows[k].tx)
  }

  /** The transactions from an id on, at most so many of them. */
  function ReadTxs(txs: seq<TxRow>, baseTxId: nat, amount: nat): (r: seq<Tx>) {
    if amount == 0 then []
    else
      var start := SeekTx(txs, baseTxId);
      Payloads(txs[start..if start + amount <= |txs| then start + amount else |txs|])
  }

  function FindBody(bodies: seq<BodyRow>, hash: Hash, number: nat): (r: Option<Body>) {
    if bodies == [] then None
    else if bodies[0].block == number && bodies[0].hash == hash then Some(bodies[0].body)
    else FindBody(bodies[1..], hash, number)
  }

  /** A block's transactions and ommers, and its first id. */
  function ReadBase(
    bodies: seq<BodyRow>, txs: seq<TxRow>, hash: Hash, number: nat): (r: Option<(seq<Tx>, seq<Hash>, nat)>)
  {
    match FindBody(bodies, hash, number)
    case None => None
    case Some(body) => Some((ReadTxs(txs, body.baseTxId, body.txAmount), body.ommers, body.baseTxId))
  }

  lemma {:induction false} FindBodyIs(bodies: seq<BodyRow>, hash: Hash, number: nat, from: nat)
    requires forall i | 0 <= i < |bodies| :: bodies[i].block == from + i
    ensures FindBody(bodies, hash, number) ==
      var i := number - from;
      if 0 <= i < |bodies| && bodies[i].hash == hash then Some(bodies[i].body) else None
  {
    if bodies != [] {
      FindBodyIs(bodies[1..], hash, number, from + 1);
    }
  }

  /** Reading a body gives exactly that block's transactions and ommers; reading anything
      else gives nothing. */
  lemma ReadingGivesBlock(first: nat, blocks: seq<Imported>, hash: Hash, number: nat)
    ensures var r := ReadBase(Bodies(first, blocks), Numbered(first, AllTxs(blocks)), hash, number);
      if number < |blocks| && blocks[number].hash == hash then
        r == Some((blocks[number].txs, blocks[number].ommers, first + |AllTxs(blocks[..number])|))
      else r == None
  {
    hide AllTxs, Numbered, SeekTx, Bodies;
    var bodies := Bodies(first, blocks);
    forall i | 0 <= i < |bodies| ensures bodies[i].block == i {
      BodyAt(first, blocks, i);
    }
    FindBodyIs(bodies, hash, number, 0);
    if number < |blocks| {
      BodyAt(first, blocks, number);
      TxsOfBlock(blocks, number);
      var n := |AllTxs(blocks[..number])|;
      SeekNumbered(first, AllTxs(blocks), n);
      assert blocks[number].hash == hash ==>
        ReadTxs(Numbered(first, AllTxs(blocks)), first + n, |blocks[number].txs|) == blocks[number].txs;
    }
  }

  // ----- Import and unwind -----

  /** A body row of the other database; its own transaction ids are not taken over. */
  datatype Foreign = Foreign(bodies: seq<BodyRow>, txs: seq<TxRow>)

  datatype Outcome = Progress(block: nat, done: bool) | UnwindTo(block: nat) | Failed

  /** The bodies are in block order, and only a block's own body carries its hash. */
  ghost predicate InBlockOrder(bodies: seq<BodyRow>, headers: seq<Hash>, start: nat) {
    && (forall i, j | 0 <= i < j < |bodies| :: bodies[i].block <= bodies[j].block)
    && (forall i, j | 0 <= i < |bodies| && 0 <= j < |headers| ::
          bodies[i].hash == headers[j] ==> bodies[i].block == start + j)
  }

  /** No body before position j belongs to a header from position i on. */
  ghost predicate PassedBy(bodies: seq<BodyRow>, j: int, headers: seq<Hash>, i: int) {
    forall p, q | 0 <= p < j && p < |bodies| && 0 <= i <= q < |headers| :: bodies[p].hash != headers[q]
  }

  ghost predicate HasBody(bodies: seq<BodyRow>, hash: Hash) {
    exists i :: 0 <= i < |bodies| && bodies[i].hash == hash
  }

  /** The block comes from the other database. */
  ghost predicate TakenFrom(f: Foreign, hash: Hash, b: Imported) {
    b.hash == hash && exists i :: 0 <= i < |f.bodies| && Matches(f, f.bodies[i], b)
  }

  /** The blocks from position lo on come from the other database. */
  ghost predicate AllTaken(f: Foreign, headers: seq<Hash>, lo: nat, blocks: seq<Imported>) {
    forall k | lo <= k < |blocks| && k < |headers| :: TakenFrom(f, headers[k], blocks[k])
  }

  predicate Matches(f: Foreign, row: BodyRow, b: Imported) {
    && row.hash == b.hash && row.body.ommers == b.ommers
    && b.txs == ReadTxs(f.txs, row.body.baseTxId, row.body.txAmount) && |b.txs| == row.body.txAmount
  }

  const MAX_TXS_PER_BATCH: nat := 500_000

  /** Reads bodies for the headers from position i on, the body cursor being at j: stops when
      a header has no body or the batch is large enough. */
  method ReadBatch(f: Foreign, headers: seq<Hash>, start: nat, i0: nat, j0: nat)
    returns (batch: seq<Imported>, j: nat, more: bool, failed: bool)
    requires InBlockOrder(f.bodies, headers, start) && i0 <= |headers| && j0 <= |f.bodies|
    requires PassedBy(f.bodies, j0, headers, i0)
    ensures j <= |f.bodies| && i0 + |batch| <= |headers|
    ensures forall k | 0 <= k < |batch| :: TakenFrom(f, headers[i0 + k], batch[k])
    ensures !failed && !more && i0 + |batch| < |headers| ==> !HasBody(f.bodies, headers[i0 + |batch|])
    ensures more ==> batch != [] && PassedBy(f.bodies, j, headers, i0 + |batch|)
  {
    batch, j, more, failed := [], j0, false, false;
    var accum := 0;
    while i0 + |batch| < |headers|
      invariant j <= |f.bodies| && i0 + |batch| <= |headers| && !more && !failed
      invariant forall k | 0 <= k < |batch| :: TakenFrom(f, headers[i0 + k], batch[k])
      invariant PassedBy(f.bodies, j, headers, i0 + |batch|)
    {
      var i := i0 + |batch|;
      var found;
      found, j := SkipTo(f.bodies, headers, start, i, j);
      if !found {
        return;
      }
      var row := f.bodies[j];
      var txs := ReadTxs(f.txs, row.body.baseTxId, row.body.txAmount);
      if |txs| != row.body.txAmount {
        failed := true;
        return;
      }
      var b := Imported(headers[i], row.body.ommers, txs);
      assert Matches(f, f.bodies[j], b);
      batch := batch + [b];
      j := j + 1;
      accum := accum + |txs|;
      if accum > MAX_TXS_PER_BATCH {
        more := true;
        return;
      }
    }
  }

  /** Advances the body cursor to the header's body, if there is one. */
  method SkipTo(bodies: seq<BodyRow>, headers: seq<Hash>, start: nat, i: nat, j0: nat) returns (found: bool, j: nat)
    requires InBlockOrder(bodies, headers, start) && i < |headers| && j0 <= |bodies|
    requires PassedBy(bodies, j0, headers, i)
    ensures j <= |bodies|
    ensures found ==> j < |bodies| && bodies[j].hash == headers[i]
    ensures found ==> PassedBy(bodies, j + 1, headers, i + 1)
    ensures !found ==> !HasBody(bodies, headers[i])
  {
    j := j0;
    while j < |bodies|
      invariant j0 <= j <= |bodies|
      invariant PassedBy(bodies, j, headers, i)
    {
      if bodies[j].block > start + i {
        return false, j;
      }
      if bodies[j].hash == headers[i] {
        return true, j;
      }
      j := j + 1;
    }
    return false, j;
  }

  class BodyTables {
    const first: nat
    var bodies: seq<BodyRow>
    var txs: seq<TxRow>
    ghost var blocks: seq<Imported>

    /** The tables hold the blocks imported so far and nothing else. */
    ghost predicate Valid()
      reads this
    {
      blocks != [] && bodies == Bodies(first, blocks) && txs == Numbered(first, AllTxs(blocks))
    }

    /** The genesis body. */
    constructor (first: nat, genesis: Imported)
      ensures Valid() && this.first == first && blocks == [genesis]
    {
      this.first := first;
      bodies := [BodyRow(0, genesis.hash, Body(first, |genesis.txs|, genesis.ommers))];
      txs := Numbered(first, genesis.txs);
      blocks := [genesis];
      assert [genesis][..0] == [];
      assert AllTxs([genesis]) == genesis.txs;
    }

    /** Appends one body and its transactions, numbering them on. */
    method Append(number: nat, b: Imported, startingIndex: nat) returns (next: nat)
      requires Valid() && number == |blocks| && startingIndex == first + |AllTxs(blocks)|
      modifies this
      ensures Valid() && blocks == old(blocks) + [b] && next == first + |AllTxs(blocks)|
    {
      ghost var before := AllTxs(blocks);
      next := startingIndex;
      bodies := bodies + [BodyRow(number, b.hash, Body(next, |b.txs|, b.ommers))];
      var i := 0;
      while i < |b.txs|
        invariant 0 <= i <= |b.txs| && next == startingIndex + i
        invariant txs == Numbered(first, before + b.txs[..i])
        invariant bodies == old(bodies) + [BodyRow(number, b.hash, Body(startingIndex, |b.txs|, b.ommers))]
        invariant blocks == old(blocks)
      {
        assert before + b.txs[..i + 1] == before + b.txs[..i] + [b.txs[i]];
        txs := txs + [TxRow(next, b.txs[i])];
        next := next + 1;
        i := i + 1;
      }
      assert b.txs[..i] == b.txs;
      blocks := blocks + [b];
      assert blocks[..|blocks| - 1] == old(blocks);
    }

    /** Appends a batch of blocks. */
    method AppendAll(number: nat, batch: seq<Imported>, startingIndex: nat) returns (next: nat)
      requires Valid() && number == |blocks| && startingIndex == first + |AllTxs(blocks)|
      modifies this
      ensures Valid() && blocks == old(blocks) + batch && next == first + |AllTxs(blocks)|
    {
      hide *;
      next := startingIndex;
      var i := 0;
      while i < |batch|
        invariant 0 <= i <= |batch| && Valid() && blocks == old(blocks) + batch[..i] && next == first + |AllTxs(blocks)|
      {
        next := Append(number + i, batch[i], next);
        assert batch[..i + 1] == batch[..i] + [batch[i]];
        i := i + 1;
      }
      assert batch[..i] == batch;
    }

    /** Imports the bodies that the other database has for the canonical blocks above the
        progress, batch by batch, until one is missing or time is up after so many batches. */
    method Execute(progress: Option<nat>, canonical: seq<Hash>, foreignHash: Option<Hash>, f: Foreign, patience: nat)
      returns (r: Outcome)
      requires Valid() && |blocks| == Highest(progress) + 1 <= |canonical|
      requires foreignHash == Some(canonical[Highest(progress)]) ==>
        canonical[Highest(progress)] == blocks[Highest(progress)].hash
      requires InBlockOrder(f.bodies, canonical, 0)
      modifies this
      ensures foreignHash != Some(canonical[Highest(progress)]) ==>
        blocks == old(blocks) && r == if Highest(progress) == 0 then Failed else UnwindTo(Highest(progress) - 1)
      ensures foreignHash == Some(canonical[Highest(progress)]) ==> !r.UnwindTo?
      ensures Valid() && old(blocks) <= blocks && |blocks| <= |canonical|
      ensures AllTaken(f, canonical, |old(blocks)|, blocks)
      ensures r.Progress? ==> r.block == |blocks| - 1
      ensures r.Progress? && r.done && |blocks| < |canonical| ==> !HasBody(f.bodies, canonical[|blocks|])
    {
      hide InBlockOrder, HasBody, TakenFrom, AllTxs, Numbered, Bodies, FindBody;
      var highest := Highest(progress);
      if foreignHash != Some(canonical[highest]) {
        return if highest == 0 then Failed else UnwindTo(highest - 1);
      }
      LastBody(first, blocks);
      var prev := FindBody(bodies, canonical[highest], highest).value;
      var startingIndex := prev.baseTxId + prev.txAmount;
      r := ImportBatches(highest, startingIndex, canonical, f, patience);
    }

    method ImportBatches(
      from: nat, startingIndex: nat, canonical: seq<Hash>, f: Foreign, patience: nat) returns (r: Outcome)
      requires Valid() && from + 1 == |blocks| <= |canonical|
      requires startingIndex == first + |AllTxs(blocks)|
      requires InBlockOrder(f.bodies, canonical, 0)
      modifies this
      ensures !r.UnwindTo? && Valid() && old(blocks) <= blocks && |blocks| <= |canonical|
      ensures AllTaken(f, canonical, |old(blocks)|, blocks)
      ensures r.Progress? ==> r.block == |blocks| - 1
      ensures r.Progress? && r.done && |blocks| < |canonical| ==> !HasBody(f.bodies, canonical[|blocks|])
    {
      hide *;
      var highest: nat, next: nat, j: nat, left: nat := from, startingIndex, 0, patience;
      var more := true;
      NothingPassed(f, canonical, blocks);
      while more
        invariant Valid() && old(blocks) <= blocks && |blocks| <= |canonical| && highest + 1 == |blocks|
        invariant next == first + |AllTxs(blocks)|
        invariant AllTaken(f, canonical, |old(blocks)|, blocks)
        invariant j <= |f.bodies|
        invariant more ==> PassedBy(f.bodies, j, canonical, |blocks|)
        invariant !more && |blocks| < |canonical| ==> !HasBody(f.bodies, canonical[|blocks|])
        decreases |canonical| - |blocks|, more
      {
        var batch, failed;
        batch, j, more, failed := ReadBatch(f, canonical, 0, highest + 1, j);
        if failed {
          return Failed;
        }
        TakenMore(f, canonical, |old(blocks)|, blocks, batch);
        next := AppendAll(highest + 1, batch, next);
        highest := highest + |batch|;
        if more {
          if left == 0 {
            return Progress(highest, false);
          }
          left := left - 1;
        }
      }
      r := Progress(highest, true);
    }

    /** Deletes the last body and then its transactions, each sought by its id. */
    method DeleteLast()
      requires Valid() && |blocks| > 1
      modifies this
      ensures Valid() && blocks == old(blocks)[..|old(blocks)| - 1]
    {
      hide AllTxs, Numbered, Bodies, SeekTx, Hole;
      ghost var n := |blocks| - 1;
      ghost var before, all := AllTxs(blocks[..n]), AllTxs(blocks);
      WithoutLast(first, blocks);
      NoHole(txs, |before|);
      var body := bodies[|bodies| - 1].body;
      bodies := bodies[..|bodies| - 1];
      var deleted := 0;
      while deleted < body.txAmount
        invariant 0 <= deleted <= body.txAmount
        invariant Hole(txs, Numbered(first, all), |before|, deleted)
        invariant bodies == old(bodies)[..n] && blocks == old(blocks)
      {
        HoleGrows(txs, first, all, |before|, deleted);
        var at := SeekTx(txs, body.baseTxId + deleted);
        if at < |txs| {
          txs := txs[..at] + txs[at + 1..];
        }
        deleted := deleted + 1;
      }
      HoleAtEnd(txs, first, before, all, deleted);
      blocks := blocks[..n];
    }

    /** Deletes the bodies above a block, last first, with the transactions they own. */
    method Unwind(unwindTo: nat)
      requires Valid()
      modifies this
      ensures Valid() && blocks == if unwindTo + 1 < |old(blocks)| then old(blocks)[..unwindTo + 1] else old(blocks)
    {
      hide AllTxs, Numbered, Bodies;
      LastNumber(first, blocks);
      while bodies[|bodies| - 1].block > unwindTo
        invariant Valid() && blocks <= old(blocks)
        invariant |blocks| == |old(blocks)| || unwindTo < |blocks|
        invariant bodies[|bodies| - 1].block == |blocks| - 1
        decreases |blocks|
      {
        DeleteLast();
        LastNumber(first, blocks);
      }
    }

    /** Carries out commands one after the other, whatever each import finds, and stops at an
        import whose header table does not have the last imported block, where the source
        would find no body to go on from. */
    method RunCommands(commands: seq<Command>, ghost b: nat)
      requires Valid() && Readable(commands) && NeverBelow(commands, b) && b < |blocks|
      modifies this
      ensures Valid() && b < |blocks| && blocks[..b + 1] == old(blocks)[..b + 1]
    {
      hide Bodies, AllTxs, Numbered, InBlockOrder, HasBody, AllTaken;
      var i := 0;
      while i < |commands|
        invariant 0 <= i <= |commands| && Valid() && b < |blocks| && blocks[..b + 1] == old(blocks)[..b + 1]
      {
        match commands[i] {
          case UnwindDown(to) =>
            Unwind(to);
          case Import(canonical, foreignHash, foreign, patience) =>
            var last := |bodies| - 1;
            LastHash(first, blocks);
            if |canonical| < |bodies| {
              return;
            }
            if foreignHash == Some(canonical[last]) && canonical[last] != bodies[last].hash {
              return;
            }
            var _ := Execute(Some(last), canonical, foreignHash, foreign, patience);
        }
        i := i + 1;
      }
    }

    /** However bodies are imported and unwound after the progress was b, unwinding to b brings
        both tables back to what they were. */
    method RunThenUnwind(commands: seq<Command>, b: nat)
      requires Valid() && Readable(commands) && NeverBelow(commands, b) && |blocks| == b + 1
      modifies this
      ensures Valid() && bodies == old(bodies) && txs == old(txs) && blocks == old(blocks)
    {
      hide Bodies, AllTxs, Numbered;
      RunCommands(commands, b);
      Unwind(b);
      assert blocks == old(blocks);
    }
  }

  /** What the sync loop may ask of the stage: an import with what it would read, or an unwind. */
  datatype Command =
    | Import(canonical: seq<Hash>, foreignHash: Option<Hash>, foreign: Foreign, patience: nat)
    | UnwindDown(to: nat)

  ghost predicate Readable(commands: seq<Command>) {
    forall i | 0 <= i < |commands| ::
      commands[i].Import? ==> InBlockOrder(commands[i].foreign.bodies, commands[i].canonical, 0)
  }

  /** No command unwinds below block b. */
  ghost predicate NeverBelow(commands: seq<Command>, b: nat) {
    forall i | 0 <= i < |commands| :: commands[i].UnwindDown? ==> b <= commands[i].to
  }

  function Highest(progress: Option<nat>): (r: nat) {
    if progress.Some? then progress.value else 0
  }

  /** rows with count of them missing from position at on. */
  ghost predicate Hole(rows: seq<TxRow>, all: seq<TxRow>, at: nat, count: nat) {
    at + count <= |all| && rows == all[..at] + all[at + count..]
  }

  lemma NothingPassed(f: Foreign, headers: seq<Hash>, blocks: seq<Imported>)
    ensures PassedBy(f.bodies, 0, headers, |blocks|) && AllTaken(f, headers, |blocks|, blocks)
  {
  }

  lemma TakenMore(f: Foreign, headers: seq<Hash>, lo: nat, blocks: seq<Imported>, batch: seq<Imported>)
    requires AllTaken(f, headers, lo, blocks) && |blocks| + |batch| <= |headers|
    requires forall k | 0 <= k < |batch| :: TakenFrom(f, headers[|blocks| + k], batch[k])
    ensures AllTaken(f, headers, lo, blocks + batch)
  {
    hide TakenFrom;
    forall k | |blocks| <= k < |blocks + batch| ensures TakenFrom(f, headers[k], (blocks + batch)[k]) {
      assert TakenFrom(f, headers[|blocks| + (k - |blocks|)], batch[k - |blocks|]);
    }
  }

  lemma NoHole(rows: seq<TxRow>, at: nat)
    requires at <= |rows|
    ensures Hole(rows, rows, at, 0)
  {
  }

  lemma HoleGrows(rows: seq<TxRow>, first: nat, all: seq<Tx>, at: nat, count: nat)
    requires Hole(rows, Numbered(first, all), at, count) && at + count < |all|
    ensures at < |rows| && SeekTx(rows, first + at + count) == at
    ensures Hole(rows[..at] + rows[at + 1..], Numbered(first, all), at, count + 1)
  {
    var full := Numbered(first, all);
    assert rows[at] == full[at + count] && rows[at].id == first + at + count;
    var r := SeekTx(rows, first + at + count);
    assert forall k | 0 <= k < at :: rows[k] == full[k] && rows[k].id == first + k;
    assert rows[at + 1..] == full[at + count + 1..];
  }

  lemma HoleAtEnd(rows: seq<TxRow>, first: nat, before: seq<Tx>, all: seq<Tx>, count: nat)
    requires before <= all && Hole(rows, Numbered(first, all), |before|, count) && |before| + count == |all|
    ensures rows == Numbered(first, before)
  {
  }

  /** The last body owns the ids after those of the blocks before. */
  lemma WithoutLast(first: nat, blocks: seq<Imported>)
    requires blocks != []
    ensures var n := |blocks| - 1;
      var before := AllTxs(blocks[..n]);
      && Bodies(first, blocks)[..n] == Bodies(first, blocks[..n])
      && Bodies(first, blocks)[n].body.baseTxId == first + |before|
      && |before| + Bodies(first, blocks)[n].body.txAmount == |AllTxs(blocks)|
      && before <= AllTxs(blocks)
  {
  }

  lemma LastHash(first: nat, blocks: seq<Imported>)
    requires blocks != []
    ensures Bodies(first, blocks)[|blocks| - 1].hash == blocks[|blocks| - 1].hash
  {
    BodyAt(first, blocks, |blocks| - 1);
  }

  lemma LastNumber(first: nat, blocks: seq<Imported>)
    requires blocks != []
    ensures Bodies(first, blocks)[|blocks| - 1].block == |blocks| - 1
  {
    BodyAt(first, blocks, |blocks| - 1);
  }

  /** The body of the last block is found, and ends where the transaction table ends. */
  lemma LastBody(first: nat, blocks: seq<Imported>)
    requires blocks != []
    ensures var n := |blocks| - 1;
      var o := FindBody(Bodies(first, blocks), blocks[n].hash, n);
      o.Some? && o.value.baseTxId + o.value.txAmount == first + |AllTxs(blocks)|
  {
    var n := |blocks| - 1;
    ReadingGivesBlock(first, blocks, blocks[n].hash, n);
    var bodies := Bodies(first, blocks);
    forall i | 0 <= i < |bodies| ensures bodies[i].block == i {
      BodyAt(first, blocks, i);
    }
    FindBodyIs(bodies, blocks[n].hash, n, 0);
    BodyAt(first, blocks, n);
  }
}
