// The external sort: entries are buffered, spilled to files in sorted runs, and merged.
module Collectors {
  import opened Wrappers
  import opened ByteStrings
  import opened SortedTables
  import opened Sorting
  import opened Codecs

  /** An encoded key and value, whose lengths fit a machine word. */
  type Entry = r: Row | |r.key| < 0x1_0000_0000_0000_0000 && |r.value| < 0x1_0000_0000_0000_0000
    witness Row([], [])

  // ----- Run files -----

  function EntryBytes(e: Entry): (r: Bytes) {
    ToBE(|e.key|, NUMBER_LENGTH) + ToBE(|e.value|, NUMBER_LENGTH) + e.key + e.value
  }

  function FileBytes(entries: seq<Entry>): (r: Bytes) {
    if entries == [] then [] else EntryBytes(entries[0]) + FileBytes(entries[1..])
  }

  lemma {:induction false} FileBytesSnoc(entries: seq<Entry>, e: Entry)
    ensures FileBytes(entries + [e]) == FileBytes(entries) + EntryBytes(e)
  {
    hide EntryBytes;
    if entries == [] {
      assert [e][1..] == [];
      assert FileBytes([e]) == EntryBytes(e) + [];
    } else {
      FileBytesSnoc(entries[1..], e);
      assert (entries + [e])[1..] == entries[1..] + [e];
      assert FileBytes(entries) == EntryBytes(entries[0]) + FileBytes(entries[1..]);
    }
  }

  /** Where the parts of an entry lie in a file that starts with it. */
  lemma EntryParts(e: Entry, rest: Bytes)
    ensures var f := EntryBytes(e) + rest;
      var k, v := |e.key|, |e.value|;
      && |f| >= 16 + k + v
      && FromBE(f[..8]) == k && FromBE(f[8..16]) == v
      && f[16..16 + k] == e.key && f[16 + k..16 + k + v] == e.value && f[16 + k + v..] == rest
  {
    hide ToBE, FromBE, Power;
    PowerValues();
    FromToBE(|e.key|, 8);
    FromToBE(|e.value|, 8);
    var f := EntryBytes(e) + rest;
    assert f[..8] == ToBE(|e.key|, 8) && f[8..16] == ToBE(|e.value|, 8);
  }

  /** A sorted run in a file, read from the front. */
  class DataProvider {
    const file: Bytes
    var pos: nat
    var len: nat
    ghost var left: seq<Entry>

    ghost predicate Valid()
      reads this
    {
      pos <= |file| && file[pos..] == FileBytes(left) && len == |left|
    }

    /** Writes every entry; reading starts at the first. */
    constructor (buffer: seq<Entry>)
      ensures Valid() && left == buffer
    {
      var w: Bytes := [];
      var i := 0;
      while i < |buffer|
        invariant 0 <= i <= |buffer| && w == FileBytes(buffer[..i])
      {
        hide EntryBytes, FileBytes;
        FileBytesSnoc(buffer[..i], buffer[i]);
        assert buffer[..i] + [buffer[i]] == buffer[..i + 1];
        Appended(w, buffer[i]);
        var k, v := buffer[i].key, buffer[i].value;
        w := w + ToBE(|k|, NUMBER_LENGTH);
        w := w + ToBE(|v|, NUMBER_LENGTH);
        w := w + k;
        w := w + v;
        i := i + 1;
      }
      assert buffer[..i] == buffer;
      assert w[0..] == w;
      file, pos, len, left := w, 0, |buffer|, buffer;
    }

    /** The next n bytes. */
    method ReadExact(n: nat) returns (r: Bytes)
      requires pos + n <= |file|
      modifies this`pos
      ensures pos == old(pos) + n && r == file[old(pos)..pos]
    {
      r := file[pos..pos + n];
      pos := pos + n;
    }

    /** The next entry, or nothing once all have been read. No read runs past the end. */
    method ToNext() returns (r: Option<Entry>)
      requires Valid()
      modifies this
      ensures Valid()
      ensures old(left) == [] ==> r == None && left == []
      ensures old(left) != [] ==> r == Some(old(left)[0]) && left == old(left)[1..]
    {
      if len == 0 {
        return None;
      }
      ghost var e := left[0];
      NextEntry(file, pos, e, FileBytes(left[1..]));
      hide *;
      var keyLength := ReadExact(8);
      var valueLength := ReadExact(8);
      var key := ReadExact(FromBE(keyLength));
      var value := ReadExact(FromBE(valueLength));
      len := len - 1;
      left := left[1..];
      r := Some(Row(key, value));
    }
  }

  lemma Appended(w: Bytes, e: Entry)
    ensures w + ToBE(|e.key|, NUMBER_LENGTH) + ToBE(|e.value|, NUMBER_LENGTH) + e.key + e.value == w + EntryBytes(e)
  {
    hide ToBE;
  }

  /** Where the parts of the next entry lie. */
  lemma NextEntry(file: Bytes, pos: nat, e: Entry, rest: Bytes)
    requires pos <= |file| && file[pos..] == EntryBytes(e) + rest
    ensures var k, v := |e.key|, |e.value|;
      && pos + 16 + k + v <= |file|
      && FromBE(file[pos..pos + 8]) == k && FromBE(file[pos + 8..pos + 16]) == v
      && file[pos + 16..pos + 16 + k] == e.key && file[pos + 16 + k..pos + 16 + k + v] == e.value
      && file[pos + 16 + k + v..] == rest
  {
    hide EntryBytes, FromBE;
    EntryParts(e, rest);
    var k, v := |e.key|, |e.value|;
    Within(file, pos, 0, 8);
    Within(file, pos, 8, 16);
    Within(file, pos, 16, 16 + k);
    Within(file, pos, 16 + k, 16 + k + v);
    assert file[pos..][16 + k + v..] == file[pos + 16 + k + v..];
  }

  lemma Within(file: Bytes, pos: nat, i: nat, j: nat)
    requires pos <= |file| && i <= j <= |file[pos..]|
    ensures file[pos..][i..j] == file[pos + i..pos + j]
  {
  }

  // ----- Merging -----

  ghost predicate Distinct(ps: seq<DataProvider>) {
    forall i, j | 0 <= i < j < |ps| :: ps[i] != ps[j]
  }

  ghost predicate AllValid(ps: seq<DataProvider>)
    reads ps
  {
    forall i | 0 <= i < |ps| :: ps[i].Valid()
  }

  ghost function Lefts(ps: seq<DataProvider>): (r: seq<seq<Entry>>)
    reads ps
    ensures |r| == |ps| && forall i | 0 <= i < |ps| :: r[i] == ps[i].left
  {
    if ps == [] then [] else [ps[0].left] + Lefts(ps[1..])
  }

  ghost predicate AllAscend(runs: seq<seq<Row>>) {
    forall i | 0 <= i < |runs| :: Ascends(runs[i])
  }

  /** Provider i's next entry is on the heap exactly when something of run i is pending, and
      what the provider still holds is the rest of the run. */
  ghost predicate Linked(p: DataProvider, heap: map<nat, Entry>, i: nat, pending: seq<Entry>)
    reads p
  {
    && p.Valid()
    && (i in heap <==> pending != [])
    && (i in heap ==> heap[i] == pending[0] && p.left == pending[1..])
    && (i !in heap ==> p.left == [])
  }

  ghost predicate AllLinked(ps: seq<DataProvider>, heap: map<nat, Entry>, pending: seq<seq<Entry>>)
    reads ps
  {
    && |pending| == |ps|
    && (forall i | i in heap :: i < |ps|)
    && (forall i | 0 <= i < |ps| :: Linked(ps[i], heap, i, pending[i]))
  }

  /** The least entry on the heap; among equal ones that of the first provider. */
  method LeastOnHeap(heap: map<nat, Entry>, n: nat) returns (least: nat)
    requires heap != map[] && forall i | i in heap :: i < n
    ensures least in heap
    ensures forall i | i in heap :: RowLeq(heap[least], heap[i]) && (heap[i] == heap[least] ==> least <= i)
  {
    hide RowLess;
    SomeKey(heap);
    var found := false;
    least := 0;
    var i := 0;
    while i < n
      invariant 0 <= i <= n
      invariant found <==> exists j :: j in heap && j < i
      invariant found ==> least in heap && least < i
      invariant found ==>
        forall j | j in heap && j < i :: RowLeq(heap[least], heap[j]) && (heap[j] == heap[least] ==> least <= j)
    {
      if i in heap {
        if !found {
          found, least := true, i;
        } else if !RowLeq(heap[least], heap[i]) {
          forall j | j in heap && j <= i ensures RowLeq(heap[i], heap[j]) && (heap[j] == heap[i] ==> i <= j) {
            RowLeqTotal(heap[least], heap[i]);
            if j < i {
              RowLeqTransitive(heap[i], heap[least], heap[j]);
            }
          }
          least := i;
        }
      }
      i := i + 1;
    }
  }

  lemma SomeKey(heap: map<nat, Entry>)
    requires heap != map[]
    ensures exists i :: i in heap
  {
  }

  /** What is out is in order and not above anything pending. */
  ghost predicate InStep(out: seq<Row>, pending: seq<seq<Row>>) {
    && Ascends(out) && AllAscend(pending)
    && (forall x, y | x in out && y in Bag(pending) :: RowLeq(x, y))
  }

  /** Moving the least head from its run to the output. */
  lemma MoveLeast(out: seq<Row>, pending: seq<seq<Row>>, id: nat)
    requires InStep(out, pending) && id < |pending| && pending[id] != []
    requires forall i | 0 <= i < |pending| && pending[i] != [] :: RowLeq(pending[id][0], pending[i][0])
    ensures InStep(out + [pending[id][0]], pending[id := pending[id][1..]])
    ensures multiset(out + [pending[id][0]]) + Bag(pending[id := pending[id][1..]]) == multiset(out) + Bag(pending)
  {
    hide RowLeq, Ascends;
    var e := pending[id][0];
    var next := pending[id := pending[id][1..]];
    BagTake(pending, id);
    assert e in Bag(pending);
    AscendsSnoc(out, e);
    AscendsTail(pending[id]);
    forall y | y in Bag(next) ensures RowLeq(e, y) {
      BagMember(pending, y);
      var i :| 0 <= i < |pending| && y in pending[i];
      AscendsTail(pending[i]);
      RowLeqTransitive(e, pending[i][0], y);
    }
    forall x, y | x in out + [e] && y in Bag(next) ensures RowLeq(x, y) {
      assert x in out || x == e;
      assert y in Bag(pending);
    }
  }

  /** Puts the first entry of every run on the heap. */
  method Anchor(ps: seq<DataProvider>) returns (heap: map<nat, Entry>)
    requires Distinct(ps) && AllValid(ps)
    modifies ps
    ensures AllLinked(ps, heap, old(Lefts(ps)))
  {
    hide FileBytes, DataProvider.Valid;
    ghost var pending := Lefts(ps);
    heap := map[];
    var i := 0;
    while i < |ps|
      invariant 0 <= i <= |ps|
      invariant forall j | j in heap :: j < i
      invariant forall j | 0 <= j < i :: Linked(ps[j], heap, j, pending[j])
      invariant forall j | i <= j < |ps| :: ps[j].Valid() && ps[j].left == pending[j]
    {
      var next := ps[i].ToNext();
      assert forall j | i < j < |ps| :: ps[j] != ps[i];
      assert forall j | 0 <= j < i :: ps[j] != ps[i];
      ghost var was := heap;
      if next.Some? {
        heap := heap[i := next.value];
      }
      forall j | 0 <= j < i ensures Linked(ps[j], heap, j, pending[j]) {
        assert Linked(ps[j], was, j, pending[j]);
      }
      i := i + 1;
    }
  }

  /** Takes the entry off the heap and puts the next of its run there, if any. */
  method Refill(
    ps: seq<DataProvider>, heap: map<nat, Entry>, id: nat, ghost pending: seq<seq<Entry>>) returns (r: map<nat, Entry>)
    requires Distinct(ps) && AllLinked(ps, heap, pending) && id in heap
    modifies ps[id]
    ensures pending[id] != [] && AllLinked(ps, r, pending[id := pending[id][1..]])
  {
    hide FileBytes, DataProvider.Valid;
    assert Linked(ps[id], heap, id, pending[id]);
    r := heap - {id};
    var next := ps[id].ToNext();
    if next.Some? {
      r := r[id := next.value];
    }
    forall i | 0 <= i < |ps| ensures Linked(ps[i], r, i, pending[id := pending[id][1..]][i]) {
      assert Linked(ps[i], heap, i, pending[i]) || i == id;
    }
  }

  lemma LinkedBounds(ps: seq<DataProvider>, heap: map<nat, Entry>, pending: seq<seq<Entry>>)
    requires AllLinked(ps, heap, pending)
    ensures |pending| == |ps| && forall i | i in heap :: i < |ps|
  {
  }

  /** The least entry on the heap is the least of the runs' first entries. */
  lemma HeadsAreLeast(ps: seq<DataProvider>, heap: map<nat, Entry>, pending: seq<seq<Entry>>, id: nat)
    requires AllLinked(ps, heap, pending) && id in heap
    requires forall i | i in heap :: RowLeq(heap[id], heap[i])
    ensures id < |pending| && pending[id] != [] && heap[id] == pending[id][0]
    ensures forall i | 0 <= i < |pending| && pending[i] != [] :: RowLeq(pending[id][0], pending[i][0])
  {
    hide RowLeq;
    assert Linked(ps[id], heap, id, pending[id]);
    forall i | 0 <= i < |pending| && pending[i] != [] ensures RowLeq(pending[id][0], pending[i][0]) {
      assert Linked(ps[i], heap, i, pending[i]);
    }
  }

  lemma NothingPending(ps: seq<DataProvider>, heap: map<nat, Entry>, pending: seq<seq<Entry>>)
    requires AllLinked(ps, heap, pending) && heap == map[]
    ensures Bag(pending) == multiset{}
  {
    forall i | 0 <= i < |pending| ensures pending[i] == [] {
      assert Linked(ps[i], heap, i, pending[i]);
    }
    BagEmpty(pending);
  }

  lemma StartsInStep(pending: seq<seq<Row>>)
    requires AllAscend(pending)
    ensures InStep([], pending)
  {
  }

  lemma StepAscends(out: seq<Row>, pending: seq<seq<Row>>)
    requires InStep(out, pending)
    ensures Ascends(out)
  {
  }

  /** Merges the runs through a heap of their first entries. */
  method Merge(ps: seq<DataProvider>) returns (out: seq<Row>)
    requires Distinct(ps) && AllValid(ps) && AllAscend(Lefts(ps))
    modifies ps
    ensures Ascends(out) && multiset(out) == Bag(old(Lefts(ps)))
  {
    hide *;
    out := [];
    ghost var pending := Lefts(ps);
    StartsInStep(pending);
    var heap := Anchor(ps);
    while heap != map[]
      invariant AllLinked(ps, heap, pending)
      invariant InStep(out, pending)
      invariant multiset(out) + Bag(pending) == Bag(old(Lefts(ps)))
      decreases |Bag(pending)|
    {
      LinkedBounds(ps, heap, pending);
      var id := LeastOnHeap(heap, |ps|);
      HeadsAreLeast(ps, heap, pending, id);
      MoveLeast(out, pending, id);
      BagTake(pending, id);
      out := out + [heap[id]];
      ghost var before := pending;
      pending := pending[id := pending[id][1..]];
      heap := Refill(ps, heap, id, before);
    }
    NothingPending(ps, heap, pending);
    StepAscends(out, pending);
  }

  // ----- The collector -----

  function Weight(e: Entry): (n: nat) {
    |e.key| + |e.value|
  }

  function Size(s: seq<Entry>): (n: nat) {
    if s == [] then 0 else Weight(s[0]) + Size(s[1..])
  }

  lemma {:induction false} SizeSnoc(s: seq<Entry>, e: Entry)
    ensures Size(s + [e]) == Size(s) + Weight(e)
  {
    if s == [] {
      assert [e][1..] == [];
    } else {
      SizeSnoc(s[1..], e);
      assert (s + [e])[1..] == s[1..] + [e];
    }
  }

  /** The size of a buffer is what its run takes in a file, less the two lengths of every entry. */
  lemma {:induction false} SizeInFile(s: seq<Entry>)
    ensures |FileBytes(s)| == Size(s) + 16 * |s|
  {
    if s != [] {
      SizeInFile(s[1..]);
    }
  }

  lemma OnlyEmptyWeighsNothing(s: seq<Entry>)
    requires Row([], []) !in s
    ensures forall i | 0 <= i < |s| :: Weight(s[i]) > 0
  {
    forall i | 0 <= i < |s| ensures Weight(s[i]) > 0 {
      assert s[i] in s;
    }
  }

  lemma {:induction false} SizePositive(s: seq<Entry>, i: nat)
    requires i < |s| && Weight(s[i]) > 0
    ensures Size(s) > 0
  {
    if i > 0 {
      SizePositive(s[1..], i - 1);
    }
  }

  lemma BagSuffix(pushed: seq<Entry>, n: nat, rest: multiset<Row>)
    requires n <= |pushed| && multiset(pushed) == rest + multiset(pushed[n..])
    ensures rest == multiset(pushed) <==> n == |pushed|
  {
    if n < |pushed| {
      assert |multiset(pushed[n..])| > 0;
    } else {
      assert pushed[n..] == [];
    }
  }

  lemma SortedEntries(buffer: seq<Entry>)
    ensures forall i | 0 <= i < |Sort(buffer)| ::
      |Sort(buffer)[i].key| < 0x1_0000_0000_0000_0000 && |Sort(buffer)[i].value| < 0x1_0000_0000_0000_0000
  {
    SortSorts(buffer);
    forall i | 0 <= i < |Sort(buffer)|
      ensures |Sort(buffer)[i].key| < 0x1_0000_0000_0000_0000 && |Sort(buffer)[i].value| < 0x1_0000_0000_0000_0000
    {
      assert Sort(buffer)[i] in multiset(Sort(buffer));
      var j :| 0 <= j < |buffer| && buffer[j] == Sort(buffer)[i];
    }
  }

  /** Sorted runs in files of their own. */
  ghost predicate Runs(ps: seq<DataProvider>)
    reads ps
  {
    Distinct(ps) && AllValid(ps) && AllAscend(Lefts(ps))
  }

  lemma RunsSnoc(ps: seq<DataProvider>, p: DataProvider)
    requires Runs(ps) && p !in ps && p.Valid() && Ascends(p.left)
    ensures Runs(ps + [p]) && Lefts(ps + [p]) == Lefts(ps) + [p.left]
  {
    hide FileBytes, Ascends;
    assert Lefts(ps + [p]) == Lefts(ps) + [p.left];
  }

  /** The runs and the buffer hold what was pushed, the buffer its last part. */
  ghost predicate Tally(pushed: seq<Entry>, buffer: seq<Entry>, size: nat, runs: seq<seq<Entry>>) {
    && size == Size(buffer)
    && |buffer| <= |pushed| && buffer == pushed[|pushed| - |buffer|..]
    && multiset(pushed) == Bag(runs) + multiset(buffer)
  }

  lemma TallyPush(pushed: seq<Entry>, buffer: seq<Entry>, size: nat, runs: seq<seq<Entry>>, e: Entry)
    requires Tally(pushed, buffer, size, runs)
    ensures Tally(pushed + [e], buffer + [e], size + Weight(e), runs)
  {
    SizeSnoc(buffer, e);
  }

  lemma TallyFlush(pushed: seq<Entry>, buffer: seq<Entry>, size: nat, runs: seq<seq<Entry>>, run: seq<Entry>)
    requires Tally(pushed, buffer, size, runs) && multiset(run) == multiset(buffer)
    ensures Tally(pushed, [], 0, runs + [run])
  {
    BagSnoc(runs, run);
  }

  /** Only pairs that weigh nothing are ever forgotten. */
  lemma TallySize(pushed: seq<Entry>, buffer: seq<Entry>, size: nat, runs: seq<seq<Entry>>)
    requires Tally(pushed, buffer, size, runs)
    ensures buffer == [] ==> size == 0
    ensures (forall i | 0 <= i < |pushed| :: Weight(pushed[i]) > 0) && buffer != [] ==> size > 0
  {
    if buffer != [] && Weight(buffer[0]) > 0 {
      SizePositive(buffer, 0);
    }
  }

  /** Yielding the runs yields everything exactly when the buffer is empty. */
  lemma TallyYield(pushed: seq<Entry>, buffer: seq<Entry>, size: nat, runs: seq<seq<Entry>>)
    requires Tally(pushed, buffer, size, runs)
    ensures Bag(runs) == multiset(pushed) <==> buffer == []
    ensures Bag(runs) + multiset(buffer) == multiset(pushed)
    ensures runs == [] ==> multiset(buffer) == multiset(pushed)
  {
    BagSuffix(pushed, |pushed| - |buffer|, Bag(runs));
  }

  class Collector {
    const bufferCapacity: nat
    var bufferSize: nat
    var providers: seq<DataProvider>
    var buffer: seq<Entry>
    ghost var pushed: seq<Entry>

    ghost predicate Valid()
      reads this, providers
    {
      Runs(providers) && Tally(pushed, buffer, bufferSize, Lefts(providers))
    }

    constructor (bufferCapacity: nat)
      ensures Valid() && this.bufferCapacity == bufferCapacity
      ensures pushed == [] && providers == [] && buffer == [] && bufferSize == 0
    {
      this.bufferCapacity, bufferSize, providers, buffer, pushed := bufferCapacity, 0, [], [], [];
    }

    /** Sorts the buffer into a new run file. */
    method Flush()
      requires Valid()
      modifies this
      ensures Valid() && pushed == old(pushed) && buffer == [] && bufferSize == 0
      ensures |providers| == |old(providers)| + 1 && providers[..|old(providers)|] == old(providers)
        && fresh(providers[|old(providers)|])
    {
      hide Runs, Tally, Sort, Ascends, FileBytes, DataProvider.Valid, Lefts, Size, Weight;
      SortSorts(buffer);
      SortedEntries(buffer);
      var run: seq<Entry> := Sort(buffer);
      var p := new DataProvider(run);
      TallyFlush(pushed, buffer, bufferSize, Lefts(providers), run);
      RunsSnoc(providers, p);
      bufferSize, buffer, providers := 0, [], providers + [p];
    }

    /** Takes an entry, spilling when the buffer has outgrown its capacity. */
    method Push(e: Entry)
      requires Valid()
      modifies this
      ensures Valid() && pushed == old(pushed) + [e]
      ensures old(bufferSize) + Weight(e) > bufferCapacity ==>
        buffer == [] && bufferSize == 0 && |providers| == |old(providers)| + 1
      ensures old(bufferSize) + Weight(e) <= bufferCapacity ==>
        buffer == old(buffer) + [e] && bufferSize == old(bufferSize) + Weight(e) && providers == old(providers)
      ensures forall i | 0 <= i < |providers| :: providers[i] in old(providers) || fresh(providers[i])
    {
      hide Runs, Tally;
      TallyPush(pushed, buffer, bufferSize, Lefts(providers), e);
      bufferSize := bufferSize + (|e.key| + |e.value|);
      buffer := buffer + [e];
      pushed := pushed + [e];
      if bufferSize > bufferCapacity {
        Flush();
        assert providers == providers[..|old(providers)|] + [providers[|old(providers)|]];
      }
    }

    /** Something was spilled, and what is still buffered weighs nothing. */
    ghost predicate Forgets()
      reads this
    {
      providers != [] && buffer != [] && bufferSize == 0
    }

    /** Yields everything in order: all that was pushed, except that a buffer of pairs with
        empty keys and values is forgotten after a spill. */
    method Iter() returns (out: seq<Row>)
      requires Valid()
      modifies this, providers
      ensures Ascends(out)
      ensures multiset(out) == multiset(old(pushed)) <==> !old(Forgets())
      ensures old(Forgets()) ==> multiset(out) + multiset(old(buffer)) == multiset(old(pushed))
      ensures Row([], []) !in old(pushed) ==> out == Sort(old(pushed))
    {
      hide Runs, Tally, Sort, Ascends, Weight, Lefts, Size, FileBytes, DataProvider.Valid;
      ghost var all := pushed;
      if Row([], []) !in pushed {
        OnlyEmptyWeighsNothing(pushed);
      }
      TallySize(pushed, buffer, bufferSize, Lefts(providers));
      if providers == [] {
        TallyYield(pushed, buffer, bufferSize, Lefts(providers));
        SortSorts(buffer);
        out := Sort(buffer);
        buffer := [];
        SortedIsSort(all, out);
        return;
      }
      if bufferSize != 0 {
        Flush();
      }
      TallyYield(pushed, buffer, bufferSize, Lefts(providers));
      RunsOf(providers);
      out := Merge(providers);
      if multiset(out) == multiset(all) {
        SortedIsSort(all, out);
      }
    }
  }

  lemma RunsOf(ps: seq<DataProvider>)
    requires Runs(ps)
    ensures Distinct(ps) && AllValid(ps) && AllAscend(Lefts(ps))
  {
  }

  /** An empty pair pushed after a spill is not yielded. */
  method EmptyPairIsForgotten() returns (out: seq<Row>)
    ensures |out| == 1
  {
    hide *;
    var first: Entry := Row([7], []);
    var second: Entry := Row([], []);
    assert Weight(first) == 1 && Weight(second) == 0 by {
      Weights();
    }
    var c := new Collector(0);
    c.Push(first);
    ghost var ps := c.providers;
    assert forall i | 0 <= i < |ps| :: fresh(ps[i]);
    c.Push(second);
    assert c.providers == ps;
    assert c.Forgets() by {
      WouldForget(c);
    }
    ghost var lost := c.buffer;
    out := c.Iter();
    assert |multiset(out)| + |multiset(lost)| == 2;
  }

  lemma Weights()
    ensures Weight(Row([7], [])) == 1 && Weight(Row([], [])) == 0
  {
  }

  lemma WouldForget(c: Collector)
    requires c.providers != [] && c.buffer != [] && c.bufferSize == 0
    ensures c.Forgets()
  {
  }
}
