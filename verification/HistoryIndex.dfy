// The history index: for every account or storage location the blocks that changed it,
// as shards in one table ordered by encoded key.
module HistoryIndex {
  import opened Wrappers
  import opened ByteStrings
  import opened Bitmaps
  import opened Codecs

  datatype IndexRow = IndexRow(key: Bytes, blocks: seq<Block>)

  // ----- One item's shards -----

  /** The shards of one item: pieces of an ascending bitmap, keyed. */
  ghost predicate Sharded(shards: seq<Shard>) {
    WellKeyed(shards) && Ascending(Blocks(shards))
  }

  /** Every element of a shard is at most its key and above the keys before it. */
  ghost predicate Banded(shards: seq<Shard>) {
    && (forall i, j | 0 <= i < j < |shards| :: shards[i].key < shards[j].key)
    && (forall i, p | 0 <= i < |shards| && 0 <= p < |shards[i].blocks| :: shards[i].blocks[p] <= shards[i].key)
    && (forall i, j, p | 0 <= i < j < |shards| && 0 <= p < |shards[j].blocks| :: shards[i].key < shards[j].blocks[p])
    && (forall i | 0 <= i < |shards| :: Ascending(shards[i].blocks))
  }

  lemma {:induction false} BlocksMember(shards: seq<Shard>, x: Block)
    ensures x in Blocks(shards) <==> exists i :: 0 <= i < |shards| && x in shards[i].blocks
  {
    if shards != [] {
      var rest := shards[1..];
      BlocksMember(rest, x);
      if x in Blocks(rest) {
        var i :| 0 <= i < |rest| && x in rest[i].blocks;
        assert x in shards[i + 1].blocks;
      }
      if i :| 0 < i < |shards| && x in shards[i].blocks {
        assert x in rest[i - 1].blocks;
      }
    }
  }

  lemma AscendingHalves(a: seq<Block>, b: seq<Block>)
    requires Ascending(a + b)
    ensures Ascending(a) && Ascending(b)
    ensures forall p, q | 0 <= p < |a| && 0 <= q < |b| :: a[p] < b[q]
  {
    forall i, j | 0 <= i < j < |a| ensures a[i] < a[j] {
      assert (a + b)[i] < (a + b)[j];
    }
    forall i, j | 0 <= i < j < |b| ensures b[i] < b[j] {
      assert (a + b)[|a| + i] < (a + b)[|a| + j];
    }
    forall p, q | 0 <= p < |a| && 0 <= q < |b| ensures a[p] < b[q] {
      assert (a + b)[p] < (a + b)[|a| + q];
    }
  }

  lemma {:induction false} ShardedIsBanded(shards: seq<Shard>)
    requires Sharded(shards)
    ensures Banded(shards)
  {
    if |shards| > 0 {
      var first, rest := shards[0], shards[1..];
      AscendingHalves(first.blocks, Blocks(rest));
      assert forall i | 0 <= i < |rest| :: rest[i] == shards[i + 1];
      ShardedIsBanded(rest);
      forall j, p | 0 <= j < |rest| && 0 <= p < |rest[j].blocks|
        ensures first.key < rest[j].blocks[p] && first.key < rest[j].key
      {
        BlocksMember(rest, rest[j].blocks[p]);
        var q :| 0 <= q < |Blocks(rest)| && Blocks(rest)[q] == rest[j].blocks[p];
        assert first.blocks[|first.blocks| - 1] < Blocks(rest)[q];
      }
      forall j | 0 <= j < |rest| ensures first.key < rest[j].key {
        assert rest[j].blocks[0] <= rest[j].key;
      }
      LastBounds(first.blocks);
      BandedCons(shards);
    }
  }

  lemma LastBounds(bm: seq<Block>)
    requires Ascending(bm)
    ensures forall p | 0 <= p < |bm| :: bm[p] <= bm[|bm| - 1]
  {
  }

  lemma BandedCons(shards: seq<Shard>)
    requires shards != [] && Banded(shards[1..]) && Ascending(shards[0].blocks)
    requires forall j | 0 <= j < |shards[1..]| :: shards[0].key < shards[1..][j].key
    requires forall p | 0 <= p < |shards[0].blocks| :: shards[0].blocks[p] <= shards[0].key
    requires forall j, p | 0 <= j < |shards[1..]| && 0 <= p < |shards[1..][j].blocks| ::
      shards[0].key < shards[1..][j].blocks[p]
    ensures Banded(shards)
  {
    var rest := shards[1..];
    assert forall i | 0 < i < |shards| :: shards[i] == rest[i - 1];
  }

  /** The position of the first shard whose key is at least b. */
  function FirstShard(shards: seq<Shard>, b: Block): (i: nat)
    ensures i <= |shards| && (i < |shards| ==> b <= shards[i].key)
    ensures forall j | 0 <= j < i :: shards[j].key < b
  {
    if shards == [] || b <= shards[0].key then 0 else 1 + FirstShard(shards[1..], b)
  }

  /** p is the first position with an element above b. */
  ghost predicate IsFirstAbove(bm: seq<Block>, b: Block, p: int) {
    0 <= p < |bm| && b < bm[p] && forall q | 0 <= q < p :: bm[q] <= b
  }

  /** The first element above b. */
  function FirstAbove(bm: seq<Block>, b: Block): (r: Option<Block>)
    ensures r.None? ==> forall p | 0 <= p < |bm| :: bm[p] <= b
    ensures r.Some? ==> exists p :: IsFirstAbove(bm, b, p) && bm[p] == r.value
  {
    if bm == [] then None
    else if b < bm[0] then
      assert IsFirstAbove(bm, b, 0);
      Some(bm[0])
    else
      var r := FirstAbove(bm[1..], b);
      assert r.Some? ==> exists p :: IsFirstAbove(bm, b, p) && bm[p] == r.value by {
        if r.Some? {
          var p :| IsFirstAbove(bm[1..], b, p) && bm[1..][p] == r.value;
          forall q | 0 <= q < p + 1 ensures bm[q] <= b {
            assert q > 0 ==> bm[q] == bm[1..][q - 1];
          }
          assert IsFirstAbove(bm, b, p + 1);
        }
      }
      r
  }

  /** o is the least of the blocks above b, if there is one. */
  ghost predicate IsNextChange(blocks: seq<Block>, b: Block, o: Option<Block>) {
    match o
    case None => forall x | x in blocks :: x <= b
    case Some(n) => n in blocks && b < n && forall x | x in blocks && b < x :: n <= x
  }

  /** b is the last element, and so the key, of a shard that is not the last. */
  ghost predicate EndsShard(shards: seq<Shard>, b: Block) {
    exists i :: 0 <= i < |shards| - 1 && shards[i].key == b
  }

  function NextIn(shards: seq<Shard>, b: Block): (r: Option<Block>) {
    var i := FirstShard(shards, b);
    if i < |shards| then FirstAbove(shards[i].blocks, b) else None
  }

  /** Looking only into the first shard whose key is at least b finds the next change
      exactly when b does not end a shard before the last. */
  lemma NextInIff(shards: seq<Shard>, b: Block)
    requires Sharded(shards)
    ensures IsNextChange(Blocks(shards), b, NextIn(shards, b)) <==> !EndsShard(shards, b)
    ensures EndsShard(shards, b) ==> NextIn(shards, b) == None
  {
    hide Blocks, Sharded;
    ShardedIsBanded(shards);
    var i := FirstShard(shards, b);
    if EndsShard(shards, b) {
      EndGivesNone(shards, b);
      SomethingFollows(shards, b);
    } else if shards != [] {
      SomeShard(shards, b);
      MiddleFindsNext(shards, b);
    } else {
      NoBlocks();
    }
  }

  /** With changes at blocks 1 and 2 in shards of their own, the lookup from block 1 misses
      the change at block 2. */
  lemma ShardEndMissesChange()
    ensures var s := [Shard(1, [1]), Shard(U64_MAX, [2])];
      Sharded(s) && 2 in Blocks(s) && NextIn(s, 1) == None && NextIn(s, 0) == Some(1)
  {
    var s := [Shard(1, [1]), Shard(U64_MAX, [2])];
    assert s[1..] == [Shard(U64_MAX, [2])] && s[1..][1..] == [];
    assert Blocks(s[1..]) == [2];
    assert Blocks(s) == [1, 2];
    assert FirstShard(s, 1) == 0 && FirstShard(s, 0) == 0;
    assert FirstAbove([1], 1) == None && FirstAbove([1], 0) == Some(1);
  }

  lemma NoBlocks()
    ensures Blocks([]) == []
  {
  }

  /** The last shard takes everything. */
  lemma SomeShard(shards: seq<Shard>, b: Block)
    requires Sharded(shards) && shards != []
    ensures FirstShard(shards, b) < |shards|
  {
    assert shards[|shards| - 1].key == U64_MAX;
  }

  lemma EndGivesNone(shards: seq<Shard>, b: Block)
    requires Banded(shards) && EndsShard(shards, b)
    ensures NextIn(shards, b) == None
  {
    var e :| 0 <= e < |shards| - 1 && shards[e].key == b;
    var i := FirstShard(shards, b);
    assert i == e;
    ShardFacts(shards, i);
  }

  lemma SomethingFollows(shards: seq<Shard>, b: Block)
    requires Sharded(shards) && EndsShard(shards, b)
    ensures !IsNextChange(Blocks(shards), b, None)
  {
    hide Blocks, Ascending;
    ShardedIsBanded(shards);
    var e :| 0 <= e < |shards| - 1 && shards[e].key == b;
    var x := shards[e + 1].blocks[0];
    assert shards[e].key < x;
    BlocksMember(shards, x);
  }

  /** A change above b is in b's shard or past that shard's key. */
  lemma WhereAbove(shards: seq<Shard>, b: Block, x: Block)
    requires Banded(shards) && FirstShard(shards, b) < |shards| && b < x && x in Blocks(shards)
    ensures x in shards[FirstShard(shards, b)].blocks || shards[FirstShard(shards, b)].key < x
    ensures FirstShard(shards, b) == |shards| - 1 ==> x in shards[FirstShard(shards, b)].blocks
  {
    hide Blocks;
    BlocksMember(shards, x);
    var j :| 0 <= j < |shards| && x in shards[j].blocks;
    var q :| 0 <= q < |shards[j].blocks| && shards[j].blocks[q] == x;
    assert shards[j].blocks[q] <= shards[j].key;
  }

  lemma FirstAboveIsLeast(bm: seq<Block>, b: Block)
    requires Ascending(bm)
    ensures IsNextChange(bm, b, FirstAbove(bm, b))
  {
    var r := FirstAbove(bm, b);
    if r.Some? {
      var p :| IsFirstAbove(bm, b, p) && bm[p] == r.value;
      forall x | x in bm && b < x ensures r.value <= x {
        var q :| 0 <= q < |bm| && bm[q] == x;
      }
    }
  }

  lemma MiddleFindsNext(shards: seq<Shard>, b: Block)
    requires Sharded(shards) && !EndsShard(shards, b) && FirstShard(shards, b) < |shards|
    ensures IsNextChange(Blocks(shards), b, NextIn(shards, b))
  {
    hide Blocks, Sharded, WellKeyed, Banded, Ascending, EndsShard, FirstShard, FirstAbove;
    ShardedIsBanded(shards);
    var i := FirstShard(shards, b);
    ShardFacts(shards, i);
    FirstAboveIsLeast(shards[i].blocks, b);
    var r := NextIn(shards, b);
    if r.None? {
      LastShardNow(shards, b, i);
      forall x | x in Blocks(shards) ensures x <= b {
        if b < x {
          WhereAbove(shards, b, x);
        }
      }
    } else {
      BlocksMember(shards, r.value);
      forall x | x in Blocks(shards) && b < x ensures r.value <= x {
        WhereAbove(shards, b, x);
      }
    }
  }

  lemma ShardFacts(shards: seq<Shard>, i: nat)
    requires Banded(shards) && i < |shards|
    ensures Ascending(shards[i].blocks) && forall x | x in shards[i].blocks :: x <= shards[i].key
  {
    forall x | x in shards[i].blocks ensures x <= shards[i].key {
      var p :| 0 <= p < |shards[i].blocks| && shards[i].blocks[p] == x;
    }
  }

  /** If nothing above b is left in its shard, that shard is the last. */
  lemma LastShardNow(shards: seq<Shard>, b: Block, i: nat)
    requires Sharded(shards) && !EndsShard(shards, b) && i == FirstShard(shards, b) < |shards|
    requires FirstAbove(shards[i].blocks, b).None?
    ensures i == |shards| - 1
  {
    assert shards[i].blocks[|shards[i].blocks| - 1] <= b;
  }

  // ----- The table -----

  /** Every shard of every item, filed in key order. */
  ghost predicate Filed(rows: seq<IndexRow>, len: nat, index: map<Bytes, seq<Shard>>) {
    && Ordered(rows)
    && (forall k | k in index :: |k| == len && Sharded(index[k]))
    && (forall r | 0 <= r < |rows| :: FromIndex(rows[r], index))
    && (forall k: Bytes, i: int | k in index && 0 <= i < |index[k]| :: InTable(rows, k, index[k][i]))
  }

  ghost predicate Ordered(rows: seq<IndexRow>) {
    forall i, j | 0 <= i < j < |rows| :: Less(rows[i].key, rows[j].key)
  }

  function RowOf(k: Bytes, s: Shard): (r: IndexRow) {
    IndexRow(EncodeBitmapKey(k, s.key), s.blocks)
  }

  ghost predicate FromIndex(row: IndexRow, index: map<Bytes, seq<Shard>>) {
    exists k: Bytes, i: int :: k in index && 0 <= i < |index[k]| && row == RowOf(k, index[k][i])
  }

  ghost predicate InTable(rows: seq<IndexRow>, k: Bytes, s: Shard) {
    exists r :: 0 <= r < |rows| && rows[r] == RowOf(k, s)
  }

  ghost function ShardsOf(index: map<Bytes, seq<Shard>>, k: Bytes): seq<Shard> {
    if k in index then index[k] else []
  }

  /** The position of the first row whose key is at least the given one. */
  function Seek(rows: seq<IndexRow>, key: Bytes): (r: nat)
    ensures r <= |rows| && (r < |rows| ==> Leq(key, rows[r].key))
    ensures forall j | 0 <= j < r :: !Leq(key, rows[j].key)
  {
    if rows == [] || Leq(key, rows[0].key) then 0 else 1 + Seek(rows[1..], key)
  }

  /** What a row is about. */
  function Subject(row: IndexRow, len: nat): (k: Bytes) {
    if len <= |row.key| then row.key[..len] else row.key
  }

  function FindNextBlock(rows: seq<IndexRow>, len: nat, needle: Bytes, b: Block): (r: Option<Block>) {
    var i := Seek(rows, EncodeBitmapKey(needle, b));
    if i < |rows| && Subject(rows[i], len) == needle then FirstAbove(rows[i].blocks, b) else None
  }

  lemma SubjectOfRow(k: Bytes, s: Shard)
    ensures Subject(RowOf(k, s), |k|) == k
  {
    assert (k + ToBE(s.key, NUMBER_LENGTH))[..|k|] == k;
  }

  /** Of two rows about items of one length, the later has the later item, or the same
      item and a larger shard key. */
  lemma RowOrder(rows: seq<IndexRow>, r: nat, q: nat, k: Bytes, s: Shard, k': Bytes, s': Shard)
    requires Ordered(rows)
    requires r <= q < |rows| && |k| == |k'| && rows[r] == RowOf(k, s) && rows[q] == RowOf(k', s')
    ensures Less(k, k') || (k == k' && s.key <= s'.key && (r < q ==> s.key < s'.key))
  {
    LeqReflexive(rows[r].key);
    BitmapKeyOrder(k, s.key, k', s'.key);
  }

  lemma LessIsStrict(x: Bytes, y: Bytes)
    requires Less(x, y)
    ensures !Leq(y, x)
  {
    if Leq(y, x) {
      LeqAntisymmetric(x, y);
    }
  }

  /** The seek lands on the first of the item's shards whose key is at least b, and on
      another item, or past the end, if the item has no shards. */
  lemma SeekFindsShard(rows: seq<IndexRow>, len: nat, index: map<Bytes, seq<Shard>>, needle: Bytes, b: Block)
    requires Filed(rows, len, index) && |needle| == len
    ensures var i := Seek(rows, EncodeBitmapKey(needle, b));
      var s := ShardsOf(index, needle);
      if s == [] then i < |rows| ==> Subject(rows[i], len) != needle
      else
        && FirstShard(s, b) < |s|
        && i < |rows| && rows[i] == RowOf(needle, s[FirstShard(s, b)])
        && Subject(rows[i], len) == needle
  {
    hide EncodeBitmapKey, Leq, Sharded, Seek, FirstShard, Filed, Ordered, RowOf, Subject;
    var r := Seek(rows, EncodeBitmapKey(needle, b));
    var s := ShardsOf(index, needle);
    if s != [] {
      var f, q := FirstOf(rows, len, index, needle, b);
      var k, i := Origin(rows, len, index, r);
      RowOrder(rows, r, q, k, index[k][i], needle, s[f]);
      NotBefore(needle, b, k, index[k][i]);
      assert k == needle;
      KeysIdentify(s, b, i);
      SubjectOfRow(needle, s[f]);
    } else if r < |rows| {
      var k, i := Origin(rows, len, index, r);
      SubjectOfRow(k, index[k][i]);
    }
  }

  /** The item's first shard at or above b, and its row. */
  lemma FirstOf(
    rows: seq<IndexRow>, len: nat, index: map<Bytes, seq<Shard>>, k: Bytes, b: Block) returns (f: nat, q: nat)
    requires Filed(rows, len, index) && k in index && index[k] != []
    ensures Ordered(rows) && Sharded(index[k])
    ensures f == FirstShard(index[k], b) < |index[k]| && b <= index[k][f].key
    ensures q < |rows| && rows[q] == RowOf(k, index[k][f]) && Seek(rows, EncodeBitmapKey(k, b)) <= q
  {
    hide EncodeBitmapKey, Less, Leq, Sharded;
    SomeShard(index[k], b);
    f := FirstShard(index[k], b);
    assert InTable(rows, k, index[k][f]);
    var q' :| 0 <= q' < |rows| && rows[q'] == RowOf(k, index[k][f]);
    q := q';
    BitmapKeyOrder(k, b, k, index[k][f].key);
  }

  lemma Origin(rows: seq<IndexRow>, len: nat, index: map<Bytes, seq<Shard>>, r: nat) returns (k: Bytes, i: nat)
    requires Filed(rows, len, index) && r < |rows|
    ensures k in index && |k| == len && i < |index[k]| && rows[r] == RowOf(k, index[k][i])
  {
    assert FromIndex(rows[r], index);
    var k', i' :| k' in index && 0 <= i' < |index[k']| && rows[r] == RowOf(k', index[k'][i']);
    k, i := k', i';
  }

  lemma NotBefore(needle: Bytes, b: Block, k: Bytes, s: Shard)
    requires |needle| == |k| && Leq(EncodeBitmapKey(needle, b), RowOf(k, s).key)
    requires Less(k, needle) || k == needle
    ensures k == needle && b <= s.key
  {
    BitmapKeyOrder(needle, b, k, s.key);
    if Less(k, needle) {
      LessIsStrict(k, needle);
    }
  }

  lemma KeysIdentify(s: seq<Shard>, b: Block, i: nat)
    requires Sharded(s) && i < |s| && b <= s[i].key && FirstShard(s, b) < |s| && s[i].key <= s[FirstShard(s, b)].key
    ensures i == FirstShard(s, b)
  {
    hide Blocks, Ascending;
    ShardedIsBanded(s);
  }

  /** The lookup returns the item's next change exactly when the block does not end one of
      its shards before the last; at such a block it returns nothing. */
  lemma FindNextBlockIff(rows: seq<IndexRow>, len: nat, index: map<Bytes, seq<Shard>>, needle: Bytes, b: Block)
    requires Filed(rows, len, index) && |needle| == len
    ensures var s := ShardsOf(index, needle);
      && (IsNextChange(Blocks(s), b, FindNextBlock(rows, len, needle, b)) <==> !EndsShard(s, b))
      && (EndsShard(s, b) ==> FindNextBlock(rows, len, needle, b) == None)
  {
    hide EncodeBitmapKey, Seek, FirstShard, Subject, IsNextChange, EndsShard, Sharded, Blocks, FirstAbove;
    var s := ShardsOf(index, needle);
    SeekFindsShard(rows, len, index, needle, b);
    NoneSharded();
    NextInIff(s, b);
    assert FindNextBlock(rows, len, needle, b) == NextIn(s, b);
  }

  lemma NoneSharded()
    ensures Sharded([]) && forall b :: FirstShard([], b) == 0
  {
  }

  // ----- Reading a range -----

  lemma KeyOrder(s: seq<Shard>, i: nat, j: nat)
    requires Sharded(s) && i < |s| && j < |s|
    ensures s[i].key < s[j].key <==> i < j
  {
    hide Sharded;
    ShardedIsBanded(s);
  }

  lemma FiledFacts(rows: seq<IndexRow>, len: nat, index: map<Bytes, seq<Shard>>, k: Bytes)
    requires Filed(rows, len, index) && k in index
    ensures Ordered(rows) && |k| == len && Sharded(index[k])
  {
  }

  lemma RowFor(rows: seq<IndexRow>, len: nat, index: map<Bytes, seq<Shard>>, k: Bytes, i: nat) returns (q: nat)
    requires Filed(rows, len, index) && k in index && i < |index[k]|
    ensures q < |rows| && rows[q] == RowOf(k, index[k][i])
  {
    assert InTable(rows, k, index[k][i]);
    var q' :| 0 <= q' < |rows| && rows[q'] == RowOf(k, index[k][i]);
    q := q';
  }

  /** After an item's shard comes its next shard, and after its last shard another item. */
  lemma NextRow(rows: seq<IndexRow>, len: nat, index: map<Bytes, seq<Shard>>, k: Bytes, i: nat, r: nat)
    requires Filed(rows, len, index) && k in index && i < |index[k]| && r < |rows| && rows[r] == RowOf(k, index[k][i])
    ensures i + 1 < |index[k]| ==> r + 1 < |rows| && rows[r + 1] == RowOf(k, index[k][i + 1])
    ensures i + 1 == |index[k]| && r + 1 < |rows| ==> Subject(rows[r + 1], len) != k
  {
    hide EncodeBitmapKey, Leq, Sharded, Filed, Ordered, RowOf, Subject;
    FiledFacts(rows, len, index, k);
    if i + 1 < |index[k]| {
      NextShardFollows(rows, len, index, k, i, r);
    } else if r + 1 < |rows| {
      var k', i' := Origin(rows, len, index, r + 1);
      SubjectOfRow(k', index[k'][i']);
      RowOrder(rows, r, r + 1, k, index[k][i], k', index[k'][i']);
      if k' == k {
        KeyOrder(index[k], i, i');
      }
    }
  }

  lemma NextShardFollows(rows: seq<IndexRow>, len: nat, index: map<Bytes, seq<Shard>>, k: Bytes, i: nat, r: nat)
    requires Filed(rows, len, index) && k in index && i + 1 < |index[k]| && r < |rows|
      && rows[r] == RowOf(k, index[k][i])
    ensures r + 1 < |rows| && rows[r + 1] == RowOf(k, index[k][i + 1])
  {
    hide EncodeBitmapKey, Leq, Sharded, Filed, Ordered, RowOf, Subject;
    FiledFacts(rows, len, index, k);
    KeyOrder(index[k], i, i + 1);
    var q := RowFor(rows, len, index, k, i + 1);
    if q <= r {
      RowOrder(rows, q, r, k, index[k][i + 1], k, index[k][i]);
    }
    var k', i' := Origin(rows, len, index, r + 1);
    RowOrder(rows, r, r + 1, k, index[k][i], k', index[k'][i']);
    RowOrder(rows, r + 1, q, k', index[k'][i'], k, index[k][i + 1]);
    if Less(k, k') && Less(k', k) {
      LessIsStrict(k, k');
    }
    KeyOrder(index[k], i, i');
    KeyOrder(index[k], i + 1, i');
  }

  /** Shard i is read for the range: it is not wholly below it, and the shard before it
      does not already reach the end. */
  ghost predicate Touches(s: seq<Shard>, i: int, from: Block, to: Block) {
    0 <= i < |s| && from <= s[i].key && (i == 0 || s[i - 1].key < from || s[i - 1].key < to)
  }

  ghost predicate Holds(s: seq<Shard>, i: int, x: Block) {
    0 <= i < |s| && x in s[i].blocks
  }

  function Elements(bm: seq<Block>): (r: set<Block>) {
    set x | x in bm
  }

  /** The elements of the shards lo to hi. */
  ghost function Union(s: seq<Shard>, lo: nat, hi: nat): set<Block>
    requires lo <= hi <= |s|
  {
    if lo == hi then {} else Union(s, lo, hi - 1) + Elements(s[hi - 1].blocks)
  }

  lemma {:induction false} UnionMember(s: seq<Shard>, lo: nat, hi: nat, x: Block)
    requires lo <= hi <= |s|
    ensures x in Union(s, lo, hi) <==> exists i :: lo <= i < hi && Holds(s, i, x)
  {
    if lo < hi {
      UnionMember(s, lo, hi - 1, x);
      assert Holds(s, hi - 1, x) <==> x in s[hi - 1].blocks;
    }
  }

  lemma UnionNext(s: seq<Shard>, lo: nat, hi: nat)
    requires lo <= hi < |s|
    ensures Union(s, lo, hi + 1) == Union(s, lo, hi) + Elements(s[hi].blocks)
  {
  }

  /** Reading has gone on from shard lo until a shard that reaches the end, or to the last. */
  ghost predicate ReadUpTo(s: seq<Shard>, lo: int, hi: int, to: Block) {
    && 0 <= lo <= hi <= |s|
    && (forall i | lo <= i < hi - 1 :: s[i].key < to)
    && (hi < |s| ==> lo < hi && to <= s[hi - 1].key)
  }

  lemma ReadIffTouched(s: seq<Shard>, from: Block, to: Block, lo: nat, hi: nat, i: int)
    requires Sharded(s) && lo == FirstShard(s, from) && ReadUpTo(s, lo, hi, to)
    ensures lo <= i < hi <==> Touches(s, i, from, to)
  {
    hide Sharded;
    ShardedIsBanded(s);
  }

  lemma InRangeIsTouched(s: seq<Shard>, from: Block, to: Block, x: Block, i: int)
    requires Sharded(s) && Holds(s, i, x) && from <= x <= to
    ensures Touches(s, i, from, to)
  {
    hide Sharded;
    ShardedIsBanded(s);
    var p :| 0 <= p < |s[i].blocks| && s[i].blocks[p] == x;
    assert s[i].blocks[p] <= s[i].key;
  }

  /** What was read, in terms of the range. */
  lemma RangeRead(s: seq<Shard>, from: Block, to: Block, lo: nat, hi: nat, x: Block)
    requires Sharded(s) && lo == FirstShard(s, from) && ReadUpTo(s, lo, hi, to)
    ensures x in Union(s, lo, hi) <==> exists i :: Touches(s, i, from, to) && Holds(s, i, x)
    ensures x in Union(s, lo, hi) ==> x in Blocks(s)
    ensures x in Blocks(s) && from <= x <= to ==> x in Union(s, lo, hi)
  {
    hide Sharded, Union, Touches, ReadUpTo, FirstShard, Blocks;
    assert lo <= hi <= |s| by {
      BoundsOf(s, lo, hi, to);
    }
    UnionMember(s, lo, hi, x);
    forall i ensures lo <= i < hi <==> Touches(s, i, from, to) {
      ReadIffTouched(s, from, to, lo, hi, i);
    }
    BlocksMember(s, x);
    if x in Blocks(s) && from <= x <= to {
      var i :| 0 <= i < |s| && x in s[i].blocks;
      assert Holds(s, i, x);
      InRangeIsTouched(s, from, to, x, i);
    }
  }

  lemma BoundsOf(s: seq<Shard>, lo: int, hi: int, to: Block)
    requires ReadUpTo(s, lo, hi, to)
    ensures 0 <= lo <= hi <= |s|
  {
  }

  lemma RowKey(k: Bytes, s: Shard)
    ensures |RowOf(k, s).key| == |k| + NUMBER_LENGTH && FromBE(RowOf(k, s).key[|k|..]) == s.key
    ensures RowOf(k, s).blocks == s.blocks
  {
    BitmapKeyRoundTrip(k, s.key);
  }

  lemma ShardsOfFacts(rows: seq<IndexRow>, len: nat, index: map<Bytes, seq<Shard>>, k: Bytes)
    requires Filed(rows, len, index)
    ensures Sharded(ShardsOf(index, k))
    ensures ShardsOf(index, k) != [] ==> k in index && ShardsOf(index, k) == index[k]
  {
    NoneSharded();
  }

  lemma FirstShardOfNone(from: Block)
    ensures FirstShard([], from) == 0
  {
  }

  lemma UnionNone(s: seq<Shard>, lo: nat)
    requires lo <= |s|
    ensures Union(s, lo, lo) == {}
  {
  }

  lemma ReadToLast(s: seq<Shard>, lo: nat, hi: nat, to: Block)
    requires lo <= hi <= |s| && forall i | lo <= i < hi - 1 :: s[i].key < to
    requires hi == |s| || (lo < hi && to <= s[hi - 1].key)
    ensures ReadUpTo(s, lo, hi, to)
  {
  }

  /** Every shard of the item that the range touches, put together: exactly those, hence
      only changes of the item and every one in the range. */
  method GetRange(
    rows: seq<IndexRow>, len: nat, ghost index: map<Bytes, seq<Shard>>, key: Bytes, from: Block, to: Block)
    returns (out: set<Block>)
    requires Filed(rows, len, index) && |key| == len
    ensures forall x ::
      x in out <==> exists i :: Touches(ShardsOf(index, key), i, from, to) && Holds(ShardsOf(index, key), i, x)
    ensures forall x | x in out :: x in Blocks(ShardsOf(index, key))
    ensures forall x | x in Blocks(ShardsOf(index, key)) && from <= x <= to :: x in out
  {
    hide *;
    out := {};
    ghost var s := ShardsOf(index, key);
    ShardsOfFacts(rows, len, index, key);
    SeekFindsShard(rows, len, index, key, from);
    FirstShardOfNone(from);
    var r := Seek(rows, EncodeBitmapKey(key, from));
    ghost var lo := FirstShard(s, from);
    ghost var hi := lo;
    UnionNone(s, lo);
    while r < |rows| && Subject(rows[r], len) == key
      invariant r <= |rows| && lo <= hi <= |s|
      invariant out == Union(s, lo, hi)
      invariant forall i | lo <= i < hi :: s[i].key < to
      invariant r < |rows| && Subject(rows[r], len) == key <==> hi < |s|
      invariant hi < |s| ==> rows[r] == RowOf(key, s[hi])
    {
      RowKey(key, s[hi]);
      UnionNext(s, lo, hi);
      NextRow(rows, len, index, key, hi, r);
      out := out + Elements(rows[r].blocks);
      hi := hi + 1;
      if FromBE(rows[r].key[len..]) >= to {
        break;
      }
      r := r + 1;
      if hi < |s| {
        SubjectOfRow(key, s[hi]);
      }
    }
    ReadToLast(s, lo, hi, to);
    forall x {
      RangeRead(s, from, to, lo, hi, x);
    }
  }
}
