// Change-block bitmaps split into shards of limited size, each filed under the number of
// its last block and the final one under the largest number.
module Bitmaps {
  import opened Wrappers

  const U64_MAX: nat := 0xFFFF_FFFF_FFFF_FFFF

  type Block = b: nat | b <= 0xFFFF_FFFF_FFFF_FFFF

  /** A bitmap, as its elements in ascending order. */
  ghost predicate Ascending(bm: seq<Block>) {
    forall i, j | 0 <= i < j < |bm| :: bm[i] < bm[j]
  }

  /** One block on its own fits the limit. */
  ghost predicate SingletonsFit(size: seq<Block> -> nat, limit: nat) {
    forall n :: size([n]) <= limit
  }

  function Concat(chunks: seq<seq<Block>>): (r: seq<Block>) {
    if chunks == [] then [] else chunks[0] + Concat(chunks[1..])
  }

  lemma {:induction false} ConcatSnoc(chunks: seq<seq<Block>>, c: seq<Block>)
    ensures Concat(chunks + [c]) == Concat(chunks) + c
  {
    if chunks == [] {
      assert [c][1..] == [];
    } else {
      ConcatSnoc(chunks[1..], c);
      assert (chunks + [c])[1..] == chunks[1..] + [c];
    }
  }

  lemma ConcatNone()
    ensures Concat([]) == []
  {
  }

  lemma Regroup(done: seq<Block>, piece: seq<Block>, rest: seq<Block>)
    requires piece <= rest
    ensures done + piece + rest[|piece|..] == done + rest
  {
  }

  /** How many first elements fit together: adding one more does not. */
  method LongestFit(size: seq<Block> -> nat, bm: seq<Block>, limit: nat) returns (n: nat)
    requires size(bm) > limit && bm != []
    ensures n < |bm| && size(bm[..n + 1]) > limit
    ensures forall k | 0 < k <= n :: size(bm[..k]) <= limit
  {
    n := 0;
    assert bm[..|bm|] == bm;
    while size(bm[..n + 1]) <= limit
      invariant 0 <= n < |bm| && forall k | 0 < k <= n :: size(bm[..k]) <= limit
      decreases |bm| - n
    {
      n := n + 1;
    }
  }

  /** Removes the elements below the one at position n. */
  method RemoveBelow(bm: seq<Block>, n: nat) returns (r: seq<Block>)
    requires Ascending(bm) && n < |bm|
    ensures r == bm[n..]
  {
    var i := 0;
    while bm[i] < bm[n]
      invariant 0 <= i <= n
    {
      i := i + 1;
    }
    r := bm[i..];
  }

  /** Yields a bitmap piece by piece. */
  class Chunks {
    const size: seq<Block> -> nat
    const sizeLimit: nat
    var bm: seq<Block>

    constructor (size: seq<Block> -> nat, bm: seq<Block>, sizeLimit: nat)
      ensures this.size == size && this.sizeLimit == sizeLimit && this.bm == bm
    {
      this.size, this.bm, this.sizeLimit := size, bm, sizeLimit;
    }

    /** The next piece is a prefix of what is left: all of it when that fits, and otherwise
        the longest run of first elements that fits. */
    method Next() returns (r: Option<seq<Block>>)
      requires Ascending(bm)
      modifies this`bm
      ensures Ascending(bm)
      ensures old(bm) == [] ==> r == None && bm == []
      ensures old(bm) != [] ==> r.Some? && IsNextPiece(size, sizeLimit, old(bm), r.value) && bm == old(bm)[|r.value|..]
    {
      if bm == [] {
        return None;
      }
      if size(bm) <= sizeLimit {
        r := Some(bm);
        bm := [];
        return;
      }
      var n := LongestFit(size, bm, sizeLimit);
      r := Some(bm[..n]);
      bm := RemoveBelow(bm, n);
    }

    /** Every piece, in order. It ends because every piece takes something. */
    method All() returns (chunks: seq<seq<Block>>)
      requires Ascending(bm) && SingletonsFit(size, sizeLimit)
      modifies this`bm
      ensures Concat(chunks) == old(bm)
      ensures AllFit(size, sizeLimit, chunks)
    {
      hide SingletonsFit, IsNextPiece, Concat;
      assert Concat([]) + bm == bm by {
        ConcatNone();
      }
      chunks := [];
      while bm != []
        invariant Ascending(bm)
        invariant Concat(chunks) + bm == old(bm)
        invariant AllFit(size, sizeLimit, chunks)
        decreases |bm|
      {
        ghost var before := bm;
        var next := Next();
        PieceFits(size, sizeLimit, before, next.value);
        ConcatSnoc(chunks, next.value);
        Regroup(Concat(chunks), next.value, before);
        chunks := chunks + [next.value];
      }
    }
  }

  ghost predicate IsNextPiece(size: seq<Block> -> nat, limit: nat, bm: seq<Block>, v: seq<Block>) {
    && v <= bm
    && (size(bm) <= limit ==> v == bm)
    && (size(bm) > limit ==>
      && |v| < |bm| && size(bm[..|v| + 1]) > limit
      && forall k | 0 < k <= |v| :: size(bm[..k]) <= limit)
  }

  ghost predicate AllFit(size: seq<Block> -> nat, limit: nat, chunks: seq<seq<Block>>) {
    forall i | 0 <= i < |chunks| :: chunks[i] != [] && size(chunks[i]) <= limit
  }

  lemma PieceFits(size: seq<Block> -> nat, limit: nat, bm: seq<Block>, v: seq<Block>)
    requires SingletonsFit(size, limit) && bm != [] && IsNextPiece(size, limit, bm, v)
    ensures v != [] && size(v) <= limit
  {
    assert bm[..1] == [bm[0]];
    assert bm[..|v|] == v;
  }

  /** Splitting gets stuck exactly when a bitmap over the limit starts with a block that
      is over the limit on its own: the piece is then empty and nothing is taken, so asking
      again gives the same answer for ever. */
  lemma StuckIff(size: seq<Block> -> nat, limit: nat, bm: seq<Block>, v: seq<Block>)
    requires bm != [] && IsNextPiece(size, limit, bm, v)
    ensures v == [] <==> size(bm) > limit && size([bm[0]]) > limit
    ensures v == [] ==> bm[|v|..] == bm
  {
    assert bm[..1] == [bm[0]];
  }

  // ----- Shards -----

  datatype Shard = Shard(key: Block, blocks: seq<Block>)

  ghost predicate NoneEmpty(chunks: seq<seq<Block>>) {
    forall i | 0 <= i < |chunks| :: chunks[i] != []
  }

  /** The pieces with their keys. */
  function WithKeys(chunks: seq<seq<Block>>): (r: seq<Shard>)
    requires NoneEmpty(chunks)
    ensures |r| == |chunks|
  {
    if chunks == [] then []
    else
      [Shard(if |chunks| == 1 then U64_MAX else chunks[0][|chunks[0]| - 1], chunks[0])] + WithKeys(chunks[1..])
  }

  function Blocks(shards: seq<Shard>): (r: seq<Block>) {
    if shards == [] then [] else shards[0].blocks + Blocks(shards[1..])
  }

  /** Nonempty shards, each but the last filed under its last element, the last one under
      the largest number. */
  ghost predicate WellKeyed(shards: seq<Shard>) {
    forall i | 0 <= i < |shards| ::
      && shards[i].blocks != []
      && shards[i].key == if i == |shards| - 1 then U64_MAX else shards[i].blocks[|shards[i].blocks| - 1]
  }

  lemma {:induction false} WithKeysIsWellKeyed(chunks: seq<seq<Block>>)
    requires NoneEmpty(chunks)
    ensures WellKeyed(WithKeys(chunks)) && Blocks(WithKeys(chunks)) == Concat(chunks)
    ensures forall i | 0 <= i < |chunks| :: WithKeys(chunks)[i].blocks == chunks[i]
  {
    if chunks != [] {
      WithKeysIsWellKeyed(chunks[1..]);
      var rest := WithKeys(chunks[1..]);
      var all := WithKeys(chunks);
      assert all[1..] == rest;
    }
  }

  /** Splits a bitmap and keys the pieces. */
  method Split(size: seq<Block> -> nat, bm: seq<Block>, sizeLimit: nat) returns (shards: seq<Shard>)
    requires Ascending(bm) && SingletonsFit(size, sizeLimit)
    ensures WellKeyed(shards) && Blocks(shards) == bm
    ensures forall i | 0 <= i < |shards| :: size(shards[i].blocks) <= sizeLimit
  {
    var it := new Chunks(size, bm, sizeLimit);
    var chunks := it.All();
    WithKeysIsWellKeyed(chunks);
    shards := WithKeys(chunks);
  }
}
