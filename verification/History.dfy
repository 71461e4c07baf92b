// Reads as of an earlier block: the history index names the next block that changed the
// item, and that block's change set holds the value from before the change.
module History {
  import opened Wrappers
  import opened WorldState
  import opened ByteStrings
  import opened SortedTables
  import opened Bitmaps
  import opened Codecs
  import opened HistoryIndex

  // ----- Tables whose values begin with a subkey -----

  /** The table holds, under every group and subkey of the contents, that payload. */
  ghost predicate Tabled(rows: seq<Row>, len: nat, contents: map<(Bytes, Bytes), Bytes>) {
    && Sorted(rows)
    && (forall c | c in contents :: |c.1| == len && Row(c.0, c.1 + contents[c]) in rows)
    && (forall r | 0 <= r < |rows| :: FromContents(rows[r], contents))
  }

  ghost predicate FromContents(row: Row, contents: map<(Bytes, Bytes), Bytes>) {
    exists c :: c in contents && row == Row(c.0, c.1 + contents[c])
  }

  /** The first value of the group that is at least the subkey. */
  function SeekBothRange(rows: seq<Row>, group: Bytes, subkey: Bytes): (o: Option<Bytes>) {
    if rows == [] then None
    else if rows[0].key == group && Leq(subkey, rows[0].value) then Some(rows[0].value)
    else SeekBothRange(rows[1..], group, subkey)
  }

  ghost predicate Passes(row: Row, group: Bytes, subkey: Bytes) {
    row.key == group && Leq(subkey, row.value)
  }

  lemma {:induction false} SeekPosition(rows: seq<Row>, group: Bytes, subkey: Bytes) returns (i: nat)
    ensures i <= |rows| && forall j | 0 <= j < i :: !Passes(rows[j], group, subkey)
    ensures i < |rows| ==> Passes(rows[i], group, subkey)
    ensures SeekBothRange(rows, group, subkey) == if i < |rows| then Some(rows[i].value) else None
  {
    if rows == [] || Passes(rows[0], group, subkey) {
      i := 0;
    } else {
      var k := SeekPosition(rows[1..], group, subkey);
      i := k + 1;
      forall j | 0 <= j < i ensures !Passes(rows[j], group, subkey) {
        assert j > 0 ==> rows[j] == rows[1..][j - 1];
      }
    }
  }

  lemma PassesIff(c: (Bytes, Bytes), payload: Bytes, group: Bytes, subkey: Bytes)
    requires |c.1| == |subkey|
    ensures Passes(Row(c.0, c.1 + payload), group, subkey) <==> c.0 == group && (Less(subkey, c.1) || subkey == c.1)
  {
    LeqConcat(subkey, c.1, [], payload);
    assert subkey + [] == subkey;
  }

  lemma TabledRow(rows: seq<Row>, len: nat, contents: map<(Bytes, Bytes), Bytes>, i: nat) returns (c: (Bytes, Bytes))
    requires Tabled(rows, len, contents) && i < |rows|
    ensures c in contents && |c.1| == len && rows[i] == Row(c.0, c.1 + contents[c])
  {
    assert FromContents(rows[i], contents);
    var c' :| c' in contents && rows[i] == Row(c'.0, c'.1 + contents[c']);
    c := c';
  }

  lemma RowPosition(rows: seq<Row>, len: nat, contents: map<(Bytes, Bytes), Bytes>, c: (Bytes, Bytes)) returns (i: nat)
    requires Tabled(rows, len, contents) && c in contents
    ensures |c.1| == len && i < |rows| && rows[i] == Row(c.0, c.1 + contents[c])
  {
    var i' :| 0 <= i' < |rows| && rows[i'] == Row(c.0, c.1 + contents[c]);
    i := i';
  }

  /** Of two rows of one group the earlier has no larger subkey. */
  lemma SubkeyOrder(rows: seq<Row>, i: nat, q: nat, g: Bytes, p: Bytes, x: Bytes, p': Bytes, x': Bytes)
    requires Sorted(rows) && i < q < |rows| && |p| == |p'|
    requires rows[i] == Row(g, p + x) && rows[q] == Row(g, p' + x')
    ensures !Less(p', p)
  {
    assert RowLess(rows[i], rows[q]);
    LeqConcat(p, p', x, x');
    if Less(p', p) {
      LessIsStrict(p', p);
    }
  }

  /** The value belongs to another subkey p of the group, with payload x. */
  ghost predicate IsOther(
    contents: map<(Bytes, Bytes), Bytes>, group: Bytes, subkey: Bytes, value: Bytes, p: Bytes, x: Bytes)
  {
    value == p + x && |p| == |subkey| && p != subkey && (group, p) in contents && x == contents[(group, p)]
  }

  /** The seek finds the subkey if it is there, and otherwise a value of another subkey. */
  lemma SeekFinds(rows: seq<Row>, len: nat, contents: map<(Bytes, Bytes), Bytes>, group: Bytes, subkey: Bytes)
    requires Tabled(rows, len, contents) && |subkey| == len
    ensures var o := SeekBothRange(rows, group, subkey);
      if (group, subkey) in contents then o == Some(subkey + contents[(group, subkey)])
      else o.Some? ==> exists p, x :: IsOther(contents, group, subkey, o.value, p, x)
  {
    hide SeekBothRange, Less, Leq, Tabled, Passes;
    var i := SeekPosition(rows, group, subkey);
    var key := (group, subkey);
    if key in contents {
      var q := RowPosition(rows, len, contents, key);
      PassesIff(key, contents[key], group, subkey);
      assert i <= q;
      var c := TabledRow(rows, len, contents, i);
      PassesIff(c, contents[c], group, subkey);
      if i < q && c.1 != subkey {
        TabledSorted(rows, len, contents);
        SubkeyOrder(rows, i, q, group, c.1, contents[c], subkey, contents[key]);
      }
      if i == q {
        Halves(c.1, contents[c]);
        Halves(subkey, contents[key]);
      }
    } else if i < |rows| {
      var c := TabledRow(rows, len, contents, i);
      PassesIff(c, contents[c], group, subkey);
      assert c == (group, c.1);
      assert IsOther(contents, group, subkey, rows[i].value, c.1, contents[c]);
    }
  }

  lemma TabledSorted(rows: seq<Row>, len: nat, contents: map<(Bytes, Bytes), Bytes>)
    requires Tabled(rows, len, contents)
    ensures Sorted(rows)
  {
  }

  // ----- Values over time -----

  /** The change sets of blocks 1 to tip hold exactly the values from before each change,
      and what they do not mention did not change. */
  ghost predicate RecordsPreValues<K(!new), V>(value: (nat, K) -> V, tip: nat, changes: map<(nat, K), V>) {
    && (forall n: nat, k: K | (n, k) in changes :: 0 < n <= tip && changes[(n, k)] == value(n - 1, k))
    && (forall n: nat, k: K | 0 < n <= tip && (n, k) !in changes :: Unchanged(value, n, k))
  }

  ghost predicate Unchanged<K(!new), V>(value: (nat, K) -> V, n: nat, k: K) {
    n > 0 && value(n - 1, k) == value(n, k)
  }

  lemma {:induction false} UnchangedBetween<K(!new), V>(
    value: (nat, K) -> V, tip: nat, changes: map<(nat, K), V>, k: K, b: nat, n: nat)
    requires RecordsPreValues(value, tip, changes) && b <= n <= tip
    requires forall m: nat | b < m <= n :: (m, k) !in changes
    ensures value(b, k) == value(n, k)
    decreases n - b
  {
    if b < n {
      UnchangedBetween(value, tip, changes, k, b, n - 1);
      assert Unchanged(value, n, k);
    }
  }

  /** The blocks are exactly those whose change set mentions k. */
  ghost predicate Lists<K(!new), V>(blocks: seq<Block>, changes: map<(nat, K), V>, k: K) {
    forall n: nat :: (n, k) in changes <==> n <= 0xFFFF_FFFF_FFFF_FFFF && n in blocks
  }

  function Earlier(b: nat, tip: nat): (r: nat) {
    if b <= tip then b else tip
  }

  /** The next change after b recorded the value as of b, and with no next change the
      current value is the value as of b. */
  lemma NextChangeTells<K(!new), V>(
    value: (nat, K) -> V, tip: nat, changes: map<(nat, K), V>, blocks: seq<Block>, k: K, b: Block, o: Option<Block>)
    requires RecordsPreValues(value, tip, changes) && Lists(blocks, changes, k) && IsNextChange(blocks, b, o)
    ensures o.None? ==> value(tip, k) == value(Earlier(b, tip), k)
    ensures o.Some? ==> (o.value, k) in changes && changes[(o.value, k)] == value(Earlier(b, tip), k)
  {
    if o.None? {
      if b <= tip {
        forall m: nat | b < m <= tip ensures (m, k) !in changes {
        }
        UnchangedBetween(value, tip, changes, k, b, tip);
      }
    } else {
      var n := o.value;
      assert (n, k) in changes;
      forall m: nat | b < m <= n - 1 ensures (m, k) !in changes {
      }
      UnchangedBetween(value, tip, changes, k, b, n - 1);
    }
  }

  // ----- Accounts -----

  ghost predicate AccountChangesTabled(
    rows: seq<Row>, contents: map<(Bytes, Bytes), Bytes>, changes: map<(nat, Address), Option<Account>>)
  {
    && Tabled(rows, ADDRESS_LENGTH, contents)
    && (forall n: nat, a: Address | n <= 0xFFFF_FFFF_FFFF_FFFF :: AccountCell(contents, changes, n, a))
  }

  /** One change and its cell. */
  ghost predicate AccountCell(
    contents: map<(Bytes, Bytes), Bytes>, changes: map<(nat, Address), Option<Account>>, n: nat, a: Address)
  {
    var c := (ToBE(n, NUMBER_LENGTH), AddressBytes(a));
    && (c in contents <==> (n, a) in changes)
    && (c in contents ==> AccountPayload(changes[(n, a)], contents[c]))
  }

  ghost predicate AccountPayload(o: Option<Account>, payload: Bytes) {
    match o
    case None => payload == []
    case Some(acc) => Representable(acc) && payload == AccountBytes(acc)
  }

  datatype AccountTables = AccountTables(index: seq<IndexRow>, changeSets: seq<Row>, current: map<Address, Account>)

  function AccountChangeAt(t: AccountTables, a: Address, n: Block): (r: Decoding<Option<Account>>) {
    match SeekBothRange(t.changeSets, ToBE(n, NUMBER_LENGTH), AddressBytes(a))
    case None => Ok(Get(t.current, a))
    case Some(v) =>
      match DecodeAccountChange(v)
      case Error => Error
      case Panic => Panic
      case Ok(change) => if change.0 == a then Ok(change.1) else Ok(Get(t.current, a))
  }

  function ReadAccount(t: AccountTables, a: Address, block: Option<Block>): (r: Decoding<Option<Account>>) {
    if block.None? then Ok(Get(t.current, a))
    else
      match FindNextBlock(t.index, ADDRESS_LENGTH, AddressBytes(a), block.value)
      case None => Ok(Get(t.current, a))
      case Some(n) => AccountChangeAt(t, a, n)
  }

  lemma AccountChangeFound(
    t: AccountTables, contents: map<(Bytes, Bytes), Bytes>, changes: map<(nat, Address), Option<Account>>,
    a: Address, n: Block)
    requires AccountChangesTabled(t.changeSets, contents, changes) && (n, a) in changes
    ensures AccountChangeAt(t, a, n) == Ok(changes[(n, a)])
  {
    hide Tabled, SeekBothRange, DecodeAccountChange, Representable, AccountBytes;
    var c := (ToBE(n, NUMBER_LENGTH), AddressBytes(a));
    assert AccountCell(contents, changes, n, a);
    SeekFinds(t.changeSets, ADDRESS_LENGTH, contents, c.0, c.1);
    AccountChangeRoundTrip(AccountChange(a, changes[(n, a)]));
    assert c.1 + contents[c] == EncodeAccountChange(AccountChange(a, changes[(n, a)]));
  }

  /** The database holds the accounts of blocks 0 to tip. */
  ghost predicate AccountHistoryHeld(
    t: AccountTables, index: map<Bytes, seq<Shard>>, contents: map<(Bytes, Bytes), Bytes>,
    changes: map<(nat, Address), Option<Account>>, value: (nat, Address) -> Option<Account>, tip: nat)
  {
    && Filed(t.index, ADDRESS_LENGTH, index)
    && AccountChangesTabled(t.changeSets, contents, changes)
    && RecordsPreValues(value, tip, changes)
    && (forall a: Address :: Lists(Blocks(ShardsOf(index, AddressBytes(a))), changes, a))
    && (forall a: Address :: Get(t.current, a) == value(tip, a))
  }

  /** A read as of block b is the account after block b, unless b ends one of the account's
      shards before the last: then it is the current account. */
  lemma AccountReadAsOf(
    t: AccountTables, index: map<Bytes, seq<Shard>>, contents: map<(Bytes, Bytes), Bytes>,
    changes: map<(nat, Address), Option<Account>>, value: (nat, Address) -> Option<Account>, tip: nat, a: Address,
    b: Block)
    requires AccountHistoryHeld(t, index, contents, changes, value, tip)
    ensures ReadAccount(t, a, None) == Ok(value(tip, a))
    ensures ReadAccount(t, a, Some(b)) ==
      Ok(value(if EndsShard(ShardsOf(index, AddressBytes(a)), b) then tip else Earlier(b, tip), a))
  {
    hide Filed, AccountChangesTabled, RecordsPreValues, Lists, Blocks, EndsShard, FindNextBlock, IsNextChange,
         AccountChangeAt, Earlier, AddressBytes, ShardsOf;
    var s := ShardsOf(index, AddressBytes(a));
    var o := FindNextBlock(t.index, ADDRESS_LENGTH, AddressBytes(a), b);
    AddressLength(a);
    FindNextBlockIff(t.index, ADDRESS_LENGTH, index, AddressBytes(a), b);
    assert Lists(Blocks(s), changes, a);
    if !EndsShard(s, b) {
      NextChangeTells(value, tip, changes, Blocks(s), a, b, o);
      if o.Some? {
        AccountChangeFound(t, contents, changes, a, o.value);
      }
    }
  }

  lemma AddressLength(a: Address)
    ensures |AddressBytes(a)| == ADDRESS_LENGTH
  {
  }

  // ----- Storage -----

  datatype StorageTables = StorageTables(index: seq<IndexRow>, changeSets: seq<Row>, current: seq<Row>)

  /** A location in one account's storage. */
  type Spot = (Address, U256)

  /** The value at a location in a table of location-prefixed values. */
  function ReadLocation(rows: seq<Row>, group: Bytes, l: U256): (r: Decoding<Option<nat>>) {
    match SeekBothRange(rows, group, ToBE(l, HASH_LENGTH))
    case None => Ok(None)
    case Some(v) =>
      match DecodeStorageChange(v)
      case Error => Error
      case Panic => Panic
      case Ok(change) => if change.0 == l then Ok(Some(change.1)) else Ok(None)
  }

  function CurrentSlot(t: StorageTables, s: Spot): (r: Decoding<nat>) {
    match ReadLocation(t.current, AddressBytes(s.0), s.1)
    case Error => Error
    case Panic => Panic
    case Ok(o) => Ok(if o.Some? then o.value else 0)
  }

  function ReadStorage(t: StorageTables, s: Spot, block: Option<Block>): (r: Decoding<nat>) {
    if block.None? then CurrentSlot(t, s)
    else
      match FindNextBlock(t.index, ADDRESS_LENGTH + HASH_LENGTH, SlotBytes(s.0, s.1), block.value)
      case None => CurrentSlot(t, s)
      case Some(n) =>
        match ReadLocation(t.changeSets, EncodeStorageChangeKey(StorageChangeKey(n, s.0)), s.1)
        case Error => Error
        case Panic => Panic
        case Ok(o) => if o.Some? then Ok(o.value) else CurrentSlot(t, s)
  }

  /** Every value of the table is the compact form of a 256-bit number. */
  ghost predicate Numbers(contents: map<(Bytes, Bytes), Bytes>) {
    forall c | c in contents :: IsNumber(contents[c]) && IsLocation(c.1)
  }

  ghost predicate IsNumber(x: Bytes) {
    exists v: U256 :: x == EncodeU256(v)
  }

  ghost predicate IsLocation(p: Bytes) {
    exists l: U256 :: p == ToBE(l, HASH_LENGTH)
  }

  lemma LocationFound(rows: seq<Row>, contents: map<(Bytes, Bytes), Bytes>, group: Bytes, l: U256)
    requires Tabled(rows, HASH_LENGTH, contents) && Numbers(contents)
    ensures var c := (group, ToBE(l, HASH_LENGTH));
      if c in contents then
        forall v: U256 | contents[c] == EncodeU256(v) :: ReadLocation(rows, group, l) == Ok(Some(v))
      else ReadLocation(rows, group, l) == Ok(None)
  {
    hide Tabled, SeekBothRange, DecodeStorageChange, EncodeU256, ToBE;
    var c := (group, ToBE(l, HASH_LENGTH));
    SeekFinds(rows, HASH_LENGTH, contents, c.0, c.1);
    if c in contents {
      forall v: U256 | contents[c] == EncodeU256(v) ensures ReadLocation(rows, group, l) == Ok(Some(v)) {
        StorageChangeRoundTrip(StorageChange(l, v));
      }
    } else {
      var o := SeekBothRange(rows, group, c.1);
      if o.Some? {
        var p, x :| IsOther(contents, group, c.1, o.value, p, x);
        assert IsNumber(x) && IsLocation(p);
        var v: U256 :| x == EncodeU256(v);
        var l': U256 :| p == ToBE(l', HASH_LENGTH);
        StorageChangeRoundTrip(StorageChange(l', v));
      }
    }
  }

  ghost predicate StorageChangesTabled(
    rows: seq<Row>, contents: map<(Bytes, Bytes), Bytes>, changes: map<(nat, Spot), nat>)
  {
    && Tabled(rows, HASH_LENGTH, contents) && Numbers(contents)
    && (forall n: nat, s: Spot | n <= 0xFFFF_FFFF_FFFF_FFFF :: StorageCell(contents, changes, n, s))
  }

  ghost predicate StorageCell(contents: map<(Bytes, Bytes), Bytes>, changes: map<(nat, Spot), nat>, n: nat, s: Spot)
    requires n <= 0xFFFF_FFFF_FFFF_FFFF
  {
    var c := (EncodeStorageChangeKey(StorageChangeKey(n, s.0)), ToBE(s.1, HASH_LENGTH));
    && (c in contents <==> (n, s) in changes)
    && (c in contents ==> changes[(n, s)] < U256_SPACE && contents[c] == EncodeU256(changes[(n, s)]))
  }

  ghost predicate StorageTabled(rows: seq<Row>, contents: map<(Bytes, Bytes), Bytes>, value: Spot -> nat) {
    && Tabled(rows, HASH_LENGTH, contents) && Numbers(contents)
    && (forall s: Spot :: CurrentCell(contents, value, s))
  }

  /** A location is stored, or its value is zero. */
  ghost predicate CurrentCell(contents: map<(Bytes, Bytes), Bytes>, value: Spot -> nat, s: Spot) {
    var c := (AddressBytes(s.0), ToBE(s.1, HASH_LENGTH));
    && value(s) < U256_SPACE
    && (c in contents ==> contents[c] == EncodeU256(value(s)))
    && (c !in contents ==> value(s) == 0)
  }

  lemma CurrentSlotFound(t: StorageTables, contents: map<(Bytes, Bytes), Bytes>, value: Spot -> nat, s: Spot)
    requires StorageTabled(t.current, contents, value)
    ensures CurrentSlot(t, s) == Ok(value(s))
  {
    hide Tabled, ReadLocation, EncodeU256, ToBE, Numbers;
    assert CurrentCell(contents, value, s);
    LocationFound(t.current, contents, AddressBytes(s.0), s.1);
  }

  lemma StorageChangeFound(
    t: StorageTables, contents: map<(Bytes, Bytes), Bytes>, changes: map<(nat, Spot), nat>, s: Spot, n: Block)
    requires StorageChangesTabled(t.changeSets, contents, changes) && (n as nat, s) in changes
    ensures ReadLocation(t.changeSets, EncodeStorageChangeKey(StorageChangeKey(n, s.0)), s.1) ==
      Ok(Some(changes[(n, s)]))
  {
    hide Tabled, ReadLocation, EncodeU256, ToBE, Numbers, EncodeStorageChangeKey;
    assert StorageCell(contents, changes, n, s);
    LocationFound(t.changeSets, contents, EncodeStorageChangeKey(StorageChangeKey(n, s.0)), s.1);
  }

  /** The database holds the storage of blocks 0 to tip. */
  ghost predicate StorageHistoryHeld(
    t: StorageTables, index: map<Bytes, seq<Shard>>, contents: map<(Bytes, Bytes), Bytes>,
    now: map<(Bytes, Bytes), Bytes>,
    changes: map<(nat, Spot), nat>, value: (nat, Spot) -> nat, tip: nat)
  {
    && Filed(t.index, ADDRESS_LENGTH + HASH_LENGTH, index)
    && StorageChangesTabled(t.changeSets, contents, changes)
    && StorageTabled(t.current, now, s => value(tip, s))
    && RecordsPreValues(value, tip, changes)
    && (forall s: Spot :: Lists(Blocks(ShardsOf(index, SlotBytes(s.0, s.1))), changes, s))
  }

  /** A read as of block b is the slot's value after block b, unless b ends one of the
      slot's shards before the last: then it is the current value. */
  lemma StorageReadAsOf(
    t: StorageTables, index: map<Bytes, seq<Shard>>, contents: map<(Bytes, Bytes), Bytes>,
    now: map<(Bytes, Bytes), Bytes>,
    changes: map<(nat, Spot), nat>, value: (nat, Spot) -> nat, tip: nat, s: Spot, b: Block)
    requires StorageHistoryHeld(t, index, contents, now, changes, value, tip)
    ensures ReadStorage(t, s, None) == Ok(value(tip, s))
    ensures ReadStorage(t, s, Some(b)) ==
      Ok(value(if EndsShard(ShardsOf(index, SlotBytes(s.0, s.1)), b) then tip else Earlier(b, tip), s))
  {
    hide Filed, StorageChangesTabled, StorageTabled, RecordsPreValues, Lists, Blocks, EndsShard, FindNextBlock,
         IsNextChange, ReadLocation, CurrentSlot, Earlier, SlotBytes, ShardsOf, EncodeStorageChangeKey;
    var k := SlotBytes(s.0, s.1);
    var shards := ShardsOf(index, k);
    var o := FindNextBlock(t.index, ADDRESS_LENGTH + HASH_LENGTH, k, b);
    SlotLength(s);
    FindNextBlockIff(t.index, ADDRESS_LENGTH + HASH_LENGTH, index, k, b);
    CurrentSlotFound(t, now, x => value(tip, x), s);
    assert Lists(Blocks(shards), changes, s);
    if !EndsShard(shards, b) {
      NextChangeTells(value, tip, changes, Blocks(shards), s, b, o);
      if o.Some? {
        StorageChangeFound(t, contents, changes, s, o.value);
      }
    }
  }

  lemma SlotLength(s: Spot)
    ensures |SlotBytes(s.0, s.1)| == ADDRESS_LENGTH + HASH_LENGTH
  {
  }
}
