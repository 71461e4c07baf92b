// Byte encodings of table keys and values: accounts, account and storage changes, compact
// 256-bit numbers, and the keys of the history index.
module Codecs {
  import opened Wrappers
  import opened WorldState
  import opened ByteStrings
  import opened IntraBlock

  const ADDRESS_LENGTH: nat := 20
  const HASH_LENGTH: nat := 32
  const NUMBER_LENGTH: nat := 8
  const MAX_ACCOUNT_LEN: nat := 1 + (1 + 32) + (1 + 32) + (1 + 8)

  /** A decoder returns a value, reports an error, or indexes out of bounds. */
  datatype Decoding<+T> = Ok(value: T) | Error | Panic

  lemma PowerValues()
    ensures Power(8) == 0x1_0000_0000_0000_0000
    ensures Power(20) == ADDRESS_SPACE
    ensures Power(32) == U256_SPACE
  {
    PowerAdds(1, 1);
    PowerAdds(2, 2);
    PowerAdds(4, 4);
    PowerAdds(8, 8);
    PowerAdds(16, 4);
    PowerAdds(16, 16);
  }

  lemma {:induction false} PowerAdds(m: nat, n: nat)
    ensures Power(m + n) == Power(m) * Power(n)
  {
    if m == 0 {
      assert Power(0) == 1;
    } else {
      PowerAdds(m - 1, n);
      assert Power(m + n) == 256 * Power(m - 1 + n);
      assert 256 * (Power(m - 1) * Power(n)) == (256 * Power(m - 1)) * Power(n);
    }
  }

  // ----- Compact numbers -----

  /** Without the leading zero bytes. */
  function SkipZeros(s: Bytes): (r: Bytes)
    ensures |r| <= |s|
    ensures r == [] || r[0] != 0
  {
    if s != [] && s[0] == 0 then SkipZeros(s[1..]) else s
  }

  lemma {:induction false} LeadingZero(s: Bytes)
    ensures FromBE([0] + s) == FromBE(s)
  {
    var z: Bytes := [0] + s;
    if s == [] {
      assert z[..0] == [];
    } else {
      LeadingZero(s[..|s| - 1]);
      assert z[..|z| - 1] == [0] + s[..|s| - 1];
    }
  }

  lemma {:induction false} SkipZerosKeepsValue(s: Bytes)
    ensures FromBE(SkipZeros(s)) == FromBE(s)
  {
    if s != [] && s[0] == 0 {
      SkipZerosKeepsValue(s[1..]);
      LeadingZero(s[1..]);
      assert s == [0] + s[1..];
    }
  }

  function Compact(n: nat, len: nat): (r: Bytes)
    ensures |r| <= len
    ensures r == [] || r[0] != 0
  {
    SkipZeros(ToBE(n, len))
  }

  lemma CompactValue(n: nat, len: nat)
    requires n < Power(len)
    ensures FromBE(Compact(n, len)) == n
  {
    SkipZerosKeepsValue(ToBE(n, len));
    FromToBE(n, len);
  }

  /** Longer encodings only add zero bytes in front. */
  lemma {:induction false} ToBEPadded(s: Bytes, len: nat)
    requires |s| <= len
    ensures ToBE(FromBE(s), len) == ToBE(0, len - |s|) + s
  {
    if s == [] {
      assert ToBE(0, len) + s == ToBE(0, len);
    } else {
      var front := s[..|s| - 1];
      ToBEPadded(front, len - 1);
      assert s == front + [s[|s| - 1]];
      assert FromBE(s) / 256 == FromBE(front) && FromBE(s) % 256 == s[|s| - 1];
      assert ToBE(0, len - |s|) + s == ToBE(0, len - |s|) + front + [s[|s| - 1]];
    }
  }

  lemma {:induction false} SkipPadding(k: nat, s: Bytes)
    requires s == [] || s[0] != 0
    ensures SkipZeros(ToBE(0, k) + s) == s
  {
    if k == 0 {
      assert ToBE(0, k) + s == s;
    } else {
      SkipPadding(k - 1, s);
      ZeroBytes(k);
      assert (ToBE(0, k) + s)[1..] == ToBE(0, k - 1) + s;
    }
  }

  lemma {:induction false} ZeroBytes(k: nat)
    requires k > 0
    ensures ToBE(0, k) == [0] + ToBE(0, k - 1)
  {
    if k > 1 {
      ZeroBytes(k - 1);
      assert [0] + ToBE(0, k - 2) + [0] == [0] + (ToBE(0, k - 2) + [0]);
    }
  }

  /** A byte string is the compact form of its value exactly when it has no leading zero. */
  lemma CompactIff(s: Bytes, len: nat)
    requires |s| <= len
    ensures Compact(FromBE(s), len) == s <==> s == [] || s[0] != 0
  {
    hide ToBE, FromBE, SkipZeros;
    if s == [] || s[0] != 0 {
      ToBEPadded(s, len);
      SkipPadding(len - |s|, s);
    }
  }

  type U64 = n: nat | n < 0x1_0000_0000_0000_0000
  const U64_SPACE: nat := 0x1_0000_0000_0000_0000
  const U256_SPACE: nat := U64_SPACE * U64_SPACE * U64_SPACE * U64_SPACE
  type U256 = n: nat | n < U256_SPACE

  function EncodeU256(n: U256): (r: Bytes) {
    Compact(n, HASH_LENGTH)
  }

  function DecodeU256(b: Bytes): (r: Decoding<nat>) {
    if |b| > HASH_LENGTH then Error else Ok(FromBE(b))
  }

  lemma U256RoundTrip(n: U256)
    ensures DecodeU256(EncodeU256(n)) == Ok(n)
  {
    PowerValues();
    CompactValue(n, HASH_LENGTH);
  }

  // ----- Accounts -----

  ghost predicate Representable(a: Account) {
    a.nonce < 0x1_0000_0000_0000_0000 && 0 <= a.balance < U256_SPACE && a.codeHash < U256_SPACE
  }

  function NonceBytes(a: Account): (r: Bytes) {
    Compact(a.nonce, 8)
  }

  function HashBytes(a: Account): (r: Bytes) {
    if a.codeHash != EMPTY_HASH then ToBE(a.codeHash, HASH_LENGTH) else []
  }

  function BalanceBytes(a: Account): (r: Bytes) {
    if a.balance > 0 then Compact(a.balance, 32) else []
  }

  function Flags(a: Account): (r: Byte) {
    |NonceBytes(a)| + if a.codeHash != EMPTY_HASH then 16 else 0
  }

  /** Flags, nonce, code hash, balance. */
  function AccountBytes(a: Account): (r: Bytes)
    ensures 0 < |r| <= MAX_ACCOUNT_LEN
  {
    [Flags(a)] + (NonceBytes(a) + (HashBytes(a) + BalanceBytes(a)))
  }

  /** Fills a buffer and writes its first byte last. */
  method EncodeForStorage(a: Account) returns (buffer: Bytes)
    requires Representable(a)
    ensures buffer == AccountBytes(a)
  {
    hide ToBE, SkipZeros, Compact;
    var nonceLen, code := 0, 0;
    buffer := [0];
    if a.nonce != 0 {
      var b := Compact(a.nonce, 8);
      nonceLen := |b|;
      buffer := buffer + b;
    } else {
      CompactZero(8);
    }
    if a.codeHash != EMPTY_HASH {
      code := 16;
      buffer := buffer + ToBE(a.codeHash, HASH_LENGTH);
    }
    if a.balance != 0 {
      buffer := buffer + Compact(a.balance, 32);
    }
    buffer := buffer[0 := nonceLen + code];
    assert buffer == [nonceLen + code] + (NonceBytes(a) + (HashBytes(a) + BalanceBytes(a)));
  }

  lemma CompactZero(len: nat)
    ensures Compact(0, len) == []
  {
    CompactIff([], len);
  }

  /** Reads a number of at most eight bytes, last byte first. */
  method BytesToU64(buf: Bytes) returns (r: nat)
    requires |buf| <= 8
    ensures r == FromBE(buf)
  {
    var decoded := new Byte[8](i => 0);
    var i := 0;
    while i < |buf|
      invariant 0 <= i <= |buf|
      invariant forall k | 0 <= k < 8 :: decoded[k] == if k < i then buf[|buf| - 1 - k] else 0
    {
      decoded[i] := buf[|buf| - 1 - i];
      i := i + 1;
    }
    r := FromLE(decoded[..]);
    LittleEndian(decoded[..], buf);
  }

  function FromLE(s: Bytes): (n: nat) {
    if s == [] then 0 else s[0] + 256 * FromLE(s[1..])
  }

  lemma {:induction false} LittleEndian(le: Bytes, be: Bytes)
    requires |be| <= |le|
    requires forall k | 0 <= k < |le| :: le[k] == if k < |be| then be[|be| - 1 - k] else 0
    ensures FromLE(le) == FromBE(be)
  {
    if le != [] {
      LittleEndian(le[1..], if be == [] then [] else be[..|be| - 1]);
    }
  }

  /** What is left after the nonce and the code hash is the balance. */
  function DecodeBalance(a: Account, enc: Bytes): (r: Decoding<Option<Account>>) {
    if |enc| > 32 then Error else Ok(Some(a.(balance := FromBE(enc))))
  }

  function DecodeHash(a: Account, code: bool, enc: Bytes): (r: Decoding<Option<Account>>) {
    if !code then DecodeBalance(a, enc)
    else if |enc| < HASH_LENGTH then Panic
    else DecodeBalance(a.(codeHash := FromBE(enc[..HASH_LENGTH])), enc[HASH_LENGTH..])
  }

  function DecodeForStorage(enc: Bytes): (r: Decoding<Option<Account>>) {
    if enc == [] then Ok(None)
    else
      var nonceLen, code, rest := enc[0] % 16, enc[0] / 16 % 2 == 1, enc[1..];
      if nonceLen > |rest| || nonceLen > 8 then Panic
      else DecodeHash(DEFAULT_ACCOUNT.(nonce := FromBE(rest[..nonceLen])), code, rest[nonceLen..])
  }

  /** Advances through the bytes, assigning one field after another. */
  method ReadFromStorage(input: Bytes) returns (r: Decoding<Option<Account>>)
    ensures r == DecodeForStorage(input)
  {
    if input == [] {
      return Ok(None);
    }
    var a := DEFAULT_ACCOUNT;
    var flags, enc := input[0], input[1..];
    var nonceLen := flags % 16;
    if nonceLen > 0 {
      if nonceLen > |enc| || nonceLen > 8 {
        return Panic;
      }
      var nonce := BytesToU64(enc[..nonceLen]);
      a := a.(nonce := nonce);
      enc := enc[nonceLen..];
    }
    if flags / 16 % 2 == 1 {
      if |enc| < HASH_LENGTH {
        return Panic;
      }
      a := a.(codeHash := FromBE(enc[..HASH_LENGTH]));
      enc := enc[HASH_LENGTH..];
    }
    if |enc| > 32 {
      return Error;
    }
    r := Ok(Some(a.(balance := FromBE(enc))));
  }

  lemma Halves(x: Bytes, y: Bytes)
    ensures (x + y)[..|x|] == x && (x + y)[|x|..] == y
  {
  }

  lemma TailRoundTrip(a: Account, d: Account)
    requires Representable(a) && d == DEFAULT_ACCOUNT.(nonce := a.nonce)
    ensures DecodeHash(d, a.codeHash != EMPTY_HASH, HashBytes(a) + BalanceBytes(a)) == Ok(Some(a))
  {
    hide ToBE, FromBE, SkipZeros, Compact, Power;
    PowerValues();
    FromToBE(a.codeHash, HASH_LENGTH);
    CompactValue(a.balance, 32);
    FromNothing();
    Halves(HashBytes(a), BalanceBytes(a));
  }

  /** Reading back a written account gives that account. */
  lemma AccountRoundTrip(a: Account)
    requires Representable(a)
    ensures DecodeForStorage(AccountBytes(a)) == Ok(Some(a))
  {
    hide ToBE, FromBE, SkipZeros, Compact, Power, HashBytes, BalanceBytes, DecodeHash;
    PowerValues();
    CompactValue(a.nonce, 8);
    var d := DEFAULT_ACCOUNT.(nonce := a.nonce);
    TailRoundTrip(a, d);
    var tail := HashBytes(a) + BalanceBytes(a);
    assert AccountBytes(a)[1..] == NonceBytes(a) + tail;
    Halves(NonceBytes(a), tail);
  }

  lemma FromNothing()
    ensures FromBE([]) == 0
  {
  }

  predicate NoLeadingZero(s: Bytes) {
    s == [] || s[0] != 0
  }

  /** Unused flag bits clear, no leading zeros, and no explicit hash of empty code. */
  predicate Canonical(enc: Bytes)
    requires enc != [] && enc[0] % 16 < |enc| && (enc[0] / 16 % 2 == 1 ==> enc[0] % 16 + HASH_LENGTH < |enc|)
  {
    var n := 1 + enc[0] % 16;
    && enc[0] < 32
    && NoLeadingZero(enc[1..n])
    && if enc[0] / 16 % 2 == 1 then
         FromBE(enc[n..n + HASH_LENGTH]) != EMPTY_HASH && NoLeadingZero(enc[n + HASH_LENGTH..])
       else NoLeadingZero(enc[n..])
  }

  lemma ConcatInjective(a: Bytes, b: Bytes, x: Bytes, y: Bytes)
    requires |a| == |b|
    ensures a + x == b + y <==> a == b && x == y
  {
    Halves(a, x);
    Halves(b, y);
  }

  /** A byte string that decodes to an account is that account's encoding exactly when it
      is canonical. */
  lemma DecodedIsEncodedIff(enc: Bytes, a: Account)
    requires DecodeForStorage(enc) == Ok(Some(a))
    ensures Representable(a)
    ensures AccountBytes(a) == enc <==> Canonical(enc)
  {
    hide ToBE, FromBE, SkipZeros, Compact, Flags, HashBytes, NonceBytes, BalanceBytes;
    var n := 1 + enc[0] % 16;
    var m := if enc[0] / 16 % 2 == 1 then n + HASH_LENGTH else n;
    var nonce, hash, balance := enc[1..n], enc[n..m], enc[m..];
    assert enc[1..][..n - 1] == nonce && enc[1..][n - 1..] == enc[n..];
    assert m > n ==> enc[n..][..HASH_LENGTH] == hash && enc[n..][HASH_LENGTH..] == balance;
    assert enc == [enc[0]] + (nonce + (hash + balance));
    PartsBound(nonce, hash, balance, a);
    PartsIff(enc[0], nonce, hash, balance, a);
  }

  /** The same, part by part. */
  lemma PartsIff(flags: Byte, nonce: Bytes, hash: Bytes, balance: Bytes, a: Account)
    requires |nonce| <= 8 && |nonce| == flags % 16 && |balance| <= 32
    requires |hash| == if flags / 16 % 2 == 1 then HASH_LENGTH else 0
    requires a.nonce == FromBE(nonce) && a.balance == FromBE(balance)
    requires a.codeHash == if hash == [] then EMPTY_HASH else FromBE(hash)
    requires |hash| == HASH_LENGTH ==> ToBE(a.codeHash, HASH_LENGTH) == hash
    ensures AccountBytes(a) == [flags] + (nonce + (hash + balance)) <==>
      flags < 32 && NoLeadingZero(nonce) && NoLeadingZero(balance) && (hash != [] ==> a.codeHash != EMPTY_HASH)
  {
    hide ToBE, FromBE, SkipZeros, Compact, NoLeadingZero, Flags, NonceBytes, HashBytes, BalanceBytes, Framed;
    PartIffs(nonce, hash, balance, a);
    FlagsFrame(a);
    FrameOf(flags, nonce, hash);
    if NonceBytes(a) == nonce && HashBytes(a) == hash {
      FlagsIff(flags, nonce, hash, a);
    }
    FramesEqualIff(Flags(a), NonceBytes(a), HashBytes(a), BalanceBytes(a), flags, nonce, hash, balance);
  }

  ghost predicate Framed(flags: Byte, nonce: Bytes, hash: Bytes) {
    |nonce| == flags % 16 && |hash| == if flags / 16 % 2 == 1 then HASH_LENGTH else 0
  }

  lemma FrameOf(flags: Byte, nonce: Bytes, hash: Bytes)
    requires |nonce| == flags % 16 && |hash| == if flags / 16 % 2 == 1 then HASH_LENGTH else 0
    ensures Framed(flags, nonce, hash)
  {
  }

  lemma FlagsFrame(a: Account)
    ensures Framed(Flags(a), NonceBytes(a), HashBytes(a))
  {
    hide ToBE, Compact;
  }

  lemma FlagsIff(flags: Byte, nonce: Bytes, hash: Bytes, a: Account)
    requires Framed(flags, nonce, hash) && NonceBytes(a) == nonce && HashBytes(a) == hash
    ensures Flags(a) == flags <==> flags < 32
  {
    FlagsFrame(a);
  }

  /** The flags delimit the parts. */
  lemma FramesEqualIff(f: Byte, n: Bytes, h: Bytes, b: Bytes, f': Byte, n': Bytes, h': Bytes, b': Bytes)
    requires Framed(f, n, h) && Framed(f', n', h')
    ensures [f] + (n + (h + b)) == [f'] + (n' + (h' + b')) <==> f == f' && n == n' && h == h' && b == b'
  {
    ConcatInjective([f], [f'], n + (h + b), n' + (h' + b'));
    if f == f' {
      ConcatInjective(n, n', h + b, h' + b');
      ConcatInjective(h, h', b, b');
    }
  }

  lemma PartIffs(nonce: Bytes, hash: Bytes, balance: Bytes, a: Account)
    requires |nonce| <= 8 && |balance| <= 32 && (hash == [] || |hash| == HASH_LENGTH)
    requires a.nonce == FromBE(nonce) && a.balance == FromBE(balance)
    requires a.codeHash == if hash == [] then EMPTY_HASH else FromBE(hash)
    requires |hash| == HASH_LENGTH ==> ToBE(a.codeHash, HASH_LENGTH) == hash
    ensures NonceBytes(a) == nonce <==> NoLeadingZero(nonce)
    ensures BalanceBytes(a) == balance <==> NoLeadingZero(balance)
    ensures HashBytes(a) == hash <==> (hash != [] ==> a.codeHash != EMPTY_HASH)
  {
    hide ToBE, FromBE, SkipZeros, Compact;
    CompactIff(nonce, 8);
    CompactIff(balance, 32);
    CompactZero(32);
  }

  lemma PartsBound(nonce: Bytes, hash: Bytes, balance: Bytes, a: Account)
    requires |nonce| <= 8 && |hash| <= HASH_LENGTH && |balance| <= 32
    requires a.nonce == FromBE(nonce) && a.balance == FromBE(balance)
    requires a.codeHash == if hash == [] then EMPTY_HASH else FromBE(hash)
    ensures Representable(a)
    ensures |hash| == HASH_LENGTH ==> ToBE(a.codeHash, HASH_LENGTH) == hash
  {
    PowerValues();
    ValueBound(nonce, 8);
    ValueBound(hash, HASH_LENGTH);
    ValueBound(balance, 32);
    ToFromBE(hash);
  }

  lemma ValueBound(s: Bytes, len: nat)
    requires |s| <= len
    ensures FromBE(s) < Power(len)
  {
    hide ToBE, FromBE, Power;
    ToFromBE(s);
    PowerAdds(|s|, len - |s|);
    assert Power(|s|) <= Power(|s|) * Power(len - |s|);
  }

  // ----- Change records -----

  datatype AccountChange = AccountChange(address: Address, account: Option<Account>)

  function EncodeAccountChange(c: AccountChange): (r: Bytes) {
    ToBE(c.address, ADDRESS_LENGTH) + match c.account case None => [] case Some(a) => AccountBytes(a)
  }

  function DecodeAccountChange(b: Bytes): (r: Decoding<(nat, Option<Account>)>) {
    if |b| < ADDRESS_LENGTH then Error
    else
      var address := FromBE(b[..ADDRESS_LENGTH]);
      if |b| == ADDRESS_LENGTH then Ok((address, None))
      else match DecodeForStorage(b[ADDRESS_LENGTH..])
           case Ok(Some(a)) => Ok((address, Some(a)))
           case Ok(None) => Error
           case Error => Error
           case Panic => Panic
  }

  /** Absent accounts come back absent and present ones, even all-zero ones, present. */
  lemma AccountChangeRoundTrip(c: AccountChange)
    requires c.account.Some? ==> Representable(c.account.value)
    ensures DecodeAccountChange(EncodeAccountChange(c)) == Ok((c.address, c.account))
  {
    PowerValues();
    FromToBE(c.address, ADDRESS_LENGTH);
    var b := EncodeAccountChange(c);
    assert b[..ADDRESS_LENGTH] == ToBE(c.address, ADDRESS_LENGTH);
    if c.account.Some? {
      AccountRoundTrip(c.account.value);
      assert b[ADDRESS_LENGTH..] == AccountBytes(c.account.value);
    }
  }

  datatype StorageChange = StorageChange(location: U256, value: U256)

  function EncodeStorageChange(c: StorageChange): (r: Bytes) {
    ToBE(c.location, HASH_LENGTH) + EncodeU256(c.value)
  }

  function DecodeStorageChange(b: Bytes): (r: Decoding<(nat, nat)>) {
    if |b| < HASH_LENGTH then Error
    else match DecodeU256(b[HASH_LENGTH..])
         case Ok(v) => Ok((FromBE(b[..HASH_LENGTH]), v))
         case Error => Error
         case Panic => Panic
  }

  lemma StorageChangeRoundTrip(c: StorageChange)
    ensures DecodeStorageChange(EncodeStorageChange(c)) == Ok((c.location, c.value))
  {
    PowerValues();
    FromToBE(c.location, HASH_LENGTH);
    U256RoundTrip(c.value);
    var b := EncodeStorageChange(c);
    assert b[..HASH_LENGTH] == ToBE(c.location, HASH_LENGTH) && b[HASH_LENGTH..] == EncodeU256(c.value);
  }

  datatype StorageChangeKey = StorageChangeKey(blockNumber: U64, address: Address)

  function EncodeStorageChangeKey(k: StorageChangeKey): (r: Bytes) {
    ToBE(k.blockNumber, NUMBER_LENGTH) + ToBE(k.address, ADDRESS_LENGTH)
  }

  function DecodeStorageChangeKey(b: Bytes): (r: Decoding<(nat, nat)>) {
    if |b| != NUMBER_LENGTH + ADDRESS_LENGTH then Error
    else Ok((FromBE(b[..NUMBER_LENGTH]), FromBE(b[NUMBER_LENGTH..])))
  }

  lemma StorageChangeKeyRoundTrip(k: StorageChangeKey)
    ensures DecodeStorageChangeKey(EncodeStorageChangeKey(k)) == Ok((k.blockNumber, k.address))
  {
    PowerValues();
    FromToBE(k.blockNumber, NUMBER_LENGTH);
    FromToBE(k.address, ADDRESS_LENGTH);
    var b := EncodeStorageChangeKey(k);
    assert b[..NUMBER_LENGTH] == ToBE(k.blockNumber, NUMBER_LENGTH)
      && b[NUMBER_LENGTH..] == ToBE(k.address, ADDRESS_LENGTH);
  }

  // ----- Keys of the history index -----

  /** What a history index is about: an account or a storage location, as bytes. */
  function AddressBytes(a: Address): (r: Bytes) {
    ToBE(a, ADDRESS_LENGTH)
  }

  function SlotBytes(a: Address, location: U256): (r: Bytes) {
    ToBE(a, ADDRESS_LENGTH) + ToBE(location, HASH_LENGTH)
  }

  function EncodeBitmapKey(inner: Bytes, block: U64): (r: Bytes) {
    inner + ToBE(block, NUMBER_LENGTH)
  }

  function DecodeBitmapKey(b: Bytes, len: nat): (r: Decoding<(Bytes, nat)>) {
    if |b| != len + NUMBER_LENGTH then Error else Ok((b[..len], FromBE(b[len..])))
  }

  lemma BitmapKeyRoundTrip(inner: Bytes, block: U64)
    ensures DecodeBitmapKey(EncodeBitmapKey(inner, block), |inner|) == Ok((inner, block))
  {
    PowerValues();
    FromToBE(block, NUMBER_LENGTH);
    var b := EncodeBitmapKey(inner, block);
    assert b[..|inner|] == inner && b[|inner|..] == ToBE(block, NUMBER_LENGTH);
  }

  /** Keys about items of one length sort by the item, then by the block number. */
  lemma BitmapKeyOrder(x: Bytes, b: U64, y: Bytes, c: U64)
    requires |x| == |y|
    ensures Leq(EncodeBitmapKey(x, b), EncodeBitmapKey(y, c)) <==> Less(x, y) || (x == y && b <= c)
  {
    PowerValues();
    LeqConcat(x, y, ToBE(b, NUMBER_LENGTH), ToBE(c, NUMBER_LENGTH));
    ToBEOrder(b, c, NUMBER_LENGTH);
  }

  /** Account keys sort by (address, block number) as numbers. */
  lemma AccountKeyOrder(a: Address, b: U64, a': Address, b': U64)
    ensures Leq(EncodeBitmapKey(AddressBytes(a), b), EncodeBitmapKey(AddressBytes(a'), b')) <==>
      a < a' || (a == a' && b <= b')
  {
    PowerValues();
    BitmapKeyOrder(AddressBytes(a), b, AddressBytes(a'), b');
    FixedOrder(a, a', ADDRESS_LENGTH);
  }

  /** Storage keys sort by (address, location, block number) as numbers. */
  lemma StorageKeyOrder(a: Address, l: U256, b: U64, a': Address, l': U256, b': U64)
    ensures Leq(EncodeBitmapKey(SlotBytes(a, l), b), EncodeBitmapKey(SlotBytes(a', l'), b')) <==>
      a < a' || (a == a' && (l < l' || (l == l' && b <= b')))
  {
    PowerValues();
    BitmapKeyOrder(SlotBytes(a, l), b, SlotBytes(a', l'), b');
    SlotsInjective(a, l, a', l');
    FixedOrder(a, a', ADDRESS_LENGTH);
    FixedOrder(l, l', HASH_LENGTH);
    LeqConcat(ToBE(a, ADDRESS_LENGTH), ToBE(a', ADDRESS_LENGTH), ToBE(l, HASH_LENGTH), ToBE(l', HASH_LENGTH));
  }

  lemma FixedOrder(m: nat, n: nat, len: nat)
    requires m < Power(len) && n < Power(len)
    ensures Less(ToBE(m, len), ToBE(n, len)) <==> m < n
    ensures ToBE(m, len) == ToBE(n, len) <==> m == n
    ensures Leq(ToBE(m, len), ToBE(n, len)) <==> m <= n
  {
    ToBEOrder(m, n, len);
    FromToBE(m, len);
    FromToBE(n, len);
  }

  lemma SlotsInjective(a: Address, l: U256, a': Address, l': U256)
    ensures SlotBytes(a, l) == SlotBytes(a', l') <==> a == a' && l == l'
  {
    PowerValues();
    FixedOrder(a, a', ADDRESS_LENGTH);
    FixedOrder(l, l', HASH_LENGTH);
    assert SlotBytes(a, l)[..ADDRESS_LENGTH] == ToBE(a, ADDRESS_LENGTH);
    assert SlotBytes(a, l)[ADDRESS_LENGTH..] == ToBE(l, HASH_LENGTH);
    assert SlotBytes(a', l')[..ADDRESS_LENGTH] == ToBE(a', ADDRESS_LENGTH);
    assert SlotBytes(a', l')[ADDRESS_LENGTH..] == ToBE(l', HASH_LENGTH);
  }

  /** When decoding an account fails: it reads out of bounds if the nonce is announced with more
      than eight bytes or the announced parts are not there, and reports an error if more than 32
      bytes are left for the balance. */
  lemma DecodingFailsIff(enc: Bytes)
    ensures DecodeForStorage([]) == Ok(None)
    ensures enc != [] ==>
      var nonceLength := enc[0] % 16;
      var parts := 1 + nonceLength + if enc[0] / 16 % 2 == 1 then 32 else 0;
      && (DecodeForStorage(enc).Panic? <==> nonceLength > 8 || |enc| < parts)
      && (DecodeForStorage(enc).Error? <==> nonceLength <= 8 && |enc| > parts + 32)
      && (DecodeForStorage(enc).Ok? ==> DecodeForStorage(enc).value.Some?)
  {
  }

  /** When decoding anything else fails: only for the lengths that cannot be right. */
  lemma LengthsDecide(b: Bytes, len: nat)
    ensures DecodeU256(b).Error? <==> |b| > 32
    ensures DecodeBitmapKey(b, len).Error? <==> |b| != len + 8
    ensures DecodeStorageChangeKey(b).Error? <==> |b| != 28
    ensures DecodeStorageChange(b).Error? <==> |b| < 32 || |b| > 64
    ensures |b| < 20 ==> DecodeAccountChange(b).Error?
  {
  }

  /** Keys of storage change sets sort by block number, then by address. */
  lemma StorageChangeKeyOrder(x: StorageChangeKey, y: StorageChangeKey)
    ensures Leq(EncodeStorageChangeKey(x), EncodeStorageChangeKey(y)) <==>
      x.blockNumber < y.blockNumber || (x.blockNumber == y.blockNumber && x.address <= y.address)
  {
    PowerValues();
    FixedOrder(x.blockNumber, y.blockNumber, NUMBER_LENGTH);
    FixedOrder(x.address, y.address, ADDRESS_LENGTH);
    LeqConcat(ToBE(x.blockNumber, NUMBER_LENGTH), ToBE(y.blockNumber, NUMBER_LENGTH),
      ToBE(x.address, ADDRESS_LENGTH), ToBE(y.address, ADDRESS_LENGTH));
  }

  /** Change records sort by what they are about, whatever they record. */
  lemma ChangeOrder(x: AccountChange, y: AccountChange)
    requires x.address < y.address
    ensures Leq(EncodeAccountChange(x), EncodeAccountChange(y)) && !Leq(EncodeAccountChange(y), EncodeAccountChange(x))
  {
    PowerValues();
    FixedOrder(x.address, y.address, ADDRESS_LENGTH);
    FixedOrder(y.address, x.address, ADDRESS_LENGTH);
    var p, q := EncodeAccountChange(x)[ADDRESS_LENGTH..], EncodeAccountChange(y)[ADDRESS_LENGTH..];
    assert EncodeAccountChange(x) == ToBE(x.address, ADDRESS_LENGTH) + p;
    assert EncodeAccountChange(y) == ToBE(y.address, ADDRESS_LENGTH) + q;
    LeqConcat(ToBE(x.address, ADDRESS_LENGTH), ToBE(y.address, ADDRESS_LENGTH), p, q);
    LeqConcat(ToBE(y.address, ADDRESS_LENGTH), ToBE(x.address, ADDRESS_LENGTH), q, p);
  }

  // ----- Stored forms as the client's own test vectors give them -----

  /** What precedes the hash, the hash, and what follows it. */
  lemma StoredForms(hash: nat)
    requires hash < U256_SPACE && hash != EMPTY_HASH
    ensures AccountBytes(Account(100, 0, EMPTY_HASH)) == [0x01, 0x64]
    ensures AccountBytes(Account(2, 1000, EMPTY_HASH)) == [0x01, 0x02, 0x03, 0xe8]
    ensures AccountBytes(Account(0, 0, EMPTY_HASH)) == [0x00]
    ensures AccountBytes(Account(2, 1000, hash)) == [0x11, 0x02] + ToBE(hash, 32) + [0x03, 0xe8]
    ensures AccountBytes(Account(0, 0, hash)) == [0x10] + ToBE(hash, 32)
  {
    hide ToBE, SkipZeros, Compact;
    CompactOne(2, 8);
    CompactOne(100, 8);
    CompactThousand();
    CompactZero(8);
    var h := ToBE(hash, 32);
    assert [0x11] + ([0x02] + (h + [0x03, 0xe8])) == [0x11, 0x02] + h + [0x03, 0xe8];
    assert [0x10] + ([] + (h + [])) == [0x10] + h;
  }

  lemma CompactOne(n: Byte, len: nat)
    requires 0 < n && len > 0
    ensures Compact(n, len) == [n]
  {
    FromOne(n);
    CompactIff([n], len);
  }

  lemma FromOne(n: Byte)
    ensures FromBE([n]) == n
  {
    assert [n][..0] == [];
  }

  lemma CompactThousand()
    ensures Compact(1000, 32) == [0x03, 0xe8]
  {
    FromOne(0x03);
    assert [0x03, 0xe8][..1] == [0x03];
    assert FromBE([0x03, 0xe8]) == 1000;
    CompactIff([0x03, 0xe8], 32);
  }
}
