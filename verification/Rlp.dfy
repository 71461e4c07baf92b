// Byte strings in RLP, once or twice over, written in one pass.
module Rlp {
  import opened ByteStrings

  /** A byte array's length is below this. */
  const MAX_LENGTH: nat := 0x8000_0000_0000_0000

  // ----- Appendix B of the Yellow Paper -----

  /** The shortest big-endian form. */
  function BE(n: nat): (r: Bytes) {
    if n == 0 then [] else BE(n / 256) + [n % 256]
  }

  lemma {:induction false} BELength(n: nat, k: nat)
    ensures |BE(n)| <= k <==> n < Power(k)
  {
    if n > 0 && k > 0 {
      BELength(n / 256, k - 1);
    }
  }

  lemma Powers()
    ensures Power(1) == 0x100 && Power(2) == 0x1_0000 && Power(3) == 0x100_0000
    ensures Power(8) == 0x1_0000_0000_0000_0000
  {
    assert Power(4) == 256 * Power(3);
    assert Power(6) == 256 * Power(5);
    assert Power(8) == 256 * Power(7);
  }

  lemma BEBytes(n: nat)
    ensures 0 < n < 0x100 ==> BE(n) == [n]
    ensures 0x100 <= n < 0x1_0000 ==> BE(n) == [n / 0x100, n % 0x100]
    ensures 0x1_0000 <= n < 0x100_0000 ==> BE(n) == [n / 0x1_0000, n / 0x100 % 0x100, n % 0x100]
    ensures n >= 0x100_0000 ==> |BE(n)| > 3
    ensures n < 0x1_0000_0000_0000_0000 ==> |BE(n)| <= 8
  {
    Powers();
    BELength(n, 3);
    BELength(n, 8);
    assert BE(0) == [];
    if 0 < n < 0x100 {
      assert BE(n) == BE(0) + [n];
    } else if 0x100 <= n < 0x1_0000 {
      assert BE(n / 0x100) == BE(0) + [n / 0x100];
    } else if 0x1_0000 <= n < 0x100_0000 {
      assert n / 0x100 / 0x100 == n / 0x1_0000;
      assert BE(n / 0x1_0000) == BE(0) + [n / 0x1_0000];
      assert BE(n / 0x100) == BE(n / 0x1_0000) + [n / 0x100 % 0x100];
    }
  }

  lemma BESmall(n: nat)
    requires n < 0x1_0000_0000_0000_0000
    ensures |BE(n)| <= 8
  {
    BEBytes(n);
  }

  /** What precedes a byte string of this length. */
  function Header(l: nat): (r: Bytes)
    requires l < 0x1_0000_0000_0000_0000
    ensures 0 < |r| <= 9
  {
    if l < 56 then [0x80 + l]
    else
      BESmall(l);
      [0xB7 + |BE(l)|] + BE(l)
  }

  function Encode(x: Bytes): (r: Bytes)
    requires |x| < 0x1_0000_0000_0000_0000
    ensures |r| <= |x| + 9
  {
    if |x| == 1 && x[0] < 0x80 then x else Header(|x|) + x
  }

  lemma HeaderBytes(l: nat)
    requires l < 0x1_0000_0000_0000_0000
    ensures l < 56 ==> Header(l) == [0x80 + l]
    ensures 56 <= l < 0x100 ==> Header(l) == [0xB8, l]
    ensures 0x100 <= l < 0x1_0000 ==> Header(l) == [0xB9, l / 0x100, l % 0x100]
    ensures 0x1_0000 <= l < 0x100_0000 ==> Header(l) == [0xBA, l / 0x1_0000, l / 0x100 % 0x100, l % 0x100]
    ensures l >= 0x100_0000 ==> Header(l)[0] > 0xBA
  {
    hide BE;
    BEBytes(l);
  }

  // ----- One pass -----

  /** The low byte. */
  function Low(n: nat): (b: Byte) {
    n % 0x100
  }

  /** The prefix for one encoding: right for lengths that fit three bytes. */
  method GenerateByteArrayLen(l: nat) returns (buffer: Bytes)
    requires l < MAX_LENGTH
    ensures buffer == Header(l) <==> l < 0x100_0000
    ensures |buffer| == if l < 56 then 1 else if l < 256 then 2 else if l < 65536 then 3 else 4
  {
    hide Header;
    HeaderBytes(l);
    buffer := [];
    if l < 56 {
      buffer := buffer + [0x80 + l];
    } else if l < 256 {
      buffer := buffer + [0xB7 + 1];
      buffer := buffer + [Low(l)];
    } else if l < 65536 {
      buffer := buffer + [0xB7 + 2];
      buffer := buffer + [Low(l / 0x100)];
      buffer := buffer + [Low(l)];
    } else {
      buffer := buffer + [0xB7 + 3];
      buffer := buffer + [Low(l / 0x1_0000)];
      buffer := buffer + [Low(l / 0x100)];
      buffer := buffer + [Low(l)];
    }
  }

  /** The two headers of a string of this length, outer first. */
  ghost function Headers(l: nat): Bytes
    requires l < MAX_LENGTH
  {
    Header(l + |Header(l)|) + Header(l)
  }

  lemma ShortHeaders(l: nat)
    requires l < 256
    ensures l < 55 ==> Headers(l) == [Low(0x80 + l + 1), Low(0x80 + l)]
    ensures l == 55 ==> Headers(l) == [0xB8, Low(l + 1), Low(0x80 + l)]
    ensures 56 <= l < 254 ==> Headers(l) == [0xB8, Low(l + 2), 0xB8, Low(l)]
    ensures 254 <= l ==> Headers(l) == [0xB9, Low((l + 2) / 0x100), Low(l + 2), 0xB8, Low(l)]
  {
    hide Header;
    HeaderBytes(l);
    HeaderBytes(l + |Header(l)|);
  }

  lemma MiddleHeaders(l: nat)
    requires 256 <= l < 65536
    ensures l < 65533 ==> Headers(l) == [0xB9, Low((l + 3) / 0x100), Low(l + 3), 0xB9, Low(l / 0x100), Low(l)]
    ensures 65533 <= l ==>
      (Headers(l) == [0xBA, Low((l + 3) / 0x1_0000), Low((l + 3) / 0x100), Low(l + 3), 0xB9, Low(l / 0x100), Low(l)])
  {
    hide Header;
    HeaderBytes(l);
    HeaderBytes(l + |Header(l)|);
  }

  lemma LongHeaders(l: nat)
    requires 65536 <= l < MAX_LENGTH
    ensures l < 0x100_0000 - 4 ==>
      (Headers(l) ==
        [0xBA, Low((l + 4) / 0x1_0000), Low((l + 4) / 0x100), Low(l + 4),
         0xBA, Low(l / 0x1_0000), Low(l / 0x100), Low(l)])
    ensures 0x100_0000 - 4 <= l ==> Headers(l) != [] && Headers(l)[0] > 0xBA
  {
    hide Header, Low;
    LongHeader(l);
    LongHeader(l + |Header(l)|);
  }

  lemma LongHeader(l: nat)
    requires 65536 <= l < MAX_LENGTH + 9
    ensures l < 0x100_0000 ==> Header(l) == [0xBA, Low(l / 0x1_0000), Low(l / 0x100), Low(l)]
    ensures 0x100_0000 <= l ==> Header(l)[0] > 0xBA
  {
    hide Header;
    HeaderBytes(l);
  }

  /** The prefix for two encodings at once: right exactly for lengths that leave room for
      the inner prefix in three bytes. */
  method GenerateByteArrayLenDouble(l: nat) returns (buffer: Bytes)
    requires l < MAX_LENGTH
    ensures buffer == Headers(l) <==> l < 0x100_0000 - 4
    ensures |buffer| == PrefixLenDouble(if l == 0 then 2 else l, 0x80)
  {
    hide Headers, Low;
    if l < 55 {
      ShortHeaders(l);
      buffer := [Low(0x80 + l + 1), Low(0x80 + l)];
    } else if l < 56 {
      ShortHeaders(l);
      buffer := [0xB7 + 1, Low(l + 1), Low(0x80 + l)];
    } else if l < 254 {
      ShortHeaders(l);
      buffer := [0xB7 + 1, Low(l + 2), 0xB7 + 1, Low(l)];
    } else if l < 256 {
      ShortHeaders(l);
      buffer := [0xB7 + 2, Low((l + 2) / 0x100), Low(l + 2), 0xB7 + 1, Low(l)];
    } else if l < 65533 {
      MiddleHeaders(l);
      buffer := [0xB7 + 2, Low((l + 3) / 0x100), Low(l + 3), 0xB7 + 2, Low(l / 0x100), Low(l)];
    } else if l < 65536 {
      MiddleHeaders(l);
      buffer := [0xB7 + 3, Low((l + 3) / 0x1_0000), Low((l + 3) / 0x100), Low(l + 3), 0xB7 + 2, Low(l / 0x100), Low(l)];
    } else {
      LongHeaders(l);
      buffer := [0xB7 + 3, Low((l + 4) / 0x1_0000), Low((l + 4) / 0x100), Low(l + 4),
                 0xB7 + 3, Low(l / 0x1_0000), Low(l / 0x100), Low(l)];
    }
  }

  /** The number of prefix bytes of a double encoding. */
  function PrefixLenDouble(l: nat, firstByte: Byte): (n: nat) {
    if l < 2 then if firstByte >= 0x80 then 2 else 0
    else if l < 55 then 2
    else if l < 56 then 3
    else if l < 254 then 4
    else if l < 256 then 5
    else if l < 65533 then 6
    else if l < 65536 then 7
    else 8
  }

  function PrefixLen(l: nat): (n: nat) {
    if l < 2 then 0
    else if l < 56 then 1
    else if l < 256 then 2
    else if l < 65536 then 3
    else 4
  }

  /** The length announced for a double encoding. */
  function DoubleLen(x: Bytes): (n: nat) {
    if x == [] then 0 else PrefixLenDouble(|x|, x[0]) + |x|
  }

  /** The length announced for a single encoding. */
  function SingleLen(x: Bytes): (n: nat) {
    PrefixLen(|x|) + |x|
  }

  predicate NeedsPrefix(x: Bytes) {
    |x| > 1 || (|x| == 1 && x[0] >= 0x80)
  }

  /** Writes RLP(RLP(x)) exactly when x is not empty and short enough, and always as many
      bytes as announced. */
  method WriteDouble(x: Bytes) returns (w: Bytes)
    requires |x| < MAX_LENGTH
    ensures w == Encode(Encode(x)) <==> 0 < |x| < 0x100_0000 - 4
    ensures |w| == DoubleLen(x)
  {
    hide Header;
    w := [];
    ghost var p: Bytes := [];
    if NeedsPrefix(x) {
      var prefix := GenerateByteArrayLenDouble(|x|);
      p := prefix;
      w := w + prefix;
    }
    w := w + x;
    DoubleIs(x, p);
  }

  /** Writes RLP(x) exactly when x is not empty and its length fits three bytes; as many
      bytes as announced exactly when x is not a single byte that needs a prefix. */
  method WriteSingle(x: Bytes) returns (w: Bytes)
    requires |x| < MAX_LENGTH
    ensures w == Encode(x) <==> 0 < |x| < 0x100_0000
    ensures |w| == SingleLen(x) <==> !(|x| == 1 && x[0] >= 0x80)
  {
    hide Header;
    w := [];
    if NeedsPrefix(x) {
      var prefix := GenerateByteArrayLen(|x|);
      w := w + prefix;
      Prefixes(prefix, Header(|x|), x);
    }
    w := w + x;
  }

  lemma Prefixes(p: Bytes, q: Bytes, x: Bytes)
    ensures p + x == q + x <==> p == q
  {
    if p + x == q + x {
      assert |p| == |q|;
      assert (p + x)[..|p|] == p && (q + x)[..|q|] == q;
    }
  }

  /** A double encoding is two headers and the string. */
  lemma DoubleIs(x: Bytes, p: Bytes)
    requires |x| < MAX_LENGTH
    requires NeedsPrefix(x) ==> (p == Headers(|x|) <==> |x| < 0x100_0000 - 4)
    requires !NeedsPrefix(x) ==> p == []
    ensures p + x == Encode(Encode(x)) <==> 0 < |x| < 0x100_0000 - 4
  {
    hide Header;
    if NeedsPrefix(x) {
      var h := Header(|x|);
      var outer := Header(|x| + |h|);
      assert |h + x| > 1 && Encode(h + x) == outer + (h + x);
      assert outer + (h + x) == (outer + h) + x;
      Prefixes(p, outer + h, x);
    } else if x == [] {
      HeaderBytes(0);
      assert Encode(x) == [0x80];
      assert |Encode([0x80])| > 0;
    }
  }
}
