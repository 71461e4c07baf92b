// Byte strings, their lexicographic order, and big-endian numbers.
module ByteStrings {

  type Byte = b: nat | b < 256
  type Bytes = seq<Byte>

  /** Lexicographic order, shorter first. */
  predicate Leq(x: Bytes, y: Bytes) {
    x == [] || (y != [] && (x[0] < y[0] || (x[0] == y[0] && Leq(x[1..], y[1..]))))
  }

  predicate Less(x: Bytes, y: Bytes) {
    x != y && Leq(x, y)
  }

  lemma {:induction false} LeqReflexive(x: Bytes)
    ensures Leq(x, x)
  {
    if x != [] {
      LeqReflexive(x[1..]);
    }
  }

  lemma {:induction false} LeqTotal(x: Bytes, y: Bytes)
    ensures Leq(x, y) || Leq(y, x)
  {
    if x != [] && y != [] {
      LeqTotal(x[1..], y[1..]);
    }
  }

  lemma {:induction false} LeqAntisymmetric(x: Bytes, y: Bytes)
    requires Leq(x, y) && Leq(y, x)
    ensures x == y
  {
    if x != [] {
      LeqAntisymmetric(x[1..], y[1..]);
      assert x == [x[0]] + x[1..] && y == [y[0]] + y[1..];
    }
  }

  lemma {:induction false} LeqTransitive(x: Bytes, y: Bytes, z: Bytes)
    requires Leq(x, y) && Leq(y, z)
    ensures Leq(x, z)
  {
    if x != [] && x[0] == y[0] == z[0] {
      LeqTransitive(x[1..], y[1..], z[1..]);
    }
  }

  /** Of strings that start with parts of equal length, the parts decide first. */
  lemma {:induction false} LeqConcat(a: Bytes, b: Bytes, x: Bytes, y: Bytes)
    requires |a| == |b|
    ensures Leq(a + x, b + y) <==> Less(a, b) || (a == b && Leq(x, y))
  {
    if a == [] {
      assert a + x == x && b + y == y;
    } else {
      assert (a + x)[1..] == a[1..] + x && (b + y)[1..] == b[1..] + y;
      LeqConcat(a[1..], b[1..], x, y);
      assert a == [a[0]] + a[1..] && b == [b[0]] + b[1..];
    }
  }

  // ----- Big-endian numbers -----

  function Power(n: nat): (p: nat)
    ensures p > 0
  {
    if n == 0 then 1 else 256 * Power(n - 1)
  }

  /** The value of a big-endian byte string. */
  function FromBE(s: Bytes): (n: nat) {
    if s == [] then 0 else FromBE(s[..|s| - 1]) * 256 + s[|s| - 1]
  }

  /** The last len bytes of a number, big-endian. */
  function ToBE(n: nat, len: nat): (s: Bytes)
    ensures |s| == len
  {
    if len == 0 then [] else ToBE(n / 256, len - 1) + [n % 256]
  }

  lemma {:induction false} FromToBE(n: nat, len: nat)
    requires n < Power(len)
    ensures FromBE(ToBE(n, len)) == n
  {
    if len > 0 {
      FromToBE(n / 256, len - 1);
      var s := ToBE(n, len);
      assert s[..len - 1] == ToBE(n / 256, len - 1);
    }
  }

  lemma {:induction false} ToFromBE(s: Bytes)
    ensures FromBE(s) < Power(|s|)
    ensures ToBE(FromBE(s), |s|) == s
  {
    if s != [] {
      ToFromBE(s[..|s| - 1]);
      assert s == s[..|s| - 1] + [s[|s| - 1]];
    }
  }

  /** Big-endian encodings of one length sort like the numbers. */
  lemma {:induction false} ToBEOrder(m: nat, n: nat, len: nat)
    requires m < Power(len) && n < Power(len)
    ensures Leq(ToBE(m, len), ToBE(n, len)) <==> m <= n
  {
    if len > 0 {
      var x, y := ToBE(m / 256, len - 1), ToBE(n / 256, len - 1);
      ToBEOrder(m / 256, n / 256, len - 1);
      LeqConcat(x, y, [m % 256], [n % 256]);
      if x == y {
        FromToBE(m / 256, len - 1);
        FromToBE(n / 256, len - 1);
      }
      assert Leq([m % 256], [n % 256]) <==> m % 256 <= n % 256;
    }
  }
}
