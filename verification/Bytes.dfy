/** Byte strings and the integer encodings the on-disk formats are made of:
    fixed-width big- and little-endian integers, two's-complement int64,
    unsigned varints, and the byte-wise order used for sorted keys. */
module Bytes {
  type byte = x: nat | x < 256
  type bytes = seq<byte>

  datatype Option<+T> = None | Some(value: T)

  const TWO_63: int := 0x8000_0000_0000_0000
  const TWO_64: int := 0x1_0000_0000_0000_0000

  predicate IsInt64(x: int) { -TWO_63 <= x < TWO_63 }

  /** The bit pattern of an int64, read as a uint64. */
  function ToUint64(x: int): (u: nat)
    requires IsInt64(x)
    ensures u < TWO_64 && ToInt64(u) == x
  {
    if x < 0 then x + TWO_64 else x
  }

  /** The int64 with the low 64 bits of u. */
  function ToInt64(u: nat): (x: int)
    ensures IsInt64(x)
  {
    var w := u % TWO_64;
    if w < TWO_63 then w else w - TWO_64
  }

  function Zeros(n: nat): (s: bytes)
    ensures |s| == n && forall i :: 0 <= i < n ==> s[i] == 0
  {
    seq(n, i => 0)
  }

  lemma {:induction false} SliceOfConcat<T>(a: seq<T>, b: seq<T>, i: nat, j: nat)
    requires i <= j <= |a|
    ensures (a + b)[i..j] == a[i..j]
  {}

  lemma {:induction false} SliceAfter<T>(a: seq<T>, b: seq<T>, i: nat, j: nat)
    requires |a| <= i <= j <= |a| + |b|
    ensures (a + b)[i..j] == b[i - |a|..j - |a|]
  {}

  lemma {:induction false} SliceOfSlice<T>(a: seq<T>, i: nat, j: nat, k: nat, l: nat)
    requires k <= l <= j - i && j <= |a|
    ensures a[i..j][k..l] == a[i + k..i + l]
  {
    var x, y := a[i..j][k..l], a[i + k..i + l];
    forall t | 0 <= t < l - k
      ensures x[t] == y[t]
    {
      assert x[t] == a[i..j][k + t];
    }
  }

  lemma {:induction false} ConcatAssoc<T>(a: seq<T>, b: seq<T>, c: seq<T>)
    ensures a + b + c == a + (b + c)
  {}

  lemma {:induction false} SplitAt<T>(s: seq<T>, i: nat)
    requires i < |s|
    ensures s == s[..i] + [s[i]] + s[i + 1..]
  {}

  lemma {:induction false} MultisetSnoc<T>(s: seq<T>, e: T)
    ensures multiset(s + [e]) == multiset(s) + multiset{e}
  {}

  lemma {:induction false} MultisetRegroup<T>(a: multiset<T>, b: multiset<T>, c: multiset<T>)
    ensures a + b + c == a + (b + c) && a + b + c == a + c + b
  {}

  function Pow2(n: nat): (p: nat)
    ensures p > 0
  {
    if n == 0 then 1 else 2 * Pow2(n - 1)
  }

  // ---- fixed-width integers -------------------------------------------------

  ghost function Pow256(n: nat): (p: nat)
    ensures p > 0
  {
    if n == 0 then 1 else 256 * Pow256(n - 1)
  }

  function LittleEndian(x: nat, n: nat): (s: bytes)
    ensures |s| == n
  {
    if n == 0 then [] else [x % 256] + LittleEndian(x / 256, n - 1)
  }

  function FromLittleEndian(s: bytes): nat {
    if s == [] then 0 else s[0] + 256 * FromLittleEndian(s[1..])
  }

  lemma {:induction false} LittleEndianRoundTrip(x: nat, n: nat)
    requires x < Pow256(n)
    ensures FromLittleEndian(LittleEndian(x, n)) == x
  {
    if n > 0 {
      assert x / 256 < Pow256(n - 1);
      LittleEndianRoundTrip(x / 256, n - 1);
      assert LittleEndian(x, n)[1..] == LittleEndian(x / 256, n - 1);
    }
  }

  /** Eight bits a byte, the least significant first. */
  lemma {:induction false} LittleEndianDigits(x: nat, n: nat, i: nat)
    requires i < n
    ensures LittleEndian(x, n)[i] == x / Pow256(i) % 256
  {
    if i > 0 {
      LittleEndianDigits(x / 256, n - 1, i - 1);
      DivTwice(x, 256, Pow256(i - 1));
    }
  }

  lemma {:induction false} Pow256Of8()
    ensures Pow256(8) == TWO_64
  {
    assert Pow256(4) == 0x1_0000_0000;
    assert Pow256(6) == 0x1_0000_0000_0000;
  }

  /** The 8-byte little-endian form of an int64 (binary.LittleEndian.PutUint64). */
  function PutInt64(x: int): (s: bytes)
    requires IsInt64(x)
    ensures |s| == 8
  {
    LittleEndian(ToUint64(x), 8)
  }

  function GetInt64(s: bytes): (x: int)
    ensures IsInt64(x)
  {
    ToInt64(FromLittleEndian(s))
  }

  lemma {:induction false} Int64RoundTrip(x: int)
    requires IsInt64(x)
    ensures GetInt64(PutInt64(x)) == x
  {
    Pow256Of8();
    LittleEndianRoundTrip(ToUint64(x), 8);
  }

  function BigEndian(x: nat, n: nat): (s: bytes)
    ensures |s| == n
  {
    if n == 0 then [] else BigEndian(x / 256, n - 1) + [x % 256]
  }

  function FromBigEndian(s: bytes): nat {
    if s == [] then 0 else FromBigEndian(s[..|s| - 1]) * 256 + s[|s| - 1]
  }

  lemma {:induction false} BigEndianRoundTrip(x: nat, n: nat)
    requires x < Pow256(n)
    ensures FromBigEndian(BigEndian(x, n)) == x
  {
    if n > 0 {
      assert x / 256 < Pow256(n - 1);
      BigEndianRoundTrip(x / 256, n - 1);
      assert BigEndian(x, n)[..n - 1] == BigEndian(x / 256, n - 1);
    }
  }

  lemma {:induction false} BigEndianOnly(s: bytes)
    ensures BigEndian(FromBigEndian(s), |s|) == s
  {
    if s != [] {
      BigEndianOnly(s[..|s| - 1]);
      assert s == s[..|s| - 1] + [s[|s| - 1]];
    }
  }

  lemma {:induction false} BigEndianBound(s: bytes)
    ensures FromBigEndian(s) < Pow256(|s|)
  {
    if s != [] {
      BigEndianBound(s[..|s| - 1]);
    }
  }

  // ---- byte-wise order ------------------------------------------------------

  /** bytes.Compare(a, b) < 0. */
  predicate Below(a: bytes, b: bytes)
    decreases |a|
  {
    if b == [] then false
    else if a == [] then true
    else a[0] < b[0] || (a[0] == b[0] && Below(a[1..], b[1..]))
  }

  lemma {:induction false} BelowTotal(a: bytes, b: bytes)
    ensures a == b || Below(a, b) || Below(b, a)
    decreases |a|
  {
    if a != [] && b != [] && a[0] == b[0] {
      BelowTotal(a[1..], b[1..]);
      if a[1..] == b[1..] {
        assert a == [a[0]] + a[1..] == [b[0]] + b[1..] == b;
      }
    }
  }

  lemma {:induction false} BelowTransitive(a: bytes, b: bytes, c: bytes)
    requires Below(a, b) && Below(b, c)
    ensures Below(a, c)
    decreases |a|
  {
    if a != [] && a[0] == b[0] && b[0] == c[0] {
      BelowTransitive(a[1..], b[1..], c[1..]);
    }
  }

  lemma {:induction false} BelowIrreflexive(a: bytes)
    ensures !Below(a, a)
  {
    if a != [] {
      BelowIrreflexive(a[1..]);
    }
  }

  /** A common prefix does not affect the order. */
  lemma {:induction false} BelowSamePrefix(p: bytes, a: bytes, b: bytes)
    ensures Below(p + a, p + b) == Below(a, b)
  {
    if p == [] {
      assert p + a == a && p + b == b;
    } else {
      BelowSamePrefix(p[1..], a, b);
      assert (p + a)[1..] == p[1..] + a && (p + b)[1..] == p[1..] + b;
    }
  }

  /** The order is decided at the first differing byte. */
  lemma {:induction false} BelowAtDifference(p: bytes, a: bytes, b: bytes)
    requires a != [] && b != [] && a[0] != b[0]
    ensures Below(p + a, p + b) == (a[0] < b[0])
  {
    BelowSamePrefix(p, a, b);
  }

  /** Byte order on keys never inverts the order of their leading big-endian integer. */
  lemma {:induction false} BelowIsMonotone(a: bytes, b: bytes, n: nat)
    requires n <= |a| && n <= |b|
    requires Below(a, b)
    ensures FromBigEndian(a[..n]) <= FromBigEndian(b[..n])
  {
    if n > 0 {
      var k := FirstDifference(a, b, n);
      if k == n {
        assert a[..n] == b[..n];
      } else {
        assert a == a[..k] + a[k..] && b == b[..k] + b[k..];
        assert a[..k] == b[..k];
        BelowAtDifference(a[..k], a[k..], b[k..]);
        BigEndianSplits(a[..n], b[..n], k);
      }
    }
  }

  ghost function FirstDifference(a: bytes, b: bytes, n: nat): (k: nat)
    requires n <= |a| && n <= |b|
    ensures k <= n && a[..k] == b[..k] && (k < n ==> a[k] != b[k])
    decreases n
  {
    if n == 0 then 0
    else
      var k := FirstDifference(a, b, n - 1);
      if k < n - 1 then k
      else if a[n - 1] == b[n - 1] then
        assert a[..n] == a[..n - 1] + [a[n - 1]] == b[..n];
        n
      else n - 1
  }

  lemma {:induction false} BigEndianSplits(a: bytes, b: bytes, k: nat)
    requires |a| == |b| && k < |a|
    requires a[..k] == b[..k] && a[k] < b[k]
    ensures FromBigEndian(a) < FromBigEndian(b)
    decreases |a|
  {
    var m := |a| - 1;
    if k < m {
      assert a[..m][..k] == a[..k] && b[..m][..k] == b[..k];
      assert a[..m][k] == a[k] && b[..m][k] == b[k];
      BigEndianSplits(a[..m], b[..m], k);
    } else {
      assert a[..m] == a[..k] && b[..m] == b[..k];
    }
  }

  // ---- unsigned varints -----------------------------------------------------

  /** binary.PutUvarint: 7 bits a byte, least significant group first. */
  function Uvarint(x: nat): (s: bytes)
    ensures |s| > 0
  {
    if x < 128 then [x] else [128 + x % 128] + Uvarint(x / 128)
  }

  /** binary.Uvarint: the value and the number of bytes it took, None where Go reports a
      truncated or overflowing varint. more is how many bytes may follow this one; the
      tenth and last byte has room for one bit. */
  function ReadUvarint(s: bytes, more: nat := 9): (r: Option<(nat, nat)>)
    ensures r.Some? ==> 0 < r.value.1 <= |s|
    decreases |s|
  {
    if s == [] then None
    else if s[0] < 128 then
      if more == 0 && s[0] > 1 then None else Some((s[0], 1))
    else if more == 0 then None
    else
      match ReadUvarint(s[1..], more - 1)
      case None => None
      case Some((v, n)) => Some((s[0] - 128 + 128 * v, n + 1))
  }

  lemma {:induction false} UvarintRoundTripFrom(x: nat, rest: bytes, more: nat)
    requires x < 2 * Pow128(more)
    ensures ReadUvarint(Uvarint(x) + rest, more) == Some((x, |Uvarint(x)|))
    decreases more
  {
    var s := Uvarint(x) + rest;
    if x < 128 {
      assert s[0] == x;
    } else {
      assert more > 0;
      UvarintRoundTripFrom(x / 128, rest, more - 1);
      assert s[0] == 128 + x % 128;
      assert s[1..] == Uvarint(x / 128) + rest;
    }
  }

  /** Every uint64 survives PutUvarint followed by Uvarint, whatever bytes follow it. */
  lemma {:induction false} UvarintRoundTrip(x: nat, rest: bytes)
    requires x < TWO_64
    ensures ReadUvarint(Uvarint(x) + rest) == Some((x, |Uvarint(x)|))
  {
    assert Pow128(4) == 0x1000_0000;
    assert Pow128(8) == 0x100_0000_0000_0000 by {
      assert Pow128(6) == 0x400_0000_0000;
    }
    UvarintRoundTripFrom(x, rest, 9);
  }

  /** What is read fits the bytes that may follow: a uint64 for the ten of them. */
  lemma {:induction false} ReadUvarintBound(s: bytes, more: nat)
    ensures ReadUvarint(s, more).Some? ==>
              ReadUvarint(s, more).value.0 < 2 * Pow128(more) && ReadUvarint(s, more).value.1 <= more + 1
    decreases more
  {
    if more > 0 && s != [] && s[0] >= 128 {
      ReadUvarintBound(s[1..], more - 1);
    } else if more > 0 {
      assert Pow128(more) == 128 * Pow128(more - 1);
    }
  }

  lemma {:induction false} ReadIsUint64(s: bytes)
    ensures ReadUvarint(s).Some? ==> ReadUvarint(s).value.0 < TWO_64 && ReadUvarint(s).value.1 <= 10
  {
    ReadUvarintBound(s, 9);
    assert Pow128(9) == 0x8000_0000_0000_0000 by {
      assert Pow128(4) == 0x1000_0000;
      assert Pow128(8) == 0x100_0000_0000_0000;
    }
  }

  /** Among the strings of a varint's length, only the varint is read as its number. */
  lemma {:induction false} UvarintOnly(s: bytes, x: nat, more: nat)
    requires |s| == |Uvarint(x)| && ReadUvarint(s, more).Some? && ReadUvarint(s, more).value.0 == x
    ensures s == Uvarint(x)
    decreases more
  {
    if x >= 128 {
      assert s[0] >= 128;
      UvarintOnly(s[1..], x / 128, more - 1);
      assert s == [s[0]] + s[1..];
    }
  }

  /** Seven bits a byte, the least significant first. */
  lemma {:induction false} UvarintDigits(x: nat, i: nat)
    requires i < |Uvarint(x)|
    ensures Uvarint(x)[i] % 128 == x / Pow128(i) % 128
    decreases x
  {
    if x >= 128 && i > 0 {
      UvarintDigits(x / 128, i - 1);
      DivTwice(x, 128, Pow128(i - 1));
    }
  }

  lemma {:induction false} DivTwice(x: nat, a: nat, b: nat)
    requires a > 0 && b > 0
    ensures a * b > 0 && x / a / b == x / (a * b)
  {
    var q, r := x / a, x % a;
    var s, u := q / b, q % b;
    assert x == a * (b * s + u) + r;
    assert x == (a * b) * s + (a * u + r) by { assert a * (b * s + u) == (a * b) * s + a * u; }
    assert a * u + r < a * b by { assert a * u <= a * (b - 1) by { MulMono(a, u, b - 1); } }
    DivIs(x, a * b, s, a * u + r);
  }

  lemma {:induction false} MulMono(a: nat, u: nat, v: nat)
    requires u <= v
    ensures a * u <= a * v
  {}

  lemma {:induction false} DivIs(x: nat, d: nat, q: nat, r: nat)
    requires d > 0 && x == d * q + r && r < d
    ensures x / d == q
  {
    var k := x / d;
    if k < q {
      MulMono(d, k + 1, q);
    } else if k > q {
      MulMono(d, q + 1, k);
    }
  }

  /** All bytes of a varint but the last carry the continuation bit. */
  lemma {:induction false} UvarintContinuation(x: nat, i: nat)
    requires i < |Uvarint(x)|
    ensures (Uvarint(x)[i] >= 128) <==> i < |Uvarint(x)| - 1
    decreases x
  {
    if x >= 128 && i > 0 {
      UvarintContinuation(x / 128, i - 1);
    }
  }

  lemma {:induction false} UvarintLength(x: nat, n: nat)
    requires n > 0 && x < Pow128(n)
    ensures |Uvarint(x)| <= n
    decreases n
  {
    if x >= 128 {
      assert n > 1;
      UvarintLength(x / 128, n - 1);
    }
  }

  ghost function Pow128(n: nat): (p: nat)
    ensures p > 0
  {
    if n == 0 then 1 else 128 * Pow128(n - 1)
  }
}
