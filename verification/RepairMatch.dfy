/** match32Bytes and b32overlap: where in a damaged section the CID most likely starts. */
module RepairMatch {
  import opened Bytes
  import opened Cars

  /** How many of the low k bits of two bytes agree: 8 - OnesCount8(a ^ b) for k = 8. */
  function EqualBits(a: nat, b: nat, k: nat): (n: nat)
    ensures n <= k
  {
    if k == 0 then 0 else (if a % 2 == b % 2 then 1 else 0) + EqualBits(a / 2, b / 2, k - 1)
  }

  lemma {:induction false} AllBitsEqual(a: nat, b: nat, k: nat)
    requires a < Pow2(k) && b < Pow2(k)
    ensures EqualBits(a, b, k) == k <==> a == b
  {
    if k > 0 {
      AllBitsEqual(a / 2, b / 2, k - 1);
    }
  }

  lemma {:induction false} ByteBits(a: byte, b: byte)
    ensures EqualBits(a, b, 8) == 8 <==> a == b
  {
    assert Pow2(4) == 16;
    assert Pow2(8) == 256;
    AllBitsEqual(a, b, 8);
  }

  /** Matching bits of a pattern laid over the head of b. */
  function Overlap(patt: bytes, b: bytes): (n: nat)
    requires |patt| <= |b|
    ensures n <= 8 * |patt|
  {
    if patt == [] then 0
    else
      var k := |patt| - 1;
      Overlap(patt[..k], b) + EqualBits(patt[k], b[k], 8)
  }

  /** Full overlap is equality. */
  lemma {:induction false} FullOverlap(patt: bytes, b: bytes)
    requires |patt| <= |b|
    ensures Overlap(patt, b) == 8 * |patt| <==> patt == b[..|patt|]
  {
    if patt != [] {
      var k := |patt| - 1;
      FullOverlap(patt[..k], b);
      ByteBits(patt[k], b[k]);
      assert patt == patt[..k] + [patt[k]] && b[..k + 1] == b[..k] + [b[k]];
      if patt == b[..k + 1] {
        assert patt[..k] == b[..k + 1][..k] == b[..k];
      }
    }
  }

  method B32Overlap(patt: bytes, b: bytes) returns (overlap: nat)
    requires |patt| <= |b|
    ensures overlap == Overlap(patt, b)
  {
    overlap := 0;
    for i := 0 to |patt|
      invariant overlap == Overlap(patt[..i], b)
    {
      assert patt[..i + 1][..i] == patt[..i];
      overlap := overlap + EqualBits(patt[i], b[i], 8);
    }
    assert patt[..|patt|] == patt;
  }

  /** The first of the four offsets with the largest overlap. */
  predicate BestOffset(patt: bytes, buf: bytes, off: nat)
    requires |patt| + 3 <= |buf|
  {
    && off < 4
    && forall i :: 0 <= i < 4 ==>
         && (i < off ==> Overlap(patt, buf[i..]) < Overlap(patt, buf[off..]))
         && (i >= off ==> Overlap(patt, buf[i..]) <= Overlap(patt, buf[off..]))
  }

  lemma {:induction false} OneBestOffset(patt: bytes, buf: bytes, a: nat, b: nat)
    requires |patt| + 3 <= |buf| && BestOffset(patt, buf, a) && BestOffset(patt, buf, b)
    ensures a == b
  {
    hide Overlap;
    var x, y := Overlap(patt, buf[a..]), Overlap(patt, buf[b..]);
    assert x <= y && y <= x;
  }

  /** None where the program rejects the lengths. */
  method Match32Bytes(pattern: bytes, buf: bytes) returns (r: Option<(nat, nat)>)
    ensures r.None? <==> |pattern| != 32 || |buf| < 36
    ensures r.Some? ==> BestOffset(pattern, buf, r.value.0) && r.value.1 == Overlap(pattern, buf[r.value.0..])
  {
    hide Overlap;
    if |pattern| != 32 || |buf| < 4 + 32 {
      return None;
    }
    var maxOverlap, maxOverlapOff := 0, 0;
    for i := 0 to 4
      invariant maxOverlapOff < 4 && (i > 0 ==> maxOverlap == Overlap(pattern, buf[maxOverlapOff..]))
      invariant i == 0 ==> maxOverlap == 0 && maxOverlapOff == 0
      invariant forall j :: 0 <= j < i ==> Overlap(pattern, buf[j..]) <= maxOverlap
      invariant forall j :: 0 <= j < i && j < maxOverlapOff ==> Overlap(pattern, buf[j..]) < maxOverlap
      invariant maxOverlapOff <= i && maxOverlap < 256
    {
      var overlap := B32Overlap(pattern, buf[i..]);
      if overlap == 32 * 8 {
        return Some((i, 256));
      }
      if overlap > maxOverlap {
        maxOverlap := overlap;
        maxOverlapOff := i;
      }
    }
    return Some((maxOverlapOff, maxOverlap));
  }

  // ---- undamaged sections -----------------------------------------------------------------

  /** CIDs of the CARs handled here: version 1, raw or DAG-CBOR, a 32-byte SHA-256 digest. */
  predicate Cid36(c: Cid) {
    c.Ok() && (c.codec == RAW || c.codec == DAG_CBOR) && |c.Encode()| == 36
  }

  lemma {:induction false} CidStarts(c: Cid)
    requires Cid36(c)
    ensures c.Encode()[0] == 1 && c.Encode()[1] == c.codec
  {
    var rest := c.hash.Encode();
    assert c.Encode() == [1] + ([c.codec] + rest);
  }

  /** A section of at most 32 MiB has a length prefix of at most four bytes. */
  lemma {:induction false} PrefixLength(b: Block)
    requires b.Ok()
    ensures |Uvarint(b.EntryLen())| <= 4
  {
    assert Pow128(4) == 0x1000_0000;
    UvarintLength(b.EntryLen(), 4);
  }

  /** On an undamaged section the winning offset is where the CID is: bytes of the length prefix
      carry the continuation bit or stand before a second 1. */
  lemma {:induction false} IntactOffset(b: Block, source: bytes)
    requires b.Ok() && Cid36(b.cid) && |source| >= 40 && b.Section() <= source
    ensures BestOffset(b.cid.Encode()[..32], source[1..40], |Uvarint(b.EntryLen())| - 1)
  {
    var v, c := Uvarint(b.EntryLen()), b.cid.Encode();
    var o, patt, buf := |v| - 1, c[..32], source[1..40];
    PrefixLength(b);
    CidInPlace(b, source);
    hide Uvarint, Cid.Encode, Block.Section, Cid36;
    FullOverlap(patt, buf[o..]);
    forall i | 0 <= i < o
      ensures Overlap(patt, buf[i..]) < 256
    {
      hide Overlap;
      FullOverlap(patt, buf[i..]);
      NotEarlier(b, source, i);
    }
  }

  lemma {:induction false} CidInPlace(b: Block, source: bytes)
    requires Cid36(b.cid) && |source| >= 40 && b.Section() <= source && |Uvarint(b.EntryLen())| <= 4
    ensures source[1..40][|Uvarint(b.EntryLen())| - 1..][..32] == b.cid.Encode()[..32]
  {
    hide Uvarint, Cid.Encode;
    var v, c := Uvarint(b.EntryLen()), b.cid.Encode();
    var w := source[1..40][|v| - 1..][..32];
    ConcatAssoc(v, c, b.data);
    forall k | 0 <= k < 32
      ensures w[k] == c[..32][k]
    {
      assert w[k] == source[|v| + k] == b.Section()[|v| + k];
    }
  }

  lemma {:induction false} NotEarlier(b: Block, source: bytes, i: nat)
    requires b.Ok() && Cid36(b.cid) && |source| >= 40 && b.Section() <= source
    requires i < |Uvarint(b.EntryLen())| - 1 && |Uvarint(b.EntryLen())| <= 4
    ensures b.cid.Encode()[..32] != source[1..40][i..][..32]
  {
    var v, c := Uvarint(b.EntryLen()), b.cid.Encode();
    CidStarts(b.cid);
    var w := source[1..40][i..][..32];
    assert w[0] == source[1 + i] && w[1] == source[2 + i];
    assert b.Section() == v + (c + b.data);
    assert source[1 + i] == b.Section()[1 + i] == v[1 + i];
    UvarintContinuation(b.EntryLen(), 1 + i);
    if 1 + i == |v| - 1 {
      assert source[2 + i] == b.Section()[2 + i] == c[0];
    }
  }
}
