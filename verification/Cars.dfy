/** Multihashes, CIDs and CARv1 sections as byte strings. */
module Cars {
  import opened Bytes

  const RAW := 0x55
  const DAG_CBOR := 0x71
  const SHA2_256 := 0x12
  const MAX_SECTION: nat := 0x200_0000  // 32 MiB, carutil.MaxAllowedSectionSize

  /** A multihash: hash function code and digest. */
  datatype Multihash = Multihash(code: nat, digest: bytes) {
    /** Digests are limited to 127 bytes. */
    predicate Ok() { code < TWO_64 && |digest| < 128 }

    function Encode(): bytes { Uvarint(code) + Uvarint(|digest|) + digest }
  }

  /** A version 1 CID. */
  datatype Cid = Cid(codec: nat, hash: Multihash) {
    predicate Ok() { codec < TWO_64 && hash.Ok() }

    function Encode(): (s: bytes)
      ensures |s| > 0
    {
      Uvarint(1) + Uvarint(codec) + hash.Encode()
    }
  }

  function ParseMultihash(s: bytes): (r: Option<(Multihash, nat)>)
    ensures r.Some? ==> r.value.1 <= |s|
  {
    match ReadUvarint(s)
    case None => None
    case Some((code, n)) =>
      match ReadUvarint(s[n..])
      case None => None
      case Some((len, m)) =>
        if |s| < n + m + len then None
        else Some((Multihash(code, s[n + m..n + m + len]), n + m + len))
  }

  /** cid.CidFromBytes for version 1 CIDs: the CID and how many bytes it took. */
  function ParseCid(s: bytes): (r: Option<(Cid, nat)>)
    ensures r.Some? ==> r.value.1 <= |s|
  {
    match ReadUvarint(s)
    case None => None
    case Some((version, n)) =>
      if version != 1 then None
      else
        match ReadUvarint(s[n..])
        case None => None
        case Some((codec, m)) =>
          match ParseMultihash(s[n + m..])
          case None => None
          case Some((h, l)) => Some((Cid(codec, h), n + m + l))
  }

  lemma {:induction false} MultihashRoundTrip(h: Multihash, rest: bytes)
    requires h.Ok()
    ensures ParseMultihash(h.Encode() + rest) == Some((h, |h.Encode()|))
  {
    var a, b := Uvarint(h.code), Uvarint(|h.digest|);
    var s := h.Encode() + rest;
    assert s == a + (b + h.digest + rest);
    UvarintRoundTrip(h.code, b + h.digest + rest);
    assert s[|a|..] == b + (h.digest + rest);
    UvarintRoundTrip(|h.digest|, h.digest + rest);
    assert s[|a| + |b|..|a| + |b| + |h.digest|] == h.digest;
  }

  /** A CID is recovered from its bytes whatever follows it. */
  lemma {:induction false} CidRoundTrip(c: Cid, rest: bytes)
    requires c.Ok()
    ensures ParseCid(c.Encode() + rest) == Some((c, |c.Encode()|))
  {
    hide ReadUvarint, ParseMultihash, Uvarint;
    var a, b, h := Uvarint(1), Uvarint(c.codec), c.hash.Encode();
    var s := c.Encode() + rest;
    assert s == a + (b + h + rest);
    UvarintRoundTrip(1, b + h + rest);
    assert s[|a|..] == b + (h + rest);
    UvarintRoundTrip(c.codec, h + rest);
    assert s[|a| + |b|..] == h + rest;
    MultihashRoundTrip(c.hash, rest);
  }

  /** The bytes of a CID over a SHA-256 digest: version, codec, hash function, digest length, digest. */
  lemma {:induction false} Sha256CidBytes(codec: nat, digest: bytes)
    requires codec < 128 && |digest| == 32
    ensures Cid(codec, Multihash(SHA2_256, digest)).Encode() == [0x01, codec, 0x12, 0x20] + digest
  {
    assert Uvarint(1) == [1] && Uvarint(codec) == [codec] && Uvarint(0x12) == [0x12] && Uvarint(32) == [0x20];
    var h := Multihash(SHA2_256, digest);
    assert h.Encode() == [0x12, 0x20] + digest;
    assert [1] + [codec] + ([0x12, 0x20] + digest) == [0x01, codec, 0x12, 0x20] + digest;
  }

  /** No multihash encoding is a prefix of another one. */
  lemma {:induction false} MultihashPrefixFree(a: Multihash, b: Multihash, x: bytes, y: bytes)
    requires a.Ok() && b.Ok()
    requires a.Encode() + x == b.Encode() + y
    ensures a == b && x == y
  {
    MultihashRoundTrip(a, x);
    MultihashRoundTrip(b, y);
    assert x == (a.Encode() + x)[|a.Encode()|..];
    assert y == (b.Encode() + y)[|b.Encode()|..];
  }

  lemma {:induction false} CidLength(c: Cid)
    requires c.Ok()
    ensures |c.Encode()| <= 160
  {
    assert Pow128(5) == 0x8_0000_0000;
    assert Pow128(8) == 0x100_0000_0000_0000;
    assert Pow128(10) > TWO_64 by { assert Pow128(10) == 128 * (128 * Pow128(8)); }
    UvarintLength(1, 10);
    UvarintLength(c.codec, 10);
    UvarintLength(c.hash.code, 10);
    UvarintLength(|c.hash.digest|, 10);
  }

  // ---- sections ----------------------------------------------------------------

  /** One block of a CAR file. */
  datatype Block = Block(cid: Cid, data: bytes) {
    predicate Ok() { cid.Ok() && EntryLen() <= MAX_SECTION }

    /** Length of the CID and data, which the section's varint announces. */
    function EntryLen(): nat { |cid.Encode()| + |data| }

    /** carutil.LdWrite, CarLog.ldWrite */
    function Section(): (s: bytes)
      ensures |s| == |Uvarint(EntryLen())| + EntryLen()
    {
      Uvarint(EntryLen()) + cid.Encode() + data
    }
  }

  /** carutil.ReadNode: a section read from the head of a stream, and its total length. */
  function ReadNode(s: bytes): (r: Option<(Block, nat)>)
    ensures r.Some? ==> 0 < r.value.1 <= |s|
  {
    match ReadUvarint(s)
    case None => None
    case Some((len, n)) =>
      if len > MAX_SECTION || |s| < n + len then None
      else
        var ent := s[n..n + len];
        match ParseCid(ent)
        case None => None
        case Some((c, m)) => Some((Block(c, ent[m..]), n + len))
  }

  /** A section is read back from the head of any stream that starts with it. */
  lemma {:induction false} SectionRoundTrip(b: Block, rest: bytes)
    requires b.Ok()
    ensures ReadNode(b.Section() + rest) == Some((b, |b.Section()|))
  {
    hide ReadUvarint, ParseCid, Uvarint, Cid.Encode;
    var v, c := Uvarint(b.EntryLen()), b.cid.Encode();
    var s := b.Section() + rest;
    assert s == v + (c + b.data + rest);
    UvarintRoundTrip(b.EntryLen(), c + b.data + rest);
    assert s[|v|..|v| + b.EntryLen()] == c + b.data;
    CidRoundTrip(b.cid, b.data);
    assert (c + b.data)[|c|..] == b.data;
  }

  /** The sections of a sequence of blocks, in order. */
  function Sections(bs: seq<Block>): bytes {
    if bs == [] then [] else Sections(bs[..|bs| - 1]) + bs[|bs| - 1].Section()
  }

  lemma {:induction false} SectionsSnoc(bs: seq<Block>, b: Block)
    ensures Sections(bs + [b]) == Sections(bs) + b.Section()
  {
    hide Block.Section;
    assert (bs + [b])[..|bs|] == bs;
  }

  lemma {:induction false} SectionsConcat(a: seq<Block>, b: seq<Block>)
    ensures Sections(a + b) == Sections(a) + Sections(b)
  {
    hide Block.Section, Sections;
    if b == [] {
      assert a + b == a;
      SectionsNone();
    } else {
      var init, last := b[..|b| - 1], b[|b| - 1];
      SectionsConcat(a, init);
      assert a + b == a + init + [last] && b == init + [last];
      SectionsSnoc(a + init, last);
      SectionsSnoc(init, last);
      ConcatAssoc(Sections(a), Sections(init), last.Section());
    }
  }

  lemma {:induction false} SectionsNone()
    ensures Sections([]) == []
  {}

  lemma {:induction false} SectionsOne(b: Block)
    ensures Sections([b]) == b.Section()
  {
    hide Block.Section;
    SectionsSnoc([], b);
    assert [] + [b] == [b];
    assert [] + b.Section() == b.Section();
  }

  /** Where block i starts among the sections, that section is what a reader finds. */
  lemma {:induction false} SectionsAt(bs: seq<Block>, i: nat)
    requires i < |bs|
    ensures Sections(bs) == Sections(bs[..i]) + bs[i].Section() + Sections(bs[i + 1..])
  {
    hide Block.Section, Sections;
    SplitAt(bs, i);
    SectionsConcat(bs[..i] + [bs[i]], bs[i + 1..]);
    SectionsSnoc(bs[..i], bs[i]);
  }
}
