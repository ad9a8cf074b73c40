/** A BSST as an index from multihashes to offsets: building it from a listing, and the
    batched Has and Get of its users. */
module BsstIndex {
  import opened Bytes
  import opened Cars
  import opened BloomRank
  import opened BsstTable
  import opened BsstCreate
  import opened BsstLookup

  /** SHA-256, kept abstract, and the salt of the table's header. */
  datatype Keyer = Keyer(sha: bytes -> Key, salt: bytes)

  /** copy(buf[40:], c) into a zeroed 64-byte field. */
  function Fit64(c: bytes): (r: bytes)
    ensures |r| == 64
  {
    if |c| >= 64 then c[..64] else c + Zeros(64 - |c|)
  }

  function MakeKey(kr: Keyer, c: bytes, i: nat): Key {
    kr.sha(Message(kr.salt, c, i))
  }

  function Message(salt: bytes, c: bytes, i: nat): bytes {
    salt + LittleEndian(i, 8) + Fit64(c)
  }

  // ---- what the hashed message says ---------------------------------------------------------

  /** Read off its bytes: a message with this salt, this position and this multihash. */
  ghost predicate Carries(m: bytes, salt: bytes, i: nat, c: bytes) {
    && |m| == 104 && |c| <= 64
    && m[..32] == salt && FromLittleEndian(m[32..40]) == i
    && m[40..40 + |c|] == c && forall j :: 40 + |c| <= j < 104 ==> m[j] == 0
  }

  ghost predicate IsMultihash(c: bytes) { exists h: Multihash :: h.Ok() && c == h.Encode() }

  lemma {:induction false} MessageCarries(salt: bytes, c: bytes, i: nat)
    requires |salt| == 32 && |c| <= 64 && i < TWO_64
    ensures Carries(Message(salt, c, i), salt, i, c)
  {
    hide LittleEndian, FromLittleEndian;
    Pow256Of8();
    LittleEndianRoundTrip(i, 8);
    var m := Message(salt, c, i);
    assert m[..32] == salt && m[32..40] == LittleEndian(i, 8) && m[40..] == Fit64(c);
    assert Fit64(c)[..|c|] == c;
    assert m[40..40 + |c|] == m[40..][..|c|];
    forall j | 40 + |c| <= j < 104
      ensures m[j] == 0
    {
      assert m[j] == Fit64(c)[j - 40];
    }
  }

  /** A message carries one position and one multihash. */
  lemma {:induction false} CarriesOne(m: bytes, salt: bytes, i: nat, c: bytes, j: nat, d: bytes)
    requires Carries(m, salt, i, c) && Carries(m, salt, j, d) && IsMultihash(c) && IsMultihash(d)
    ensures i == j && c == d
  {
    hide FromLittleEndian, Multihash.Encode, Multihash.Ok;
    assert c + Zeros(64 - |c|) == m[40..] by { FieldIs(m, salt, i, c); }
    assert d + Zeros(64 - |d|) == m[40..] by { FieldIs(m, salt, j, d); }
    var a: Multihash :| a.Ok() && c == a.Encode();
    var b: Multihash :| b.Ok() && d == b.Encode();
    MultihashPrefixFree(a, b, Zeros(64 - |c|), Zeros(64 - |d|));
  }

  lemma {:induction false} FieldIs(m: bytes, salt: bytes, i: nat, c: bytes)
    requires Carries(m, salt, i, c)
    ensures c + Zeros(64 - |c|) == m[40..]
  {
    var x, y := c + Zeros(64 - |c|), m[40..];
    assert |x| == |y|;
    forall k | 0 <= k < 64
      ensures x[k] == y[k]
    {
      if k < |c| {
        assert m[40..40 + |c|][k] == c[k];
      }
    }
  }

  /** What one callback of Source.List passes: a multihash and its offsets. */
  datatype Item = Item(c: bytes, offs: seq<int>)

  function ItemEntries(kr: Keyer, it: Item, upTo: nat): (es: seq<Entry>)
    requires upTo <= |it.offs|
    ensures |es| == upTo
    ensures forall i :: 0 <= i < upTo ==> es[i] == Entry(MakeKey(kr, it.c, i), it.offs[i])
  {
    seq(upTo, i requires 0 <= i < upTo => Entry(MakeKey(kr, it.c, i), it.offs[i]))
  }

  function Collect(kr: Keyer, src: seq<Item>): seq<Entry> {
    if src == [] then []
    else
      var last := src[|src| - 1];
      Collect(kr, src[..|src| - 1]) + ItemEntries(kr, last, |last.offs|)
  }

  lemma {:induction false} CollectHas(kr: Keyer, src: seq<Item>, j: nat, i: nat)
    requires j < |src| && i < |src[j].offs|
    ensures Entry(MakeKey(kr, src[j].c, i), src[j].offs[i]) in Collect(kr, src)
  {
    var last := src[|src| - 1];
    if j < |src| - 1 {
      CollectHas(kr, src[..|src| - 1], j, i);
    } else {
      assert ItemEntries(kr, last, |last.offs|)[i] in ItemEntries(kr, last, |last.offs|);
    }
  }

  lemma {:induction false} CollectFrom(kr: Keyer, src: seq<Item>, e: Entry) returns (j: nat, i: nat)
    requires e in Collect(kr, src)
    ensures j < |src| && i < |src[j].offs|
    ensures e == Entry(MakeKey(kr, src[j].c, i), src[j].offs[i])
  {
    var last := src[|src| - 1];
    if e in Collect(kr, src[..|src| - 1]) {
      j, i := CollectFrom(kr, src[..|src| - 1], e);
    } else {
      var es := ItemEntries(kr, last, |last.offs|);
      i :| 0 <= i < |es| && es[i] == e;
      j := |src| - 1;
    }
  }

  /** Every key of the listing can be placed, at every level, by integer division. */
  ghost predicate SourceFits(kr: Keyer, src: seq<Item>, n: nat)
    requires GoodSize(n)
  {
    forall j, i :: 0 <= j < |src| && 0 <= i < |src[j].offs| ==>
      IsInt64(src[j].offs[i]) && InRangeAll(MakeKey(kr, src[j].c, i), n)
  }

  lemma {:induction false} CollectPlaceable(kr: Keyer, src: seq<Item>, n: nat)
    requires GoodSize(n) && SourceFits(kr, src, n)
    ensures Placeable(Collect(kr, src), n)
  {
    hide InRangeAll;
    var es := Collect(kr, src);
    forall x | 0 <= x < |es|
      ensures IsInt64(es[x].off) && InRangeAll(es[x].mhh, n)
    {
      assert es[x] in es;
      var j, i := CollectFrom(kr, src, es[x]);
    }
  }

  /** bsst.Create over a source. */
  method CreateFrom(kr: Keyer, entries: nat, src: seq<Item>) returns (t: Table, ghost list: seq<Entry>)
    requires 0 < entries <= 0x4000_0000_0000_0000
    requires SourceFits(kr, src, L0Buckets(entries))
    ensures t.l0Buckets == L0Buckets(entries)
    ensures Holds(t, list) && multiset(list) == multiset(Collect(kr, src))
  {
    CollectPlaceable(kr, src, L0Buckets(entries));
    hide SourceFits, Placeable, Holds, L0Buckets;
    var collected: seq<Entry> := [];
    var j := 0;
    while j < |src|
      invariant 0 <= j <= |src| && collected == Collect(kr, src[..j])
    {
      var i := 0;
      while i < |src[j].offs|
        invariant 0 <= i <= |src[j].offs|
        invariant collected == Collect(kr, src[..j]) + ItemEntries(kr, src[j], i)
      {
        collected := collected + [Entry(MakeKey(kr, src[j].c, i), src[j].offs[i])];
        i := i + 1;
      }
      assert src[..j + 1][..j] == src[..j];
      j := j + 1;
    }
    assert src[..j] == src;
    t, list := Create(entries, collected);
  }

  /** A table that Create has made from the listing. */
  ghost predicate BuiltFrom(t: Table, kr: Keyer, src: seq<Item>) {
    exists list :: Holds(t, list) && multiset(list) == multiset(Collect(kr, src))
  }

  /** The salted hash does not confuse c with any other listed (multihash, position) pair. */
  ghost predicate NoCollision(kr: Keyer, src: seq<Item>, c: bytes) {
    forall j, i ::
      0 <= j < |src| && 0 <= i < |src[j].offs| && SamePrefix(MakeKey(kr, src[j].c, i), MakeKey(kr, c, 0)) ==>
        src[j].c == c && i == 0
  }

  /** A listing of encoded multihashes that fit the field. */
  ghost predicate Multihashes(src: seq<Item>) {
    forall j :: 0 <= j < |src| ==> IsMultihash(src[j].c) && |src[j].c| <= 64 && |src[j].offs| < TWO_64
  }

  /** A message that is hashed for the listing, or for the query of c. */
  ghost predicate Hashed(salt: bytes, src: seq<Item>, c: bytes, m: bytes) {
    || Carries(m, salt, 0, c)
    || exists j, i :: 0 <= j < |src| && 0 <= i < |src[j].offs| && Carries(m, salt, i, src[j].c)
  }

  /** SHA-256 keeps these messages, and only these need be considered, apart by 24 bytes. */
  ghost predicate KeepsApart(kr: Keyer, src: seq<Item>, c: bytes) {
    forall m, n :: Hashed(kr.salt, src, c, m) && Hashed(kr.salt, src, c, n) && SamePrefix(kr.sha(m), kr.sha(n)) ==>
      m == n
  }

  /** The key depends on all of multihash and position: collisions are those of the hash function alone. */
  lemma {:induction false} OnlyShaCollides(kr: Keyer, src: seq<Item>, c: bytes)
    requires |kr.salt| == 32 && Multihashes(src) && IsMultihash(c) && |c| <= 64 && KeepsApart(kr, src, c)
    ensures NoCollision(kr, src, c)
  {
    hide Carries, SamePrefix, IsMultihash, Message;
    MessageCarries(kr.salt, c, 0);
    var n := Message(kr.salt, c, 0);
    forall j, i |
      0 <= j < |src| && 0 <= i < |src[j].offs| && SamePrefix(MakeKey(kr, src[j].c, i), MakeKey(kr, c, 0))
      ensures src[j].c == c && i == 0
    {
      MessageCarries(kr.salt, src[j].c, i);
      var m := Message(kr.salt, src[j].c, i);
      assert Hashed(kr.salt, src, c, m) && Hashed(kr.salt, src, c, n);
      CarriesOne(m, kr.salt, i, src[j].c, 0, c);
    }
  }

  /** What queries of c rest on: the table is that of a listing of multihashes, and hashes do not collide. */
  ghost predicate Sound(t: Table, kr: Keyer, src: seq<Item>, c: bytes) {
    && BuiltFrom(t, kr, src) && GoodSize(t.l0Buckets) && InRangeAll(MakeKey(kr, c, 0), t.l0Buckets)
    && |kr.salt| == 32 && Multihashes(src) && IsMultihash(c) && |c| <= 64 && KeepsApart(kr, src, c)
  }

  /** The key cannot be taken for padding. */
  ghost predicate NotPadding(kr: Keyer, c: bytes) { MakeKey(kr, c, 0)[..KEY_BYTES] != Zeros(KEY_BYTES) }

  /** A query tells the listing: an offset listed first for a listed multihash, nothing for another one. */
  lemma {:induction false} QueryTells(t: Table, kr: Keyer, src: seq<Item>, c: bytes)
    requires Sound(t, kr, src, c)
    ensures
      var r := FindIn(t, MakeKey(kr, c, 0));
      && (HasItem(src, c) ==> r.Found? && OffsetListedFor(src, c, r.off))
      && (!HasItem(src, c) && NotPadding(kr, c) ==> r == Absent)
  {
    hide BuiltFrom, KeepsApart, Multihashes, IsMultihash, InRangeAll, GoodSize, MakeKey, SamePrefix, FindIn;
    OnlyShaCollides(kr, src, c);
    if HasItem(src, c) {
      AgreesOnListed(t, kr, src, c);
    } else if NotPadding(kr, c) {
      AgreesOnUnlisted(t, kr, src, MakeKey(kr, c, 0));
    }
  }

  ghost predicate HasItem(src: seq<Item>, c: bytes) {
    exists j :: 0 <= j < |src| && src[j].c == c && src[j].offs != []
  }

  ghost predicate OffsetListedFor(src: seq<Item>, c: bytes, off: int) {
    exists j :: 0 <= j < |src| && src[j].c == c && src[j].offs != [] && src[j].offs[0] == off
  }

  function FindIn(t: Table, k: Key): Lookup
    requires GoodSize(t.l0Buckets) && InRangeAll(k, t.l0Buckets)
  {
    Find(t.file, t.levels, k, t.l0Buckets, 0)
  }

  lemma {:induction false} ListedKeyFits(t: Table, kr: Keyer, src: seq<Item>, c: bytes)
    requires BuiltFrom(t, kr, src) && HasItem(src, c)
    ensures GoodSize(t.l0Buckets) && InRangeAll(MakeKey(kr, c, 0), t.l0Buckets)
  {
    hide InRangeAll;
    var list: seq<Entry> :| Holds(t, list) && multiset(list) == multiset(Collect(kr, src));
    var j :| 0 <= j < |src| && src[j].c == c && src[j].offs != [];
    CollectHas(kr, src, j, 0);
    var e := Entry(MakeKey(kr, c, 0), src[j].offs[0]);
    assert e in multiset(Collect(kr, src));
    assert e in multiset(list);
    var i :| 0 <= i < |list| && list[i] == e;
  }

  /** The table answers as the listing it was built from: a listed multihash is found at an
      offset listed first for it, whatever level its entry overflowed to. */
  lemma {:induction false} AgreesOnListed(t: Table, kr: Keyer, src: seq<Item>, c: bytes)
    requires BuiltFrom(t, kr, src) && HasItem(src, c) && NoCollision(kr, src, c)
    ensures GoodSize(t.l0Buckets) && InRangeAll(MakeKey(kr, c, 0), t.l0Buckets)
    ensures
      var r := FindIn(t, MakeKey(kr, c, 0));
      r.Found? && OffsetListedFor(src, c, r.off)
  {
    hide InRangeAll, Placeable, Sorted, Find, GoodSize, MakeKey, SamePrefix, Image, Levels;
    ListedKeyFits(t, kr, src, c);
    var list: seq<Entry> :| Holds(t, list) && multiset(list) == multiset(Collect(kr, src));
    var k, n := MakeKey(kr, c, 0), t.l0Buckets;
    assert Located(t.file, 0, list, n);
    var j :| 0 <= j < |src| && src[j].c == c && src[j].offs != [];
    CollectHas(kr, src, j, 0);
    var e := Entry(k, src[j].offs[0]);
    assert e in multiset(Collect(kr, src));
    assert e in multiset(list);
    var x :| 0 <= x < |list| && list[x] == e;
    assert SamePrefix(list[x].mhh, k) by { PrefixReflexive(k); }
    FindListed(t.file, k, list, n, 0);
    var r := FindIn(t, k);
    var y :| 0 <= y < |list| && SamePrefix(list[y].mhh, k) && list[y].off == r.off;
    assert list[y] in multiset(list);
    assert list[y] in multiset(Collect(kr, src));
    var j', i' := CollectFrom(kr, src, list[y]);
  }

  lemma {:induction false} PrefixReflexive(k: Key)
    ensures SamePrefix(k, k)
  {}

  /** ... and a key whose nonzero 24-byte prefix is not that of any listed pair is absent. */
  lemma {:induction false} AgreesOnUnlisted(t: Table, kr: Keyer, src: seq<Item>, k: Key)
    requires BuiltFrom(t, kr, src)
    requires GoodSize(t.l0Buckets) && InRangeAll(k, t.l0Buckets)
    requires k[..KEY_BYTES] != Zeros(KEY_BYTES)
    requires forall j, i :: 0 <= j < |src| && 0 <= i < |src[j].offs| ==> !SamePrefix(MakeKey(kr, src[j].c, i), k)
    ensures FindIn(t, k) == Absent
  {
    hide InRangeAll, Placeable, Sorted, Find, GoodSize, MakeKey, SamePrefix, Image, Levels;
    var list: seq<Entry> :| Holds(t, list) && multiset(list) == multiset(Collect(kr, src));
    assert Located(t.file, 0, list, t.l0Buckets);
    if Listed(list, k) {
      var y :| 0 <= y < |list| && SamePrefix(list[y].mhh, k);
      assert list[y] in multiset(list);
      assert list[y] in multiset(Collect(kr, src));
      var j', i' := CollectFrom(kr, src, list[y]);
    }
    FindUnlisted(t.file, k, list, t.l0Buckets, 0);
  }

  // ---- the batched queries ------------------------------------------------------

  /** Every queried multihash hashes to a key that integer division can address. */
  ghost predicate Queryable(t: Table, kr: Keyer, c: seq<bytes>) {
    GoodSize(t.l0Buckets) && forall i :: 0 <= i < |c| ==> InRangeAll(MakeKey(kr, c[i], 0), t.l0Buckets)
  }

  /** The level loop shared by Has and Get for one key: a found slot's offset. */
  method FindOne(t: Table, k: Key) returns (r: Lookup)
    requires GoodSize(t.l0Buckets) && InRangeAll(k, t.l0Buckets)
    ensures r == FindIn(t, k)
  {
    hide InRangeAll, GoodSize, BucketIdx, BloomIdx, Probe, Bit, SlotOff, NextSize, BloomOfBucket;
    var levelBuckets: nat, prevLevelBuckets: nat, level: nat := t.l0Buckets, 0, 0;
    while level < t.levels
      invariant 0 <= level <= t.levels && GoodSize(levelBuckets) && InRangeAll(k, levelBuckets)
      invariant Find(t.file, t.levels - level, k, levelBuckets, prevLevelBuckets) == FindIn(t, k)
    {
      InRangeHere(k, levelBuckets);
      var bucketIdx, bloomIdx := prevLevelBuckets + BucketIdx(k, levelBuckets), BloomIdx(k, levelBuckets);
      var at := BUCKET_SIZE * (bucketIdx + 1);
      if |t.file| < at + BUCKET_SIZE {
        return ReadError;
      }
      var bucketBuf := t.file[at..at + BUCKET_SIZE];
      if Bit(BloomOfBucket(bucketBuf), bloomIdx) {
        var slot := Probe(bucketBuf, k, bloomIdx);
        if slot.Some? {
          return Found(SlotOff(bucketBuf, slot.value));
        }
        InRangeNext(k, levelBuckets);
        prevLevelBuckets := prevLevelBuckets + levelBuckets;
        levelBuckets := NextSize(levelBuckets);
      }
      level := level + 1;
    }
    return Absent;
  }

  /** BSST.Get: the output is zero-initialised, so an absent hash gives 0. None is a read error. */
  method Get(t: Table, kr: Keyer, c: seq<bytes>) returns (out: Option<seq<int>>)
    requires Queryable(t, kr, c)
    ensures out.None? <==> exists i :: 0 <= i < |c| && FindIn(t, MakeKey(kr, c[i], 0)) == ReadError
    ensures out.Some? ==> |out.value| == |c|
    ensures out.Some? ==> forall i :: 0 <= i < |c| ==>
              var r := FindIn(t, MakeKey(kr, c[i], 0));
              out.value[i] == if r.Found? then r.off else 0
    ensures out.Some? ==> forall i, src :: 0 <= i < |c| && Sound(t, kr, src, c[i]) && HasItem(src, c[i]) ==>
              OffsetListedFor(src, c[i], out.value[i])
  {
    hide InRangeAll, GoodSize, Find, MakeKey, Sound, HasItem, OffsetListedFor;
    var res: seq<int> := [];
    var i := 0;
    while i < |c|
      invariant 0 <= i <= |c| && |res| == i
      invariant forall j :: 0 <= j < i ==> FindIn(t, MakeKey(kr, c[j], 0)) != ReadError
      invariant forall j :: 0 <= j < i ==>
                  var r := FindIn(t, MakeKey(kr, c[j], 0));
                  res[j] == if r.Found? then r.off else 0
    {
      var r := FindOne(t, MakeKey(kr, c[i], 0));
      if r.ReadError? {
        return None;
      }
      res := res + [if r.Found? then r.off else 0];
      i := i + 1;
    }
    forall i, src | 0 <= i < |c| && Sound(t, kr, src, c[i]) && HasItem(src, c[i])
      ensures OffsetListedFor(src, c[i], res[i])
    {
      QueryTells(t, kr, src, c[i]);
    }
    return Some(res);
  }

  /** BSST.Has. */
  method Has(t: Table, kr: Keyer, c: seq<bytes>) returns (out: Option<seq<bool>>)
    requires Queryable(t, kr, c)
    ensures out.None? <==> exists i :: 0 <= i < |c| && FindIn(t, MakeKey(kr, c[i], 0)) == ReadError
    ensures out.Some? ==> |out.value| == |c|
    ensures out.Some? ==> forall i :: 0 <= i < |c| ==> out.value[i] == FindIn(t, MakeKey(kr, c[i], 0)).Found?
    ensures out.Some? ==> forall i, src :: 0 <= i < |c| && Sound(t, kr, src, c[i]) && NotPadding(kr, c[i]) ==>
              out.value[i] == HasItem(src, c[i])
  {
    hide InRangeAll, GoodSize, Find, MakeKey, Sound, HasItem, NotPadding;
    var res: seq<bool> := [];
    var i := 0;
    while i < |c|
      invariant 0 <= i <= |c| && |res| == i
      invariant forall j :: 0 <= j < i ==> FindIn(t, MakeKey(kr, c[j], 0)) != ReadError
      invariant forall j :: 0 <= j < i ==> res[j] == FindIn(t, MakeKey(kr, c[j], 0)).Found?
    {
      var r := FindOne(t, MakeKey(kr, c[i], 0));
      if r.ReadError? {
        return None;
      }
      res := res + [r.Found?];
      i := i + 1;
    }
    forall i, src | 0 <= i < |c| && Sound(t, kr, src, c[i]) && NotPadding(kr, c[i])
      ensures res[i] == HasItem(src, c[i])
    {
      QueryTells(t, kr, src, c[i]);
    }
    return Some(res);
  }
}
