/** BSST.Has and BSST.Get, and their agreement with the plain list a table was built from. */
module BsstLookup {
  import opened Bytes
  import opened BloomRank
  import opened BsstTable

  const BLOOM_OFF := 4064

  datatype Lookup = ReadError | Absent | Found(off: int)

  predicate SamePrefix(a: Key, b: Key) { a[..KEY_BYTES] == b[..KEY_BYTES] }

  function SlotKey(buf: bytes, i: nat): bytes
    requires |buf| == BUCKET_SIZE && i < USER_ENTRIES
  {
    buf[ENTRY_SIZE * i..ENTRY_SIZE * i + KEY_BYTES]
  }

  function SlotOff(buf: bytes, i: nat): int
    requires |buf| == BUCKET_SIZE && i < USER_ENTRIES
  {
    GetInt64(buf[ENTRY_SIZE * i + KEY_BYTES..ENTRY_SIZE * i + KEY_BYTES + 8])
  }

  /** The first slot from start on whose 24 key bytes are those of k. */
  function Scan(buf: bytes, k: Key, start: nat): (r: Option<nat>)
    requires |buf| == BUCKET_SIZE
    ensures r.Some? ==> start <= r.value < USER_ENTRIES && SlotKey(buf, r.value) == k[..KEY_BYTES]
    ensures r.Some? ==> forall i :: start <= i < r.value ==> SlotKey(buf, i) != k[..KEY_BYTES]
    ensures r.None? ==> forall i :: start <= i < USER_ENTRIES ==> SlotKey(buf, i) != k[..KEY_BYTES]
    decreases USER_ENTRIES - start
  {
    if start >= USER_ENTRIES then None
    else if SlotKey(buf, start) == k[..KEY_BYTES] then Some(start)
    else Scan(buf, k, start + 1)
  }

  function BloomOfBucket(buf: bytes): (f: bytes)
    requires |buf| == BUCKET_SIZE
    ensures |f| == FILTER_BYTES
  {
    buf[BLOOM_OFF..]
  }

  /** What one bucket says about k: Some(slot) on a match, None where the scan finds nothing. */
  function Probe(buf: bytes, k: Key, bloomIdx: nat): (r: Option<nat>)
    requires |buf| == BUCKET_SIZE && bloomIdx < FILTER_BITS && Bit(BloomOfBucket(buf), bloomIdx)
    ensures r.Some? ==> r.value < USER_ENTRIES && SlotKey(buf, r.value) == k[..KEY_BYTES]
  {
    StartIndexBounds(BloomOfBucket(buf), bloomIdx);
    Scan(buf, k, StartIndex(BloomOfBucket(buf), bloomIdx))
  }

  /** The level loop for one key, from the level with n buckets (prev buckets before it) on.
      On a bloom miss the code moves to the next level number without moving the bucket. */
  function Find(file: bytes, levels: nat, k: Key, n: nat, prev: nat): Lookup
    requires GoodSize(n) && InRangeAll(k, n)
    decreases levels
  {
    if levels == 0 then Absent
    else
      var at := BUCKET_SIZE * (prev + BucketIdx(k, n) + 1);
      if |file| < at + BUCKET_SIZE then ReadError
      else
        var buf := file[at..at + BUCKET_SIZE];
        if !Bit(BloomOfBucket(buf), BloomIdx(k, n)) then Find(file, levels - 1, k, n, prev)
        else
          match Probe(buf, k, BloomIdx(k, n))
          case Some(i) => Found(SlotOff(buf, i))
          case None =>
            InRangeNext(k, n);
            Find(file, levels - 1, k, NextSize(n), prev + n)
  }

  // ---- one bucket ------------------------------------------------------------

  lemma {:induction false} EntryBytesParts(e: Entry)
    requires IsInt64(e.off)
    ensures EntryBytes(e)[..KEY_BYTES] == e.mhh[..KEY_BYTES]
    ensures GetInt64(EntryBytes(e)[KEY_BYTES..KEY_BYTES + 8]) == e.off
  {
    Int64RoundTrip(e.off);
    assert EntryBytes(e)[KEY_BYTES..KEY_BYTES + 8] == PutInt64(e.off);
  }

  lemma {:induction false} SlotFromEntry(buf: bytes, i: nat, e: Entry)
    requires |buf| == BUCKET_SIZE && i < USER_ENTRIES && IsInt64(e.off)
    requires buf[ENTRY_SIZE * i..ENTRY_SIZE * (i + 1)] == EntryBytes(e)
    ensures SlotKey(buf, i) == e.mhh[..KEY_BYTES] && SlotOff(buf, i) == e.off
  {
    hide EntryBytes, GetInt64;
    EntryBytesParts(e);
    var o := ENTRY_SIZE * i;
    SliceOfSlice(buf, o, o + ENTRY_SIZE, 0, KEY_BYTES);
    SliceOfSlice(buf, o, o + ENTRY_SIZE, KEY_BYTES, KEY_BYTES + 8);
  }

  lemma {:induction false} StoredSlot(buf: bytes, st: seq<Entry>, rest: bytes, i: nat)
    requires |buf| == BUCKET_SIZE && i < |st| <= USER_ENTRIES
    requires forall e :: e in st ==> IsInt64(e.off)
    requires buf == EntriesBytes(st) + rest
    ensures SlotKey(buf, i) == st[i].mhh[..KEY_BYTES] && SlotOff(buf, i) == st[i].off
  {
    hide EntriesBytes, EntryBytes, SlotKey, SlotOff;
    EntriesBytesAt(st, i);
    SliceOfConcat(EntriesBytes(st), rest, ENTRY_SIZE * i, ENTRY_SIZE * (i + 1));
    SlotFromEntry(buf, i, st[i]);
  }

  lemma {:induction false} PaddingSlot(buf: bytes, used: bytes, n: nat, f: bytes, i: nat)
    requires |buf| == BUCKET_SIZE && buf == used + Zeros(n) + f
    requires |used| <= ENTRY_SIZE * i && ENTRY_SIZE * (i + 1) <= |used| + n && i < USER_ENTRIES
    ensures SlotKey(buf, i) == Zeros(KEY_BYTES)
  {
    var o := ENTRY_SIZE * i;
    forall j | 0 <= j < KEY_BYTES
      ensures SlotKey(buf, i)[j] == 0
    {
      assert buf[o + j] == Zeros(n)[o + j - |used|];
    }
  }

  // ---- the filter of a bucket --------------------------------------------------

  lemma {:induction false} FilterBit(es: seq<Entry>, n: nat, i: nat)
    requires GoodSize(n) && i < FILTER_BITS
    requires forall e :: e in es ==> BloomIdx(e.mhh, n) < FILTER_BITS
    ensures Bit(Filter(es, n), i) <==> exists j :: 0 <= j < |es| && BloomIdx(es[j].mhh, n) == i
  {
    hide BloomIdx;
    if es == [] {
      NoBitsInZeros(i);
    } else {
      var init, last := es[..|es| - 1], es[|es| - 1];
      FilterBit(init, n, i);
      SetBitAt(Filter(init, n), BloomIdx(last.mhh, n), i);
      assert forall j :: 0 <= j < |init| ==> init[j] == es[j];
      if BloomIdx(last.mhh, n) == i {
        assert BloomIdx(es[|es| - 1].mhh, n) == i;
      }
    }
  }

  lemma {:induction false} NoBitsInZeros(i: nat)
    requires i < FILTER_BITS
    ensures !Bit(Zeros(FILTER_BYTES), i)
  {
    ZeroHasNoBits(i % 8);
  }

  /** n entries set at most n bits. */
  lemma {:induction false} FilterRankSize(es: seq<Entry>, n: nat, m: nat)
    requires GoodSize(n) && m <= FILTER_BITS
    requires forall e :: e in es ==> BloomIdx(e.mhh, n) < FILTER_BITS
    ensures Rank(Bits(Filter(es, n)), m) <= |es|
  {
    hide BloomIdx;
    if es == [] {
      forall i | 0 <= i < m
        ensures !Bits(Filter(es, n))[i]
      {
        NoBitsInZeros(i);
      }
      RankTail(Bits(Filter(es, n)), 0, m);
    } else {
      var init, last := es[..|es| - 1], es[|es| - 1];
      FilterRankSize(init, n, m);
      var a, b := Bits(Filter(init, n)), Bits(Filter(es, n));
      forall i | 0 <= i < m && i != BloomIdx(last.mhh, n)
        ensures a[i] == b[i]
      {
        SetBitAt(Filter(init, n), BloomIdx(last.mhh, n), i);
      }
      RankOneMore(a, b, BloomIdx(last.mhh, n), m);
    }
  }

  ghost predicate CellsOrdered(es: seq<Entry>, n: nat)
    requires GoodSize(n)
  {
    forall i, j :: 0 <= i < j < |es| ==> BloomIdx(es[i].mhh, n) <= BloomIdx(es[j].mhh, n)
  }

  lemma {:induction false} BucketCellsOrdered(list: seq<Entry>, n: nat, b: nat)
    requires GoodSize(n) && Sorted(list)
    ensures CellsOrdered(InBucket(list, n, b), n)
  {
    InBucketSorted(list, n, b);
    var es := InBucket(list, n, b);
    hide BloomIdx, BucketIdx, InBucket;
    forall i, j | 0 <= i < j < |es|
      ensures BloomIdx(es[i].mhh, n) <= BloomIdx(es[j].mhh, n)
    {
      assert es[i] in es && es[j] in es;
      AddressesFollowOrder(es[i].mhh, es[j].mhh, n);
    }
  }

  /** In a bucket whose cells are ordered, the entry at slot s has at most s set bits below its own. */
  lemma {:induction false} RankAtMostSlot(es: seq<Entry>, n: nat, s: nat)
    requires GoodSize(n) && CellsOrdered(es, n) && s < |es|
    requires forall e :: e in es ==> BloomIdx(e.mhh, n) < FILTER_BITS
    ensures Rank(Bits(Filter(es, n)), BloomIdx(es[s].mhh, n)) <= s
  {
    var e := BloomIdx(es[s].mhh, n);
    var a, b := Bits(Filter(es[..s], n)), Bits(Filter(es, n));
    hide BloomIdx;
    forall i | 0 <= i < e
      ensures a[i] == b[i]
    {
      FilterBit(es, n, i);
      FilterBit(es[..s], n, i);
      if b[i] {
        var j :| 0 <= j < |es| && BloomIdx(es[j].mhh, n) == i;
        assert j < s;
        assert es[..s][j] == es[j];
      }
    }
    RankPrefix(a, b, e);
    FilterRankSize(es[..s], n, e);
  }

  // ---- probing one bucket ------------------------------------------------------

  ghost predicate Listed(list: seq<Entry>, k: Key) {
    exists i :: 0 <= i < |list| && SamePrefix(list[i].mhh, k)
  }

  lemma {:induction false} BucketBytes(list: seq<Entry>, n: nat, b: nat, buf: bytes)
    requires GoodSize(n) && Placeable(list, n) && buf == BucketImage(list, n, b)
    ensures forall e :: e in InBucket(list, n, b) ==> IsInt64(e.off) && BloomIdx(e.mhh, n) < FILTER_BITS
    ensures BloomOfBucket(buf) == Filter(InBucket(list, n, b), n)
    ensures
      var st := Stored(InBucket(list, n, b));
      forall i :: 0 <= i < |st| ==> SlotKey(buf, i) == st[i].mhh[..KEY_BYTES] && SlotOff(buf, i) == st[i].off
    ensures
      var st := Stored(InBucket(list, n, b));
      forall i :: |st| <= i < USER_ENTRIES ==> SlotKey(buf, i) == Zeros(KEY_BYTES)
  {
    hide BloomIdx, BucketIdx, InBucket, Placeable, Filter, EntriesBytes, SlotKey, SlotOff;
    BucketEntriesGood(list, n, b);
    var es := InBucket(list, n, b);
    var st := Stored(es);
    var used, pad, f := EntriesBytes(st), Zeros(ENTRY_SIZE * (USER_ENTRIES - |st|)), Filter(es, n);
    assert buf == used + pad + f;
    SliceAfter(used + pad, f, BLOOM_OFF, BUCKET_SIZE);
    assert used + pad + f == used + (pad + f);
    forall i | 0 <= i < |st|
      ensures SlotKey(buf, i) == st[i].mhh[..KEY_BYTES] && SlotOff(buf, i) == st[i].off
    {
      StoredSlot(buf, st, pad + f, i);
    }
    forall i | |st| <= i < USER_ENTRIES
      ensures SlotKey(buf, i) == Zeros(KEY_BYTES)
    {
      PaddingSlot(buf, used, |pad|, f, i);
    }
  }

  /** An entry at slot s of a bucket is not missed: the filter bit of a key with its prefix is
      set, and the scan stops at a slot no later than s holding that prefix. */
  lemma {:induction false} ProbeStored(list: seq<Entry>, n: nat, b: nat, buf: bytes, k: Key, s: nat)
    requires GoodSize(n) && Placeable(list, n) && Sorted(list) && buf == BucketImage(list, n, b)
    requires InRange(k, n) && BucketIdx(k, n) == b
    requires s < |Stored(InBucket(list, n, b))| && SamePrefix(InBucket(list, n, b)[s].mhh, k)
    ensures Bit(BloomOfBucket(buf), BloomIdx(k, n))
    ensures
      var r := Probe(buf, k, BloomIdx(k, n));
      && r.Some? && r.value <= s
      && InBucket(list, n, b)[r.value] in list
      && SamePrefix(InBucket(list, n, b)[r.value].mhh, k)
      && SlotOff(buf, r.value) == InBucket(list, n, b)[r.value].off
  {
    hide BloomIdx, BucketIdx, InBucket, Placeable, Filter, Sorted, SlotKey, SlotOff, CellsOrdered, BucketImage,
      Scan;
    var es := InBucket(list, n, b);
    BucketBytes(list, n, b, buf);
    SamePrefixSameCell(es[s].mhh, k, n);
    BucketCellsOrdered(list, n, b);
    var e := BloomIdx(k, n);
    FilterBit(es, n, e);
    RankAtMostSlot(es, n, s);
    StartIndexBounds(BloomOfBucket(buf), e);
    var start := StartIndex(BloomOfBucket(buf), e);
    assert SlotKey(buf, s) == k[..KEY_BYTES];
    var r := Scan(buf, k, start);
    assert r.Some? && r.value <= s;
    assert Stored(es)[r.value] == es[r.value];
    assert es[r.value] in es;
  }

  /** Where no stored entry has the prefix of k, and k cannot be mistaken for padding, a bucket
      yields nothing. */
  lemma {:induction false} ProbeNothing(list: seq<Entry>, n: nat, b: nat, buf: bytes, k: Key)
    requires GoodSize(n) && Placeable(list, n) && buf == BucketImage(list, n, b)
    requires InRange(k, n) && Bit(BloomOfBucket(buf), BloomIdx(k, n))
    requires !Listed(Stored(InBucket(list, n, b)), k)
    ensures
      var r := Probe(buf, k, BloomIdx(k, n));
      r.Some? ==> |InBucket(list, n, b)| < USER_ENTRIES && k[..KEY_BYTES] == Zeros(KEY_BYTES)
  {
    hide BloomIdx, BucketIdx, InBucket, Placeable, Filter, SlotKey, SlotOff, BucketImage, Scan;
    BucketBytes(list, n, b, buf);
    StartIndexBounds(BloomOfBucket(buf), BloomIdx(k, n));
    var st := Stored(InBucket(list, n, b));
    assert forall i :: 0 <= i < |st| ==> !SamePrefix(st[i].mhh, k);
    var r := Scan(buf, k, StartIndex(BloomOfBucket(buf), BloomIdx(k, n)));
  }

  lemma {:induction false} SamePrefixSameCell(a: Key, b: Key, n: nat)
    requires GoodSize(n) && SamePrefix(a, b)
    ensures BucketIdx(a, n) == BucketIdx(b, n) && BloomIdx(a, n) == BloomIdx(b, n)
  {
    assert a[..8] == a[..KEY_BYTES][..8] == b[..KEY_BYTES][..8] == b[..8];
  }

  // ---- the whole file ----------------------------------------------------------

  /** The levels of the list start after prev buckets and run to the end of the file. */
  ghost predicate Located(file: bytes, prev: nat, list: seq<Entry>, n: nat)
    requires GoodSize(n) && Placeable(list, n)
  {
    |file| >= BUCKET_SIZE * (prev + 1) && file[BUCKET_SIZE * (prev + 1)..] == Image(list, n)
  }

  lemma {:induction false} ImageSplit(list: seq<Entry>, n: nat)
    requires GoodSize(n) && Placeable(list, n) && list != []
    ensures Placeable(Overflow(list, n), NextSize(n))
    ensures Image(list, n) == LevelImage(list, n, n) + Image(Overflow(list, n), NextSize(n))
  {
    OverflowPlaceable(list, n);
    hide Placeable, LevelImage, Overflow, NextSize;
  }

  lemma {:induction false} TailSplit(s: bytes, o: nat, a: bytes, b: bytes)
    requires o <= |s| && s[o..] == a + b
    ensures |s| >= o + |a| && s[o + |a|..] == b
    ensures forall i, j :: 0 <= i <= j <= |a| ==> s[o + i..o + j] == a[i..j]
  {
    assert s[o + |a|..] == s[o..][|a|..];
    forall i, j | 0 <= i <= j <= |a|
      ensures s[o + i..o + j] == a[i..j]
    {
      SliceOfSlice(s, o, |s|, i, j);
      assert s[o..|s|] == s[o..];
    }
  }

  lemma {:induction false} BucketInFile(file: bytes, prev: nat, list: seq<Entry>, n: nat, b: nat)
    requires GoodSize(n) && Placeable(list, n) && Located(file, prev, list, n)
    requires list != [] && b < n
    ensures |file| >= BUCKET_SIZE * (prev + b + 2)
    ensures file[BUCKET_SIZE * (prev + b + 1)..BUCKET_SIZE * (prev + b + 1) + BUCKET_SIZE] == BucketImage(list, n, b)
  {
    hide Placeable, LevelImage, BucketImage, Image, Overflow, NextSize;
    LevelImageAt(list, n, n, b);
    ImageSplit(list, n);
    TailSplit(file, BUCKET_SIZE * (prev + 1), LevelImage(list, n, n), Image(Overflow(list, n), NextSize(n)));
    var i := BUCKET_SIZE * b;
    assert file[BUCKET_SIZE * (prev + 1) + i..BUCKET_SIZE * (prev + 1) + (i + BUCKET_SIZE)]
        == LevelImage(list, n, n)[i..i + BUCKET_SIZE];
  }

  lemma {:induction false} NextLocated(file: bytes, prev: nat, list: seq<Entry>, n: nat)
    requires GoodSize(n) && Placeable(list, n) && Located(file, prev, list, n)
    requires list != []
    ensures Placeable(Overflow(list, n), NextSize(n))
    ensures Located(file, prev + n, Overflow(list, n), NextSize(n))
  {
    hide Placeable, LevelImage, Image, Overflow, NextSize;
    ImageSplit(list, n);
    TailSplit(file, BUCKET_SIZE * (prev + 1), LevelImage(list, n, n), Image(Overflow(list, n), NextSize(n)));
  }

  /** Once the filter bit of k is clear, the remaining iterations re-read the same bucket. */
  lemma {:induction false} FindStuck(file: bytes, levels: nat, k: Key, n: nat, prev: nat)
    requires GoodSize(n) && InRangeAll(k, n)
    requires |file| >= BUCKET_SIZE * (prev + BucketIdx(k, n) + 2)
    requires
      var at := BUCKET_SIZE * (prev + BucketIdx(k, n) + 1);
      !Bit(BloomOfBucket(file[at..at + BUCKET_SIZE]), BloomIdx(k, n))
    ensures Find(file, levels, k, n, prev) == Absent
    decreases levels
  {
    hide BloomIdx, BucketIdx, Bit, BloomOfBucket, InRangeAll;
    if levels > 0 {
      FindStuck(file, levels - 1, k, n, prev);
    }
  }

  lemma {:induction false} ListedSomewhere(list: seq<Entry>, n: nat, k: Key)
    requires GoodSize(n) && Listed(list, k)
    ensures Listed(Stored(InBucket(list, n, BucketIdx(k, n))), k) || Listed(Overflow(list, n), k)
  {
    var i :| 0 <= i < |list| && SamePrefix(list[i].mhh, k);
    SamePrefixSameCell(list[i].mhh, k, n);
    StoredOrOverflow(list, n, list[i]);
    hide BucketIdx, InBucket, Overflow, Stored;
    var st, o := Stored(InBucket(list, n, BucketIdx(k, n))), Overflow(list, n);
    if list[i] in st {
      var j :| 0 <= j < |st| && st[j] == list[i];
    } else {
      var j :| 0 <= j < |o| && o[j] == list[i];
    }
  }

  lemma {:induction false} ListedInSub(sub: seq<Entry>, list: seq<Entry>, k: Key)
    requires forall e :: e in sub ==> e in list
    requires Listed(sub, k)
    ensures Listed(list, k)
  {
    var i :| 0 <= i < |sub| && SamePrefix(sub[i].mhh, k);
    assert sub[i] in sub;
    var j :| 0 <= j < |list| && list[j] == sub[i];
  }

  /** An overflowing entry leaves its bucket full, hence without padding. */
  lemma {:induction false} OverflowMeansFull(list: seq<Entry>, n: nat, e: Entry)
    requires GoodSize(n) && e in Overflow(list, n)
    ensures |InBucket(list, n, BucketIdx(e.mhh, n))| >= USER_ENTRIES
  {
    hide BucketIdx;
    var init, last := list[..|list| - 1], list[|list| - 1];
    if e in Overflow(init, n) {
      OverflowMeansFull(init, n, e);
    }
  }

  ghost predicate IsFound(r: Lookup, list: seq<Entry>, k: Key) {
    r.Found? && exists i :: 0 <= i < |list| && SamePrefix(list[i].mhh, k) && list[i].off == r.off
  }

  lemma {:induction false} FoundInSub(r: Lookup, sub: seq<Entry>, list: seq<Entry>, k: Key)
    requires forall e :: e in sub ==> e in list
    requires IsFound(r, sub, k)
    ensures IsFound(r, list, k)
  {
    var i :| 0 <= i < |sub| && SamePrefix(sub[i].mhh, k) && sub[i].off == r.off;
    assert sub[i] in sub;
    var j :| 0 <= j < |list| && list[j] == sub[i];
  }

  lemma {:induction false} InRangeHere(k: Key, n: nat)
    requires GoodSize(n) && InRangeAll(k, n)
    ensures InRange(k, n)
  {}

  /** One iteration of the level loop, seen from the list. */
  lemma {:induction false} FindStep(file: bytes, k: Key, list: seq<Entry>, n: nat, prev: nat, buf: bytes)
    requires GoodSize(n) && Placeable(list, n) && Located(file, prev, list, n) && list != []
    requires InRangeAll(k, n) && buf == BucketImage(list, n, BucketIdx(k, n))
    ensures Placeable(Overflow(list, n), NextSize(n)) && InRangeAll(k, NextSize(n))
    ensures Located(file, prev + n, Overflow(list, n), NextSize(n))
    ensures !Bit(BloomOfBucket(buf), BloomIdx(k, n)) ==> Find(file, Levels(list, n), k, n, prev) == Absent
    ensures Bit(BloomOfBucket(buf), BloomIdx(k, n)) ==>
              var r := Probe(buf, k, BloomIdx(k, n));
              Find(file, Levels(list, n), k, n, prev) ==
                if r.Some? then Found(SlotOff(buf, r.value))
                else Find(file, Levels(Overflow(list, n), NextSize(n)), k, NextSize(n), prev + n)
  {
    hide Placeable, BucketIdx, BloomIdx, Overflow, BucketImage, Probe, Bit, BloomOfBucket, SlotOff, Located,
      NextSize, InRangeAll, GoodSize;
    InRangeHere(k, n);
    InRangeNext(k, n);
    OverflowShrinks(list, n);
    BucketInFile(file, prev, list, n, BucketIdx(k, n));
    NextLocated(file, prev, list, n);
    if !Bit(BloomOfBucket(buf), BloomIdx(k, n)) {
      FindStuck(file, Levels(list, n), k, n, prev);
    }
  }

  /** The filter bit of a listed prefix is set at every level whose list still has it. */
  lemma {:induction false} ListedBitSet(list: seq<Entry>, n: nat, k: Key)
    requires GoodSize(n) && Placeable(list, n) && InRange(k, n) && Listed(list, k)
    ensures Bit(BloomOfBucket(BucketImage(list, n, BucketIdx(k, n))), BloomIdx(k, n))
  {
    hide BucketIdx, BloomIdx, InBucket, Placeable, Filter, BucketImage, Bit, BloomOfBucket;
    var i :| 0 <= i < |list| && SamePrefix(list[i].mhh, k);
    SamePrefixSameCell(list[i].mhh, k, n);
    BucketBytes(list, n, BucketIdx(k, n), BucketImage(list, n, BucketIdx(k, n)));
    InBucketHas(list, n, list[i]);
    var es := InBucket(list, n, BucketIdx(k, n));
    FilterBit(es, n, BloomIdx(k, n));
    var j :| 0 <= j < |es| && es[j] == list[i];
    assert BloomIdx(es[j].mhh, n) == BloomIdx(k, n);
  }

  lemma {:induction false} InBucketHas(list: seq<Entry>, n: nat, e: Entry)
    requires GoodSize(n) && e in list
    ensures e in InBucket(list, n, BucketIdx(e.mhh, n))
  {
    hide BucketIdx;
    var init, last := list[..|list| - 1], list[|list| - 1];
    if e in init {
      InBucketHas(init, n, e);
    } else {
      var es := InBucket(list, n, BucketIdx(e.mhh, n));
      assert list == init + [last];
      assert es[|es| - 1] == e;
    }
  }

  /** A key whose prefix is listed is found, at whatever level its entries ended up, and the
      answer is the offset of an entry with that prefix. */
  lemma {:induction false} FindListed(file: bytes, k: Key, list: seq<Entry>, n: nat, prev: nat)
    requires GoodSize(n) && Placeable(list, n) && Sorted(list) && Located(file, prev, list, n)
    requires InRangeAll(k, n) && Listed(list, k)
    ensures IsFound(Find(file, Levels(list, n), k, n, prev), list, k)
    decreases |list|
  {
    hide Placeable, Sorted, BucketIdx, BloomIdx, Overflow, BucketImage, Probe, Bit, BloomOfBucket, SlotOff,
      Located, NextSize, InRangeAll, Find, Levels, InBucket, Stored, GoodSize;
    InRangeHere(k, n);
    var es, buf := InBucket(list, n, BucketIdx(k, n)), BucketImage(list, n, BucketIdx(k, n));
    FindStep(file, k, list, n, prev, buf);
    ListedBitSet(list, n, k);
    if Listed(Stored(es), k) {
      var s :| 0 <= s < |Stored(es)| && SamePrefix(Stored(es)[s].mhh, k);
      assert Stored(es)[s] == es[s];
      ProbeStored(list, n, BucketIdx(k, n), buf, k, s);
      var r := Probe(buf, k, BloomIdx(k, n));
      var j :| 0 <= j < |list| && list[j] == es[r.value];
    } else {
      var o := Overflow(list, n);
      ListedSomewhere(list, n, k);
      ProbeNothing(list, n, BucketIdx(k, n), buf, k);
      var i :| 0 <= i < |o| && SamePrefix(o[i].mhh, k);
      OverflowMeansFull(list, n, o[i]);
      SamePrefixSameCell(o[i].mhh, k, n);
      OverflowShrinks(list, n);
      OverflowSorted(list, n);
      FindListed(file, k, o, NextSize(n), prev + n);
      FoundInSub(Find(file, Levels(o, NextSize(n)), k, NextSize(n), prev + n), o, list, k);
    }
  }

  lemma {:induction false} FindInEmpty(file: bytes, k: Key, n: nat, prev: nat)
    requires GoodSize(n) && InRangeAll(k, n)
    ensures Find(file, Levels([], n), k, n, prev) == Absent
  {}

  /** A key whose prefix is not listed is absent, unless the prefix is all zeros and matches
      the padding of a bucket, which carries offset 0. */
  lemma {:induction false} FindUnlisted(file: bytes, k: Key, list: seq<Entry>, n: nat, prev: nat)
    requires GoodSize(n) && Placeable(list, n) && Sorted(list) && Located(file, prev, list, n)
    requires InRangeAll(k, n) && !Listed(list, k) && k[..KEY_BYTES] != Zeros(KEY_BYTES)
    ensures Find(file, Levels(list, n), k, n, prev) == Absent
    decreases |list|
  {
    hide Placeable, Sorted, BucketIdx, BloomIdx, Overflow, BucketImage, Probe, Bit, BloomOfBucket, SlotOff,
      Located, NextSize, InRangeAll, InBucket, Stored, Find, Levels, GoodSize;
    if list == [] {
      FindInEmpty(file, k, n, prev);
    } else {
      InRangeHere(k, n);
      var es, buf := InBucket(list, n, BucketIdx(k, n)), BucketImage(list, n, BucketIdx(k, n));
      FindStep(file, k, list, n, prev, buf);
      if Bit(BloomOfBucket(buf), BloomIdx(k, n)) {
        NotListedInSub(Stored(es), list, k);
        ProbeNothing(list, n, BucketIdx(k, n), buf, k);
        OverflowShrinks(list, n);
        OverflowSorted(list, n);
        NotListedInSub(Overflow(list, n), list, k);
        FindUnlisted(file, k, Overflow(list, n), NextSize(n), prev + n);
      }
    }
  }

  lemma {:induction false} NotListedInSub(sub: seq<Entry>, list: seq<Entry>, k: Key)
    requires forall e :: e in sub ==> e in list
    requires !Listed(list, k)
    ensures !Listed(sub, k)
  {
    if Listed(sub, k) {
      ListedInSub(sub, list, k);
    }
  }
}
