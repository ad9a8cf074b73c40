/** The static layout of a BSST file: which entry of a sorted list goes to which bucket of
    which level, and what bytes the file then holds. */
module BsstTable {
  import opened Bytes
  import opened BloomRank

  const BUCKET_SIZE := 4096
  const USER_ENTRIES := 127
  const ENTRY_SIZE := 32
  const KEY_BYTES := 24
  const MEAN_ENTRIES := 96
  const LEVEL_FACTOR := 16384
  const MAX_UINT64: nat := 0xffff_ffff_ffff_ffff

  /** A salted SHA-256 of a multihash. */
  type Key = k: bytes | |k| == 32 witness Zeros(32)

  datatype Entry = Entry(mhh: Key, off: int)

  // ---- addressing ------------------------------------------------------------

  /** Level sizes for which a bucket's hash range still has 256 filter cells. */
  predicate GoodSize(n: nat) { 0 < n <= 0xff_ffff_ffff_ffff }

  lemma {:induction false} QuotientAtLeast(m: nat, d: nat, q: nat)
    requires d > 0 && q * d <= m
    ensures m / d >= q
  {
    if m / d + 1 <= q {
      MulMonotone(m / d + 1, q, d);
    }
  }

  function BucketRange(n: nat): (r: nat)
    requires GoodSize(n)
    ensures r >= 256
  {
    QuotientAtLeast(MAX_UINT64, n, 256);
    MAX_UINT64 / n
  }

  /** The number of buckets of the next level: ceil(n / LevelFactor). */
  function NextSize(n: nat): (m: nat)
    requires GoodSize(n)
    ensures GoodSize(m) && m <= n && (n > 1 ==> m < n)
  {
    (n + LEVEL_FACTOR - 1) / LEVEL_FACTOR
  }

  function HashIdx(k: Key): nat { FromBigEndian(k[..8]) }

  function BucketIdx(k: Key, n: nat): nat
    requires GoodSize(n)
  {
    HashIdx(k) / BucketRange(n)
  }

  function BloomIdx(k: Key, n: nat): nat
    requires GoodSize(n)
  {
    HashIdx(k) % BucketRange(n) / (BucketRange(n) / FILTER_BITS)
  }

  /** The key does not fall into the tail that integer division leaves over at this level. */
  predicate InRange(k: Key, n: nat)
    requires GoodSize(n)
  {
    BucketIdx(k, n) < n && BloomIdx(k, n) < FILTER_BITS
  }

  /** ... nor at any level below. */
  predicate InRangeAll(k: Key, n: nat)
    requires GoodSize(n)
    decreases n
  {
    InRange(k, n) && (n > 1 ==> InRangeAll(k, NextSize(n)))
  }

  lemma {:induction false} InRangeNext(k: Key, n: nat)
    requires GoodSize(n) && InRangeAll(k, n)
    ensures InRangeAll(k, NextSize(n))
  {
    if n == 1 {
      assert NextSize(1) == 1;
    }
  }

  lemma {:induction false} MulMonotone(a: nat, b: nat, c: nat)
    requires a <= b
    ensures a * c <= b * c
  {}

  lemma {:induction false} QuotientBelow(m: nat, d: nat, q: nat)
    requires d > 0
    ensures m / d < q <==> m < q * d
  {
    if m >= q * d {
      QuotientAtLeast(m, d, q);
    } else if m / d >= q {
      MulMonotone(q, m / d, d);
    }
  }

  lemma {:induction false} QuotientMonotone(a: nat, b: nat, d: nat)
    requires d > 0 && a <= b
    ensures a / d <= b / d
  {
    QuotientBelow(b, d, a / d);
  }

  /** The first eight bytes of a key, the first one leading. */
  function Leading(k: Key): nat {
    var d := seq(8, i requires 0 <= i < 8 => k[i] as int);
    d[0] * 0x100_0000_0000_0000 + d[1] * 0x1_0000_0000_0000 + d[2] * 0x100_0000_0000 + d[3] * 0x1_0000_0000 +
    d[4] * 0x100_0000 + d[5] * 0x1_0000 + d[6] * 0x100 + d[7]
  }

  lemma {:induction false} HashIdxIsLeading(k: Key)
    ensures HashIdx(k) == Leading(k)
  {
    BigEndianSnoc(k[..7], k[7]);
    BigEndianSnoc(k[..6], k[6]);
    BigEndianSnoc(k[..5], k[5]);
    BigEndianSnoc(k[..4], k[4]);
    BigEndianSnoc(k[..3], k[3]);
    BigEndianSnoc(k[..2], k[2]);
    BigEndianSnoc(k[..1], k[1]);
    BigEndianSnoc(k[..0], k[0]);
    assert k[..8] == k[..7] + [k[7]] && k[..7] == k[..6] + [k[6]] && k[..6] == k[..5] + [k[5]];
    assert k[..5] == k[..4] + [k[4]] && k[..4] == k[..3] + [k[3]] && k[..3] == k[..2] + [k[2]];
    assert k[..2] == k[..1] + [k[1]] && k[..1] == k[..0] + [k[0]];
    hide FromBigEndian;
    assert FromBigEndian(k[..0]) == 0 by { EmptyBigEndian(); }
  }

  lemma {:induction false} EmptyBigEndian()
    ensures FromBigEndian([]) == 0
  {}

  lemma {:induction false} BigEndianSnoc(s: bytes, x: byte)
    ensures FromBigEndian(s + [x]) == 256 * FromBigEndian(s) + x
  {
    assert (s + [x])[..|s|] == s;
  }

  /** Buckets divide the 64-bit words evenly, and filter cells a bucket: a key's cell is where its leading
      word falls. */
  lemma {:induction false} CellHolds(k: Key, n: nat, b: nat, c: nat)
    requires GoodSize(n)
    ensures
      var r, cell := BucketRange(n), BucketRange(n) / FILTER_BITS;
      && (BucketIdx(k, n) == b <==> b * r <= Leading(k) < (b + 1) * r)
      && (BucketIdx(k, n) == b ==>
            (BloomIdx(k, n) == c <==> b * r + c * cell <= Leading(k) < b * r + (c + 1) * cell))
  {
    hide Leading, BucketRange, HashIdx;
    HashIdxIsLeading(k);
    QuotientIs(HashIdx(k), BucketRange(n), b);
    InCell(HashIdx(k), BucketRange(n), b, BucketRange(n) / FILTER_BITS, c);
  }

  lemma {:induction false} InCell(x: nat, r: nat, b: nat, cell: nat, c: nat)
    requires r > 0 && cell > 0
    ensures x / r == b ==> (x % r / cell == c <==> b * r + c * cell <= x < b * r + (c + 1) * cell)
  {
    QuotientIs(x % r, cell, c);
    if x / r == b {
      assert x == b * r + x % r;
    }
  }

  /** The range of a bucket is the largest for which the buckets fit the words. */
  lemma {:induction false} RangeIsLargest(n: nat)
    requires GoodSize(n)
    ensures BucketRange(n) * n <= MAX_UINT64 < (BucketRange(n) + 1) * n
  {
    QuotientIs(MAX_UINT64, n, BucketRange(n));
  }

  lemma {:induction false} QuotientIs(x: nat, d: nat, q: nat)
    requires d > 0
    ensures x / d == q <==> q * d <= x < (q + 1) * d
  {
    QuotientBelow(x, d, q);
    QuotientBelow(x, d, q + 1);
  }

  /** Exactly which hashes are excluded at a level: those at or above the last whole bucket,
      and those at or above the last whole filter cell of their bucket. */
  lemma {:induction false} InRangeExactly(k: Key, n: nat)
    requires GoodSize(n)
    ensures InRange(k, n) <==>
              HashIdx(k) < n * BucketRange(n) &&
              HashIdx(k) % BucketRange(n) < FILTER_BITS * (BucketRange(n) / FILTER_BITS)
  {
    QuotientBelow(HashIdx(k), BucketRange(n), n);
    QuotientBelow(HashIdx(k) % BucketRange(n), BucketRange(n) / FILTER_BITS, FILTER_BITS);
  }

  /** A one-bucket table has no place for the 256 highest values of the leading uint64. */
  lemma {:induction false} SingleBucketTail(k: Key)
    ensures InRange(k, 1) <==> HashIdx(k) < TWO_64 - 256
  {
    InRangeExactly(k, 1);
    BigEndianBound(k[..8]);
    Pow256Of8();
    assert BucketRange(1) == MAX_UINT64;
  }

  /** Keys in byte order have nondecreasing buckets and, within a bucket, nondecreasing
      filter cells. */
  lemma {:induction false} AddressesFollowOrder(a: Key, b: Key, n: nat)
    requires GoodSize(n)
    requires !Below(b, a)
    ensures BucketIdx(a, n) <= BucketIdx(b, n)
    ensures BucketIdx(a, n) == BucketIdx(b, n) ==> BloomIdx(a, n) <= BloomIdx(b, n)
  {
    BelowTotal(a, b);
    if a != b {
      BelowIsMonotone(a, b, 8);
    }
    DivisionFollowsOrder(HashIdx(a), HashIdx(b), BucketRange(n), BucketRange(n) / FILTER_BITS);
  }

  lemma {:induction false} DivisionFollowsOrder(x: nat, y: nat, r: nat, c: nat)
    requires x <= y && r > 0 && c > 0
    ensures x / r <= y / r
    ensures x / r == y / r ==> x % r / c <= y % r / c
  {
    QuotientMonotone(x, y, r);
    if x / r == y / r {
      RemainderAt(x, r);
      RemainderAt(y, r);
      QuotientMonotone(x % r, y % r, c);
    }
  }

  lemma {:induction false} RemainderAt(x: nat, r: nat)
    requires r > 0
    ensures x % r == x - r * (x / r)
  {}

  // ---- lists of entries ------------------------------------------------------

  predicate Placeable(list: seq<Entry>, n: nat)
    requires GoodSize(n)
  {
    forall i :: 0 <= i < |list| ==> IsInt64(list[i].off) && InRangeAll(list[i].mhh, n)
  }

  predicate Sorted(list: seq<Entry>) {
    forall i, j :: 0 <= i < j < |list| ==> !Below(list[j].mhh, list[i].mhh)
  }

  /** The entries of the list that address bucket b, in list order. */
  function InBucket(list: seq<Entry>, n: nat, b: nat): (es: seq<Entry>)
    requires GoodSize(n)
    ensures forall e :: e in es ==> e in list && BucketIdx(e.mhh, n) == b
    ensures |es| <= |list|
  {
    if list == [] then []
    else
      var last := list[|list| - 1];
      var rest := InBucket(list[..|list| - 1], n, b);
      if BucketIdx(last.mhh, n) == b then rest + [last] else rest
  }

  function Stored(es: seq<Entry>): (s: seq<Entry>)
    ensures |s| <= USER_ENTRIES && s <= es
  {
    if |es| <= USER_ENTRIES then es else es[..USER_ENTRIES]
  }

  /** The entries that find their bucket full, in list order: the next level's list. */
  function Overflow(list: seq<Entry>, n: nat): (es: seq<Entry>)
    requires GoodSize(n)
    ensures forall e :: e in es ==> e in list
    ensures |es| <= |list|
  {
    if list == [] then []
    else
      var init, last := list[..|list| - 1], list[|list| - 1];
      if |InBucket(init, n, BucketIdx(last.mhh, n))| >= USER_ENTRIES
      then Overflow(init, n) + [last]
      else Overflow(init, n)
  }

  lemma {:induction false} OverflowShrinks(list: seq<Entry>, n: nat)
    requires GoodSize(n) && list != []
    ensures |Overflow(list, n)| < |list|
  {
    var init := list[..|list| - 1];
    if init != [] {
      OverflowShrinks(init, n);
    }
  }

  lemma {:induction false} OverflowPlaceable(list: seq<Entry>, n: nat)
    requires GoodSize(n) && Placeable(list, n)
    ensures Placeable(Overflow(list, n), NextSize(n))
  {
    var o := Overflow(list, n);
    forall i | 0 <= i < |o|
      ensures IsInt64(o[i].off) && InRangeAll(o[i].mhh, NextSize(n))
    {
      assert o[i] in list;
      InRangeNext(o[i].mhh, n);
    }
  }

  lemma {:induction false} InBucketSorted(list: seq<Entry>, n: nat, b: nat)
    requires GoodSize(n) && Sorted(list)
    ensures Sorted(InBucket(list, n, b))
  {
    if list != [] {
      var init, last := list[..|list| - 1], list[|list| - 1];
      InBucketSorted(init, n, b);
      LastIsGreatest(list, InBucket(init, n, b));
    }
  }

  /** This is why the "buckets not sorted" panic cannot fire on any level. */
  lemma {:induction false} OverflowSorted(list: seq<Entry>, n: nat)
    requires GoodSize(n) && Sorted(list)
    ensures Sorted(Overflow(list, n))
  {
    if list != [] {
      var init, last := list[..|list| - 1], list[|list| - 1];
      OverflowSorted(init, n);
      LastIsGreatest(list, Overflow(init, n));
    }
  }

  lemma {:induction false} LastIsGreatest(list: seq<Entry>, sub: seq<Entry>)
    requires list != [] && Sorted(list) && Sorted(sub)
    requires forall e :: e in sub ==> e in list[..|list| - 1]
    ensures Sorted(sub + [list[|list| - 1]])
  {
    var last := list[|list| - 1];
    forall i | 0 <= i < |sub|
      ensures !Below(last.mhh, sub[i].mhh)
    {
      assert sub[i] in sub;
      var j :| 0 <= j < |list| - 1 && list[..|list| - 1][j] == sub[i];
      assert list[j] == sub[i];
    }
  }

  /** Each entry stays in its bucket or moves on to the next level. */
  lemma {:induction false} StoredOrOverflow(list: seq<Entry>, n: nat, e: Entry)
    requires GoodSize(n) && e in list
    ensures e in Stored(InBucket(list, n, BucketIdx(e.mhh, n))) || e in Overflow(list, n)
  {
    var init, last := list[..|list| - 1], list[|list| - 1];
    var b := BucketIdx(e.mhh, n);
    if e in init {
      StoredOrOverflow(init, n, e);
      assert Stored(InBucket(init, n, b)) <= Stored(InBucket(list, n, b));
    } else {
      assert list == init + [last];
      assert e == last;
      var es := InBucket(init, n, b);
      assert InBucket(list, n, b) == es + [last];
      if |es| < USER_ENTRIES {
        assert Stored(InBucket(list, n, b))[|es|] == last;
      } else {
        var o := Overflow(list, n);
        assert o[|o| - 1] == last;
      }
    }
  }

  lemma {:induction false} BucketEntriesGood(list: seq<Entry>, n: nat, b: nat)
    requires GoodSize(n) && Placeable(list, n)
    ensures forall e :: e in InBucket(list, n, b) ==> IsInt64(e.off) && BloomIdx(e.mhh, n) < FILTER_BITS
  {
    forall e | e in InBucket(list, n, b)
      ensures IsInt64(e.off) && BloomIdx(e.mhh, n) < FILTER_BITS
    {
      hide BloomIdx, BucketIdx;
      assert e in list;
      var i :| 0 <= i < |list| && list[i] == e;
    }
  }

  // ---- bytes -----------------------------------------------------------------

  /** The bloom filter of a bucket: one bit for each entry addressed to it, stored or not. */
  function Filter(es: seq<Entry>, n: nat): (f: bytes)
    requires GoodSize(n)
    requires forall e :: e in es ==> BloomIdx(e.mhh, n) < FILTER_BITS
    ensures |f| == FILTER_BYTES
  {
    if es == [] then Zeros(FILTER_BYTES)
    else SetBit(Filter(es[..|es| - 1], n), BloomIdx(es[|es| - 1].mhh, n))
  }

  function EntryBytes(e: Entry): (s: bytes)
    requires IsInt64(e.off)
    ensures |s| == ENTRY_SIZE
  {
    e.mhh[..KEY_BYTES] + PutInt64(e.off)
  }

  function EntriesBytes(es: seq<Entry>): (s: bytes)
    requires forall e :: e in es ==> IsInt64(e.off)
    ensures |s| == ENTRY_SIZE * |es|
  {
    if es == [] then [] else EntriesBytes(es[..|es| - 1]) + EntryBytes(es[|es| - 1])
  }

  lemma {:induction false} EntriesBytesAt(es: seq<Entry>, i: nat)
    requires forall e :: e in es ==> IsInt64(e.off)
    requires i < |es|
    ensures EntriesBytes(es)[ENTRY_SIZE * i..ENTRY_SIZE * (i + 1)] == EntryBytes(es[i])
  {
    var init := es[..|es| - 1];
    if i < |es| - 1 {
      EntriesBytesAt(init, i);
      assert EntriesBytes(es)[ENTRY_SIZE * i..ENTRY_SIZE * (i + 1)]
          == EntriesBytes(init)[ENTRY_SIZE * i..ENTRY_SIZE * (i + 1)];
    }
  }

  /** The 4096 bytes of bucket b. */
  function BucketImage(list: seq<Entry>, n: nat, b: nat): (s: bytes)
    requires GoodSize(n) && Placeable(list, n)
    ensures |s| == BUCKET_SIZE
  {
    var es := InBucket(list, n, b);
    var st := Stored(es);
    EntriesBytes(st) + Zeros(ENTRY_SIZE * (USER_ENTRIES - |st|)) + Filter(es, n)
  }

  /** The first b buckets of a level. */
  function LevelImage(list: seq<Entry>, n: nat, b: nat): (s: bytes)
    requires GoodSize(n) && Placeable(list, n)
    ensures |s| == BUCKET_SIZE * b
  {
    if b == 0 then [] else LevelImage(list, n, b - 1) + BucketImage(list, n, b - 1)
  }

  /** All levels of the file, from the level with n buckets on. */
  function Image(list: seq<Entry>, n: nat): bytes
    requires GoodSize(n) && Placeable(list, n)
    decreases |list|
  {
    if list == [] then []
    else
      OverflowShrinks(list, n);
      OverflowPlaceable(list, n);
      LevelImage(list, n, n) + Image(Overflow(list, n), NextSize(n))
  }

  function Levels(list: seq<Entry>, n: nat): nat
    requires GoodSize(n)
    decreases |list|
  {
    if list == [] then 0
    else
      OverflowShrinks(list, n);
      1 + Levels(Overflow(list, n), NextSize(n))
  }

  lemma {:induction false} LevelImageAt(list: seq<Entry>, n: nat, m: nat, b: nat)
    requires GoodSize(n) && Placeable(list, n) && b < m
    ensures LevelImage(list, n, m)[BUCKET_SIZE * b..BUCKET_SIZE * (b + 1)] == BucketImage(list, n, b)
  {
    hide BucketImage;
    var before, last := LevelImage(list, n, m - 1), BucketImage(list, n, m - 1);
    if b < m - 1 {
      LevelImageAt(list, n, m - 1, b);
      SliceOfConcat(before, last, BUCKET_SIZE * b, BUCKET_SIZE * (b + 1));
    } else {
      SliceAfter(before, last, BUCKET_SIZE * b, BUCKET_SIZE * (b + 1));
    }
  }

  // ---- conservation ----------------------------------------------------------

  /** The entries kept by the first b buckets of a level. */
  ghost function KeptUpTo(list: seq<Entry>, n: nat, b: nat): multiset<Entry>
    requires GoodSize(n)
  {
    if b == 0 then multiset{}
    else KeptUpTo(list, n, b - 1) + multiset(Stored(InBucket(list, n, b - 1)))
  }

  /** The entries kept by all levels of the file. */
  ghost function Kept(list: seq<Entry>, n: nat): multiset<Entry>
    requires GoodSize(n)
    decreases |list|
  {
    if list == [] then multiset{}
    else
      OverflowShrinks(list, n);
      KeptUpTo(list, n, n) + Kept(Overflow(list, n), NextSize(n))
  }

  lemma {:induction false} InBucketSnoc(init: seq<Entry>, e: Entry, n: nat, b: nat)
    requires GoodSize(n)
    ensures BucketIdx(e.mhh, n) == b ==> InBucket(init + [e], n, b) == InBucket(init, n, b) + [e]
    ensures BucketIdx(e.mhh, n) != b ==> InBucket(init + [e], n, b) == InBucket(init, n, b)
  {
    assert (init + [e])[..|init|] == init;
  }

  lemma {:induction false} KeptUpToSame(init: seq<Entry>, e: Entry, n: nat, b: nat)
    requires GoodSize(n)
    requires BucketIdx(e.mhh, n) >= b || |InBucket(init, n, BucketIdx(e.mhh, n))| >= USER_ENTRIES
    ensures KeptUpTo(init + [e], n, b) == KeptUpTo(init, n, b)
  {
    hide BucketIdx;
    hide InBucket;
    if b > 0 {
      KeptUpToSame(init, e, n, b - 1);
      InBucketSnoc(init, e, n, b - 1);
      assert Stored(InBucket(init + [e], n, b - 1)) == Stored(InBucket(init, n, b - 1));
    }
  }

  lemma {:induction false} KeptUpToMore(init: seq<Entry>, e: Entry, n: nat, b: nat)
    requires GoodSize(n)
    requires BucketIdx(e.mhh, n) < b && |InBucket(init, n, BucketIdx(e.mhh, n))| < USER_ENTRIES
    ensures KeptUpTo(init + [e], n, b) == KeptUpTo(init, n, b) + multiset{e}
  {
    hide BucketIdx, InBucket, Stored;
    var es, es' := InBucket(init, n, b - 1), InBucket(init + [e], n, b - 1);
    InBucketSnoc(init, e, n, b - 1);
    MultisetRegroup(KeptUpTo(init, n, b - 1), multiset(Stored(es)), multiset{e});
    if BucketIdx(e.mhh, n) < b - 1 {
      KeptUpToMore(init, e, n, b - 1);
    } else {
      KeptUpToSame(init, e, n, b - 1);
      StoredMore(es, e);
    }
  }

  lemma {:induction false} StoredMore(es: seq<Entry>, e: Entry)
    requires |es| < USER_ENTRIES
    ensures multiset(Stored(es + [e])) == multiset(Stored(es)) + multiset{e}
  {
    MultisetSnoc(es, e);
  }

  lemma {:induction false} LevelConserves(list: seq<Entry>, n: nat)
    requires GoodSize(n) && Placeable(list, n)
    ensures KeptUpTo(list, n, n) + multiset(Overflow(list, n)) == multiset(list)
  {
    if list == [] {
      NothingKept(n, n);
    } else {
      hide BucketIdx;
      hide InBucket;
      var init, last := list[..|list| - 1], list[|list| - 1];
      assert list == init + [last];
      LevelConserves(init, n);
      MultisetSnoc(init, last);
      MultisetSnoc(Overflow(init, n), last);
      assert InRange(last.mhh, n);
      if |InBucket(init, n, BucketIdx(last.mhh, n))| >= USER_ENTRIES {
        KeptUpToSame(init, last, n, n);
      } else {
        KeptUpToMore(init, last, n, n);
      }
    }
  }

  lemma {:induction false} NothingKept(n: nat, b: nat)
    requires GoodSize(n)
    ensures KeptUpTo([], n, b) == multiset{}
  {
    if b > 0 {
      NothingKept(n, b - 1);
    }
  }

  /** Every entry of the list occupies exactly one slot of exactly one level. */
  lemma {:induction false} TableConserves(list: seq<Entry>, n: nat)
    requires GoodSize(n) && Placeable(list, n)
    ensures Kept(list, n) == multiset(list)
    decreases |list|
  {
    if list != [] {
      OverflowShrinks(list, n);
      OverflowPlaceable(list, n);
      TableConserves(Overflow(list, n), NextSize(n));
      LevelConserves(list, n);
    }
  }
}
