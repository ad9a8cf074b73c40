/** bsst.Create: sorting the keyed entries and streaming them out bucket by bucket and
    level by level. */
module BsstCreate {
  import opened Bytes
  import opened BloomRank
  import opened BsstTable

  /** All entries seen so far on this level address bucket cur or an earlier one. */
  ghost predicate UpTo(p: seq<Entry>, n: nat, cur: nat)
    requires GoodSize(n)
  {
    forall e :: e in p ==> BucketIdx(e.mhh, n) <= cur
  }

  lemma {:induction false} EmptyBucket(p: seq<Entry>, n: nat, b: nat)
    requires GoodSize(n)
    requires forall e :: e in p ==> BucketIdx(e.mhh, n) != b
    ensures InBucket(p, n, b) == []
  {
    if p != [] {
      EmptyBucket(p[..|p| - 1], n, b);
      assert p[|p| - 1] in p;
    }
  }

  lemma {:induction false} OtherBucketFixed(p: seq<Entry>, e: Entry, n: nat, b: nat)
    requires GoodSize(n) && Placeable(p + [e], n) && Placeable(p, n)
    requires BucketIdx(e.mhh, n) != b
    ensures BucketImage(p + [e], n, b) == BucketImage(p, n, b)
  {
    hide BucketIdx, InBucket, Stored, Filter, EntriesBytes, Placeable;
    InBucketSnoc(p, e, n, b);
  }

  lemma {:induction false} EarlierBucketsFixed(p: seq<Entry>, e: Entry, n: nat, b: nat)
    requires GoodSize(n) && Placeable(p + [e], n) && Placeable(p, n)
    requires BucketIdx(e.mhh, n) >= b
    ensures LevelImage(p + [e], n, b) == LevelImage(p, n, b)
  {
    hide BucketIdx, BucketImage, Placeable;
    if b > 0 {
      EarlierBucketsFixed(p, e, n, b - 1);
      OtherBucketFixed(p, e, n, b - 1);
    }
  }

  lemma {:induction false} FilterSnoc(es: seq<Entry>, e: Entry, n: nat)
    requires GoodSize(n)
    requires forall x :: x in es + [e] ==> BloomIdx(x.mhh, n) < FILTER_BITS
    ensures Filter(es + [e], n) == SetBit(Filter(es, n), BloomIdx(e.mhh, n))
  {
    hide BloomIdx;
    assert (es + [e])[..|es|] == es;
  }

  lemma {:induction false} EntriesBytesSnoc(es: seq<Entry>, e: Entry)
    requires forall x :: x in es + [e] ==> IsInt64(x.off)
    ensures EntriesBytes(es + [e]) == EntriesBytes(es) + (e.mhh[..KEY_BYTES] + PutInt64(e.off))
  {
    assert (es + [e])[..|es|] == es;
  }

  lemma {:induction false} OverflowSnoc(p: seq<Entry>, e: Entry, n: nat)
    requires GoodSize(n)
    ensures |InBucket(p, n, BucketIdx(e.mhh, n))| >= USER_ENTRIES ==> Overflow(p + [e], n) == Overflow(p, n) + [e]
    ensures |InBucket(p, n, BucketIdx(e.mhh, n))| < USER_ENTRIES ==> Overflow(p + [e], n) == Overflow(p, n)
  {
    hide BucketIdx, InBucket;
    assert (p + [e])[..|p|] == p;
  }

  /** The variables shared by Create's loops and its flushBucket closure. */
  class Builder {
    var out: bytes
    var inBucket: nat
    var bucketEnts: nat
    var bloomHead: bytes
    var nextLevel: seq<Entry>

    constructor ()
      ensures out == Zeros(BUCKET_SIZE) && inBucket == 0 && bucketEnts == 0
      ensures bloomHead == Zeros(FILTER_BYTES) && nextLevel == []
    {
      out := Zeros(BUCKET_SIZE);  // the header bucket
      inBucket, bucketEnts := 0, 0;
      bloomHead := Zeros(FILTER_BYTES);
      nextLevel := [];
    }

    /** The state after the entries p of a level of n buckets, prev buckets having been
        written for earlier levels, with bucket cur of this level open. */
    ghost predicate At(base: bytes, p: seq<Entry>, n: nat, prev: nat, cur: nat)
      requires GoodSize(n) && Placeable(p, n)
      reads this
    {
      var es := InBucket(p, n, cur);
      && inBucket == prev + cur
      && cur <= n
      && UpTo(p, n, cur)
      && out == base + LevelImage(p, n, cur) + EntriesBytes(Stored(es))
      && bucketEnts == |Stored(es)|
      && bloomHead == Filter(es, n)
      && nextLevel == Overflow(p, n)
    }

    /** Pads and closes the open bucket. The "buckets not sorted" panic is excluded by the
        precondition, which every caller meets. */
    method FlushBucket(bucketIdx: nat)
      requires inBucket <= bucketIdx && bucketEnts <= USER_ENTRIES && |bloomHead| == FILTER_BYTES
      modifies this
      ensures out == old(out) + Zeros(ENTRY_SIZE * (USER_ENTRIES - old(bucketEnts))) + old(bloomHead)
      ensures inBucket == old(inBucket) + 1 && bucketEnts == 0
      ensures bloomHead == Zeros(FILTER_BYTES) && nextLevel == old(nextLevel)
    {
      while bucketEnts < USER_ENTRIES
        invariant old(bucketEnts) <= bucketEnts <= USER_ENTRIES
        invariant out == old(out) + Zeros(ENTRY_SIZE * (bucketEnts - old(bucketEnts)))
        invariant inBucket == old(inBucket) && bloomHead == old(bloomHead) && nextLevel == old(nextLevel)
      {
        out := out + Zeros(ENTRY_SIZE);
        bucketEnts := bucketEnts + 1;
      }
      out := out + bloomHead;
      inBucket := inBucket + 1;
      bucketEnts := 0;
      bloomHead := Zeros(FILTER_BYTES);
    }

    /** Closes buckets until the one with (level-relative) index target is open. */
    method Advance(target: nat, ghost base: bytes, ghost p: seq<Entry>, n: nat, prev: nat, ghost cur: nat)
      requires GoodSize(n) && Placeable(p, n)
      requires At(base, p, n, prev, cur) && cur <= target <= n
      modifies this
      ensures At(base, p, n, prev, target)
    {
      hide LevelImage, InBucket, Stored, EntriesBytes, Filter, Overflow, UpTo, Placeable, BucketIdx;
      ghost var at := cur;
      while inBucket != prev + target
        invariant cur <= at <= target && At(base, p, n, prev, at)
        decreases target - at
      {
        FlushBucket(prev + target);
        Opened(base, p, n, at);
        at := at + 1;
      }
    }

    /** One iteration of the loop over a level's list. */
    method PlaceEntry(e: Entry, ghost base: bytes, ghost p: seq<Entry>, n: nat, prev: nat, ghost cur: nat)
      requires GoodSize(n) && Placeable(p, n) && Placeable(p + [e], n)
      requires At(base, p, n, prev, cur) && cur <= BucketIdx(e.mhh, n) < n && BloomIdx(e.mhh, n) < FILTER_BITS
      requires IsInt64(e.off)
      modifies this
      ensures At(base, p + [e], n, prev, BucketIdx(e.mhh, n))
    {
      hide LevelImage, InBucket, EntriesBytes, Filter, Overflow, UpTo, Placeable, BucketIdx, BloomIdx, Stored,
        SetBit, PutInt64;
      var b, bloom := BucketIdx(e.mhh, n), BloomIdx(e.mhh, n);
      Advance(b, base, p, n, prev, cur);
      Extended(base, p, e, n);
      bloomHead := SetBit(bloomHead, bloom);
      if bucketEnts >= USER_ENTRIES {
        nextLevel := nextLevel + [e];
      } else {
        out := out + e.mhh[..KEY_BYTES];
        out := out + PutInt64(e.off);
        bucketEnts := bucketEnts + 1;
      }
    }

    /** What one more entry, addressed to the open bucket, does to the specification. */
    static lemma {:induction false} Extended(base: bytes, p: seq<Entry>, e: Entry, n: nat)
      requires GoodSize(n) && Placeable(p, n) && Placeable(p + [e], n)
      requires UpTo(p, n, BucketIdx(e.mhh, n)) && BloomIdx(e.mhh, n) < FILTER_BITS && IsInt64(e.off)
      ensures
        var b := BucketIdx(e.mhh, n);
        var es, es' := InBucket(p, n, b), InBucket(p + [e], n, b);
        && UpTo(p + [e], n, b)
        && LevelImage(p + [e], n, b) == LevelImage(p, n, b)
        && Filter(es', n) == SetBit(Filter(es, n), BloomIdx(e.mhh, n))
        && |Stored(es)| <= USER_ENTRIES
        && (|Stored(es)| >= USER_ENTRIES ==>
              && Overflow(p + [e], n) == Overflow(p, n) + [e]
              && Stored(es') == Stored(es))
        && (|Stored(es)| < USER_ENTRIES ==>
              && Overflow(p + [e], n) == Overflow(p, n)
              && |Stored(es')| == |Stored(es)| + 1
              && base + LevelImage(p, n, b) + EntriesBytes(Stored(es')) ==
                 base + LevelImage(p, n, b) + EntriesBytes(Stored(es)) + e.mhh[..KEY_BYTES] + PutInt64(e.off))
    {
      hide BucketIdx, BloomIdx, Placeable, LevelImage, InBucket, Filter, EntriesBytes, Overflow, SetBit,
        PutInt64;
      var b := BucketIdx(e.mhh, n);
      var es := InBucket(p, n, b);
      EarlierBucketsFixed(p, e, n, b);
      InBucketSnoc(p, e, n, b);
      BucketEntriesGood(p + [e], n, b);
      FilterSnoc(es, e, n);
      OverflowSnoc(p, e, n);
      if |es| < USER_ENTRIES {
        assert Stored(es + [e]) == es + [e];
        EntriesBytesSnoc(es, e);
        Reassociate3(base + LevelImage(p, n, b), EntriesBytes(es), e.mhh[..KEY_BYTES], PutInt64(e.off));
      } else {
        assert Stored(es + [e]) == Stored(es);
      }
    }

    static lemma {:induction false} Reassociate3(a: bytes, b: bytes, c: bytes, d: bytes)
      ensures a + b + c + d == a + (b + (c + d))
    {}

    /** Closing bucket at leaves the image of one more bucket and an empty open one. */
    static lemma {:induction false} Opened(base: bytes, p: seq<Entry>, n: nat, at: nat)
      requires GoodSize(n) && Placeable(p, n) && UpTo(p, n, at)
      ensures InBucket(p, n, at + 1) == [] && UpTo(p, n, at + 1)
      ensures EntriesBytes(Stored([])) == [] && |Stored([])| == 0 && Filter([], n) == Zeros(FILTER_BYTES)
      ensures
        var es := InBucket(p, n, at);
        var st := Stored(es);
        base + LevelImage(p, n, at) + EntriesBytes(st) + Zeros(ENTRY_SIZE * (USER_ENTRIES - |st|)) + Filter(es, n)
        == base + LevelImage(p, n, at + 1)
    {
      hide LevelImage, InBucket, EntriesBytes, Filter, UpTo, Placeable, BucketIdx, Stored, BucketImage, Zeros;
      BucketEntriesGood(p, n, at);
      EmptyNext(p, n, at);
      LevelGrows(p, n, at);
      var es := InBucket(p, n, at);
      var st := Stored(es);
      CloseImage(base, LevelImage(p, n, at), EntriesBytes(st),
                 Zeros(ENTRY_SIZE * (USER_ENTRIES - |st|)), Filter(es, n), BucketImage(p, n, at));
    }

    static lemma {:induction false} EmptyNext(p: seq<Entry>, n: nat, at: nat)
      requires GoodSize(n) && UpTo(p, n, at)
      ensures InBucket(p, n, at + 1) == [] && UpTo(p, n, at + 1)
      ensures EntriesBytes(Stored([])) == [] && |Stored([])| == 0 && Filter([], n) == Zeros(FILTER_BYTES)
    {
      hide BucketIdx;
      EmptyBucket(p, n, at + 1);
    }

    static lemma {:induction false} LevelGrows(p: seq<Entry>, n: nat, at: nat)
      requires GoodSize(n) && Placeable(p, n)
      ensures LevelImage(p, n, at + 1) == LevelImage(p, n, at) + BucketImage(p, n, at)
      ensures
        var es := InBucket(p, n, at);
        BucketImage(p, n, at) ==
          EntriesBytes(Stored(es)) + Zeros(ENTRY_SIZE * (USER_ENTRIES - |Stored(es)|)) + Filter(es, n)
    {
      hide InBucket, EntriesBytes, Filter, Placeable, BucketIdx, Stored, Zeros;
    }

    static lemma {:induction false} CloseImage(base: bytes, lv: bytes, ents: bytes, pad: bytes, f: bytes, image: bytes)
      requires image == ents + pad + f
      ensures base + lv + ents + pad + f == base + (lv + image)
    {}

    /** One whole level: place every entry of the list, then close all remaining buckets. */
    method BuildLevel(list: seq<Entry>, n: nat, prev: nat)
      requires GoodSize(n) && Placeable(list, n) && Sorted(list)
      requires inBucket == prev && bucketEnts == 0
      requires bloomHead == Zeros(FILTER_BYTES) && nextLevel == []
      modifies this
      ensures out == old(out) + LevelImage(list, n, n)
      ensures inBucket == prev + n && bucketEnts == 0 && bloomHead == Zeros(FILTER_BYTES)
      ensures nextLevel == Overflow(list, n)
    {
      hide LevelImage, InBucket, EntriesBytes, Filter, Overflow, UpTo, BucketIdx, BloomIdx, Stored, Sorted,
        Placeable;
      ghost var base: bytes, cur: nat := out, 0;
      Started(base, n);
      assert list[..0] == [];
      var i := 0;
      while i < |list|
        invariant i <= |list| && Placeable(list[..i], n)
        invariant cur <= n && (i < |list| ==> cur <= BucketIdx(list[i].mhh, n))
        invariant At(base, list[..i], n, prev, cur)
      {
        NextFits(list, n, i);
        PlaceEntry(list[i], base, list[..i], n, prev, cur);
        cur := BucketIdx(list[i].mhh, n);
        i := i + 1;
      }
      assert list[..i] == list;
      Advance(n, base, list, n, prev, cur);
      Finished(base, list, n);
    }

    static lemma {:induction false} Started(base: bytes, n: nat)
      requires GoodSize(n)
      ensures base == base + LevelImage([], n, 0) + EntriesBytes(Stored(InBucket([], n, 0)))
      ensures InBucket([], n, 0) == [] && Overflow([], n) == [] && UpTo([], n, 0) && Placeable([], n)
      ensures |Stored(InBucket([], n, 0))| == 0 && Filter([], n) == Zeros(FILTER_BYTES)
    {}

    static lemma {:induction false} NextFits(list: seq<Entry>, n: nat, i: nat)
      requires GoodSize(n) && Placeable(list, n) && Sorted(list) && i < |list|
      ensures list[..i + 1] == list[..i] + [list[i]]
      ensures Placeable(list[..i + 1], n)
      ensures BucketIdx(list[i].mhh, n) < n && BloomIdx(list[i].mhh, n) < FILTER_BITS && IsInt64(list[i].off)
      ensures i + 1 < |list| ==> BucketIdx(list[i].mhh, n) <= BucketIdx(list[i + 1].mhh, n)
    {
      if i + 1 < |list| {
        AddressesFollowOrder(list[i].mhh, list[i + 1].mhh, n);
      }
    }

    static lemma {:induction false} Finished(base: bytes, list: seq<Entry>, n: nat)
      requires GoodSize(n) && Placeable(list, n)
      ensures InBucket(list, n, n) == []
      ensures base + LevelImage(list, n, n) + EntriesBytes(Stored([])) == base + LevelImage(list, n, n)
      ensures Filter([], n) == Zeros(FILTER_BYTES) && Stored([]) == []
    {
      forall e | e in list
        ensures BucketIdx(e.mhh, n) != n
      {
        var i :| 0 <= i < |list| && list[i] == e;
        assert InRange(list[i].mhh, n);
      }
      EmptyBucket(list, n, n);
    }
  }

  // ---- sorting ---------------------------------------------------------------

  /** sort.Slice by key: some sorted permutation of the list. */
  method SortByKey(list: seq<Entry>) returns (sorted: seq<Entry>)
    ensures Sorted(sorted) && multiset(sorted) == multiset(list)
  {
    sorted := [];
    var i := 0;
    while i < |list|
      invariant i <= |list|
      invariant Sorted(sorted) && multiset(sorted) == multiset(list[..i])
    {
      var k: nat := |sorted|;
      while k > 0 && Below(list[i].mhh, sorted[k - 1].mhh)
        invariant 0 <= k <= |sorted|
        invariant forall j :: k <= j < |sorted| ==> Below(list[i].mhh, sorted[j].mhh)
      {
        k := k - 1;
      }
      InsertKeepsSorted(sorted, list[i], k);
      InsertIsPermutation(sorted, list, i, k);
      sorted := sorted[..k] + [list[i]] + sorted[k..];
      i := i + 1;
    }
    assert list[..i] == list;
  }

  lemma {:induction false} InsertIsPermutation(s: seq<Entry>, list: seq<Entry>, i: nat, k: nat)
    requires i < |list| && k <= |s| && multiset(s) == multiset(list[..i])
    ensures multiset(s[..k] + [list[i]] + s[k..]) == multiset(list[..i + 1])
  {
    assert list[..i + 1] == list[..i] + [list[i]];
    MultisetSnoc(list[..i], list[i]);
    MultisetSnoc(s[..k], list[i]);
    assert s == s[..k] + s[k..];
  }

  lemma {:induction false} InsertKeepsSorted(s: seq<Entry>, e: Entry, k: nat)
    requires Sorted(s) && k <= |s|
    requires forall j :: k <= j < |s| ==> Below(e.mhh, s[j].mhh)
    requires k > 0 ==> !Below(e.mhh, s[k - 1].mhh)
    ensures Sorted(s[..k] + [e] + s[k..])
  {
    var r := s[..k] + [e] + s[k..];
    forall i, j | 0 <= i < j < |r|
      ensures !Below(r[j].mhh, r[i].mhh)
    {
      if j == k {
        if Below(e.mhh, s[i].mhh) {
          BelowTotal(s[i].mhh, s[k - 1].mhh);
          if i < k - 1 && Below(s[i].mhh, s[k - 1].mhh) {
            BelowTransitive(e.mhh, s[i].mhh, s[k - 1].mhh);
          }
        }
      } else if i == k {
        if Below(r[j].mhh, e.mhh) {
          BelowTransitive(e.mhh, s[j - 1].mhh, e.mhh);
          BelowIrreflexive(e.mhh);
        }
      }
    }
  }

  // ---- bsst.Create -----------------------------------------------------------

  /** An open table: the file with its header bucket, and the two header fields lookups use. */
  datatype Table = Table(file: bytes, l0Buckets: nat, levels: nat)

  /** The file is the header bucket followed by the level images of the list. */
  ghost predicate Holds(t: Table, list: seq<Entry>) {
    && GoodSize(t.l0Buckets) && Placeable(list, t.l0Buckets) && Sorted(list)
    && |t.file| >= BUCKET_SIZE
    && t.file[BUCKET_SIZE..] == Image(list, t.l0Buckets)
    && t.levels == Levels(list, t.l0Buckets)
  }

  /** Number of level-0 buckets for a declared entry count. */
  function L0Buckets(entries: nat): (n: nat)
    requires 0 < entries <= 0x4000_0000_0000_0000
    ensures GoodSize(n)
  {
    (entries + MEAN_ENTRIES - 1) / MEAN_ENTRIES
  }

  /** The least numbers that hold: the declared entries at the mean load, and a level at the factor by which
      levels shrink. */
  lemma {:induction false} LevelSizesAreLeast(entries: nat, n: nat)
    requires 0 < entries <= 0x4000_0000_0000_0000 && GoodSize(n)
    ensures forall b: nat :: entries <= 96 * b <==> L0Buckets(entries) <= b
    ensures forall b: nat :: n <= 16384 * b <==> NextSize(n) <= b
  {}

  method Create(entries: nat, collected: seq<Entry>) returns (t: Table, ghost list: seq<Entry>)
    requires 0 < entries <= 0x4000_0000_0000_0000
    requires Placeable(collected, L0Buckets(entries))
    ensures t.l0Buckets == L0Buckets(entries)
    ensures Holds(t, list) && multiset(list) == multiset(collected)
  {
    hide LevelImage, Overflow, InRangeAll, Below, Placeable, Sorted, L0Buckets;
    var sorted := SortByKey(collected);
    var b := new Builder();
    var levelBuckets, prevLevelBuckets, level := L0Buckets(entries), 0, 0;
    list := sorted;
    PermutationPlaceable(collected, list, levelBuckets);
    b.nextLevel := sorted;
    while |b.nextLevel| > 0
      invariant GoodSize(levelBuckets) && Placeable(b.nextLevel, levelBuckets) && Sorted(b.nextLevel)
      invariant b.inBucket == prevLevelBuckets && b.bucketEnts == 0 && b.bloomHead == Zeros(FILTER_BYTES)
      invariant |b.out| == BUCKET_SIZE * (prevLevelBuckets + 1)
      invariant Placeable(list, L0Buckets(entries))
      invariant b.out[BUCKET_SIZE..] + Image(b.nextLevel, levelBuckets) == Image(list, L0Buckets(entries))
      invariant level + Levels(b.nextLevel, levelBuckets) == Levels(list, L0Buckets(entries))
      decreases |b.nextLevel|
    {
      var cur := b.nextLevel;
      b.nextLevel := [];
      ghost var before := b.out;
      b.BuildLevel(cur, levelBuckets, prevLevelBuckets);
      NextLevel(before, cur, levelBuckets);
      level := level + 1;
      prevLevelBuckets := prevLevelBuckets + levelBuckets;
      levelBuckets := NextSize(levelBuckets);
    }
    t := Table(b.out, L0Buckets(entries), level);
  }

  lemma {:induction false} NextLevel(before: bytes, cur: seq<Entry>, n: nat)
    requires GoodSize(n) && Placeable(cur, n) && Sorted(cur) && cur != [] && |before| >= BUCKET_SIZE
    ensures |Overflow(cur, n)| < |cur|
    ensures Placeable(Overflow(cur, n), NextSize(n)) && Sorted(Overflow(cur, n))
    ensures (before + LevelImage(cur, n, n))[BUCKET_SIZE..] + Image(Overflow(cur, n), NextSize(n))
         == before[BUCKET_SIZE..] + Image(cur, n)
    ensures Levels(cur, n) == 1 + Levels(Overflow(cur, n), NextSize(n))
  {
    OverflowShrinks(cur, n);
    OverflowPlaceable(cur, n);
    OverflowSorted(cur, n);
    DropConcat(before, LevelImage(cur, n, n), Image(Overflow(cur, n), NextSize(n)), BUCKET_SIZE);
  }

  lemma {:induction false} DropConcat(a: bytes, b: bytes, c: bytes, k: nat)
    requires k <= |a|
    ensures (a + b)[k..] + c == a[k..] + (b + c)
  {}

  lemma {:induction false} PermutationPlaceable(a: seq<Entry>, b: seq<Entry>, n: nat)
    requires GoodSize(n) && Placeable(a, n) && multiset(a) == multiset(b)
    ensures Placeable(b, n)
  {
    forall i | 0 <= i < |b|
      ensures IsInt64(b[i].off) && InRangeAll(b[i].mhh, n)
    {
      assert b[i] in multiset(b);
      assert b[i] in multiset(a);
      assert b[i] in a;
    }
  }
}
