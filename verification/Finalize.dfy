/** Finalization: the level index is replaced by a BSST, either over the log itself or over the
    depth-first CAR sent to staging storage, and reads must not notice. */
module Finalize {
  import opened Bytes
  import opened Cars
  import opened LevelIndex
  import opened LogRuns
  import opened LogSafety
  import opened LogRebuild
  import opened BsstTable
  import opened BsstCreate
  import opened BsstLookup
  import opened BsstIndex
  import opened Preorder
  import opened TopCar

  // ---- listings ------------------------------------------------------------------------

  /** The packed location of block i among sections that start at an offset. */
  function Location(bs: seq<Block>, start: nat, i: nat): int
    requires i < |bs|
  {
    MakeOffsetLen(start + |Sections(bs[..i])|, bs[i].EntryLen())
  }

  /** What carIdxSource.List reports for a CAR. */
  function ItemsOf(bs: seq<Block>, start: nat): (items: seq<Item>)
    ensures |items| == |bs|
    ensures forall i :: 0 <= i < |bs| ==> items[i] == Item(bs[i].cid.hash.Encode(), [Location(bs, start, i)])
  {
    seq(|bs|, i requires 0 <= i < |bs| => Item(bs[i].cid.hash.Encode(), [Location(bs, start, i)]))
  }

  /** carIdxSource.List over a CAR whose header takes headerSize bytes. A section that does not
      read ends the listing silently. */
  method ListCar(car: bytes, headerSize: nat, ghost bs: seq<Block>) returns (items: seq<Item>, eof: bool)
    requires headerSize <= |car|
    ensures IsLog(car[headerSize..], bs) ==> eof && items == ItemsOf(bs, headerSize)
  {
    hide ReadNode, ReadUvarint, Sections, MakeOffsetLen, Block.EntryLen, Block.Section, AllOk, Uvarint,
      Multihash.Encode;
    var rest, at := car[headerSize..], headerSize;
    items := [];
    ghost var known, i: nat := IsLog(rest, bs), 0;
    assert bs[0..] == bs;
    EmptyAt(bs);
    while rest != []
      invariant at >= 0
      invariant known ==> i <= |bs| && AllOk(bs) && rest == Sections(bs[i..]) && at == headerSize + |Sections(bs[..i])|
      invariant known ==> |items| == i && items == ItemsOf(bs, headerSize)[..i]
      decreases |rest|
    {
      ghost var before := rest;
      if known {
        TopBuilder.ReadsNext(bs, i, rest);
        NextSection(bs, i);
      }
      var node := ReadNode(rest);
      if node.None? {
        return items, false;
      }
      EntryLenRead(rest);
      var len := ReadUvarint(rest).value.0;
      var (b, n) := node.value;
      items := items + [Item(b.cid.hash.Encode(), [MakeOffsetLen(at, len)])];
      at := at + |Uvarint(len)| + len;
      rest := rest[n..];
      i := i + 1;
    }
    if known {
      TopBuilder.LastNode(bs, i);
    }
    return items, true;
  }

  lemma {:induction false} EmptyAt(bs: seq<Block>)
    ensures |Sections(bs[..0])| == 0
  {}

  lemma {:induction false} EntryLenRead(s: bytes)
    requires ReadNode(s).Some?
    ensures ReadUvarint(s).Some?
  {}

  lemma {:induction false} NextSection(bs: seq<Block>, i: nat)
    requires i < |bs| && AllOk(bs)
    ensures
      var b := bs[i];
      && ReadUvarint(Sections(bs[i..])) == Some((b.EntryLen(), |Uvarint(b.EntryLen())|))
      && |Sections(bs[..i + 1])| == |Sections(bs[..i])| + |Uvarint(b.EntryLen())| + b.EntryLen()
  {
    hide ReadUvarint, Sections, Block.EntryLen, Block.Section, Uvarint, Block.Ok;
    var b := bs[i];
    assert bs[i..] == [b] + bs[i + 1..];
    SectionsConcat([b], bs[i + 1..]);
    SectionsOne(b);
    assert b.Ok();
    SectionVarint(b, Sections(bs[i + 1..]));
    assert bs[..i + 1] == bs[..i] + [b];
    SectionsSnoc(bs[..i], b);
  }

  // ---- where a hash is -----------------------------------------------------------------

  ghost predicate PointsAt(loc: int, h: Multihash, bs: seq<Block>, start: nat) {
    exists i :: 0 <= i < |bs| && bs[i].cid.hash == h && loc == Location(bs, start, i)
  }

  /** Every indexed hash is at one of its blocks. Not every block need be indexed: those that Put
      appends before one that it rejects are not. */
  ghost predicate IndexedIn(db: Db, bs: seq<Block>, start: nat) {
    forall h :: h in db ==> PointsAt(db[h], h, bs, start)
  }

  /** Appending blocks, indexed or not, moves none. */
  lemma {:induction false} StillPoints(loc: int, h: Multihash, bs: seq<Block>, more: seq<Block>, start: nat)
    requires PointsAt(loc, h, bs, start)
    ensures PointsAt(loc, h, bs + more, start)
  {
    hide Location;
    var i :| 0 <= i < |bs| && bs[i].cid.hash == h && loc == Location(bs, start, i);
    SameLocation(bs, more, start, i);
    assert (bs + more)[i] == bs[i];
  }

  lemma {:induction false} SameLocation(bs: seq<Block>, more: seq<Block>, start: nat, i: nat)
    requires i < |bs|
    ensures Location(bs + more, start, i) == Location(bs, start, i)
  {
    assert (bs + more)[..i] == bs[..i];
  }

  lemma {:induction false} PointsAtLast(bs: seq<Block>, b: Block, start: nat)
    ensures PointsAt(MakeOffsetLen(start + |Sections(bs)|, b.EntryLen()), b.cid.hash, bs + [b], start)
  {
    hide Sections, MakeOffsetLen, Block.EntryLen;
    assert (bs + [b])[..|bs|] == bs && (bs + [b])[|bs|] == b;
  }

  /** The index that walking the log rebuilds is one of these. */
  lemma {:induction false} RebuiltIndexedIn(bs: seq<Block>, start: nat)
    ensures IndexedIn(IndexOf(bs, start), bs, start)
  {
    hide Sections, MakeOffsetLen, Block.EntryLen, PointsAt;
    if bs != [] {
      var init, last := bs[..|bs| - 1], bs[|bs| - 1];
      RebuiltIndexedIn(init, start);
      assert bs == init + [last];
      PointsAtLast(init, last, start);
      forall h | h in IndexOf(init, start)
        ensures PointsAt(IndexOf(init, start)[h], h, bs, start)
      {
        StillPoints(IndexOf(init, start)[h], h, init, [last], start);
      }
    }
  }

  /** The record of block i, in any file that has the sections in place. */
  lemma {:induction false} RecInPlace(head: bytes, bs: seq<Block>, rest: bytes, i: nat)
    requires i < |bs|
    ensures RecAt(head + Sections(bs) + rest, Rec(|head| + |Sections(bs[..i])|, bs[i]))
    ensures |head| + |Sections(bs[..i])| + |bs[i].Section()| <= |head| + |Sections(bs)|
  {
    hide Sections, Block.Section, RecAt;
    var r := Rec(|head| + |Sections(bs[..i])|, bs[i]);
    SectionsAt(bs, i);
    var before := head + Sections(bs[..i]);
    AppendedRec(before, r);
    RecAtExtended(before + bs[i].Section(), Sections(bs[i + 1..]) + rest, r);
    Regroup(head, Sections(bs[..i]), bs[i].Section(), Sections(bs[i + 1..]), rest);
  }

  /** Reading at a block's location in any file that has the sections in place. */
  lemma {:induction false} ReadsAtLocation(head: bytes, bs: seq<Block>, rest: bytes, i: nat)
    requires i < |bs| && AllOk(bs) && bs[i].EntryLen() < TWO_23
    requires |head| + |Sections(bs)| <= TWO_40
    ensures ViewAt(head + Sections(bs) + rest, Location(bs, |head|, i)) == Data(bs[i].data)
  {
    hide Sections, Block.EntryLen, ViewAt, Block.Section, RecAt;
    RecInPlace(head, bs, rest, i);
    assert bs[i].Ok();
    NonEmptySection(bs[i]);
    ViewFindsRec(head + Sections(bs) + rest, Rec(|head| + |Sections(bs[..i])|, bs[i]));
  }

  /** What the cache has for a block's location is the block's data, whatever its length. */
  lemma {:induction false} CachedAtLocation(head: bytes, bs: seq<Block>, rest: bytes, lru: map<int, bytes>, i: nat)
    requires i < |bs| && AllOk(bs) && |head + Sections(bs) + rest| <= TWO_40
    requires LruOk(head + Sections(bs) + rest, lru) && Location(bs, |head|, i) in lru
    ensures lru[Location(bs, |head|, i)] == bs[i].data
  {
    hide Sections, Block.EntryLen, Block.Section, RecAt, LruOk, MakeOffsetLen;
    RecInPlace(head, bs, rest, i);
    assert bs[i].Ok();
    NonEmptySection(bs[i]);
    LruAgrees(head + Sections(bs) + rest, lru, Rec(|head| + |Sections(bs[..i])|, bs[i]));
  }

  lemma {:induction false} NonEmptySection(b: Block)
    ensures |b.Section()| > 0
  {}

  lemma {:induction false} Regroup(a: bytes, b: bytes, c: bytes, d: bytes, e: bytes)
    ensures a + (b + c + d) + e == a + b + c + (d + e)
  {
    assert a + (b + c + d) + e == a + b + c + (d + e);
  }

  lemma {:induction false} EncodeInjective(a: Multihash, b: Multihash)
    requires a.Ok() && b.Ok() && a.Encode() == b.Encode()
    ensures a == b
  {
    MultihashPrefixFree(a, b, [], []);
  }

  // ---- sizes ------------------------------------------------------------------------------

  lemma {:induction false} FlatStarts(ls: seq<seq<Block>>) returns (more: seq<Block>)
    requires ls != []
    ensures Flat(ls) == ls[0] + more
  {
    if |ls| == 1 {
      more := [];
      assert ls[..0] == [];
    } else {
      var m := FlatStarts(ls[..|ls| - 1]);
      more := m + ls[|ls| - 1];
    }
  }

  lemma {:induction false} InAllBlocks(ls: seq<seq<Block>>, b: Block)
    requires b in AllBlocks(ls)
    ensures exists k :: 0 <= k < |ls| && b in ls[k]
  {
    var init, last := ls[..|ls| - 1], ls[|ls| - 1];
    if b in last {
      assert b in ls[|ls| - 1];
    } else {
      InAllBlocks(init, b);
      var k :| 0 <= k < |init| && b in init[k];
      assert b in ls[k];
    }
  }

  lemma {:induction false} LeavesAmong(bs: seq<Block>, b: Block)
    requires b in Leaves(bs)
    ensures b in bs
  {
    if bs[0] != b {
      LeavesAmong(bs[1..], b);
    }
  }

  // ---- the read path over a table ------------------------------------------------------------

  /** View with a BSST as the index: an absent hash gives location 0, not "not found". */
  ghost function TableView(t: Table, kr: Keyer, lru: map<int, bytes>, content: bytes, h: Multihash): ViewResult {
    var k := MakeKey(kr, h.Encode(), 0);
    if !GoodSize(t.l0Buckets) || !InRangeAll(k, t.l0Buckets) then Failed
    else
      match FindIn(t, k)
      case ReadError => Failed
      case Absent => ViewCached(lru, content, 0)
      case Found(off) => if off == -1 then NotFound else ViewCached(lru, content, off)
  }

  /** The blocks with this hash agree on their data, and their location can be unpacked. */
  ghost predicate HashGood(blocks: seq<Block>, h: Multihash) {
    forall i, j :: 0 <= i < |blocks| && 0 <= j < |blocks| && blocks[i].cid.hash == h && blocks[j].cid.hash == h ==>
      blocks[i].data == blocks[j].data && blocks[i].EntryLen() < TWO_23
  }

  ghost predicate IsItemOf(it: Item, db: Db, h: Multihash) {
    h in db && h.Ok() && it == Item(h.Encode(), [db[h]])
  }

  ghost predicate FromDb(it: Item, db: Db) { exists h :: IsItemOf(it, db, h) }

  /** A listing of an index: one item a hash, in any order. */
  ghost predicate ListsDb(src: seq<Item>, db: Db) {
    && (forall j :: 0 <= j < |src| ==> FromDb(src[j], db))
    && (forall h :: h in db ==> exists j :: 0 <= j < |src| && IsItemOf(src[j], db, h))
  }

  ghost predicate RawLog(leaves: seq<Block>) {
    AllOk(leaves) && leaves != [] && forall i :: 0 <= i < |leaves| ==> leaves[i].cid.codec == RAW
  }

  lemma {:induction false} ListsHash(src: seq<Item>, db: Db, h: Multihash)
    requires ListsDb(src, db) && h in db
    ensures HasItem(src, h.Encode())
  {
    hide Multihash.Encode;
    var j :| 0 <= j < |src| && IsItemOf(src[j], db, h);
    assert src[j].offs != [];
  }

  lemma {:induction false} ListsOnly(src: seq<Item>, db: Db, h: Multihash, off: int)
    requires ListsDb(src, db) && h in db && h.Ok() && OffsetListedFor(src, h.Encode(), off)
    ensures off == db[h]
  {
    hide Multihash.Encode;
    var x :| 0 <= x < |src| && src[x].c == h.Encode() && src[x].offs != [] && src[x].offs[0] == off;
    var h' :| IsItemOf(src[x], db, h');
    EncodeInjective(h, h');
  }

  /** Integer division places every indexed hash's key at every level. */
  ghost predicate DbFits(kr: Keyer, db: Db, n: nat)
    requires GoodSize(n)
  {
    forall h :: h in db ==> h.Ok() && IsInt64(db[h]) && InRangeAll(MakeKey(kr, h.Encode(), 0), n)
  }

  /** No other indexed hash's salted key shares the 24-byte prefix of h's. */
  ghost predicate DbApart(kr: Keyer, db: Db, h: Multihash) {
    forall g :: g in db && SamePrefix(MakeKey(kr, g.Encode(), 0), MakeKey(kr, h.Encode(), 0)) ==> g == h
  }

  lemma {:induction false} ListingFits(kr: Keyer, src: seq<Item>, db: Db, n: nat)
    requires ListsDb(src, db) && GoodSize(n) && DbFits(kr, db, n)
    ensures SourceFits(kr, src, n)
  {
    hide InRangeAll, MakeKey, GoodSize, IsInt64, Multihash.Encode, Multihash.Ok;
    forall j, i | 0 <= j < |src| && 0 <= i < |src[j].offs|
      ensures IsInt64(src[j].offs[i]) && InRangeAll(MakeKey(kr, src[j].c, i), n)
    {
      var h :| IsItemOf(src[j], db, h);
    }
  }

  lemma {:induction false} ListingApart(kr: Keyer, src: seq<Item>, db: Db, h: Multihash)
    requires ListsDb(src, db) && DbApart(kr, db, h)
    ensures NoCollision(kr, src, h.Encode())
  {
    hide SamePrefix, MakeKey, Multihash.Encode, Multihash.Ok;
    forall j, i |
      0 <= j < |src| && 0 <= i < |src[j].offs| && SamePrefix(MakeKey(kr, src[j].c, i), MakeKey(kr, h.Encode(), 0))
      ensures src[j].c == h.Encode() && i == 0
    {
      var g :| IsItemOf(src[j], db, g);
    }
  }

  /** What View makes of a hash that the table finds. */
  lemma {:induction false} TableViewFound(t: Table, kr: Keyer, lru: map<int, bytes>, content: bytes, h: Multihash)
    requires GoodSize(t.l0Buckets) && InRangeAll(MakeKey(kr, h.Encode(), 0), t.l0Buckets)
    ensures
      var r := FindIn(t, MakeKey(kr, h.Encode(), 0));
      r.Found? && r.off != -1 ==> TableView(t, kr, lru, content, h) == ViewCached(lru, content, r.off)
  {
    hide InRangeAll, MakeKey, ViewCached, Multihash.Encode, GoodSize, FindIn;
  }

  /** A BSST built from a listing of the level index answers as the level index did. */
  lemma {:induction false} TableMatchesDb(t: Table, kr: Keyer, src: seq<Item>, db: Db, h: Multihash,
      lru: map<int, bytes>, content: bytes)
    requires BuiltFrom(t, kr, src) && ListsDb(src, db) && h in db && h.Ok() && db[h] != -1
    requires DbApart(kr, db, h)
    ensures TableView(t, kr, lru, content, h) == ViewCached(lru, content, db[h])
  {
    hide *;
    ListingApart(kr, src, db, h);
    ListsHash(src, db, h);
    AgreesOnListed(t, kr, src, h.Encode());
    var r := FindIn(t, MakeKey(kr, h.Encode(), 0));
    ListsOnly(src, db, h, r.off);
    TableViewFound(t, kr, lru, content, h);
  }

  /** Nothing can be read at location 0: an empty entry has no CID. */
  lemma {:induction false} ZeroFails(content: bytes)
    ensures ViewAt(content, 0) == Failed
  {
    assert FromOffsetLen(0) == (0, 0);
    assert ParseCid([]) == None;
  }

  /** A hash whose key the table can address and tell from padding. */
  ghost predicate Askable(kr: Keyer, h: Multihash, n: nat) {
    var k := MakeKey(kr, h.Encode(), 0);
    GoodSize(n) && InRangeAll(k, n) && k[..KEY_BYTES] != Zeros(KEY_BYTES)
  }

  /** No indexed hash's salted key has the 24-byte prefix of h's. */
  ghost predicate DbUnmatched(kr: Keyer, db: Db, h: Multihash) {
    forall g :: g in db ==> !SamePrefix(MakeKey(kr, g.Encode(), 0), MakeKey(kr, h.Encode(), 0))
  }

  /** No block's salted key has it. */
  ghost predicate Unmatched(kr: Keyer, bs: seq<Block>, h: Multihash) {
    forall i :: 0 <= i < |bs| ==> !SamePrefix(MakeKey(kr, bs[i].cid.hash.Encode(), 0), MakeKey(kr, h.Encode(), 0))
  }

  /** What View makes of a hash that the table does not have: not "not found", but a failure, and the
      batch fails with it. */
  lemma {:induction false} AbsentFails(t: Table, kr: Keyer, src: seq<Item>, lru: map<int, bytes>, content: bytes,
      h: Multihash)
    requires BuiltFrom(t, kr, src) && Askable(kr, h, t.l0Buckets) && 0 !in lru
    requires forall j, i :: 0 <= j < |src| && 0 <= i < |src[j].offs| ==>
               !SamePrefix(MakeKey(kr, src[j].c, i), MakeKey(kr, h.Encode(), 0))
    ensures TableView(t, kr, lru, content, h) == Failed
  {
    hide InRangeAll, MakeKey, BuiltFrom, ViewAt, SamePrefix, Multihash.Encode, GoodSize, FindIn;
    AgreesOnUnlisted(t, kr, src, MakeKey(kr, h.Encode(), 0));
    ZeroFails(content);
  }

  /** After the local branch a hash that was not indexed is no longer "not found". */
  lemma {:induction false} UnindexedFails(t: Table, kr: Keyer, src: seq<Item>, db: Db, lru: map<int, bytes>,
      content: bytes, h: Multihash)
    requires BuiltFrom(t, kr, src) && ListsDb(src, db)
    requires Askable(kr, h, t.l0Buckets) && DbUnmatched(kr, db, h) && 0 !in lru
    ensures TableView(t, kr, lru, content, h) == Failed
  {
    hide MakeKey, BuiltFrom, SamePrefix, Multihash.Encode, Multihash.Ok, Askable, TableView;
    forall j, i | 0 <= j < |src| && 0 <= i < |src[j].offs|
      ensures !SamePrefix(MakeKey(kr, src[j].c, i), MakeKey(kr, h.Encode(), 0))
    {
      var g :| IsItemOf(src[j], db, g);
    }
    AbsentFails(t, kr, src, lru, content, h);
  }

  /** Neither is, after the staged branch, a hash without a block in the CAR, indexed or not. */
  lemma {:induction false} MissingFails(t: Table, kr: Keyer, bs: seq<Block>, start: nat, content: bytes, h: Multihash)
    requires BuiltFrom(t, kr, ItemsOf(bs, start)) && Askable(kr, h, t.l0Buckets) && Unmatched(kr, bs, h)
    ensures TableView(t, kr, map[], content, h) == Failed
  {
    hide MakeKey, BuiltFrom, SamePrefix, Multihash.Encode, Askable, TableView, Location;
    AbsentFails(t, kr, ItemsOf(bs, start), map[], content, h);
  }

  /** Bytes changed before the first location, or added at the end, leave a read that succeeds as it
      was. */
  lemma {:induction false} SuccessKept(file: bytes, file': bytes, start: nat, loc: int)
    requires start <= |file| <= |file'| && file[start..] == file'[start..|file|]
    requires FromOffsetLen(loc).0 >= start && ViewAt(file, loc).Data?
    ensures ViewAt(file', loc) == ViewAt(file, loc)
  {
    hide ParseCid, Uvarint, FromOffsetLen;
    var (off, entLen) := FromOffsetLen(loc);
    var from := off + |Uvarint(entLen)|;
    SliceOfSlice(file, start, |file|, from - start, from - start + entLen);
    SliceOfSlice(file', start, |file|, from - start, from - start + entLen);
    assert file[start..|file|] == file[start..];
  }

  /** Reads through the level index, over the file as it is or as genTopCar leaves it: a hash at one of its
      blocks, cached or with short enough blocks, gives the data of one of them. */
  lemma {:induction false} LogReads(head: bytes, leaves: seq<Block>, rest: bytes, db: Db, lru: map<int, bytes>,
      h: Multihash)
    returns (i: nat)
    requires AllOk(leaves) && |head + Sections(leaves) + rest| <= TWO_40
    requires h in db && PointsAt(db[h], h, leaves, |head|)
    requires LruOk(head + Sections(leaves) + rest, lru) && (db[h] in lru || HashGood(leaves, h))
    ensures i < |leaves| && leaves[i].cid.hash == h && h.Ok() && db[h] != -1
    ensures ViewCached(lru, head + Sections(leaves) + rest, db[h]) == Data(leaves[i].data)
  {
    hide Sections, Block.EntryLen, ViewAt, Location, LruOk;
    i :| 0 <= i < |leaves| && leaves[i].cid.hash == h && db[h] == Location(leaves, |head|, i);
    assert leaves[i].Ok();
    LocationNotSkip(head, leaves, i);
    if db[h] in lru {
      CachedAtLocation(head, leaves, rest, lru, i);
    } else {
      ReadsAtLocation(head, leaves, rest, i);
    }
  }

  /** The block at which the table over a CAR finds a listed hash. */
  lemma {:induction false} FoundBlock(t: Table, kr: Keyer, head: bytes, blocks: seq<Block>, h: Multihash, i: nat)
    returns (x: nat)
    requires BuiltFrom(t, kr, ItemsOf(blocks, |head|)) && AllOk(blocks) && i < |blocks| && blocks[i].cid.hash == h
    requires |head| + |Sections(blocks)| <= TWO_40 && NoCollision(kr, ItemsOf(blocks, |head|), h.Encode())
    ensures x < |blocks| && blocks[x].Ok() && blocks[x].cid.hash == h
    ensures forall content ::
              TableView(t, kr, map[], content, h) == ViewAt(content, Location(blocks, |head|, x))
  {
    hide InRangeAll, MakeKey, BuiltFrom, ViewAt, NoCollision, Multihash.Encode, GoodSize, FindIn, Sections,
      Block.EntryLen, Location;
    var src := ItemsOf(blocks, |head|);
    assert src[i].c == h.Encode() && src[i].offs != [];
    AgreesOnListed(t, kr, src, h.Encode());
    var r := FindIn(t, MakeKey(kr, h.Encode(), 0));
    x :| 0 <= x < |src| && src[x].c == h.Encode() && src[x].offs != [] && src[x].offs[0] == r.off;
    assert blocks[i].Ok() && blocks[x].Ok();
    EncodeInjective(h, blocks[x].cid.hash);
    LocationNotSkip(head, blocks, x);
  }

  /** Reads through a BSST over the canonical CAR. */
  lemma {:induction false} CarReads(t: Table, kr: Keyer, head: bytes, blocks: seq<Block>, h: Multihash, i: nat)
    requires BuiltFrom(t, kr, ItemsOf(blocks, |head|)) && AllOk(blocks) && i < |blocks| && blocks[i].cid.hash == h
    requires |head| + |Sections(blocks)| <= TWO_40 && HashGood(blocks, h)
    requires NoCollision(kr, ItemsOf(blocks, |head|), h.Encode())
    ensures TableView(t, kr, map[], head + Sections(blocks), h) == Data(blocks[i].data)
  {
    hide InRangeAll, MakeKey, BuiltFrom, ViewAt, NoCollision, Multihash.Encode, GoodSize, FindIn, Sections,
      Block.EntryLen;
    var x := FoundBlock(t, kr, head, blocks, h, i);
    ReadsAtLocation(head, blocks, [], x);
    assert head + Sections(blocks) + [] == head + Sections(blocks);
  }

  /** An entry of 2^23 bytes or more cannot be read through the table: staging has no cache, so it is lost
      even where the cache had served it. */
  lemma {:induction false} CarLosesLarge(t: Table, kr: Keyer, head: bytes, blocks: seq<Block>, h: Multihash, i: nat)
    requires BuiltFrom(t, kr, ItemsOf(blocks, |head|)) && AllOk(blocks) && i < |blocks| && blocks[i].cid.hash == h
    requires |head| + |Sections(blocks)| <= TWO_40
    requires forall j :: 0 <= j < |blocks| && blocks[j].cid.hash == h ==>
               blocks[j].data == blocks[i].data && blocks[j].EntryLen() >= TWO_23
    requires NoCollision(kr, ItemsOf(blocks, |head|), h.Encode())
    ensures TableView(t, kr, map[], head + Sections(blocks), h) != Data(blocks[i].data)
  {
    hide InRangeAll, MakeKey, BuiltFrom, ViewAt, NoCollision, Multihash.Encode, GoodSize, FindIn, Sections,
      Block.EntryLen;
    var x := FoundBlock(t, kr, head, blocks, h, i);
    ViewLosesLarge(head + Sections(blocks), |head| + |Sections(blocks[..x])|, blocks[x]);
  }

  /** A location inside what 40 bits address keeps its offset and is never the skip marker. */
  lemma {:induction false} LocationNotSkip(head: bytes, blocks: seq<Block>, i: nat)
    requires i < |blocks| && |head| + |Sections(blocks)| <= TWO_40
    ensures Location(blocks, |head|, i) != -1
    ensures FromOffsetLen(Location(blocks, |head|, i)).0 == |head| + |Sections(blocks[..i])|
  {
    hide Sections, Block.EntryLen, Block.Section, MakeOffsetLen, FromOffsetLen;
    SectionsAt(blocks, i);
    SectionSize(blocks[i]);
    OffsetKept(|head| + |Sections(blocks[..i])|, blocks[i].EntryLen());
    PackedIsNotSkip(|head| + |Sections(blocks[..i])|, blocks[i].EntryLen());
  }
}
