/** Finalize as a state change of the log: which index serves reads, and from which bytes. */
module FinalLogs {
  import opened Bytes
  import opened Cars
  import opened LevelIndex
  import opened LogRuns
  import opened LogRebuild
  import opened BsstTable
  import opened BsstCreate
  import opened BsstLookup
  import opened BsstIndex
  import opened TopTree
  import opened Preorder
  import opened TopCar
  import opened WriteCar
  import opened Finalize

  /** The blocks of a log's canonical CAR, in order. */
  ghost function BlocksOf(env: CarEnv, leaves: seq<Block>): seq<Block>
    requires leaves != []
  {
    TopLayersEnd(env, leaves);
    Canonical(AllLayers(env, leaves))
  }

  ghost function CarOf(env: CarEnv, leaves: seq<Block>): bytes
    requires leaves != []
  {
    TopLayersEnd(env, leaves);
    CanonicalCar(env, AllLayers(env, leaves))
  }

  // ---- what the theorem asks of hashes and sizes --------------------------------------------

  /** No other block's salted key shares the 24-byte prefix of h's. */
  ghost predicate Apart(kr: Keyer, bs: seq<Block>, h: Multihash) {
    forall i :: 0 <= i < |bs| && SamePrefix(MakeKey(kr, bs[i].cid.hash.Encode(), 0), MakeKey(kr, h.Encode(), 0)) ==>
      bs[i].cid.hash == h
  }

  /** Integer division places every block's key at every level. */
  ghost predicate KeysFit(kr: Keyer, bs: seq<Block>, n: nat)
    requires GoodSize(n)
  {
    forall i :: 0 <= i < |bs| ==> InRangeAll(MakeKey(kr, bs[i].cid.hash.Encode(), 0), n)
  }

  /** A hash whose blocks agree and are addressable, and which no other block's key can be taken for. */
  ghost predicate Told(kr: Keyer, bs: seq<Block>, h: Multihash) { HashGood(bs, h) && Apart(kr, bs, h) }

  ghost predicate SameBlocks(a: seq<Block>, b: seq<Block>) { forall i :: 0 <= i < |a| ==> a[i] in b }

  /** The leaves of the canonical order are the log. */
  lemma {:induction false} LeavesInCanonical(env: CarEnv, leaves: seq<Block>)
    requires env.Ok() && RawLog(leaves)
    ensures SameBlocks(leaves, BlocksOf(env, leaves)) && AllOk(BlocksOf(env, leaves))
  {
    hide Canonical, AllLayers, Leaves, Block.Ok, Good, Finished, CarEnv.Ok;
    TopLayersEnd(env, leaves);
    FinishedCarIsCanonical(env, leaves);
    var ls := AllLayers(env, leaves);
    var bs := Canonical(ls);
    forall i | 0 <= i < |leaves|
      ensures leaves[i] in bs
    {
      LeavesAmong(bs, leaves[i]);
    }
    forall i | 0 <= i < |bs|
      ensures bs[i].Ok()
    {
      assert bs[i] in multiset(bs);
      InAllBlocks(ls, bs[i]);
      var k :| 0 <= k < |ls| && bs[i] in ls[k];
      LayerIsOk(env, leaves, k);
      var x :| 0 <= x < |ls[k]| && ls[k][x] == bs[i];
    }
  }

  lemma {:induction false} LayerIsOk(env: CarEnv, leaves: seq<Block>, k: nat)
    requires env.Ok() && RawLog(leaves) && k < |AllLayers(env, leaves)|
    ensures AllOk(AllLayers(env, leaves)[k])
  {
    hide AllLayers, CarEnv.Ok, AllOk, Group;
    AllLayersLayered(env, leaves);
  }

  lemma {:induction false} SubsetHashGood(a: seq<Block>, b: seq<Block>, h: Multihash)
    requires SameBlocks(a, b) && HashGood(b, h)
    ensures HashGood(a, h)
  {
    hide Block.EntryLen;
    forall i, j | 0 <= i < |a| && 0 <= j < |a| && a[i].cid.hash == h && a[j].cid.hash == h
      ensures a[i].data == a[j].data && a[i].EntryLen() < TWO_23
    {
      var x :| 0 <= x < |b| && b[x] == a[i];
      var y :| 0 <= y < |b| && b[y] == a[j];
    }
  }

  /** The level index can be placed, since its hashes are those of blocks. */
  lemma {:induction false} IndexedFits(kr: Keyer, db: Db, leaves: seq<Block>, start: nat, bs: seq<Block>, n: nat)
    requires IndexedIn(db, leaves, start) && AllOk(leaves) && SameBlocks(leaves, bs)
    requires GoodSize(n) && KeysFit(kr, bs, n)
    ensures DbFits(kr, db, n)
  {
    hide InRangeAll, MakeKey, Multihash.Encode, Location, GoodSize, IsInt64, Multihash.Ok;
    forall h | h in db
      ensures h.Ok() && IsInt64(db[h]) && InRangeAll(MakeKey(kr, h.Encode(), 0), n)
    {
      assert PointsAt(db[h], h, leaves, start);
      var x :| 0 <= x < |leaves| && leaves[x].cid.hash == h && db[h] == Location(leaves, start, x);
      LocationFits(leaves, start, x);
      assert leaves[x].Ok();
      var y := InSame(leaves, bs, x);
    }
  }

  lemma {:induction false} IndexedApart(kr: Keyer, db: Db, leaves: seq<Block>, start: nat, bs: seq<Block>, h: Multihash)
    requires IndexedIn(db, leaves, start) && SameBlocks(leaves, bs) && Apart(kr, bs, h)
    ensures DbApart(kr, db, h)
  {
    hide SamePrefix, MakeKey, Multihash.Encode, Location;
    forall g | g in db && SamePrefix(MakeKey(kr, g.Encode(), 0), MakeKey(kr, h.Encode(), 0))
      ensures g == h
    {
      assert PointsAt(db[g], g, leaves, start);
      var x :| 0 <= x < |leaves| && leaves[x].cid.hash == g && db[g] == Location(leaves, start, x);
      var y := InSame(leaves, bs, x);
    }
  }

  /** These conditions are the hash function's alone: they hold when it keeps the salted messages of the
      listed hashes and of h apart. */
  lemma {:induction false} ApartBySha(kr: Keyer, bs: seq<Block>, start: nat, h: Multihash)
    requires |kr.salt| == 32 && AllOk(bs) && h.Ok() && Multihashes(ItemsOf(bs, start)) && |h.Encode()| <= 64
    requires KeepsApart(kr, ItemsOf(bs, start), h.Encode())
    ensures Apart(kr, bs, h)
  {
    hide KeepsApart, Multihashes, MakeKey, SamePrefix, Multihash.Encode, Multihash.Ok, Location;
    assert IsMultihash(h.Encode());
    var src := ItemsOf(bs, start);
    OnlyShaCollides(kr, src, h.Encode());
    forall i |
      0 <= i < |bs| && SamePrefix(MakeKey(kr, bs[i].cid.hash.Encode(), 0), MakeKey(kr, h.Encode(), 0))
      ensures bs[i].cid.hash == h
    {
      assert src[i].offs != [] && src[i].c == h.Encode();
      assert bs[i].Ok();
      EncodeInjective(bs[i].cid.hash, h);
    }
  }

  lemma {:induction false} DbApartBySha(kr: Keyer, src: seq<Item>, db: Db, h: Multihash)
    requires ListsDb(src, db) && (forall g :: g in db ==> g.Ok()) && h.Ok()
    requires |kr.salt| == 32 && Multihashes(src) && |h.Encode()| <= 64 && KeepsApart(kr, src, h.Encode())
    ensures DbApart(kr, db, h)
  {
    hide KeepsApart, Multihashes, MakeKey, SamePrefix, Multihash.Encode, Multihash.Ok;
    assert IsMultihash(h.Encode());
    OnlyShaCollides(kr, src, h.Encode());
    forall g | g in db && SamePrefix(MakeKey(kr, g.Encode(), 0), MakeKey(kr, h.Encode(), 0))
      ensures g == h
    {
      var j :| 0 <= j < |src| && IsItemOf(src[j], db, g);
      assert src[j].offs != [] && src[j].c == h.Encode();
      EncodeInjective(g, h);
    }
  }

  lemma {:induction false} LocationFits(bs: seq<Block>, start: nat, i: nat)
    requires i < |bs|
    ensures IsInt64(Location(bs, start, i))
  {}

  lemma {:induction false} CarFits(kr: Keyer, bs: seq<Block>, start: nat, n: nat)
    requires GoodSize(n) && KeysFit(kr, bs, n)
    ensures SourceFits(kr, ItemsOf(bs, start), n)
  {
    hide InRangeAll, MakeKey, Multihash.Encode, Location;
    forall j | 0 <= j < |bs|
      ensures IsInt64(Location(bs, start, j))
    {
      LocationFits(bs, start, j);
    }
  }

  lemma {:induction false} CarApart(kr: Keyer, bs: seq<Block>, start: nat, h: Multihash)
    requires Apart(kr, bs, h)
    ensures NoCollision(kr, ItemsOf(bs, start), h.Encode())
  {
    hide SamePrefix, MakeKey, Multihash.Encode, Location;
  }

  // ---- the log --------------------------------------------------------------------------

  /** The data file before or after genTopCar. */
  ghost predicate FileOf(env: CarEnv, file: bytes, layerOffsets: seq<nat>, leaves: seq<Block>) {
    if layerOffsets == [] then file == env.head(PlaceholderCid()) + Sections(leaves)
    else Finished(env, leaves) == Topped(file, layerOffsets)
  }

  /** Either way the log's own sections are where the level index says. */
  lemma {:induction false} FileKeepsLog(env: CarEnv, file: bytes, layerOffsets: seq<nat>, leaves: seq<Block>)
    returns (head: bytes, rest: bytes)
    requires env.Ok() && leaves != [] && FileOf(env, file, layerOffsets, leaves)
    ensures file == head + Sections(leaves) + rest && |head| == |env.head(PlaceholderCid())|
  {
    hide Sections, AllLayers, Flat, LayerOffsets, CarEnv.Ok;
    if layerOffsets == [] {
      head, rest := env.head(PlaceholderCid()), [];
      assert head + Sections(leaves) + [] == head + Sections(leaves);
    } else {
      head := env.head(Root(env, leaves).cid);
      var ls := AllLayers(env, leaves);
      var more := StartsWithLeaves(env, leaves);
      SectionsConcat(leaves, more);
      rest := Sections(more);
      ConcatAssoc(head, Sections(leaves), rest);
      RootIsLink(env, leaves);
    }
  }

  lemma {:induction false} StartsWithLeaves(env: CarEnv, leaves: seq<Block>) returns (more: seq<Block>)
    requires leaves != []
    ensures Flat(AllLayers(env, leaves)) == leaves + more
  {
    hide Flat, TopLayers, Group;
    more := FlatStarts(AllLayers(env, leaves));
  }

  /** View while the level index serves reads; a closed log has nothing buffered. */
  ghost function LevelView(db: Db, lru: map<int, bytes>, file: bytes, h: Multihash): ViewResult {
    View(Log(file, [], db, 0, 0, true), lru, h)
  }

  lemma {:induction false} LevelViewIs(db: Db, lru: map<int, bytes>, file: bytes, h: Multihash)
    requires h in db
    ensures LevelView(db, lru, file, h) == if db[h] == -1 then NotFound else ViewCached(lru, file, db[h])
  {
    hide ViewCached;
    assert file + [] == file;
  }

  lemma {:induction false} NotIndexed(db: Db, lru: map<int, bytes>, file: bytes, h: Multihash)
    requires h !in db
    ensures LevelView(db, lru, file, h) == NotFound
  {}

  lemma {:induction false} PairsList(pairs: seq<(Multihash, int)>, db: Db, items: seq<Item>)
    requires forall p :: p in pairs <==> p.0 in db && p.1 == db[p.0]
    requires forall h :: h in db ==> h.Ok()
    requires |items| == |pairs|
    requires forall j :: 0 <= j < |items| ==> items[j] == Item(pairs[j].0.Encode(), [pairs[j].1])
    ensures ListsDb(items, db)
  {
    hide Multihash.Encode;
    forall j | 0 <= j < |items|
      ensures FromDb(items[j], db)
    {
      assert pairs[j] in pairs;
      assert IsItemOf(items[j], db, pairs[j].0);
    }
    forall h | h in db
      ensures exists j :: 0 <= j < |items| && IsItemOf(items[j], db, h)
    {
      assert (h, db[h]) in pairs;
      var j :| 0 <= j < |pairs| && pairs[j] == (h, db[h]);
      assert pairs[j].0 == h && pairs[j].1 == db[h];
      assert IsItemOf(items[j], db, h);
    }
  }

  // ---- reads before and after ----------------------------------------------------------

  /** Through the level index, whether or not the link layers have been appended yet. */
  lemma {:induction false} LevelReads(env: CarEnv, file: bytes, layerOffsets: seq<nat>, leaves: seq<Block>, db: Db,
      lru: map<int, bytes>, h: Multihash)
    returns (i: nat)
    requires env.Ok() && RawLog(leaves) && FileOf(env, file, layerOffsets, leaves) && |file| <= TWO_40
    requires h in db && PointsAt(db[h], h, leaves, |env.head(PlaceholderCid())|)
    requires LruOk(file, lru) && (db[h] in lru || HashGood(leaves, h))
    ensures i < |leaves| && leaves[i].cid.hash == h && LevelView(db, lru, file, h) == Data(leaves[i].data)
  {
    hide CarEnv.Ok, FileOf, HashGood, Sections, PointsAt, ViewCached, LevelView, LruOk, AllOk;
    var head, rest := FileKeepsLog(env, file, layerOffsets, leaves);
    i := LogReads(head, leaves, rest, db, lru, h);
    LevelViewIs(db, lru, file, h);
  }

  /** The local branch: the BSST holds the level index's own locations, so a read that succeeds is not
      changed by link layers after the log or by a new header before it. */
  lemma {:induction false} LocalAgrees(kr: Keyer, t: Table, src: seq<Item>, db: Db, lru: map<int, bytes>, start: nat,
      file: bytes, file': bytes, h: Multihash)
    requires BuiltFrom(t, kr, src) && ListsDb(src, db) && start <= |file| <= |file'|
    requires file[start..] == file'[start..|file|]
    requires h in db && h.Ok() && FromOffsetLen(db[h]).0 >= start && DbApart(kr, db, h)
    requires LevelView(db, lru, file, h).Data?
    ensures TableView(t, kr, lru, file', h) == LevelView(db, lru, file, h) == LevelView(db, lru, file', h)
  {
    hide BuiltFrom, ListsDb, DbApart, TableView, LevelView, ViewAt, FromOffsetLen, Multihash.Ok;
    LevelViewIs(db, lru, file, h);
    LevelViewIs(db, lru, file', h);
    TableMatchesDb(t, kr, src, db, h, lru, file');
    if db[h] !in lru {
      SuccessKept(file, file', start, db[h]);
    }
  }

  /** Every indexed location is in the data. */
  ghost predicate AtOrAfter(db: Db, start: nat) {
    forall h :: h in db ==> FromOffsetLen(db[h]).0 >= start
  }

  lemma {:induction false} IndexedAfter(db: Db, leaves: seq<Block>, head: bytes)
    requires IndexedIn(db, leaves, |head|) && |head| + |Sections(leaves)| <= TWO_40
    ensures AtOrAfter(db, |head|)
  {
    hide Location, FromOffsetLen, Sections;
    forall h | h in db
      ensures FromOffsetLen(db[h]).0 >= |head|
    {
      assert PointsAt(db[h], h, leaves, |head|);
      var x :| 0 <= x < |leaves| && leaves[x].cid.hash == h && db[h] == Location(leaves, |head|, x);
      LocationNotSkip(head, leaves, x);
    }
  }

  /** Over the table of the level index, successful reads of hashes that are free of collisions are the
      same, and a hash that was not indexed fails. */
  ghost predicate LocalTells(kr: Keyer, t: Table, n: nat, db: Db, lru: map<int, bytes>, file: bytes, file': bytes) {
    && (forall h :: h in db && DbApart(kr, db, h) && LevelView(db, lru, file, h).Data? ==>
          TableView(t, kr, lru, file', h) == LevelView(db, lru, file, h))
    && (forall h :: DbUnmatched(kr, db, h) && Askable(kr, h, n) && 0 !in lru ==>
          LevelView(db, lru, file, h) == NotFound && TableView(t, kr, lru, file', h) == Failed)
  }

  lemma {:induction false} LocalTable(kr: Keyer, t: Table, src: seq<Item>, db: Db, lru: map<int, bytes>, start: nat,
      file: bytes, file': bytes)
    requires BuiltFrom(t, kr, src) && ListsDb(src, db) && start <= |file| <= |file'|
    requires file[start..] == file'[start..|file|]
    requires AtOrAfter(db, start) && forall h :: h in db ==> h.Ok()
    ensures LocalTells(kr, t, t.l0Buckets, db, lru, file, file')
  {
    hide BuiltFrom, ListsDb, DbApart, DbUnmatched, Askable, TableView, LevelView, FromOffsetLen, Multihash.Ok;
    forall h | h in db && DbApart(kr, db, h) && LevelView(db, lru, file, h).Data?
      ensures TableView(t, kr, lru, file', h) == LevelView(db, lru, file, h)
    {
      LocalAgrees(kr, t, src, db, lru, start, file, file', h);
    }
    forall h | DbUnmatched(kr, db, h) && Askable(kr, h, t.l0Buckets) && 0 !in lru
      ensures LevelView(db, lru, file, h) == NotFound && TableView(t, kr, lru, file', h) == Failed
    {
      UnmatchedNotFound(kr, db, lru, file, h);
      UnindexedFails(t, kr, src, db, lru, file', h);
    }
  }

  lemma {:induction false} UnmatchedNotFound(kr: Keyer, db: Db, lru: map<int, bytes>, file: bytes, h: Multihash)
    requires DbUnmatched(kr, db, h)
    ensures h !in db && LevelView(db, lru, file, h) == NotFound
  {
    hide MakeKey, Multihash.Encode;
    PrefixReflexive(MakeKey(kr, h.Encode(), 0));
  }

  /** The level index over the file with something appended. */
  lemma {:induction false} LevelSame(db: Db, lru: map<int, bytes>, start: nat, file: bytes, file': bytes)
    requires start <= |file| <= |file'| && file[start..] == file'[start..|file|] && AtOrAfter(db, start)
    ensures forall h :: h in db && LevelView(db, lru, file, h).Data? ==>
              LevelView(db, lru, file', h) == LevelView(db, lru, file, h)
  {
    hide LevelView, FromOffsetLen, ViewAt;
    forall h | h in db && LevelView(db, lru, file, h).Data?
      ensures LevelView(db, lru, file', h) == LevelView(db, lru, file, h)
    {
      LevelViewIs(db, lru, file, h);
      LevelViewIs(db, lru, file', h);
      if db[h] !in lru {
        SuccessKept(file, file', start, db[h]);
      }
    }
  }

  lemma {:induction false} CarStarts(env: CarEnv, leaves: seq<Block>) returns (head: bytes)
    requires env.Ok() && leaves != []
    ensures |head| == |env.head(PlaceholderCid())|
    ensures CarOf(env, leaves) == head + Sections(BlocksOf(env, leaves))
  {
    hide Canonical, AllLayers, CarEnv.Ok, Sections;
    TopLayersEnd(env, leaves);
    RootIsLink(env, leaves);
    head := env.head(RootOf(AllLayers(env, leaves)).cid);
  }

  lemma {:induction false} InSame(a: seq<Block>, b: seq<Block>, i: nat) returns (x: nat)
    requires SameBlocks(a, b) && i < |a|
    ensures x < |b| && b[x] == a[i]
  {
    assert a[i] in b;
    x :| 0 <= x < |b| && b[x] == a[i];
  }

  /** The staged branch: over the table of the depth-first CAR a hash gives the data of its block if it has
      one there, and fails if it has none, indexed or not. */
  ghost predicate StagedTells(kr: Keyer, t: Table, n: nat, car: bytes, bs: seq<Block>) {
    && (forall i :: 0 <= i < |bs| && Told(kr, bs, bs[i].cid.hash) ==>
          TableView(t, kr, map[], car, bs[i].cid.hash) == Data(bs[i].data))
    && (forall h :: Unmatched(kr, bs, h) && Askable(kr, h, n) ==> TableView(t, kr, map[], car, h) == Failed)
  }

  lemma {:induction false} StagedTable(env: CarEnv, kr: Keyer, t: Table, leaves: seq<Block>)
    requires env.Ok() && RawLog(leaves)
    requires |env.head(PlaceholderCid())| + |Sections(BlocksOf(env, leaves))| <= TWO_40
    requires BuiltFrom(t, kr, ItemsOf(BlocksOf(env, leaves), |env.head(PlaceholderCid())|))
    ensures StagedTells(kr, t, t.l0Buckets, CarOf(env, leaves), BlocksOf(env, leaves))
  {
    hide CarEnv.Ok, Sections, BlocksOf, CarOf, TableView, BuiltFrom, ItemsOf, PlaceholderCid, AllOk, SameBlocks,
      HashGood, Apart, Unmatched, Askable, NoCollision, Multihash.Encode;
    var bs := BlocksOf(env, leaves);
    var head := CarStarts(env, leaves);
    LeavesInCanonical(env, leaves);
    forall i | 0 <= i < |bs| && Told(kr, bs, bs[i].cid.hash)
      ensures TableView(t, kr, map[], CarOf(env, leaves), bs[i].cid.hash) == Data(bs[i].data)
    {
      CarApart(kr, bs, |head|, bs[i].cid.hash);
      CarReads(t, kr, head, bs, bs[i].cid.hash, i);
    }
    forall h | Unmatched(kr, bs, h) && Askable(kr, h, t.l0Buckets)
      ensures TableView(t, kr, map[], CarOf(env, leaves), h) == Failed
    {
      MissingFails(t, kr, bs, |head|, CarOf(env, leaves), h);
    }
  }

  ghost predicate HasBlock(bs: seq<Block>, h: Multihash) { exists i :: 0 <= i < |bs| && bs[i].cid.hash == h }

  /** The blocks with this hash, if any, have this data and are addressable. */
  ghost predicate Agreed(bs: seq<Block>, h: Multihash, d: bytes) {
    forall i :: 0 <= i < |bs| && bs[i].cid.hash == h ==> bs[i].data == d && bs[i].EntryLen() < TWO_23
  }

  /** A read that succeeded is kept by the staged branch exactly if the hash has a block in the CAR. */
  lemma {:induction false} StagedKeepsIff(kr: Keyer, t: Table, n: nat, car: bytes, bs: seq<Block>, h: Multihash,
      d: bytes)
    requires StagedTells(kr, t, n, car, bs) && Agreed(bs, h, d) && Apart(kr, bs, h) && Askable(kr, h, n)
    ensures TableView(t, kr, map[], car, h) == if HasBlock(bs, h) then Data(d) else Failed
  {
    hide SamePrefix, MakeKey, Multihash.Encode, TableView, Askable, Block.EntryLen;
    if HasBlock(bs, h) {
      var i :| 0 <= i < |bs| && bs[i].cid.hash == h;
      assert Told(kr, bs, h);
    } else {
      assert Unmatched(kr, bs, h);
    }
  }

  /** The level index gives the data of a block in the CAR for each hash that points at one of its own. */
  lemma {:induction false} LevelGives(env: CarEnv, kr: Keyer, leaves: seq<Block>, file: bytes, offs: seq<nat>, db: Db,
      lru: map<int, bytes>, h: Multihash)
    returns (x: nat)
    requires env.Ok() && RawLog(leaves) && FileOf(env, file, offs, leaves) && |file| <= TWO_40 && LruOk(file, lru)
    requires h in db && PointsAt(db[h], h, leaves, |env.head(PlaceholderCid())|)
    requires Told(kr, BlocksOf(env, leaves), h)
    ensures x < |BlocksOf(env, leaves)| && BlocksOf(env, leaves)[x].cid.hash == h
    ensures LevelView(db, lru, file, h) == Data(BlocksOf(env, leaves)[x].data)
  {
    hide CarEnv.Ok, FileOf, HashGood, PointsAt, BlocksOf, Apart, LevelView, LruOk, PlaceholderCid, SameBlocks, AllOk;
    LeavesInCanonical(env, leaves);
    SubsetHashGood(leaves, BlocksOf(env, leaves), h);
    var i := LevelReads(env, file, offs, leaves, db, lru, h);
    x := InSame(leaves, BlocksOf(env, leaves), i);
  }

  lemma {:induction false} IsBuilt(t: Table, kr: Keyer, src: seq<Item>, list: seq<Entry>)
    requires Holds(t, list) && multiset(list) == multiset(Collect(kr, src))
    ensures BuiltFrom(t, kr, src)
  {
    hide Holds, Collect;
  }

  /** WriteCar over the finished log, and its listing. */
  lemma {:induction false} WritesCanonical(env: CarEnv, file: bytes, offs: seq<nat>, leaves: seq<Block>)
    requires env.Ok() && RawLog(leaves) && offs != [] && FileOf(env, file, offs, leaves)
    ensures
      var ls := AllLayers(env, leaves);
      && |ls| > 0 && |ls[|ls| - 1]| > 0
      && Good(env, file, ls, offs) && CanonicalCar(env, ls) == CarOf(env, leaves)
      && |env.head(RootOf(ls).cid)| == |env.head(PlaceholderCid())|
      && |env.head(PlaceholderCid())| <= |CarOf(env, leaves)|
      && IsLog(CarOf(env, leaves)[|env.head(PlaceholderCid())|..], BlocksOf(env, leaves))
  {
    hide Canonical, AllLayers, Good, CarEnv.Ok, Sections, Leaves, Flat, LayerOffsets;
    TopLayersEnd(env, leaves);
    FinishedCarIsCanonical(env, leaves);
    RootIsLink(env, leaves);
    LeavesInCanonical(env, leaves);
    var ls := AllLayers(env, leaves);
    var head := env.head(RootOf(ls).cid);
    assert (head + Sections(Canonical(ls)))[|head|..] == Sections(Canonical(ls));
  }

  datatype Finalized = Done | TopCarFailed(r: TopResult) | WriteFailed | NotWholeFile

  class FinalLog {
    const env: CarEnv
    const kr: Keyer
    const dataStart: nat
    const writeLru: map<int, bytes>  // read from and no longer added to
    var file: bytes                  // the data file
    var layerOffsets: seq<nat>       // empty until genTopCar
    var level: LevelDBIndex?         // rIdx before finalization
    var local: Option<Table>         // rIdx after the local branch
    var external: Option<Table>      // eIdx after the staged branch
    var staged: bytes                // what staging storage holds
    var finalized: bool

    constructor (env: CarEnv, kr: Keyer, file: bytes, dataStart: nat, layerOffsets: seq<nat>, level: LevelDBIndex,
        writeLru: map<int, bytes>)
      ensures this.env == env && this.kr == kr && this.file == file && this.dataStart == dataStart
      ensures this.layerOffsets == layerOffsets && this.level == level && this.writeLru == writeLru && !finalized
      ensures local == None && external == None
    {
      this.env, this.kr, this.file, this.dataStart := env, kr, file, dataStart;
      this.layerOffsets, this.level, this.writeLru, finalized := layerOffsets, level, writeLru, false;
      local, external, staged := None, None, [];
    }

    /** A data file whose header, until genTopCar, is the provisional one. */
    ghost predicate Headed()
      reads this
    {
      && env.Ok() && dataStart == |env.head(PlaceholderCid())| <= |file|
      && (layerOffsets == [] ==> file[..dataStart] == env.head(PlaceholderCid()))
    }

    /** A file that is the log of these leaves, with or without its link layers. */
    ghost predicate Whole(leaves: seq<Block>)
      reads this
    {
      && env.Ok() && RawLog(leaves) && dataStart == |env.head(PlaceholderCid())|
      && FileOf(env, file, layerOffsets, leaves)
    }

    /** A file that does not parse to its end, as a torn write that Open leaves in place may make it. */
    ghost predicate Torn()
      reads this
    {
      Headed() && layerOffsets == [] && ParseAll(file[dataStart..]).None?
    }

    /** Before finalization. */
    ghost predicate Unfinished()
      reads this, level
    {
      !finalized && local == None && external == None && level != null && level.db != map[]
    }

    /** A closed log, whatever its bytes, that is served by a level index pointing behind the header. */
    ghost predicate Served()
      reads this, level
    {
      Headed() && Unfinished() && AtOrAfter(level.db, dataStart) && LevelFits()
    }

    /** The log of these leaves, and a cache of its sections. */
    ghost predicate Ready(leaves: seq<Block>)
      reads this, level
    {
      Whole(leaves) && Unfinished() && LruOk(file, writeLru)
    }

    /** View for one hash: staged data through eIdx when there is one, else the cache and the local file. */
    ghost function Reads(h: Multihash): ViewResult
      reads this, level
    {
      if external.Some? then TableView(external.value, kr, map[], staged, h)
      else if local.Some? then TableView(local.value, kr, writeLru, file, h)
      else if level != null then LevelView(level.db, writeLru, file, h)
      else Failed
    }

    /** genTopCar, if it has not been done yet. Link blocks are only appended, so the log's own bytes stay,
        whatever they are; when they do not parse, the link blocks of the readable part stay behind. */
    method EnsureTop(ghost leaves: seq<Block>) returns (r: Finalized)
      requires Headed()
      modifies this`file, this`layerOffsets
      ensures (r == Done || r.TopCarFailed?) && (r == Done <==> layerOffsets != [])
      ensures old(layerOffsets) != [] ==> r == Done && file == old(file) && layerOffsets == old(layerOffsets)
      ensures old(layerOffsets) == [] ==>
                (r == TopCarFailed(BadLog) <==> ParseAll(old(file)[dataStart..]).None?)
      ensures old(Whole(leaves)) ==> r == Done && Whole(leaves)
      ensures dataStart <= |old(file)| <= |file| && file[dataStart..|old(file)|] == old(file)[dataStart..]
    {
      hide Sections, CarEnv.Ok, AllLayers, LayerOffsets, Flat, PlaceholderCid, FileOf, ParseAll, AllOk;
      r := Done;
      ghost var whole := Whole(leaves);
      if |layerOffsets| == 0 {
        if whole {
          WholeStarts(env, file, layerOffsets, leaves);
          TopCarDone(env, leaves);
        }
        var b := new TopBuilder(env, file);
        var t := b.GenTopCar(dataStart);
        if !t.Topped? {
          file := b.content;
          return TopCarFailed(t);
        }
        file, layerOffsets := t.file, t.layerOffsets;
      }
    }

    /** The level index as a BSST source: one item per hash. */
    method ListLevel() returns (items: seq<Item>)
      requires level != null && forall h :: h in level.db ==> h.Ok()
      ensures ListsDb(items, level.db)
    {
      hide Multihash.Encode, ListsDb;
      var pairs := level.List();
      items := [];
      for i := 0 to |pairs|
        invariant |items| == i
        invariant forall j :: 0 <= j < i ==> items[j] == Item(pairs[j].0.Encode(), [pairs[j].1])
      {
        items := items + [Item(pairs[i].0.Encode(), [pairs[i].1])];
      }
      PairsList(pairs, level.db, items);
    }

    /** The level index's size and keys within what the table's levels can address. */
    ghost predicate LevelFits()
      reads this, level
    {
      level != null && 0 < |level.db| <= 0x4000_0000_0000_0000 && DbFits(kr, level.db, L0Buckets(|level.db|))
    }

    /** Sizes and keys within what packed locations and the table's levels can address. */
    ghost predicate Fits(leaves: seq<Block>)
      requires leaves != []
      reads this, level
    {
      var bs := BlocksOf(env, leaves);
      && |file| <= TWO_40 && dataStart + |Sections(bs)| <= TWO_40
      && level != null && 0 < |level.db| <= 0x4000_0000_0000_0000
      && KeysFit(kr, bs, L0Buckets(|level.db|))
    }

    /** What the staged branch asks of the log's bytes: they are the log of these leaves, or do not parse. */
    ghost predicate Stageable(leaves: seq<Block>)
      reads this, level
    {
      Torn() || (Whole(leaves) && Fits(leaves))
    }

    /** A log whose whole index points at its leaves. */
    lemma {:induction false} ReadyIsServed(leaves: seq<Block>)
      requires Ready(leaves) && Fits(leaves) && IndexedIn(level.db, leaves, dataStart)
      ensures Served() && Stageable(leaves)
      ensures forall h :: h in level.db ==> PointsAt(level.db[h], h, leaves, dataStart)
      ensures forall h :: Apart(kr, BlocksOf(env, leaves), h) ==> DbApart(kr, level.db, h)
    {
      hide CarEnv.Ok, FileOf, Sections, BlocksOf, KeysFit, DbFits, AtOrAfter, L0Buckets, GoodSize, LruOk,
        SameBlocks, AllOk, PlaceholderCid, Apart, DbApart, PointsAt;
      LeavesInCanonical(env, leaves);
      IndexedFits(kr, level.db, leaves, dataStart, BlocksOf(env, leaves), L0Buckets(|level.db|));
      WholeStarts(env, file, layerOffsets, leaves);
      var head, rest := FileKeepsLog(env, file, layerOffsets, leaves);
      IndexedAfter(level.db, leaves, head);
      forall h | Apart(kr, BlocksOf(env, leaves), h)
        ensures DbApart(kr, level.db, h)
      {
        IndexedApart(kr, level.db, leaves, dataStart, BlocksOf(env, leaves), h);
      }
    }

    /** CreateBSSTIndex over the level index. */
    method LevelTable() returns (t: Table, ghost items: seq<Item>)
      requires LevelFits()
      ensures BuiltFrom(t, kr, items) && ListsDb(items, level.db) && t.l0Buckets == L0Buckets(|level.db|)
    {
      hide BuiltFrom, SourceFits, Holds, Collect, InRangeAll, MakeKey, GoodSize, L0Buckets, Multihash.Ok,
        Multihash.Encode, ListsDb, IsInt64;
      var list := ListLevel();
      items := list;
      ListingFits(kr, list, level.db, L0Buckets(|level.db|));
      ghost var entries;
      t, entries := CreateFrom(kr, |level.db|, list);
      IsBuilt(t, kr, list, entries);
    }

    /** CreateBSSTIndex over carIdxSource: the table, whether the CAR was read to its end. */
    method CarTable(entries: nat, ghost leaves: seq<Block>) returns (r: Option<(Table, bool)>)
      requires Whole(leaves) && layerOffsets != []
      requires 0 < entries <= 0x4000_0000_0000_0000 && KeysFit(kr, BlocksOf(env, leaves), L0Buckets(entries))
      ensures r.Some? && r.value.1
      ensures BuiltFrom(r.value.0, kr, ItemsOf(BlocksOf(env, leaves), |env.head(PlaceholderCid())|))
      ensures r.value.0.l0Buckets == L0Buckets(entries)
    {
      hide CarEnv.Ok, FileOf, Sections, BlocksOf, CarOf, BuiltFrom, SourceFits, KeysFit, Holds, Collect, AllOk,
        InRangeAll, MakeKey, GoodSize, L0Buckets, Multihash.Ok, Multihash.Encode, PlaceholderCid, Canonical,
        AllLayers, RootOf, CanonicalCar, Good, ItemsOf, IsLog;
      ghost var bs := BlocksOf(env, leaves);
      WritesCanonical(env, file, layerOffsets, leaves);
      var w, _ := Write(env, file, layerOffsets, AllLayers(env, leaves));
      if w.None? {
        return None;
      }
      var (car, root) := w.value;
      var items, eof := ListCar(car, |env.head(root)|, bs);
      CarFits(kr, bs, |env.head(root)|, L0Buckets(entries));
      var t, list := CreateFrom(kr, entries, items);
      IsBuilt(t, kr, items, list);
      return Some((t, eof));
    }

    /** The local branch: a BSST over the level index, then the link layers. The log counts as
        finalized before the layers are generated, and stays so when that fails. */
    method FinalizeLocal(ghost leaves: seq<Block>) returns (r: Finalized)
      requires Served()
      modifies this
      ensures (r == Done || r.TopCarFailed?) && (r == Done <==> layerOffsets != [])
      ensures finalized && level == null && external == None && local.Some?
      ensures old(layerOffsets) == [] ==>
                (r == TopCarFailed(BadLog) <==> ParseAll(old(file)[dataStart..]).None?)
      ensures old(Whole(leaves)) ==> r == Done && layerOffsets != [] && Whole(leaves)
      ensures LocalTells(kr, local.value, L0Buckets(|old(level.db)|), old(level.db), writeLru, old(file), file)
    {
      hide CarEnv.Ok, FileOf, Sections, BuiltFrom, LevelView, AllOk, L0Buckets, GoodSize, Multihash.Ok,
        PlaceholderCid, ListsDb, LocalTells, ParseAll, AtOrAfter, InRangeAll, MakeKey, IsInt64, Multihash.Encode;
      ghost var db, file0 := level.db, file;
      var t, items := LevelTable();
      finalized := true;
      local := Some(t);
      level := null;
      r := EnsureTop(leaves);
      LocalTable(kr, t, items, db, writeLru, dataStart, file0, file);
    }

    /** The staged branch: the link layers, a BSST over the depth-first CAR, and its upload. Nothing
        is finalized when the layers cannot be generated. */
    method FinalizeStaged(ghost leaves: seq<Block>) returns (r: Finalized)
      requires Served() && Stageable(leaves)
      modifies this
      ensures old(Whole(leaves)) ==>
                && r == Done && finalized && level == null && external.Some? && layerOffsets != [] && Whole(leaves)
                && staged == CarOf(env, leaves)
                && StagedTells(kr, external.value, L0Buckets(|old(level.db)|), staged, BlocksOf(env, leaves))
      ensures old(Torn()) ==>
                && r == TopCarFailed(BadLog) && Unfinished() && level == old(level) && layerOffsets == []
                && forall h :: h in level.db && old(Reads(h)).Data? ==> Reads(h) == old(Reads(h))
    {
      hide CarEnv.Ok, FileOf, Sections, BlocksOf, CarOf, BuiltFrom, KeysFit, LevelView, AllOk, L0Buckets, GoodSize,
        PlaceholderCid, ParseAll, AtOrAfter, AllLayers, Good, RootOf, CanonicalCar, ItemsOf, IsLog, StagedTells,
        DbFits, TableView;
      ghost var file0 := file;
      r := EnsureTop(leaves);
      if r != Done {
        LevelSame(level.db, writeLru, dataStart, file0, file);
        return;
      }
      var made := CarTable(|level.db|, leaves);
      if made.None? {
        return WriteFailed;
      }
      if !made.value.1 {
        return NotWholeFile;
      }
      WritesCanonical(env, file, layerOffsets, leaves);
      var w, _ := Write(env, file, layerOffsets, AllLayers(env, leaves));
      if w.None? {
        return WriteFailed;
      }
      StagedTable(env, kr, made.value.0, leaves);
      staged := w.value.0;
      finalized := true;
      external := Some(made.value.0);
      level := null;
    }

    /** Finalize. On the log of some leaves it succeeds, and reads of every hash that was at one of its blocks
        give the same bytes before and after, whichever branch runs. The local branch keeps every read that
        succeeds, whatever the log's bytes are; the staged one keeps it exactly if the hash has a block in
        the CAR. On a log that does not parse to its end it fails, leaving a log without link layers that is
        finalized in the local branch only, and no successful read is lost. */
    method Finalize(staging: bool, ghost leaves: seq<Block>) returns (r: Finalized)
      requires Served() && (staging ==> Stageable(leaves))
      modifies this
      ensures old(Whole(leaves)) ==>
                && r == Done && finalized && level == null && (external.Some? <==> staging)
                && (staging ==> staged == CarOf(env, leaves))
      ensures old(Ready(leaves) && Fits(leaves)) ==>
                forall h :: h in old(level.db) && PointsAt(old(level.db)[h], h, leaves, dataStart) &&
                            Told(kr, BlocksOf(env, leaves), h) && (staging || DbApart(kr, old(level.db), h)) ==>
                  Reads(h) == old(Reads(h)) && Reads(h).Data?
      ensures old(Torn()) ==>
                r == TopCarFailed(BadLog) && layerOffsets == [] && external == None && (finalized <==> !staging)
      ensures !staging ==> finalized && (r == Done || r.TopCarFailed?)
      ensures !staging || old(Torn()) ==>
                forall h :: h in old(level.db) && DbApart(kr, old(level.db), h) && old(Reads(h)).Data? ==>
                  Reads(h) == old(Reads(h))
      ensures staging && old(Whole(leaves)) ==>
                forall h :: old(Reads(h)).Data? && Agreed(BlocksOf(env, leaves), h, old(Reads(h)).data) &&
                            Apart(kr, BlocksOf(env, leaves), h) && Askable(kr, h, L0Buckets(|old(level.db)|)) ==>
                  Reads(h) == if HasBlock(BlocksOf(env, leaves), h) then old(Reads(h)) else Failed
      ensures !staging ==>
                forall h :: DbUnmatched(kr, old(level.db), h) && Askable(kr, h, L0Buckets(|old(level.db)|)) &&
                            0 !in writeLru ==>
                  old(Reads(h)) == NotFound && Reads(h) == Failed
      ensures staging && old(Whole(leaves)) ==>
                forall h :: Unmatched(kr, BlocksOf(env, leaves), h) &&
                            Askable(kr, h, L0Buckets(|old(level.db)|)) ==>
                  (h !in old(level.db) ==> old(Reads(h)) == NotFound) && Reads(h) == Failed
    {
      hide CarEnv.Ok, FileOf, Sections, BlocksOf, CarOf, KeysFit, LevelView, AllOk, L0Buckets, GoodSize,
        PlaceholderCid, LruOk, ParseAll, AtOrAfter, DbFits, TableView, Told, DbApart, DbUnmatched, Unmatched,
        Askable, Agreed, Apart, HasBlock, PointsAt;
      ghost var db, file0, offs0, ready := level.db, file, layerOffsets, Ready(leaves) && Fits(leaves);
      ghost var n := L0Buckets(|db|);
      if staging {
        ghost var whole := Whole(leaves);
        r := FinalizeStaged(leaves);
        if whole {
          forall h, d: bytes | Agreed(BlocksOf(env, leaves), h, d) && Apart(kr, BlocksOf(env, leaves), h) &&
                               Askable(kr, h, n)
            ensures Reads(h) == if HasBlock(BlocksOf(env, leaves), h) then Data(d) else Failed
          {
            StagedKeepsIff(kr, external.value, n, staged, BlocksOf(env, leaves), h, d);
          }
        }
      } else {
        r := FinalizeLocal(leaves);
      }
      forall h | h !in db
        ensures LevelView(db, writeLru, file0, h) == NotFound
      {
        NotIndexed(db, writeLru, file0, h);
      }
      if ready {
        forall h | h in db && PointsAt(db[h], h, leaves, dataStart) && Told(kr, BlocksOf(env, leaves), h)
          ensures LevelView(db, writeLru, file0, h).Data?
          ensures staging ==> Reads(h) == LevelView(db, writeLru, file0, h)
        {
          var x := LevelGives(env, kr, leaves, file0, offs0, db, writeLru, h);
        }
      }
    }
  }

  lemma {:induction false} TopCarDone(env: CarEnv, leaves: seq<Block>)
    requires leaves != []
    ensures
      var r := Finished(env, leaves);
      r.Topped? && r.layerOffsets != [] && FileOf(env, r.file, r.layerOffsets, leaves)
  {}

  lemma {:induction false} WholeStarts(env: CarEnv, file: bytes, offs: seq<nat>, leaves: seq<Block>)
    requires env.Ok() && RawLog(leaves) && FileOf(env, file, offs, leaves)
    ensures
      var start := |env.head(PlaceholderCid())|;
      && start <= |file|
      && (offs == [] ==> file[..start] == env.head(PlaceholderCid()) && IsLog(file[start..], leaves))
  {
    hide CarEnv.Ok, Sections, AllOk, FileOf;
    var head, rest := FileKeepsLog(env, file, offs, leaves);
    if offs == [] {
      RawFile(env, file, leaves);
    }
  }

  lemma {:induction false} RawFile(env: CarEnv, file: bytes, leaves: seq<Block>)
    requires FileOf(env, file, [], leaves)
    ensures file == env.head(PlaceholderCid()) + Sections(leaves)
  {}
}
