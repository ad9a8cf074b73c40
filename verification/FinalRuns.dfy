/** The runs of a block log that leave it ready to be finalized, and what its reads then are. */
module FinalRuns {
  import opened Bytes
  import opened Cars
  import opened LevelIndex
  import opened LogRuns
  import opened LogSafety
  import opened LogRebuild
  import opened TopTree
  import opened TopCar
  import opened Finalize
  import opened FinalLogs

  ghost predicate RawBlocks(bs: seq<Block>) {
    AllOk(bs) && forall i :: 0 <= i < |bs| ==> bs[i].cid.codec == RAW
  }

  /** A log of these blocks, the first m of them retired. A stopped log is sure to hold those m only,
      and may still index blocks that it lost. */
  ghost predicate Shaped(s: Log, header: bytes, bs: seq<Block>, m: nat) {
    && m <= |bs| && RawBlocks(bs) && s.dataStart == |header|
    && s.retiredAt == |header| + |Sections(bs[..m])| <= |s.file|
    && |header| + |Sections(bs)| <= TWO_40
    && IndexedIn(s.db, bs, |header|)
    && (s.running ==> s.Content() == header + Sections(bs))
    && (!s.running ==> s.buf == [] && |s.file| <= TWO_40 && s.file[..s.retiredAt] == header + Sections(bs[..m]))
  }

  lemma {:induction false} StartShaped(header: bytes)
    requires |header| <= TWO_40
    ensures Shaped(Start(header).log, header, [], 0)
  {
    assert header + [] == header + Sections([]);
  }

  // ---- running ------------------------------------------------------------------------------

  lemma {:induction false} FreshRaw(db: Db, c: seq<Multihash>, b: seq<bytes>)
    requires Storable(c, b) && SmallEnough(db, c, b)
    ensures RawBlocks(Fresh(db, c, b))
  {
    hide Block.Ok, AllOk;
    FreshOk(db, c, b);
    if c != [] {
      FreshRaw(db, c[..|c| - 1], b[..|c| - 1]);
    }
  }

  /** Indexing a batch points each newly stored hash at one of the blocks appended for it. */
  lemma {:induction false} PutIndexedIn(db: Db, bs: seq<Block>, start: nat, c: seq<Multihash>, b: seq<bytes>)
    requires |c| == |b| && IndexedIn(db, bs, start)
    ensures IndexedIn(PutAll(db, c, Offsets(db, c, b, start + |Sections(bs)|)), bs + Fresh(db, c, b), start)
  {
    hide Sections, MakeOffsetLen, Block.EntryLen, Fresh, Offsets, PutAll, PointsAt;
    var at := start + |Sections(bs)|;
    if c == [] {
      BatchEmpty(db, at, bs);
    } else {
      var n := |c| - 1;
      PutIndexedIn(db, bs, start, c[..n], b[..n]);
      var added, offs := Fresh(db, c[..n], b[..n]), Offsets(db, c[..n], b[..n], at);
      BatchLast(db, at, c, b);
      assert c == c[..n] + [c[n]];
      SectionsConcat(bs, added);
      if c[n] in db {
        PutAllSnoc(db, c[..n], offs, c[n], -1);
      } else {
        var blk := RawBlock(c[n], b[n]);
        var loc := MakeOffsetLen(at + |Sections(added)|, blk.EntryLen());
        PutAllSnoc(db, c[..n], offs, c[n], loc);
        ConcatAssoc(bs, added, [blk]);
        PointsAtLast(bs + added, blk, start);
        StillIndexed(PutAll(db, c[..n], offs), bs + added, [blk], start);
      }
    }
  }

  lemma {:induction false} StillIndexed(db: Db, bs: seq<Block>, more: seq<Block>, start: nat)
    requires IndexedIn(db, bs, start)
    ensures IndexedIn(db, bs + more, start)
  {
    hide PointsAt;
    forall h | h in db
      ensures PointsAt(db[h], h, bs + more, start)
    {
      StillPoints(db[h], h, bs, more, start);
    }
  }

  /** Put and a rejected Put both append; only the first one indexes. */
  lemma {:induction false} AppendShaped(s: Log, e: Event, header: bytes, bs: seq<Block>, m: nat)
    requires Shaped(s, header, bs, m) && Enabled(s, e) && (e.Put? || e.PutRejected?)
    ensures Shaped(Apply(s, e), header, bs + Fresh(s.db, e.c, e.b), m)
  {
    hide Sections, IndexedIn, Fresh, Offsets, PutAll, SmallEnough, AllOk;
    var added := Fresh(s.db, e.c, e.b);
    FreshRaw(s.db, e.c, e.b);
    AllOkConcat(bs, added);
    SectionsConcat(bs, added);
    ConcatAssoc(header, Sections(bs), Sections(added));
    PutIndexedIn(s.db, bs, |header|, e.c, e.b);
    StillIndexed(s.db, bs, added, |header|);
    var content := s.Content() + Sections(added);
    assert content[..e.flushed] + content[e.flushed..] == content;
    assert (bs + added)[..m] == bs[..m];
  }

  lemma {:induction false} FlushShaped(s: Log, header: bytes, bs: seq<Block>, m: nat)
    requires Shaped(s, header, bs, m) && s.running
    ensures Shaped(Apply(s, FlushForRead), header, bs, m)
    ensures Shaped(Apply(s, Commit), header, bs, |bs|)
  {
    hide Sections, IndexedIn, RawBlocks;
    assert s.Content() + [] == s.Content() && bs[..|bs|] == bs;
  }

  // ---- stopping and opening -----------------------------------------------------------------

  lemma {:induction false} SplitAt(bs: seq<Block>, m: nat)
    requires m <= |bs|
    ensures bs == bs[..m] + bs[m..] && Sections(bs) == Sections(bs[..m]) + Sections(bs[m..])
  {
    hide Sections;
    assert bs == bs[..m] + bs[m..];
    SectionsConcat(bs[..m], bs[m..]);
  }

  lemma {:induction false} SectionsGrow(bs: seq<Block>, m: nat, i: nat)
    requires m <= i <= |bs|
    ensures |Sections(bs[..m])| <= |Sections(bs[..i])|
  {
    hide Sections;
    SplitAt(bs[..i], m);
    assert bs[..i][..m] == bs[..m];
  }

  lemma {:induction false} CrashShaped(s: Log, torn: bytes, header: bytes, bs: seq<Block>, m: nat)
    requires Shaped(s, header, bs, m) && Enabled(s, Crash(torn))
    ensures Shaped(Apply(s, Crash(torn)), header, bs, m)
  {
    hide Sections, IndexedIn, RawBlocks;
    SplitAt(bs, m);
    var kept := header + Sections(bs[..m]);
    assert s.Content() == kept + Sections(bs[m..]);
    assert s.file == s.Content()[..|s.file|];
    assert (s.file + torn)[..s.retiredAt] == kept;
  }

  /** What Open keeps in the index points at retired blocks. */
  lemma {:induction false} SurvivorsIndexed(s: Log, header: bytes, bs: seq<Block>, m: nat)
    requires Shaped(s, header, bs, m)
    ensures IndexedIn(s.db - ToTruncate(s), bs[..m], |header|)
  {
    hide Sections, Location, FromOffsetLen, RawBlocks;
    var db := s.db - ToTruncate(s);
    forall h | h in db
      ensures PointsAt(db[h], h, bs[..m], |header|)
    {
      assert PointsAt(s.db[h], h, bs, |header|);
      var i :| 0 <= i < |bs| && bs[i].cid.hash == h && s.db[h] == Location(bs, |header|, i);
      LocationNotSkip(header, bs, i);
      if m <= i {
        SectionsGrow(bs, m, i);
      }
      SplitAt(bs, m);
      SameLocation(bs[..m], bs[m..], |header|, i);
      assert bs[..m][i] == bs[i];
    }
  }

  /** With nothing to truncate, Open leaves in the file whatever follows the retired offset: here whole
      sections of raw blocks. */
  ghost predicate CleanOpen(s: Log, e: Event)
    requires Enabled(s, e)
  {
    e.Open? && ToTruncate(s) == {} ==> exists tail :: RawBlocks(tail) && s.file[s.retiredAt..] == Sections(tail)
  }

  lemma {:induction false} OpenShaped(s: Log, header: bytes, bs: seq<Block>, m: nat) returns (bs': seq<Block>)
    requires Shaped(s, header, bs, m) && Enabled(s, Open) && CleanOpen(s, Open)
    ensures Shaped(Apply(s, Open), header, bs', m)
  {
    hide Sections, IndexedIn, AllOk, ToTruncate;
    SurvivorsIndexed(s, header, bs, m);
    SplitAt(bs, m);
    FirstOk(bs, m);
    var kept := header + Sections(bs[..m]);
    if ToTruncate(s) == {} {
      var tail :| RawBlocks(tail) && s.file[s.retiredAt..] == Sections(tail);
      bs' := bs[..m] + tail;
      assert s.db - ToTruncate(s) == s.db;
      AllOkConcat(bs[..m], tail);
      StillIndexed(s.db, bs[..m], tail, |header|);
      SectionsConcat(bs[..m], tail);
      ConcatAssoc(header, Sections(bs[..m]), Sections(tail));
      assert bs'[..m] == bs[..m];
      assert s.file + [] == s.file == kept + Sections(tail);
    } else {
      bs' := bs[..m];
      assert bs'[..m] == bs[..m];
      assert kept + [] == kept;
    }
  }

  lemma {:induction false} FirstOk(bs: seq<Block>, m: nat)
    requires m <= |bs| && RawBlocks(bs)
    ensures RawBlocks(bs[..m])
  {
    hide Block.Ok;
  }

  lemma {:induction false} OpenInterruptedShaped(s: Log, header: bytes, bs: seq<Block>, m: nat)
    requires Shaped(s, header, bs, m) && Enabled(s, OpenInterrupted)
    ensures Shaped(Apply(s, OpenInterrupted), header, bs[..m], m)
  {
    hide Sections, IndexedIn, RawBlocks, ToTruncate;
    SurvivorsIndexed(s, header, bs, m);
    SplitAt(bs, m);
    FirstOk(bs, m);
    assert bs[..m][..m] == bs[..m];
  }

  /** Open leaves a log that genTopCar refuses exactly when there was nothing to truncate and the tail
      after the retired offset does not parse. */
  lemma {:induction false} OpenTornIff(s: Log, header: bytes, bs: seq<Block>, m: nat)
    requires Shaped(s, header, bs, m) && Enabled(s, Open)
    ensures
      var s' := Apply(s, Open);
      && |header| <= |s'.file| && s'.file[..|header|] == header
      && (ParseAll(s'.file[|header|..]).None? <==> ToTruncate(s) == {} && ParseAll(s.file[s.retiredAt..]).None?)
  {
    hide Sections, IndexedIn, ToTruncate, ParseAll, AllOk;
    FirstOk(bs, m);
    var a, tail := bs[..m], s.file[s.retiredAt..];
    assert s.file == header + Sections(a) + tail;
    assert (header + Sections(a))[|header|..] == Sections(a);
    assert s.file[|header|..] == Sections(a) + tail;
    ParseAfter(a, tail);
    ParseSections(a);
  }

  lemma {:induction false} ParseAfter(bs: seq<Block>, rest: bytes)
    requires AllOk(bs)
    ensures ParseAll(Sections(bs) + rest) == Prepend(bs, ParseAll(rest))
  {
    hide Block.Section, Block.Ok, ParseAll, Sections;
    if bs == [] {
      SectionsNone();
      assert [] + rest == rest;
      assert ParseAll(rest).Some? ==> [] + ParseAll(rest).value == ParseAll(rest).value;
    } else {
      SectionsConcat([bs[0]], bs[1..]);
      SectionsOne(bs[0]);
      assert [bs[0]] + bs[1..] == bs;
      ConcatAssoc(bs[0].Section(), Sections(bs[1..]), rest);
      ParseOne(bs[0], Sections(bs[1..]) + rest);
      ParseAfter(bs[1..], rest);
      if ParseAll(rest).Some? {
        ConcatAssoc([bs[0]], bs[1..], ParseAll(rest).value);
      }
    }
  }

  // ---- whole runs ---------------------------------------------------------------------------

  ghost predicate CleanRun(h: Hist, es: seq<Event>)
    requires Runnable(h, es)
    decreases |es|
  {
    es == [] || (CleanRun(h, es[..|es| - 1]) && CleanOpen(After(h, es[..|es| - 1]).log, es[|es| - 1]))
  }

  /** Runs without a crash are clean, whether or not some of their puts are rejected. */
  lemma {:induction false} CrashlessIsClean(h: Hist, es: seq<Event>)
    requires Runnable(h, es) && forall i :: 0 <= i < |es| ==> !es[i].Open?
    ensures CleanRun(h, es)
  {
    hide Step, Enabled;
    if es != [] {
      CrashlessIsClean(h, es[..|es| - 1]);
    }
  }

  lemma {:induction false} StepShaped(h: Hist, e: Event, header: bytes, bs: seq<Block>, m: nat)
    returns (bs': seq<Block>, m': nat)
    requires Enabled(h.log, e) && CleanOpen(h.log, e) && Shaped(h.log, header, bs, m)
    ensures Shaped(Step(h, e).log, header, bs', m')
  {
    hide Sections, IndexedIn, RawBlocks, CleanOpen, Apply, ToTruncate, Fresh;
    bs', m' := bs, m;
    match e
    case Put(c, b, _) =>
      AppendShaped(h.log, e, header, bs, m);
      bs' := bs + Fresh(h.log.db, c, b);
    case PutRejected(c, b, _) =>
      AppendShaped(h.log, e, header, bs, m);
      bs' := bs + Fresh(h.log.db, c, b);
    case FlushForRead =>
      FlushShaped(h.log, header, bs, m);
    case Commit =>
      FlushShaped(h.log, header, bs, m);
      m' := |bs|;
    case Crash(torn) =>
      CrashShaped(h.log, torn, header, bs, m);
    case Open =>
      bs' := OpenShaped(h.log, header, bs, m);
    case OpenInterrupted =>
      OpenInterruptedShaped(h.log, header, bs, m);
      bs' := bs[..m];
  }

  /** In every clean run, crashes and rejected puts included, the log is the sections of some raw blocks
      and the index points at blocks of its hashes. */
  lemma {:induction false} RunShaped(header: bytes, es: seq<Event>) returns (bs: seq<Block>, m: nat)
    requires |header| <= TWO_40 && Runnable(Start(header), es) && CleanRun(Start(header), es)
    ensures Shaped(After(Start(header), es).log, header, bs, m)
  {
    hide Shaped, Step, Enabled, CleanOpen;
    if es == [] {
      StartShaped(header);
      bs, m := [], 0;
    } else {
      var init := es[..|es| - 1];
      bs, m := RunShaped(header, init);
      bs, m := StepShaped(After(Start(header), init), es[|es| - 1], header, bs, m);
    }
  }

  /** A run ends with nothing buffered and something indexed: what MarkReadOnly closes after a commit. */
  ghost predicate Closable(s: Log) { s.running && s.buf == [] && s.db != map[] }

  /** The finalization object of a closed log: the same file, index and cache. */
  ghost predicate ClosedFrom(log: FinalLog, s: Log, lru: map<int, bytes>)
    reads log, log.level
  {
    && log.env.Ok() && log.file == s.file && log.dataStart == s.dataStart && log.layerOffsets == []
    && log.writeLru == lru && log.Unfinished() && log.level.db == s.db
  }

  /** In every run the log keeps its header, and nothing is indexed below it. */
  ghost predicate Based(h: Hist, header: bytes) {
    && HistInv(h) && h.log.dataStart == |header| <= |h.log.file| && h.log.file[..|header|] == header
    && forall k :: k in h.where ==> h.where[k].off >= |header|
  }

  lemma {:induction false} StepBased(h: Hist, e: Event, header: bytes)
    requires Based(h, header) && Enabled(h.log, e)
    ensures Based(Step(h, e), header)
  {
    StartKept(h);
    FileKept(h.log, e, header);
    StepKeeps(h, e);
    StartKept(Step(h, e));
    hide HistInv, Enabled, Apply, NewWhere, ToTruncate, LogRuns.Stored;
    if e.Put? {
      WhereGrows(h, e);
    }
  }

  /** A step changes nothing in the file below the retired offset. */
  lemma {:induction false} FileKept(s: Log, e: Event, header: bytes)
    requires Enabled(s, e) && s.dataStart == |header| <= s.retiredAt <= |s.file| && s.file[..|header|] == header
    ensures Apply(s, e).dataStart == |header| <= |Apply(s, e).file| && Apply(s, e).file[..|header|] == header
  {
    hide Sections, Fresh, PutAll, Offsets, SmallEnough, ToTruncate;
    var n := |header|;
    if e.Put? || e.PutRejected? {
      var content := s.Content() + Sections(Fresh(s.db, e.c, e.b));
      assert content[..n] == s.file[..n];
      assert content[..e.flushed][..n] == content[..n];
    } else if e.Open? {
      assert s.file[..s.retiredAt][..n] == s.file[..n];
    }
  }

  lemma {:induction false} StartKept(h: Hist)
    requires HistInv(h)
    ensures h.log.dataStart <= h.log.retiredAt <= |h.log.file|
  {}

  lemma {:induction false} WhereGrows(h: Hist, e: Event)
    requires HistInv(h) && Enabled(h.log, e) && e.Put?
    ensures
      var w := Step(h, e).where;
      forall k :: k in w ==> (k in h.where && w[k] == h.where[k]) || w[k].off >= h.log.DataLen()
  {
    hide Sections, NewWhere, Fresh, LogRuns.Stored, PutAll, Offsets, SmallEnough, Indexed, RecAt, Rec.End;
    PutTraced(h.log.db, h.where, h.log.Content(), e.c, e.b);
  }

  lemma {:induction false} RunBased(header: bytes, es: seq<Event>)
    requires |header| <= TWO_40 && Runnable(Start(header), es)
    ensures Based(After(Start(header), es), header)
  {
    hide Based, Step, Enabled;
    if es == [] {
      StartBased(header);
    } else {
      RunBased(header, es[..|es| - 1]);
      StepBased(After(Start(header), es[..|es| - 1]), es[|es| - 1], header);
    }
  }

  lemma {:induction false} StartBased(header: bytes)
    requires |header| <= TWO_40
    ensures Based(Start(header), header)
  {
    StartInv(header);
    assert header[..|header|] == header;
  }

  lemma {:induction false} BasedAfter(h: Hist, header: bytes)
    requires Based(h, header)
    ensures AtOrAfter(h.log.db, |header|)
  {
    hide RecAt, Rec.End, MakeOffsetLen, FromOffsetLen;
    forall k | k in h.log.db
      ensures FromOffsetLen(h.log.db[k]).0 >= |header|
    {
      OffsetKept(h.where[k].off, h.where[k].block.EntryLen());
    }
  }

  /** Every run from a fresh log, whatever tails crashes left in it, ends in a log that Finalize takes; and
      reads of the closed log are the reads of the run, which the two layers determine. */
  lemma {:induction false} RunServed(log: FinalLog, es: seq<Event>, lru: map<int, bytes>)
    requires
      var header := log.env.head(PlaceholderCid());
      && |header| <= TWO_40 && Runnable(Start(header), es)
      && var s := After(Start(header), es).log;
         Closable(s) && ClosedFrom(log, s, lru) && LruOk(s.Content(), lru) && log.LevelFits()
    ensures log.Served()
    ensures
      var h := After(Start(log.env.head(PlaceholderCid())), es);
      forall k :: log.Reads(k) == View(h.log, lru, k) && ReadsTwoLayers(h, lru, k)
  {
    hide Step, Enabled, Sections, CarEnv.Ok, PlaceholderCid, LruOk, ReadsTwoLayers, ViewCached, Runnable, After,
      AtOrAfter, HistInv, FinalLog.LevelFits;
    var header := log.env.head(PlaceholderCid());
    var h := After(Start(header), es);
    RunBased(header, es);
    BasedAfter(h, header);
    assert h.log.file + [] == h.log.file;
    forall k | true
      ensures ReadsTwoLayers(h, lru, k)
    {
      ReadsLayer(h, lru, k);
    }
  }

  /** Every clean run ends in the log of some blocks, each indexed hash at one of them. */
  lemma {:induction false} RunReady(log: FinalLog, es: seq<Event>, lru: map<int, bytes>) returns (leaves: seq<Block>)
    requires
      var header := log.env.head(PlaceholderCid());
      && |header| <= TWO_40 && Runnable(Start(header), es) && CleanRun(Start(header), es)
      && var s := After(Start(header), es).log;
         Closable(s) && ClosedFrom(log, s, lru) && LruOk(s.Content(), lru)
    ensures log.Ready(leaves) && IndexedIn(log.level.db, leaves, log.dataStart) && |log.file| <= TWO_40
  {
    hide Step, Enabled, Sections, CarEnv.Ok, PlaceholderCid, LruOk, RawBlocks, IndexedIn, CleanRun, Runnable, After;
    var header := log.env.head(PlaceholderCid());
    var h := After(Start(header), es);
    var m;
    leaves, m := RunShaped(header, es);
    assert h.log.file + [] == h.log.file;
    IndexNotEmpty(h.log.db, leaves, |header|);
    LeavesReady(log, leaves, h.log, header);
  }

  lemma {:induction false} IndexNotEmpty(db: Db, bs: seq<Block>, start: nat)
    requires IndexedIn(db, bs, start) && db != map[]
    ensures bs != []
  {
    var h :| h in db;
    assert PointsAt(db[h], h, bs, start);
  }

  lemma {:induction false} LeavesReady(log: FinalLog, leaves: seq<Block>, s: Log, header: bytes)
    requires header == log.env.head(PlaceholderCid()) && RawBlocks(leaves) && leaves != []
    requires s.file == header + Sections(leaves) && IndexedIn(s.db, leaves, |header|) && s.dataStart == |header|
    requires ClosedFrom(log, s, log.writeLru) && LruOk(s.file, log.writeLru)
    ensures log.Ready(leaves) && IndexedIn(log.level.db, leaves, log.dataStart)
  {
    hide Sections, CarEnv.Ok, PlaceholderCid, LruOk, IndexedIn, AllOk;
  }

  // ---- rebuilding a lost index --------------------------------------------------------------

  /** The block at a packed location is in the index that walking the log gives. */
  lemma {:induction false} WalkIndexes(bs: seq<Block>, header: bytes, i: nat)
    requires i < |bs| && |header| + |Sections(bs)| <= TWO_40
    ensures bs[i].cid.hash in IndexOf(bs, |header|)
  {
    hide Sections, MakeOffsetLen, Block.EntryLen;
    var init, last := bs[..|bs| - 1], bs[|bs| - 1];
    assert bs == init + [last];
    SectionsSnoc(init, last);
    IndexOfSnoc(init, last, |header|);
    if i < |init| {
      assert init[i] == bs[i];
      WalkIndexes(init, header, i);
    } else {
      LocationNotSkip(header, bs, i);
    }
  }

  /** In every clean run, after a commit: the file is the sections of some blocks, and the index that
      FixLevelIndex makes of them has at least the hashes of the log's own, each at one of its blocks. */
  lemma {:induction false} RebuiltAfterRun(header: bytes, es: seq<Event>) returns (bs: seq<Block>)
    requires |header| <= TWO_40 && Runnable(Start(header), es) && CleanRun(Start(header), es)
    requires es != [] && es[|es| - 1].Commit?
    ensures
      var s := After(Start(header), es).log;
      && s.dataStart == |header| <= s.retiredAt == |s.file|
      && IsLog(s.file[s.dataStart..s.retiredAt], bs)
      && IndexedIn(s.db, bs, s.dataStart) && IndexedIn(IndexOf(bs, s.dataStart), bs, s.dataStart)
      && s.db.Keys <= IndexOf(bs, s.dataStart).Keys
  {
    hide Sections, IndexOf, PointsAt, AllOk, CleanOpen, Location;
    var m;
    bs, m := RunShaped(header, es);
    var s := After(Start(header), es).log;
    assert s.buf == [] && s.file + [] == s.file;
    assert s.file[|header|..|s.file|] == Sections(bs);
    RebuiltIndexedIn(bs, |header|);
    forall h | h in s.db
      ensures h in IndexOf(bs, |header|)
    {
      var i := BlockOf(s.db[h], h, bs, |header|);
      WalkIndexes(bs, header, i);
    }
  }

  lemma {:induction false} BlockOf(loc: int, h: Multihash, bs: seq<Block>, start: nat) returns (i: nat)
    requires PointsAt(loc, h, bs, start)
    ensures i < |bs| && bs[i].cid.hash == h && loc == Location(bs, start, i)
  {
    i :| 0 <= i < |bs| && bs[i].cid.hash == h && loc == Location(bs, start, i);
  }
}
