/** OpenGroup: reopening a group's log together with the top-level index, so that hashes cut from
    the log lose the group there too. */
module GroupOpen {
  import opened Bytes
  import opened Cars
  import opened LevelIndex
  import opened LogRuns
  import opened LogSafety
  import opened CarLogs
  import opened TopIndex

  datatype GroupLog =
    | GroupOpened(log: CarLog)
    | RewindRefused      // "cannot rewind jbob head"
    | OpenFailed(why: OpenResult)

  /** The truncation callback: it refuses to go below the head recorded for the group, and
      otherwise takes the group away from the hashes. */
  method TruncCleanup(index: PebbleIndex, id: int, recordedHead: nat, to: nat, hashes: seq<Multihash>)
    returns (ok: bool)
    requires index.Valid() && IsInt64(id) && forall i :: 0 <= i < |hashes| ==> hashes[i].Ok()
    modifies index
    ensures index.Valid() && (ok <==> to >= recordedHead)
    ensures index.top == if ok then DropAll(old(index.top), hashes, id) else old(index.top)
  {
    if to < recordedHead {
      return false;
    }
    index.DropGroup(hashes, id);
    return true;
  }

  /** Open after a crash, the callback coming before anything is cut. Committed hashes keep the
      group, hashes that were indexed but never committed lose it, and no other pair changes; if the
      callback refuses, nothing has changed. */
  method OpenGroupLog(index: PebbleIndex, id: int, recordedHead: nat, dataFile: bytes, idx: LevelDBIndex,
      start: nat, retired: nat,
      ghost h: Hist) returns (r: GroupLog)
    requires index.Valid() && IsInt64(id) && HistInv(h) && h.log == Log(dataFile, [], idx.db, start, retired, false)
    modifies index, idx
    ensures index.Valid()
    ensures r == RewindRefused <==> ToTruncate(h.log) != {} && retired < recordedHead
    ensures r == RewindRefused ==> index.top == old(index.top) && idx.db == old(idx.db)
    ensures !r.OpenFailed?
    ensures r.GroupOpened? ==>
              && r.log.Valid() && r.log.State() == Apply(h.log, Event.Open)
              && idx.db.Keys == h.committed.Keys
              && (forall k :: k in h.where && k !in h.committed ==> id !in GroupsOf(index.top, k))
              && (forall k: Multihash, g :: k in h.committed || k !in h.where || g != id ==>
                    (g in GroupsOf(index.top, k) <==> g in GroupsOf(old(index.top), k)))
  {
    hide HistInv, Inv, Indexed, Represents, GroupsOf, ToTruncate, Apply, DropAll, CarLog.Valid;
    ghost var top, gone := index.top, ToTruncate(h.log);
    Indexing(h);
    var hashes := idx.ToTruncate(retired);
    Listed(h.log, hashes);
    if |hashes| > 0 {
      var ok := TruncCleanup(index, id, recordedHead, retired, hashes);
      if !ok {
        return RewindRefused;
      }
    }
    var result := CarLog.Open(dataFile, idx, start, retired, false);
    OpenIndexesCommitted(h);
    forall k: Multihash | true
      ensures GroupsOf(index.top, k) == if k in gone then GroupsOf(top, k) - {id} else GroupsOf(top, k)
    {
      DropAllGroups(top, hashes, id, k);
    }
    if !result.Opened? {
      return OpenFailed(result);
    }
    Cut(h);
    return GroupOpened(result.log);
  }

  lemma {:induction false} Indexing(h: Hist)
    requires HistInv(h) && !h.log.running
    ensures forall k :: k in ToTruncate(h.log) ==> k.Ok()
    ensures h.log.retiredAt <= |h.log.file|
  {
    hide MakeOffsetLen, FromOffsetLen, RecAt;
  }

  lemma {:induction false} Listed(s: Log, hashes: seq<Multihash>)
    requires forall k :: k in hashes <==> k in AtOrAbove(s.db, s.retiredAt)
    ensures forall k :: k in hashes <==> k in ToTruncate(s)
    ensures |hashes| > 0 <==> ToTruncate(s) != {}
  {
    if |hashes| > 0 {
      assert hashes[0] in hashes;
    }
    if ToTruncate(s) != {} {
      var k :| k in ToTruncate(s);
    }
  }

  /** What is cut is what was indexed and never committed. */
  lemma {:induction false} Cut(h: Hist)
    requires HistInv(h) && !h.log.running
    ensures forall k :: k in ToTruncate(h.log) <==> k in h.where && k !in h.committed
  {
    hide ToTruncate, Indexed, RecAt, Rec.End;
    Survivors(h);
    IndexedTruncated(h);
  }

  lemma {:induction false} IndexedTruncated(h: Hist)
    requires HistInv(h)
    ensures forall k :: k in ToTruncate(h.log) ==> k in h.where
    ensures forall k :: k in h.committed ==> k in h.where
  {
    hide FromOffsetLen, MakeOffsetLen, RecAt, Rec.End;
  }

  // ---- whole runs ----------------------------------------------------------------------------

  /** The hashes for which the top-level index lists the group. A put is owed while its blocks are in the
      log and its hashes not in the index: the two are written in parallel. */
  datatype Listing = Listing(hashes: set<Multihash>, owed: bool)

  /** One event of the group's log. A put that did not get as far as the index is indexed = false. */
  ghost function ListedStep(l: Listing, h: Hist, e: Event, indexed: bool): Listing
    requires Enabled(h.log, e)
  {
    match e
    case Put(c, _, _) => if indexed then l.(hashes := l.hashes + set x | x in c) else l.(owed := true)
    case PutRejected(c, _, _) => if indexed then l.(hashes := l.hashes + set x | x in c) else l
    case Crash(_) => l.(owed := false)
    case Open => l.(hashes := l.hashes - ToTruncate(h.log))
    case OpenInterrupted => l.(hashes := l.hashes - ToTruncate(h.log))
    case _ => l
  }

  ghost function ListedAfter(h: Hist, l: Listing, es: seq<Event>, indexed: seq<bool>): Listing
    requires Runnable(h, es) && |indexed| == |es|
  {
    if es == [] then l
    else
      var n := |es| - 1;
      ListedStep(ListedAfter(h, l, es[..n], indexed[..n]), After(h, es[..n]), es[n], indexed[n])
  }

  /** While a put is owed the group's lock is held: reads may flush the buffer, and the process may stop. */
  ghost predicate Locked(h: Hist, l: Listing, es: seq<Event>, indexed: seq<bool>)
    requires Runnable(h, es) && |indexed| == |es|
    decreases |es|
  {
    es == [] ||
    var n := |es| - 1;
    && Locked(h, l, es[..n], indexed[..n])
    && (ListedAfter(h, l, es[..n], indexed[..n]).owed ==> es[n].FlushForRead? || es[n].Crash?)
  }

  /** AddGroup and DropGroup do to the index what the steps say. */
  lemma {:induction false} IndexFollows(t: Top, l: set<Multihash>, c: seq<Multihash>, sizes: seq<int>, id: int)
    requires |c| == |sizes| && forall k: Multihash :: k in l <==> id in GroupsOf(t, k)
    ensures forall k: Multihash :: k in l + (set x | x in c) <==> id in GroupsOf(AddAll(t, c, sizes, id), k)
    ensures forall k: Multihash :: k in l - (set x | x in c) <==> id in GroupsOf(DropAll(t, c, id), k)
  {
    hide AddAll, DropAll, GroupsOf;
    forall k: Multihash | true
      ensures k in l + (set x | x in c) <==> id in GroupsOf(AddAll(t, c, sizes, id), k)
      ensures k in l - (set x | x in c) <==> id in GroupsOf(DropAll(t, c, id), k)
    {
      AddAllGroups(t, c, sizes, id, k);
      DropAllGroups(t, c, id, k);
    }
  }

  lemma {:induction false} NewWhereKeys(w: Where, db: Db, c: seq<Multihash>, b: seq<bytes>, at: nat)
    requires |c| == |b|
    ensures NewWhere(w, db, c, b, at).Keys <= w.Keys + (set x | x in c)
  {
    if c != [] {
      var n := |c| - 1;
      NewWhereKeys(w, db, c[..n], b[..n], at);
      assert c == c[..n] + [c[n]];
    }
  }

  /** Committed hashes are listed, and so is every hash of a running log that owes nothing. */
  ghost predicate ListsAll(h: Hist, l: Listing) {
    && h.committed.Keys <= l.hashes
    && (h.log.running && !l.owed ==> h.where.Keys <= l.hashes)
  }

  lemma {:induction false} StepListed(h: Hist, l: Listing, e: Event, indexed: bool)
    requires HistInv(h) && Enabled(h.log, e) && ListsAll(h, l)
    requires l.owed ==> e.FlushForRead? || e.Crash?
    ensures ListsAll(Step(h, e), ListedStep(l, h, e, indexed))
  {
    hide HistInv, Enabled, ListsAll, Step, ListedStep;
    match e
    case Put(_, _, _) => PutListed(h, l, e, indexed);
    case PutRejected(_, _, _) => OthersListed(h, l, e, indexed);
    case FlushForRead => OthersListed(h, l, e, indexed);
    case Commit => CommitListed(h, l, e, indexed);
    case Crash(_) => OthersListed(h, l, e, indexed);
    case Open => OpenListed(h, l, e, indexed);
    case OpenInterrupted => OpenListed(h, l, e, indexed);
  }

  lemma {:induction false} PutListed(h: Hist, l: Listing, e: Event, indexed: bool)
    requires Enabled(h.log, e) && ListsAll(h, l) && e.Put? && !l.owed
    ensures ListsAll(Step(h, e), ListedStep(l, h, e, indexed))
  {
    hide Apply, NewWhere, LogRuns.Stored, SmallEnough, Splits;
    NewWhereKeys(h.where, h.log.db, e.c, e.b, h.log.DataLen());
  }

  lemma {:induction false} CommitListed(h: Hist, l: Listing, e: Event, indexed: bool)
    requires HistInv(h) && Enabled(h.log, e) && ListsAll(h, l) && e.Commit? && !l.owed
    ensures ListsAll(Step(h, e), ListedStep(l, h, e, indexed))
  {
    hide Apply, HistInv;
    PendingIndexed(h);
  }

  /** A crash settles what was owed: the log stops. */
  lemma {:induction false} OthersListed(h: Hist, l: Listing, e: Event, indexed: bool)
    requires Enabled(h.log, e) && ListsAll(h, l) && (e.PutRejected? || e.FlushForRead? || e.Crash?)
    ensures ListsAll(Step(h, e), ListedStep(l, h, e, indexed))
  {
    hide Sections, Fresh;
  }

  /** Only hashes that were never committed are cut. */
  lemma {:induction false} OpenListed(h: Hist, l: Listing, e: Event, indexed: bool)
    requires HistInv(h) && Enabled(h.log, e) && ListsAll(h, l) && (e.Open? || e.OpenInterrupted?) && !l.owed
    ensures ListsAll(Step(h, e), ListedStep(l, h, e, indexed))
  {
    Cut(h);
    hide HistInv, ToTruncate, Apply, Enabled, NewWhere, LogRuns.Stored;
  }

  lemma {:induction false} PendingIndexed(h: Hist)
    requires HistInv(h)
    ensures h.pending.Keys <= h.where.Keys
  {
    hide Inv, Rec.End;
  }

  /** In every run of a group's log, crashes and reopenings included, the top-level index lists the group
      for every committed hash, and for every hash the log has indexed unless a put is under way. */
  lemma {:induction false} RunListed(h: Hist, l: Listing, es: seq<Event>, indexed: seq<bool>)
    requires HistInv(h) && ListsAll(h, l) && Runnable(h, es) && |indexed| == |es| && Locked(h, l, es, indexed)
    ensures ListsAll(After(h, es), ListedAfter(h, l, es, indexed))
  {
    hide HistInv, Step, Enabled, ListedStep, ListsAll;
    if es != [] {
      var n := |es| - 1;
      RunListed(h, l, es[..n], indexed[..n]);
      RunKeeps(h, es[..n]);
      StepListed(After(h, es[..n]), ListedAfter(h, l, es[..n], indexed[..n]), es[n], indexed[n]);
    }
  }

  /** A committed block is found end to end: the top-level index leads to the group, and the group's
      log returns its bytes, from the cache or from the file. */
  lemma {:induction false} CommittedIsFound(header: bytes, before: seq<Event>, after: seq<Event>, indexed: seq<bool>,
      lru: map<int, bytes>, k: Multihash)
    requires |header| <= TWO_40 && Runnable(Start(header), before + after)
    requires |indexed| == |before + after| && Locked(Start(header), Listing({}, false), before + after, indexed)
    requires Runnable(Start(header), before) && k in After(Start(header), before).committed
    requires
      var log := After(Start(header), before + after).log;
      log.running && LruOk(log.Content(), lru)
    ensures k in ListedAfter(Start(header), Listing({}, false), before + after, indexed).hashes
    ensures
      var data, log := After(Start(header), before).committed[k], After(Start(header), before + after).log;
      && k in log.db
      && (log.db[k] in lru || RawBlock(k, data).EntryLen() < TWO_23 ==> View(log, lru, k) == Data(data))
  {
    hide *;
    Durable(header, before, after, lru, k);
    CommittedIsListed(header, before, after, indexed, k);
  }

  lemma {:induction false} CommittedIsListed(header: bytes, before: seq<Event>, after: seq<Event>,
      indexed: seq<bool>, k: Multihash)
    requires |header| <= TWO_40 && Runnable(Start(header), before + after)
    requires |indexed| == |before + after| && Locked(Start(header), Listing({}, false), before + after, indexed)
    requires Runnable(Start(header), before) && k in After(Start(header), before).committed
    ensures k in ListedAfter(Start(header), Listing({}, false), before + after, indexed).hashes
  {
    hide HistInv, Runnable, After, Locked, ListedAfter;
    StartInv(header);
    RunSplits(Start(header), before, after);
    RunKeeps(Start(header), before);
    CommittedForever(After(Start(header), before), after, k);
    RunListed(Start(header), Listing({}, false), before + after, indexed);
  }

  lemma {:induction false} RetiredStep(h: Hist, e: Event)
    requires HistInv(h) && Enabled(h.log, e)
    ensures Step(h, e).log.retiredAt >= h.log.retiredAt
  {
    hide NewWhere, ToTruncate, LogRuns.Stored, Sections, Fresh, Indexed, RecAt, Rec.End, Offsets, PutAll;
  }

  /** The callback never refuses in a run: the head recorded for a group is one that a commit of its
      log returned, and the retired offset only grows. */
  lemma {:induction false} RewindNeverRefused(h: Hist, es: seq<Event>, recordedHead: nat)
    requires HistInv(h) && Runnable(h, es) && recordedHead <= h.log.retiredAt
    ensures recordedHead <= After(h, es).log.retiredAt
  {
    hide HistInv, Step, Enabled;
    if es != [] {
      var init := es[..|es| - 1];
      RewindNeverRefused(h, init, recordedHead);
      RunKeeps(h, init);
      RetiredStep(After(h, init), es[|es| - 1]);
    }
  }
}
