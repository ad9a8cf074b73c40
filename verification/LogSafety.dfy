/** Over every run of a block log, what reads return is what a two-layer map says: a committed
    layer that only grows, and a pending layer that a crash empties. */
module LogSafety {
  import opened Bytes
  import opened Cars
  import opened LevelIndex
  import opened LogRuns

  /** For each indexed hash, the record its location was packed from. */
  type Where = map<Multihash, Rec>

  ghost predicate Indexed(db: Db, w: Where) {
    && w.Keys == db.Keys
    && forall h :: h in w ==>
         && h.Ok() && w[h].block.cid == Cid(RAW, h)
         && w[h].off < TWO_40
         && db[h] == MakeOffsetLen(w[h].off, w[h].block.EntryLen())
  }

  /** No section straddles the retired offset. */
  ghost predicate OneSide(r: Rec, at: nat) { r.End() <= at || r.off >= at }

  ghost predicate Inv(s: Log, w: Where) {
    && Indexed(s.db, w)
    && s.dataStart <= s.retiredAt <= |s.file|
    && s.DataLen() <= TWO_40
    && (forall h :: h in w ==> OneSide(w[h], s.retiredAt))
    && (s.running ==> forall h :: h in w ==> RecAt(s.Content(), w[h]))
    && (!s.running ==> s.buf == [] && forall h :: h in w && w[h].End() <= s.retiredAt ==> RecAt(s.file, w[h]))
  }

  // ---- Put -----------------------------------------------------------------------------

  ghost function NewWhere(w: Where, db: Db, c: seq<Multihash>, b: seq<bytes>, at: nat): Where
    requires |c| == |b|
  {
    if c == [] then w
    else
      var n := |c| - 1;
      var before := NewWhere(w, db, c[..n], b[..n], at);
      if c[n] in db then before
      else before[c[n] := Rec(at + |Sections(Fresh(db, c[..n], b[..n]))|, RawBlock(c[n], b[n]))]
  }

  /** A packed location never collides with the index's skip marker. */
  lemma {:induction false} PackedIsNotSkip(off: nat, length: nat)
    requires off < TWO_40 - 1
    ensures MakeOffsetLen(off, length) != -1
  {
    OffsetKept(off, length);
    assert FromOffsetLen(-1).0 == TWO_40 - 1;
  }

  lemma {:induction false} SectionSize(b: Block)
    ensures |b.Section()| >= 2
  {}

  ghost predicate PutEffect(db: Db, w: Where, content: bytes, c: seq<Multihash>, b: seq<bytes>)
    requires |c| == |b|
  {
    var at := |content|;
    var w' := NewWhere(w, db, c, b, at);
    && Indexed(PutAll(db, c, Offsets(db, c, b, at)), w')
    && (forall h :: h in w' <==> h in w || h in LogRuns.Stored(db, c, b))
    && (forall h :: h in w ==> w'[h] == w[h] && h !in LogRuns.Stored(db, c, b))
    && (forall h :: h in LogRuns.Stored(db, c, b) ==>
          && w'[h].off >= at && w'[h].block.data == LogRuns.Stored(db, c, b)[h]
          && RecAt(content + Sections(Fresh(db, c, b)), w'[h]))
  }

  lemma {:induction false} PutTraced(db: Db, w: Where, content: bytes, c: seq<Multihash>, b: seq<bytes>)
    requires Indexed(db, w) && Storable(c, b)
    requires |content| + |Sections(Fresh(db, c, b))| <= TWO_40
    ensures PutEffect(db, w, content, c, b)
  {
    if c == [] {
      PutNothing(db, w, content, b);
    } else {
      hide Sections, MakeOffsetLen, RecAt, Block.Section, Block.EntryLen;
      var n := |c| - 1;
      var init, last := Fresh(db, c[..n], b[..n]), RawBlock(c[n], b[n]);
      if c[n] in db {
        PutTraced(db, w, content, c[..n], b[..n]);
        PutSkips(db, w, content, c, b);
      } else {
        SectionsSnoc(init, last);
        PutTraced(db, w, content, c[..n], b[..n]);
        PutAppends(db, w, content, c, b);
      }
    }
  }

  lemma {:induction false} PutNothing(db: Db, w: Where, content: bytes, b: seq<bytes>)
    requires Indexed(db, w) && b == []
    ensures PutEffect(db, w, content, [], b)
  {}

  lemma {:induction false} PutSkips(db: Db, w: Where, content: bytes, c: seq<Multihash>, b: seq<bytes>)
    requires c != [] && Storable(c, b) && c[|c| - 1] in db
    requires PutEffect(db, w, content, c[..|c| - 1], b[..|c| - 1])
    ensures PutEffect(db, w, content, c, b)
  {
    hide Sections, MakeOffsetLen, RecAt, Block.Section, Block.EntryLen;
    var n := |c| - 1;
    var offs := Offsets(db, c, b, |content|);
    assert offs[..n] == Offsets(db, c[..n], b[..n], |content|);
  }

  /** How the specification functions grow by one fresh block. */
  lemma {:induction false} AppendShape(db: Db, w: Where, at: nat, c: seq<Multihash>, b: seq<bytes>)
    requires c != [] && |c| == |b| && c[|c| - 1] !in db
    requires at + |Sections(Fresh(db, c, b))| <= TWO_40
    ensures
      var n := |c| - 1;
      var init, last := Fresh(db, c[..n], b[..n]), RawBlock(c[n], b[n]);
      var r := Rec(at + |Sections(init)|, last);
      && Fresh(db, c, b) == init + [last]
      && Sections(Fresh(db, c, b)) == Sections(init) + last.Section()
      && r.End() <= TWO_40 && r.off < TWO_40 - 1
      && LogRuns.Stored(db, c, b) == LogRuns.Stored(db, c[..n], b[..n])[c[n] := b[n]]
      && NewWhere(w, db, c, b, at) == NewWhere(w, db, c[..n], b[..n], at)[c[n] := r]
  {
    hide Sections, Block.Section, Block.EntryLen;
    var n := |c| - 1;
    var init, last := Fresh(db, c[..n], b[..n]), RawBlock(c[n], b[n]);
    SectionsSnoc(init, last);
    SectionSize(last);
  }

  lemma {:induction false} AppendOffset(db: Db, at: nat, c: seq<Multihash>, b: seq<bytes>)
    requires c != [] && |c| == |b| && c[|c| - 1] !in db
    requires at + |Sections(Fresh(db, c[..|c| - 1], b[..|c| - 1]))| < TWO_40 - 1
    ensures
      var n := |c| - 1;
      PutAll(db, c, Offsets(db, c, b, at)) ==
        PutAll(db, c[..n], Offsets(db, c[..n], b[..n], at))[c[n] :=
          MakeOffsetLen(at + |Sections(Fresh(db, c[..n], b[..n]))|, RawBlock(c[n], b[n]).EntryLen())]
  {
    hide Sections, MakeOffsetLen, Block.EntryLen, Fresh;
    var n := |c| - 1;
    var offs := Offsets(db, c, b, at);
    assert offs[..n] == Offsets(db, c[..n], b[..n], at);
    PackedIsNotSkip(at + |Sections(Fresh(db, c[..n], b[..n]))|, RawBlock(c[n], b[n]).EntryLen());
  }

  lemma {:induction false} PutAppends(db: Db, w: Where, content: bytes, c: seq<Multihash>, b: seq<bytes>)
    requires c != [] && Storable(c, b) && c[|c| - 1] !in db && Indexed(db, w)
    requires PutEffect(db, w, content, c[..|c| - 1], b[..|c| - 1])
    requires |content| + |Sections(Fresh(db, c, b))| <= TWO_40
    ensures PutEffect(db, w, content, c, b)
  {
    hide Sections, MakeOffsetLen, RecAt, Block.Section, Block.EntryLen, Indexed, Fresh, NewWhere, PutAll,
      Offsets, LogRuns.Stored;
    var n := |c| - 1;
    AppendShape(db, w, |content|, c, b);
    AppendOffset(db, |content|, c, b);
    var init, last := Fresh(db, c[..n], b[..n]), RawBlock(c[n], b[n]);
    var before := content + Sections(init);
    var r := Rec(|before|, last);
    ConcatAssoc(content, Sections(init), last.Section());
    AppendedRec(before, r);
    var w0 := NewWhere(w, db, c[..n], b[..n], |content|);
    IndexedUpdate(PutAll(db, c[..n], Offsets(db, c[..n], b[..n], |content|)), w0, c[n], r);
    IndexedKeys(db, w);
    forall h | h in LogRuns.Stored(db, c[..n], b[..n])
      ensures RecAt(before + last.Section(), w0[h])
    {
      RecAtExtended(before, last.Section(), w0[h]);
    }
  }

  lemma {:induction false} IndexedKeys(db: Db, w: Where)
    requires Indexed(db, w)
    ensures w.Keys == db.Keys
  {}

  lemma {:induction false} IndexedUpdate(db: Db, w: Where, h: Multihash, r: Rec)
    requires Indexed(db, w) && h.Ok() && r.block.cid == Cid(RAW, h) && r.off < TWO_40
    ensures Indexed(db[h := MakeOffsetLen(r.off, r.block.EntryLen())], w[h := r])
  {
    hide MakeOffsetLen;
  }

  // ---- histories ---------------------------------------------------------------------------

  /** A log with what its clients have been promised: committed is what the commits so far
      covered, pending what has been put since the last commit or crash. */
  datatype Hist = Hist(log: Log, where: Where, pending: map<Multihash, bytes>, committed: map<Multihash, bytes>)

  function Start(header: bytes): Hist {
    Hist(Log(header, [], map[], |header|, |header|, true), map[], map[], map[])
  }

  ghost predicate HistInv(h: Hist) {
    && Inv(h.log, h.where)
    && (forall k :: k in h.committed ==>
          k in h.where && h.where[k].End() <= h.log.retiredAt && h.where[k].block.data == h.committed[k])
    && (forall k :: k in h.pending ==>
          h.log.running && k in h.where && h.where[k].off >= h.log.retiredAt && h.where[k].block.data == h.pending[k])
    && (forall k :: k in h.where ==>
          k in h.committed || k in h.pending || (!h.log.running && h.where[k].off >= h.log.retiredAt))
  }

  ghost function Step(h: Hist, e: Event): Hist
    requires Enabled(h.log, e)
  {
    var log := Apply(h.log, e);
    match e
    case Put(c, b, _) =>
      Hist(log, NewWhere(h.where, h.log.db, c, b, h.log.DataLen()), h.pending + LogRuns.Stored(h.log.db, c, b),
          h.committed)
    case PutRejected(_, _, _) => h.(log := log)
    case FlushForRead => h.(log := log)
    case Commit => Hist(log, h.where, map[], h.committed + h.pending)
    case Crash(_) => Hist(log, h.where, map[], h.committed)
    case Open => Hist(log, h.where - ToTruncate(h.log), map[], h.committed)
    case OpenInterrupted => Hist(log, h.where - ToTruncate(h.log), map[], h.committed)
  }

  lemma {:induction false} StartInv(header: bytes)
    requires |header| <= TWO_40
    ensures HistInv(Start(header))
  {}

  lemma {:induction false} PutKeeps(h: Hist, e: Event)
    requires HistInv(h) && Enabled(h.log, e) && e.Put?
    ensures HistInv(Step(h, e))
  {
    hide Sections, MakeOffsetLen, Block.Section, Rec.End, Fresh, NewWhere, PutAll, Offsets, LogRuns.Stored,
      Indexed, RecAt, SmallEnough;
    var s, w := h.log, h.where;
    PutTraced(s.db, w, s.Content(), e.c, e.b);
    var added := Sections(Fresh(s.db, e.c, e.b));
    var content := s.Content() + added;
    assert content[..e.flushed] + content[e.flushed..] == content;
    forall k | k in w
      ensures RecAt(content, w[k])
    {
      RecAtExtended(s.Content(), added, w[k]);
    }
  }

  lemma {:induction false} PutRejectedKeeps(h: Hist, e: Event)
    requires HistInv(h) && Enabled(h.log, e) && e.PutRejected?
    ensures HistInv(Step(h, e))
  {
    hide Sections, MakeOffsetLen, Block.Section, Fresh, Indexed, RecAt, SmallEnough;
    var s, w := h.log, h.where;
    var added := Sections(Fresh(s.db, e.c, e.b));
    var content := s.Content() + added;
    assert content[..e.flushed] + content[e.flushed..] == content;
    forall k | k in w
      ensures RecAt(content, w[k])
    {
      RecAtExtended(s.Content(), added, w[k]);
    }
  }

  lemma {:induction false} RecEnds(content: bytes, r: Rec)
    requires RecAt(content, r)
    ensures r.End() <= |content|
  {}

  lemma {:induction false} FlushKeeps(h: Hist, e: Event)
    requires HistInv(h) && Enabled(h.log, e) && e.FlushForRead?
    ensures HistInv(Step(h, e))
  {
    hide Block.Section, Rec.End, Indexed, MakeOffsetLen, RecAt;
    assert h.log.Content() + [] == h.log.Content();
  }

  lemma {:induction false} CommitKeeps(h: Hist, e: Event)
    requires HistInv(h) && Enabled(h.log, e) && e.Commit?
    ensures HistInv(Step(h, e))
  {
    hide Block.Section, Rec.End, Indexed, MakeOffsetLen, RecAt;
    var s, w := h.log, h.where;
    assert s.Content() + [] == s.Content();
    forall k | k in w
      ensures w[k].End() <= s.DataLen()
    {
      RecEnds(s.Content(), w[k]);
    }
  }

  lemma {:induction false} RecAtPrefix(content: bytes, r: Rec, at: nat)
    requires RecAt(content, r) && r.End() <= at <= |content|
    ensures RecAt(content[..at], r)
  {
    SliceOfSlice(content, 0, at, r.off, r.End());
    assert content[0..at] == content[..at];
  }

  lemma {:induction false} CrashKeeps(h: Hist, e: Event)
    requires HistInv(h) && Enabled(h.log, e) && e.Crash?
    ensures HistInv(Step(h, e))
  {
    hide Block.Section, Rec.End, Indexed, MakeOffsetLen, RecAt;
    var s, w := h.log, h.where;
    forall k | k in w && w[k].End() <= s.retiredAt
      ensures RecAt(s.file + e.torn, w[k])
    {
      RecAtPrefix(s.Content(), w[k], |s.file|);
      assert s.Content()[..|s.file|] == s.file;
      RecAtExtended(s.file, e.torn, w[k]);
    }
  }

  lemma {:induction false} IndexedMinus(db: Db, w: Where, gone: set<Multihash>)
    requires Indexed(db, w)
    ensures Indexed(db - gone, w - gone)
  {
    hide MakeOffsetLen;
  }

  /** Open removes exactly the entries whose section starts at or after the retired offset. */
  lemma {:induction false} TruncatedExactly(s: Log, w: Where, k: Multihash)
    requires Indexed(s.db, w) && k in w
    ensures k in ToTruncate(s) <==> w[k].off >= s.retiredAt
  {
    hide MakeOffsetLen, FromOffsetLen;
    OffsetKept(w[k].off, w[k].block.EntryLen());
  }

  /** What survives Open, whether or not it gets to truncate the file. */
  lemma {:induction false} Survivors(h: Hist)
    requires HistInv(h) && !h.log.running
    ensures
      var w := h.where - ToTruncate(h.log);
      && Indexed(h.log.db - ToTruncate(h.log), w)
      && w.Keys == h.committed.Keys
      && forall k :: k in w ==>
           && w[k] == h.where[k] && w[k].End() <= h.log.retiredAt
           && RecAt(h.log.file, w[k]) && RecAt(h.log.file[..h.log.retiredAt], w[k])
  {
    hide Block.Section, Rec.End, Indexed, MakeOffsetLen, FromOffsetLen, RecAt, ToTruncate;
    var s, w := h.log, h.where;
    IndexedMinus(s.db, w, ToTruncate(s));
    forall k | k in w
      ensures k in ToTruncate(s) <==> w[k].off >= s.retiredAt
      ensures w[k].End() <= s.retiredAt ==> w[k].off < s.retiredAt && RecAt(s.file[..s.retiredAt], w[k])
    {
      TruncatedExactly(s, w, k);
      if w[k].End() <= s.retiredAt {
        SectionSize(w[k].block);
        RecAtPrefix(s.file, w[k], s.retiredAt);
        EndAfterStart(w[k]);
      }
    }
  }

  lemma {:induction false} EndAfterStart(r: Rec)
    ensures r.off < r.End()
  {
    SectionSize(r.block);
  }

  lemma {:induction false} OpenKeeps(h: Hist, e: Event)
    requires HistInv(h) && Enabled(h.log, e) && e.Open?
    ensures HistInv(Step(h, e))
  {
    hide Block.Section, Rec.End, Indexed, MakeOffsetLen, RecAt, ToTruncate;
    Survivors(h);
    var s := h.log;
    assert s.file + [] == s.file && s.file[..s.retiredAt] + [] == s.file[..s.retiredAt];
    if ToTruncate(s) == {} {
      assert s.db - ToTruncate(s) == s.db;
    }
  }

  lemma {:induction false} OpenInterruptedKeeps(h: Hist, e: Event)
    requires HistInv(h) && Enabled(h.log, e) && e.OpenInterrupted?
    ensures HistInv(Step(h, e))
  {
    hide Block.Section, Rec.End, Indexed, MakeOffsetLen, RecAt, ToTruncate;
    Survivors(h);
  }

  lemma {:induction false} StepKeeps(h: Hist, e: Event)
    requires HistInv(h) && Enabled(h.log, e)
    ensures HistInv(Step(h, e))
  {
    hide HistInv, Step, Enabled;
    match e
    case Put(_, _, _) => PutKeeps(h, e);
    case PutRejected(_, _, _) => PutRejectedKeeps(h, e);
    case FlushForRead => FlushKeeps(h, e);
    case Commit => CommitKeeps(h, e);
    case Crash(_) => CrashKeeps(h, e);
    case Open => OpenKeeps(h, e);
    case OpenInterrupted => OpenInterruptedKeeps(h, e);
  }

  // ---- runs ----------------------------------------------------------------------------------

  ghost predicate Runnable(h: Hist, es: seq<Event>)
    decreases |es|, 0
  {
    es == [] || (Runnable(h, es[..|es| - 1]) && Enabled(After(h, es[..|es| - 1]).log, es[|es| - 1]))
  }

  ghost function After(h: Hist, es: seq<Event>): Hist
    requires Runnable(h, es)
    decreases |es|, 1
  {
    if es == [] then h else Step(After(h, es[..|es| - 1]), es[|es| - 1])
  }

  lemma {:induction false} RunKeeps(h: Hist, es: seq<Event>)
    requires HistInv(h) && Runnable(h, es)
    ensures HistInv(After(h, es))
  {
    hide HistInv, Step, Enabled;
    if es != [] {
      RunKeeps(h, es[..|es| - 1]);
      StepKeeps(After(h, es[..|es| - 1]), es[|es| - 1]);
    }
  }

  /** What reads of a running log return, of what is committed or pending: the data, exactly where the
      location is cached or its length survives packing. */
  ghost predicate ReadsTwoLayers(h: Hist, lru: map<int, bytes>, k: Multihash) {
    var kept := h.committed + h.pending;
    && (k !in kept ==> View(h.log, lru, k) == NotFound)
    && (k in kept ==>
          && k in h.log.db
          && (View(h.log, lru, k) == Data(kept[k]) <==>
                h.log.db[k] in lru || RawBlock(k, kept[k]).EntryLen() < TWO_23))
  }

  /** Every run of a fresh log: a running log, with any cache of its own sections, answers each read
      from the two layers, the pending one on top, exactly for entries that are cached or whose length
      fits the packed location; a stopped log can always be opened, and what it then indexes is
      exactly the committed layer. */
  lemma {:induction false} RefinesTwoLayers(header: bytes, es: seq<Event>, lru: map<int, bytes>, k: Multihash)
    requires |header| <= TWO_40 && Runnable(Start(header), es)
    requires
      var h := After(Start(header), es);
      h.log.running ==> LruOk(h.log.Content(), lru)
    ensures
      var h := After(Start(header), es);
      && (h.log.running ==> ReadsTwoLayers(h, lru, k))
      && (!h.log.running ==> Enabled(h.log, Open) && Step(h, Open).log.db.Keys == h.committed.Keys)
  {
    StartInv(header);
    RunKeeps(Start(header), es);
    var h := After(Start(header), es);
    if h.log.running {
      ReadsLayer(h, lru, k);
    } else {
      OpenIndexesCommitted(h);
    }
  }

  lemma {:induction false} ReadsLayer(h: Hist, lru: map<int, bytes>, k: Multihash)
    requires HistInv(h) && h.log.running && LruOk(h.log.Content(), lru)
    ensures ReadsTwoLayers(h, lru, k)
  {
    hide ViewAt, MakeOffsetLen, Block.Section, Rec.End, Block.EntryLen, RecAt, LruOk;
    if k in h.where {
      var r := h.where[k];
      assert r.block == RawBlock(k, r.block.data) && r.block.cid.Ok();
      SectionInside(h.log.Content(), r);
      PackedIsNotSkip(r.off, r.block.EntryLen());
      if h.log.db[k] in lru {
        LruAgrees(h.log.Content(), lru, r);
      } else if r.block.EntryLen() < TWO_23 {
        ViewFindsRec(h.log.Content(), r);
      } else {
        ViewLosesLarge(h.log.Content(), r.off, r.block);
      }
    }
  }

  lemma {:induction false} SectionInside(content: bytes, r: Rec)
    requires RecAt(content, r)
    ensures r.off + 2 <= |content|
  {
    SectionSize(r.block);
  }

  /** A batched read refines the two layers, and it succeeds when every kept hash in it is cached or
      short enough. */
  ghost predicate BatchRefines(h: Hist, lru: map<int, bytes>, c: seq<Multihash>, r: Option<seq<ViewResult>>) {
    var kept := h.committed + h.pending;
    && (r.Some? ==>
          && |r.value| == |c|
          && forall i :: 0 <= i < |c| ==> r.value[i] == View(h.log, lru, c[i]) && ReadsTwoLayers(h, lru, c[i]))
    && ((forall i :: 0 <= i < |c| && c[i] in kept ==>
           c[i] in h.log.db && (h.log.db[c[i]] in lru || RawBlock(c[i], kept[c[i]]).EntryLen() < TWO_23)) ==> r.Some?)
  }

  lemma {:induction false} AnswersRefine(h: Hist, lru: map<int, bytes>, c: seq<Multihash>, r: Option<seq<ViewResult>>)
    requires HistInv(h) && h.log.running && LruOk(h.log.Content(), lru) && Answers(h.log, lru, c, r)
    ensures BatchRefines(h, lru, c, r)
  {
    hide View, HistInv, LruOk, Block.EntryLen;
    forall i | 0 <= i < |c|
      ensures ReadsTwoLayers(h, lru, c[i])
    {
      ReadsLayer(h, lru, c[i]);
    }
  }

  lemma {:induction false} OpenIndexesCommitted(h: Hist)
    requires HistInv(h) && !h.log.running
    ensures Enabled(h.log, Open) && Step(h, Open).log.db.Keys == h.committed.Keys
  {
    hide Block.Section, Rec.End, Indexed, MakeOffsetLen, RecAt, ToTruncate;
    Survivors(h);
    IndexedKeys(h.log.db - ToTruncate(h.log), h.where - ToTruncate(h.log));
    if ToTruncate(h.log) == {} {
      assert h.log.db - ToTruncate(h.log) == h.log.db;
    }
  }

  /** Nothing, crashes included, takes a committed block back. */
  lemma {:induction false} CommittedStays(h: Hist, e: Event, k: Multihash)
    requires HistInv(h) && Enabled(h.log, e) && k in h.committed
    ensures k in Step(h, e).committed && Step(h, e).committed[k] == h.committed[k]
  {
    hide Apply, ToTruncate, NewWhere, LogRuns.Stored, Block.Section, Rec.End, Inv, Enabled;
    if k in h.pending {
      assert h.where[k].block.data == h.committed[k] == h.pending[k];
    }
  }

  lemma {:induction false} CommittedForever(h: Hist, es: seq<Event>, k: Multihash)
    requires HistInv(h) && Runnable(h, es) && k in h.committed
    ensures k in After(h, es).committed && After(h, es).committed[k] == h.committed[k]
  {
    hide HistInv, Step, Enabled;
    if es != [] {
      CommittedForever(h, es[..|es| - 1], k);
      RunKeeps(h, es[..|es| - 1]);
      CommittedStays(After(h, es[..|es| - 1]), es[|es| - 1], k);
    }
  }

  lemma {:induction false} RunSplits(h: Hist, a: seq<Event>, b: seq<Event>)
    requires Runnable(h, a + b)
    ensures Runnable(h, a) && Runnable(After(h, a), b) && After(After(h, a), b) == After(h, a + b)
  {
    hide Step, Enabled;
    if b == [] {
      assert a + b == a;
    } else {
      var n := |b| - 1;
      assert (a + b)[..|a + b| - 1] == a + b[..n];
      RunSplits(h, a, b[..n]);
    }
  }

  /** Durability over whole runs: a block covered by a commit is read back, with the same bytes,
      whatever puts, commits, reads, crashes and reopenings follow, from the cache if it is there and
      otherwise if its length survives packing. */
  lemma {:induction false} Durable(header: bytes, before: seq<Event>, after: seq<Event>, lru: map<int, bytes>,
      k: Multihash)
    requires |header| <= TWO_40 && Runnable(Start(header), before + after)
    requires Runnable(Start(header), before) && k in After(Start(header), before).committed
    requires
      var log := After(Start(header), before + after).log;
      log.running && LruOk(log.Content(), lru)
    ensures
      var data, log := After(Start(header), before).committed[k], After(Start(header), before + after).log;
      && k in log.db
      && (log.db[k] in lru || RawBlock(k, data).EntryLen() < TWO_23 ==> View(log, lru, k) == Data(data))
  {
    hide HistInv, Step, Enabled, View, Block.EntryLen, LruOk;
    StartInv(header);
    RunSplits(Start(header), before, after);
    RunKeeps(Start(header), before);
    CommittedForever(After(Start(header), before), after, k);
    RunKeeps(Start(header), before + after);
    CommittedReads(After(Start(header), before + after), lru, k);
  }

  lemma {:induction false} CommittedReads(h: Hist, lru: map<int, bytes>, k: Multihash)
    requires HistInv(h) && h.log.running && k in h.committed && LruOk(h.log.Content(), lru)
    ensures k in h.log.db
    ensures h.log.db[k] in lru || RawBlock(k, h.committed[k]).EntryLen() < TWO_23 ==>
              View(h.log, lru, k) == Data(h.committed[k])
  {
    hide ViewAt, MakeOffsetLen, Block.Section, Rec.End, Block.EntryLen, RecAt, LruOk;
    ReadsLayer(h, lru, k);
  }
}
