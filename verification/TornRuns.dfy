/** Runs in which a crash leaves a torn tail that Open does not cut: what becomes of the log. */
module TornRuns {
  import opened Bytes
  import opened Cars
  import opened LevelIndex
  import opened LogRuns
  import opened LogSafety
  import opened LogRebuild
  import opened Finalize
  import opened FinalRuns

  lemma {:induction false} RunSnoc(h: Hist, es: seq<Event>, e: Event)
    requires Runnable(h, es) && Enabled(After(h, es).log, e)
    ensures Runnable(h, es + [e]) && After(h, es + [e]) == Step(After(h, es), e)
  {
    hide Step, Enabled;
    assert (es + [e])[..|es|] == es;
  }

  /** An empty log after a crash that wrote some bytes, reopened: nothing is to be truncated, and the
      bytes stay. */
  function Reopened(header: bytes, torn: bytes): Hist {
    Hist(Log(header + torn, [], map[], |header|, |header|, true), map[], map[], map[])
  }

  lemma {:induction false} CrashAndOpen(header: bytes, torn: bytes)
    requires |header| + |torn| <= TWO_40
    ensures Runnable(Start(header), [Crash(torn), Open])
    ensures After(Start(header), [Crash(torn), Open]) == Reopened(header, torn)
    ensures ToTruncate(After(Start(header), [Crash(torn)]).log) == {}
  {
    var h := Start(header);
    RunSnoc(h, [], Crash(torn));
    assert [] + [Crash(torn)] == [Crash(torn)];
    RunSnoc(h, [Crash(torn)], Open);
    assert [Crash(torn)] + [Open] == [Crash(torn), Open];
  }

  /** A log that does not parse to its end is reachable: the first byte of a two-byte length is enough. */
  lemma {:induction false} TornIsReachable(header: bytes)
    requires |header| < TWO_40
    ensures Runnable(Start(header), [Crash([0x80]), Open])
    ensures
      var s := After(Start(header), [Crash([0x80]), Open]).log;
      s.running && |header| <= |s.file| && ParseAll(s.file[|header|..]).None?
  {
    CrashAndOpen(header, [0x80]);
    assert (header + [0x80])[|header|..] == [0x80];
    LoneByte();
  }

  lemma {:induction false} LoneByte()
    ensures ParseAll([0x80]).None?
  {
    assert [0x80][1..] == [];
  }

  /** The head of a section whose data is to be the given bytes: its length and CID. */
  function CutSection(h: Multihash, data: bytes): bytes {
    Uvarint(RawBlock(h, data).EntryLen()) + Cid(RAW, h).Encode()
  }

  /** The batch of a single new block. */
  lemma {:induction false} SinglePut(h: Hist, k: Multihash, data: bytes, flushed: nat)
    requires HistInv(h) && h.log.db == map[] && h.log.running && k.Ok() && |data| <= MAX_ENTRY_LEN
    requires |h.log.file| <= flushed <= h.log.DataLen() + |RawBlock(k, data).Section()| <= TWO_40
    ensures
      var e := Put([k], [data], flushed);
      && Enabled(h.log, e)
      && Step(h, e).log.Content() == h.log.Content() + RawBlock(k, data).Section()
      && Step(h, e).log.db.Keys == {k} && Step(h, e).log.running
      && Step(h, e).pending == h.pending + map[k := data] && Step(h, e).committed == h.committed
      && Step(h, e).log.dataStart == h.log.dataStart
  {
    hide Block.Section, Block.EntryLen, MakeOffsetLen, RecAt, Inv;
    var b := RawBlock(k, data);
    OneFresh(h.log.db, k, data, h.log.DataLen());
    SectionsOne(b);
    var e := Put([k], [data], flushed);
    SectionSize(b);
    PackedIsNotSkip(h.log.DataLen(), b.EntryLen());
    OnePutAll(h.log.db, k, MakeOffsetLen(h.log.DataLen(), b.EntryLen()));
    var content := h.log.Content() + b.Section();
    assert content[..flushed] + content[flushed..] == content;
  }

  lemma {:induction false} OneFresh(db: Db, k: Multihash, data: bytes, at: nat)
    requires k !in db
    ensures Fresh(db, [k], [data]) == [RawBlock(k, data)]
    ensures Offsets(db, [k], [data], at) == [MakeOffsetLen(at, RawBlock(k, data).EntryLen())]
    ensures LogRuns.Stored(db, [k], [data]) == map[k := data]
  {
    hide MakeOffsetLen, Block.EntryLen;
    assert [k][..0] == [] && [data][..0] == [];
    SectionsNone();
  }

  lemma {:induction false} OnePutAll(db: Db, k: Multihash, loc: int)
    requires loc != -1
    ensures PutAll(db, [k], [loc]) == db[k := loc]
  {
    assert [k][..0] == [] && [loc][..0] == [];
  }

  /** A torn tail can swallow later blocks: if the next section fills the one that was cut, the log parses,
      and a committed hash has no block in it, although the level index still reads it. */
  lemma {:induction false} TornTailSwallows(header: bytes, gone: Multihash, k: Multihash, data: bytes)
    returns (es: seq<Event>, leaf: Block)
    requires gone.Ok() && k.Ok() && gone != k && |data| <= MAX_ENTRY_LEN
    requires |header| + |RawBlock(gone, RawBlock(k, data).Section()).Section()| <= TWO_40
    ensures Runnable(Start(header), es)
    ensures
      var h := After(Start(header), es);
      && Closable(h.log) && h.log.dataStart == |header| && h.committed == map[k := data]
      && h.log.file == header + Sections([leaf]) && RawBlocks([leaf])
      && k in h.log.db && !PointsAt(h.log.db[k], k, [leaf], |header|)
  {
    hide Block.Section, Block.EntryLen, MakeOffsetLen, RecAt, Step, Enabled, Sections, HistInv;
    var b := RawBlock(k, data);
    leaf := RawBlock(gone, b.Section());
    var torn := CutSection(gone, b.Section());
    FillsCut(gone, b.Section());
    CrashAndOpen(header, torn);
    var h, two := Reopened(header, torn), [Crash(torn), Open];
    StartInv(header);
    RunKeeps(Start(header), two);
    var put := Put([k], [data], |header + torn|);
    SinglePut(h, k, data, |header + torn|);
    RunSnoc(Start(header), two, put);
    var h3 := Step(h, put);
    StepKeeps(h, put);
    CommitAll(h3);
    RunSnoc(Start(header), two + [put], Commit);
    es := two + [put] + [Commit];
    ConcatAssoc(header, torn, b.Section());
    SectionsOne(leaf);
    LeafOk(k, gone, data);
  }

  lemma {:induction false} FillsCut(h: Multihash, data: bytes)
    ensures CutSection(h, data) + data == RawBlock(h, data).Section()
    ensures |CutSection(h, data)| <= |RawBlock(h, data).Section()|
  {
    hide Uvarint, Cid.Encode;
  }

  lemma {:induction false} CommitAll(h: Hist)
    requires h.log.running
    ensures Enabled(h.log, Commit)
    ensures
      var t := Step(h, Commit);
      && t.log == h.log.(file := h.log.Content(), buf := [], retiredAt := h.log.DataLen())
      && t.committed == h.committed + h.pending
  {}

  lemma {:induction false} LeafOk(k: Multihash, gone: Multihash, data: bytes)
    requires gone.Ok() && k.Ok() && |data| <= MAX_ENTRY_LEN
    ensures RawBlock(gone, RawBlock(k, data).Section()).Ok()
  {
    hide Cid.Encode, Uvarint;
    var b := RawBlock(k, data);
    CidLength(b.cid);
    CidLength(Cid(RAW, gone));
    UvarintLength(b.EntryLen(), 10);
  }
}
