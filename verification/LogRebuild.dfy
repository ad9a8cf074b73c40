/** Walking a log block by block, and rebuilding a lost index from it. */
module LogRebuild {
  import opened Bytes
  import opened Cars
  import opened LevelIndex
  import opened LogRuns
  import opened LogSafety

  predicate AllOk(bs: seq<Block>) { forall i :: 0 <= i < |bs| ==> bs[i].Ok() }

  /** The blocks of a stream of sections; None where a section is cut short or malformed. */
  function ParseAll(s: bytes): Option<seq<Block>>
    decreases |s|
  {
    if s == [] then Some([])
    else
      match ReadNode(s)
      case None => None
      case Some((b, n)) => Prepend([b], ParseAll(s[n..]))
  }

  function Prepend(done: seq<Block>, rest: Option<seq<Block>>): Option<seq<Block>> {
    if rest.None? then None else Some(done + rest.value)
  }

  lemma {:induction false} ParseOne(b: Block, rest: bytes)
    requires b.Ok()
    ensures ParseAll(b.Section() + rest) == Prepend([b], ParseAll(rest))
  {
    hide ReadNode, Block.Section, Block.Ok;
    SectionRoundTrip(b, rest);
    assert (b.Section() + rest)[|b.Section()|..] == rest;
  }

  /** Sections are parsed back into exactly the blocks they were written from. */
  lemma {:induction false} ParseSections(bs: seq<Block>)
    requires AllOk(bs)
    ensures ParseAll(Sections(bs)) == Some(bs)
  {
    hide ReadNode, Block.Section, Block.Ok, ParseAll, Sections;
    if bs == [] {
      SectionsNone();
      ParsedEnd();
    } else {
      SectionsConcat([bs[0]], bs[1..]);
      SectionsOne(bs[0]);
      assert [bs[0]] + bs[1..] == bs;
      ParseOne(bs[0], Sections(bs[1..]));
      ParseSections(bs[1..]);
    }
  }

  /** The index of a log whose blocks start at an offset: later blocks win. */
  function IndexOf(bs: seq<Block>, start: nat): Db {
    if bs == [] then map[]
    else
      var init, last := bs[..|bs| - 1], bs[|bs| - 1];
      var before := IndexOf(init, start);
      var loc := MakeOffsetLen(start + |Sections(init)|, last.EntryLen());
      if loc == -1 then before else before[last.cid.hash := loc]
  }

  lemma {:induction false} IndexOfSnoc(bs: seq<Block>, b: Block, start: nat)
    ensures
      var loc := MakeOffsetLen(start + |Sections(bs)|, b.EntryLen());
      IndexOf(bs + [b], start) == if loc == -1 then IndexOf(bs, start) else IndexOf(bs, start)[b.cid.hash := loc]
  {
    hide Sections, MakeOffsetLen, Block.EntryLen;
    assert (bs + [b])[..|bs|] == bs;
  }

  lemma {:induction false} PutAllSnoc(db: Db, c: seq<Multihash>, offs: seq<int>, h: Multihash, v: int)
    requires |c| == |offs|
    ensures PutAll(db, c + [h], offs + [v]) ==
              if v == -1 then PutAll(db, c, offs) else PutAll(db, c, offs)[h := v]
  {
    assert (c + [h])[..|c|] == c && (offs + [v])[..|offs|] == offs;
  }

  /** The stream is the sections of these blocks. */
  ghost predicate IsLog(s: bytes, bs: seq<Block>) { AllOk(bs) && s == Sections(bs) }

  lemma {:induction false} SameLog(s: bytes, a: seq<Block>, b: seq<Block>)
    requires IsLog(s, a) && IsLog(s, b)
    ensures a == b
  {
    ParseSections(a);
    ParseSections(b);
  }

  /** The walk after i blocks: the offset reached, what is left, and the index so far. */
  ghost predicate WalkedTo(bs: seq<Block>, i: nat, off: nat, rest: bytes, db: Db, start: nat) {
    && i <= |bs| && AllOk(bs)
    && off == start + |Sections(bs[..i])|
    && rest == Sections(bs[i..])
    && db == IndexOf(bs[..i], start)
  }

  lemma {:induction false} WalkStart(bs: seq<Block>, rest: bytes, start: nat)
    requires IsLog(rest, bs)
    ensures WalkedTo(bs, 0, start, rest, map[], start)
  {
    assert bs[..0] == [] && bs[0..] == bs;
  }

  lemma {:induction false} WalkStep(bs: seq<Block>, i: nat, off: nat, rest: bytes, db: Db, start: nat)
    requires WalkedTo(bs, i, off, rest, db, start) && rest != []
    ensures i < |bs|
    ensures
      var b := bs[i];
      && ReadNode(rest) == Some((b, |b.Section()|))
      && ReadUvarint(rest) == Some((b.EntryLen(), |Uvarint(b.EntryLen())|))
      && |b.Section()| == |Uvarint(b.EntryLen())| + b.EntryLen()
      && var loc := MakeOffsetLen(off, b.EntryLen());
         var db' := if loc == -1 then db else db[b.cid.hash := loc];
         WalkedTo(bs, i + 1, off + |b.Section()|, rest[|b.Section()|..], db', start)
  {
    hide ReadNode, ReadUvarint, Block.Section, Block.Ok, IndexOf, Sections, MakeOffsetLen, Block.EntryLen;
    if i == |bs| {
      assert bs[i..] == [];
      SectionsNone();
    } else {
      var b, tail := bs[i], Sections(bs[i + 1..]);
      assert b.Ok();
      assert bs[i..] == [b] + bs[i + 1..];
      SectionsConcat([b], bs[i + 1..]);
      SectionsOne(b);
      SectionRoundTrip(b, tail);
      SectionVarint(b, tail);
      assert rest[|b.Section()|..] == tail;
      assert bs[..i + 1] == bs[..i] + [b];
      SectionsSnoc(bs[..i], b);
      IndexOfSnoc(bs[..i], b, start);
    }
  }

  lemma {:induction false} SectionVarint(b: Block, tail: bytes)
    requires b.Ok()
    ensures ReadUvarint(b.Section() + tail) == Some((b.EntryLen(), |Uvarint(b.EntryLen())|))
    ensures |b.Section()| == |Uvarint(b.EntryLen())| + b.EntryLen()
  {
    hide ReadUvarint, Uvarint, Cid.Encode;
    var v, c := Uvarint(b.EntryLen()), b.cid.Encode();
    UvarintRoundTrip(b.EntryLen(), c + b.data + tail);
    assert v + c + b.data + tail == v + (c + b.data + tail);
  }

  /** fixLevelIndex: iterate up to dataEnd, filling the index in batches of 50000. A stream that
      does not parse to its end is an error. */
  method FixLevelIndex(file: bytes, dataStart: nat, dataEnd: nat) returns (r: Option<Db>)
    requires dataStart <= dataEnd <= |file|
    ensures forall bs :: IsLog(file[dataStart..dataEnd], bs) ==> r == Some(IndexOf(bs, dataStart))
    ensures r.None? <==> ParseAll(file[dataStart..dataEnd]).None?
  {
    var w := new LevelDBIndex();
    var rest := file[dataStart..dataEnd];
    ghost var known := exists bs :: IsLog(rest, bs);
    ghost var bs: seq<Block> := [];
    if known {
      bs :| IsLog(rest, bs);
      WalkStart(bs, rest, dataStart);
    }
    hide ReadNode, ReadUvarint, Sections, MakeOffsetLen, Block.EntryLen, Block.Section, PutAll, IndexOf, AllOk,
      ParseAll, WalkedTo, Uvarint;
    var mhsBuf: seq<Multihash>, offsBuf: seq<int> := [], [];
    NothingPut(w.db);
    var off, i := dataStart, 0;
    while rest != []
      invariant i >= 0 && off >= 0 && |mhsBuf| == |offsBuf|
      invariant ParseAll(file[dataStart..dataEnd]).None? <==> ParseAll(rest).None?
      invariant known ==> WalkedTo(bs, i, off, rest, PutAll(w.db, mhsBuf, offsBuf), dataStart)
      decreases |rest|
    {
      ParseStep(rest);
      if known {
        WalkStep(bs, i, off, rest, PutAll(w.db, mhsBuf, offsBuf), dataStart);
      }
      var node := ReadNode(rest);
      if node.None? {
        assert !known;
        return None;
      }
      var entLen := ReadUvarint(rest).value.0;
      var (b, n) := node.value;
      PutAllSnoc(w.db, mhsBuf, offsBuf, b.cid.hash, MakeOffsetLen(off, entLen));
      mhsBuf := mhsBuf + [b.cid.hash];
      offsBuf := offsBuf + [MakeOffsetLen(off, entLen)];
      if |mhsBuf| >= 50000 {
        w.Put(mhsBuf, offsBuf);
        mhsBuf, offsBuf := [], [];
        NothingPut(w.db);
      }
      off := off + |Uvarint(entLen)| + entLen;
      rest := rest[n..];
      i := i + 1;
    }
    if |mhsBuf| > 0 {
      w.Put(mhsBuf, offsBuf);
    } else {
      NothingPut(w.db);
    }
    ParsedEnd();
    if known {
      WalkEnd(bs, i, off, w.db, dataStart);
      forall bs' | IsLog(file[dataStart..dataEnd], bs')
        ensures bs' == bs
      {
        SameLog(file[dataStart..dataEnd], bs, bs');
      }
    }
    return Some(w.db);
  }

  lemma {:induction false} NothingPut(db: Db)
    ensures PutAll(db, [], []) == db
  {}

  lemma {:induction false} ParsedEnd()
    ensures ParseAll([]) == Some([])
  {}

  lemma {:induction false} ParseStep(s: bytes)
    requires s != []
    ensures ReadNode(s).None? ==> ParseAll(s).None?
    ensures ReadNode(s).Some? ==>
              ReadUvarint(s).Some? && (ParseAll(s).None? <==> ParseAll(s[ReadNode(s).value.1..]).None?)
  {}

  lemma {:induction false} WalkEnd(bs: seq<Block>, i: nat, off: nat, db: Db, start: nat)
    requires WalkedTo(bs, i, off, [], db, start)
    ensures db == IndexOf(bs, start)
  {
    hide IndexOf;
    SectionsLeft(bs, i);
    assert bs[..|bs|] == bs;
  }

  lemma {:induction false} SectionsLeft(bs: seq<Block>, i: nat)
    requires i <= |bs| && Sections(bs[i..]) == []
    ensures i == |bs|
  {}

  // ---- crash-free runs ---------------------------------------------------------------------

  /** Indexing a batch gives the index of the log it extends, duplicates and all. */
  lemma {:induction false} PutExtendsIndex(bs: seq<Block>, start: nat, c: seq<Multihash>, b: seq<bytes>)
    requires |c| == |b|
    ensures
      var db := IndexOf(bs, start);
      PutAll(db, c, Offsets(db, c, b, start + |Sections(bs)|)) == IndexOf(bs + Fresh(db, c, b), start)
  {
    hide Sections, MakeOffsetLen, Block.EntryLen, IndexOf, Fresh, Offsets, PutAll;
    var db, at := IndexOf(bs, start), start + |Sections(bs)|;
    if c == [] {
      BatchEmpty(db, at, bs);
    } else {
      var n := |c| - 1;
      PutExtendsIndex(bs, start, c[..n], b[..n]);
      var added, offs := Fresh(db, c[..n], b[..n]), Offsets(db, c[..n], b[..n], at);
      BatchLast(db, at, c, b);
      assert c == c[..n] + [c[n]];
      SectionsConcat(bs, added);
      if c[n] in db {
        PutAllSnoc(db, c[..n], offs, c[n], -1);
      } else {
        var blk := RawBlock(c[n], b[n]);
        var loc := MakeOffsetLen(at + |Sections(added)|, blk.EntryLen());
        PutAllSnoc(db, c[..n], offs, c[n], loc);
        IndexOfSnoc(bs + added, blk, start);
        ConcatAssoc(bs, added, [blk]);
      }
    }
  }

  lemma {:induction false} BatchEmpty(db: Db, at: nat, bs: seq<Block>)
    ensures Fresh(db, [], []) == [] && Offsets(db, [], [], at) == [] && PutAll(db, [], []) == db
    ensures bs + [] == bs
  {}

  lemma {:induction false} BatchLast(db: Db, at: nat, c: seq<Multihash>, b: seq<bytes>)
    requires |c| == |b| && c != []
    ensures
      var n := |c| - 1;
      var added, offs := Fresh(db, c[..n], b[..n]), Offsets(db, c[..n], b[..n], at);
      var blk := RawBlock(c[n], b[n]);
      if c[n] in db
      then Fresh(db, c, b) == added && Offsets(db, c, b, at) == offs + [-1]
      else Fresh(db, c, b) == added + [blk] &&
           Offsets(db, c, b, at) == offs + [MakeOffsetLen(at + |Sections(added)|, blk.EntryLen())]
  {
    hide Sections, MakeOffsetLen, Block.EntryLen;
  }

  /** Events of a run in which every batch succeeds and the process does not stop. */
  predicate CrashFree(es: seq<Event>) {
    forall i :: 0 <= i < |es| ==> es[i].Put? || es[i].FlushForRead? || es[i].Commit?
  }

  /** The blocks a run appends, in log order. */
  ghost function Appended(h: Hist, es: seq<Event>): seq<Block>
    requires Runnable(h, es) && CrashFree(es)
  {
    if es == [] then []
    else
      var init, last := es[..|es| - 1], es[|es| - 1];
      Appended(h, init) + (if last.Put? then Fresh(After(h, init).log.db, last.c, last.b) else [])
  }

  lemma {:induction false} FreshOk(db: Db, c: seq<Multihash>, b: seq<bytes>)
    requires Storable(c, b) && SmallEnough(db, c, b)
    ensures AllOk(Fresh(db, c, b))
  {
    hide Cid.Encode;
    if c != [] {
      var n := |c| - 1;
      FreshOk(db, c[..n], b[..n]);
      if c[n] !in db {
        var blk := RawBlock(c[n], b[n]);
        assert blk.cid.Ok();
        CidLength(blk.cid);
      }
    }
  }

  lemma {:induction false} AllOkConcat(a: seq<Block>, b: seq<Block>)
    requires AllOk(a) && AllOk(b)
    ensures AllOk(a + b)
  {
    hide Block.Ok;
  }

  /** In a crash-free run the content is the header and the appended sections, and the index is
      the one that walking those sections would give. */
  lemma {:induction false} RunBuildsLog(header: bytes, es: seq<Event>)
    requires Runnable(Start(header), es) && CrashFree(es)
    ensures
      var s, bs := After(Start(header), es).log, Appended(Start(header), es);
      && AllOk(bs)
      && s.dataStart == |header| && s.running
      && s.Content() == header + Sections(bs)
      && s.db == IndexOf(bs, |header|)
  {
    hide Sections, IndexOf, Fresh, Offsets, PutAll, AllOk, SmallEnough;
    if es == [] {
      LogEmpty(header);
    } else {
      var init, last := es[..|es| - 1], es[|es| - 1];
      RunBuildsLog(header, init);
      var s, bs := After(Start(header), init).log, Appended(Start(header), init);
      EventExtends(s, last, header, bs);
    }
  }

  lemma {:induction false} LogEmpty(header: bytes)
    ensures AllOk([]) && header + [] == header + Sections([]) && IndexOf([], |header|) == map[]
  {}

  lemma {:induction false} EventExtends(s: Log, e: Event, header: bytes, bs: seq<Block>)
    requires Enabled(s, e) && (e.Put? || e.FlushForRead? || e.Commit?)
    requires AllOk(bs) && s.Content() == header + Sections(bs) && s.db == IndexOf(bs, |header|)
    ensures
      var bs' := bs + (if e.Put? then Fresh(s.db, e.c, e.b) else []);
      && AllOk(bs')
      && Apply(s, e).Content() == header + Sections(bs')
      && Apply(s, e).db == IndexOf(bs', |header|)
  {
    hide Sections, IndexOf, Fresh, Offsets, PutAll, AllOk, SmallEnough;
    if e.Put? {
      var added := Fresh(s.db, e.c, e.b);
      FreshOk(s.db, e.c, e.b);
      AllOkConcat(bs, added);
      SectionsConcat(bs, added);
      ConcatAssoc(header, Sections(bs), Sections(added));
      PutExtendsIndex(bs, |header|, e.c, e.b);
      var content := s.Content() + Sections(added);
      assert content[..e.flushed] + content[e.flushed..] == content;
    } else {
      assert bs + [] == bs;
      assert s.Content() + [] == s.Content();
    }
  }

  /** Without crashes, a lost index can be rebuilt exactly: after a commit, the file up to the
      retired offset is a well-formed log, and the index that FixLevelIndex makes of it is the
      one the puts built, whatever their batches and duplicates were. */
  lemma {:induction false} LostIndexRebuilt(header: bytes, es: seq<Event>)
    requires Runnable(Start(header), es) && CrashFree(es) && es != [] && es[|es| - 1].Commit?
    ensures
      var s, bs := After(Start(header), es).log, Appended(Start(header), es);
      && s.retiredAt == |s.file| >= s.dataStart
      && IsLog(s.file[s.dataStart..s.retiredAt], bs)
      && s.db == IndexOf(bs, s.dataStart)
  {
    RunBuildsLog(header, es);
    hide Appended, Sections, IndexOf, Fresh, Offsets, PutAll;
    var s := After(Start(header), es).log;
    assert s.buf == [] && s.file + [] == s.file;
    assert s.file[s.dataStart..|s.file|] == Sections(Appended(Start(header), es));
  }
}
