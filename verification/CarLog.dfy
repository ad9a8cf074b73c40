/** The writable CarLog: Put, Commit, View and Open over a data file, a write buffer, an LRU of
    recent blocks and a LevelDB index. Each operation is one event of the LogRuns machine. */
module CarLogs {
  import opened Bytes
  import opened Cars
  import opened LevelIndex
  import opened LogRuns
  import opened LogSafety

  const BUF_SIZE: nat := 0x100_0000
  const LRU_ENTRIES: nat := 128

  datatype OpenResult = Opened(log: CarLog, removed: seq<Multihash>) | DataTooShort | ReadOnlyAhead

  datatype PutResult = PutOk | ReadOnly | LengthMismatch | TooLarge(at: nat)

  lemma {:induction false} LruExtended(content: bytes, more: bytes, lru: map<int, bytes>)
    requires LruOk(content, lru)
    ensures LruOk(content + more, lru)
  {
    hide RecAt, MakeOffsetLen, Block.EntryLen;
    forall loc | loc in lru
      ensures exists r: Rec :: Caches(content + more, loc, lru[loc], r)
    {
      var r: Rec :| Caches(content, loc, lru[loc], r);
      RecAtExtended(content, more, r);
      assert Caches(content + more, loc, lru[loc], r);
    }
  }

  // ---- one batch, block by block ------------------------------------------------------

  lemma {:induction false} BatchStart(content: bytes, db: Db, c: seq<Multihash>, b: seq<bytes>)
    requires |c| == |b|
    ensures content == content + Sections(Fresh(db, c[..0], b[..0]))
    ensures Offsets(db, c[..0], b[..0], |content|) == []
  {}

  lemma {:induction false} FreshGrows(db: Db, c: seq<Multihash>, b: seq<bytes>, i: nat)
    requires |c| == |b| && i < |c|
    ensures Fresh(db, c[..i + 1], b[..i + 1]) ==
              if c[i] in db then Fresh(db, c[..i], b[..i]) else Fresh(db, c[..i], b[..i]) + [RawBlock(c[i], b[i])]
  {
    assert c[..i + 1][..i] == c[..i] && b[..i + 1][..i] == b[..i];
  }

  lemma {:induction false} OffsetsGrow(at: nat, db: Db, c: seq<Multihash>, b: seq<bytes>, i: nat)
    requires |c| == |b| && i < |c|
    ensures Offsets(db, c[..i + 1], b[..i + 1], at) == Offsets(db, c[..i], b[..i], at) +
              [if c[i] in db then -1
               else MakeOffsetLen(at + |Sections(Fresh(db, c[..i], b[..i]))|, RawBlock(c[i], b[i]).EntryLen())]
  {
    hide Sections, Fresh, MakeOffsetLen, Block.EntryLen;
    assert c[..i + 1][..i] == c[..i] && b[..i + 1][..i] == b[..i];
  }

  lemma {:induction false} BatchGrows(content: bytes, db: Db, c: seq<Multihash>, b: seq<bytes>, i: nat)
    requires |c| == |b| && i < |c|
    ensures c[i] in db ==>
              && Fresh(db, c[..i + 1], b[..i + 1]) == Fresh(db, c[..i], b[..i])
              && Offsets(db, c[..i + 1], b[..i + 1], |content|) == Offsets(db, c[..i], b[..i], |content|) + [-1]
    ensures c[i] !in db ==>
              var before := content + Sections(Fresh(db, c[..i], b[..i]));
              var blk := RawBlock(c[i], b[i]);
              && content + Sections(Fresh(db, c[..i + 1], b[..i + 1])) == before + blk.Section()
              && Offsets(db, c[..i + 1], b[..i + 1], |content|) ==
                 Offsets(db, c[..i], b[..i], |content|) + [MakeOffsetLen(|before|, blk.EntryLen())]
  {
    hide Sections, Fresh, Offsets, MakeOffsetLen, Block.Section, Block.EntryLen;
    FreshGrows(db, c, b, i);
    OffsetsGrow(|content|, db, c, b, i);
    var init, blk := Fresh(db, c[..i], b[..i]), RawBlock(c[i], b[i]);
    SectionsSnoc(init, blk);
    ConcatAssoc(content, Sections(init), blk.Section());
  }

  /** A prefix of the batch appends no more than the whole batch. */
  lemma {:induction false} BatchBound(content: bytes, db: Db, c: seq<Multihash>, b: seq<bytes>, i: nat)
    requires |c| == |b| && i <= |c|
    ensures |Sections(Fresh(db, c[..i], b[..i]))| <= |Sections(Fresh(db, c, b))|
    decreases |c| - i
  {
    hide Sections, Fresh, Offsets, Block.Section;
    if i < |c| {
      BatchGrows(content, db, c, b, i);
      BatchBound(content, db, c, b, i + 1);
    } else {
      assert c[..i] == c && b[..i] == b;
    }
  }

  lemma {:induction false} Resplit(file: bytes, buf: bytes)
    ensures (file + buf)[..|file|] == file && (file + buf)[|file|..] == buf
  {}

  lemma {:induction false} Cached(before: bytes, blk: Block, lru: map<int, bytes>, lru': map<int, bytes>)
    requires LruOk(before, lru) && |before| + |blk.Section()| <= TWO_40
    requires blk.cid.Ok() && |blk.data| <= MAX_ENTRY_LEN
    requires
      var loc := MakeOffsetLen(|before|, blk.EntryLen());
      forall l :: l in lru' ==> l in lru[loc := blk.data] && lru'[l] == lru[loc := blk.data][l]
    ensures LruOk(before + blk.Section(), lru')
  {
    CidLength(blk.cid);
    SectionBytes(blk);
    hide RecAt, MakeOffsetLen, Block.Section, Rec.End;
    LruExtended(before, blk.Section(), lru);
    var r := Rec(|before|, blk);
    AppendedRec(before, r);
    forall l | l in lru'
      ensures exists q: Rec :: Caches(before + blk.Section(), l, lru'[l], q)
    {
      if l == MakeOffsetLen(|before|, blk.EntryLen()) {
        assert Caches(before + blk.Section(), l, lru'[l], r);
      }
    }
  }

  lemma {:induction false} SectionBytes(blk: Block)
    ensures |blk.Section()| > 0
  {}

  class CarLog {
    var file: bytes         // what the operating system has of the data file
    var buf: bytes          // dataBuffered
    var dataPos: nat        // appendCounter position
    var dataLen: nat
    const dataStart: nat
    var retiredAt: nat      // Head.RetiredAt
    var writable: bool      // wIdx != nil
    const rIdx: LevelDBIndex
    var writeLru: map<int, bytes>

    constructor (header: bytes)
      ensures Valid() && writable && fresh(rIdx)
      ensures State() == Log(header, [], map[], |header|, |header|, true)
    {
      file, buf, dataPos, dataLen, dataStart, retiredAt := header, [], |header|, |header|, |header|, |header|;
      writable := true;
      rIdx := new LevelDBIndex();
      writeLru := map[];
    }

    constructor Attach(dataFile: bytes, idx: LevelDBIndex, start: nat, retired: nat, readOnly: bool)
      ensures Valid() && rIdx == idx && writable == !readOnly && writeLru == map[]
      ensures State() == Log(dataFile, [], idx.db, start, retired, true)
    {
      file, buf, dataPos, dataLen, dataStart, retiredAt := dataFile, [], |dataFile|, |dataFile|, start, retired;
      writable := !readOnly;
      rIdx := idx;
      writeLru := map[];
    }

    /** Open: bring index and data file back to the retired offset. The hashes removed from the
        index are the ones passed to the caller's cleanup callback. */
    static method Open(dataFile: bytes, idx: LevelDBIndex, start: nat, retired: nat, readOnly: bool)
      returns (r: OpenResult)
      modifies idx
      ensures r == DataTooShort <==> |dataFile| < retired
      ensures r == ReadOnlyAhead <==> readOnly && |dataFile| > retired
      ensures !r.Opened? ==> idx.db == old(idx.db)
      ensures r.Opened? ==> fresh(r.log) && r.log.Valid() && r.log.rIdx == idx && r.log.writable == !readOnly
      ensures r.Opened? && readOnly ==>
                r.removed == [] && r.log.State() == Log(dataFile, [], old(idx.db), start, retired, true)
      ensures r.Opened? && !readOnly ==>
                var stopped := Log(dataFile, [], old(idx.db), start, retired, false);
                && Enabled(stopped, Event.Open)
                && r.log.State() == Apply(stopped, Event.Open)
                && forall h :: h in r.removed <==> h in ToTruncate(stopped)
    {
      if |dataFile| < retired {
        return DataTooShort;
      }
      var log := new CarLog.Attach(dataFile, idx, start, retired, readOnly);
      var removed: seq<Multihash> := [];
      if |dataFile| > retired || log.writable {
        if readOnly {
          return ReadOnlyAhead;
        }
        removed := log.Truncate(retired);
      }
      return Opened(log, removed);
    }

    method Truncate(offset: nat) returns (removed: seq<Multihash>)
      requires Valid() && buf == [] && writeLru == map[] && offset == retiredAt <= |file|
      modifies this, rIdx
      ensures Valid() && writable == old(writable)
      ensures
        var stopped := old(State()).(running := false);
        && State() == Apply(stopped, Event.Open)
        && forall h :: h in removed <==> h in ToTruncate(stopped)
    {
      hide LruFits, Valid;
      removed := rIdx.ToTruncate(offset);
      ghost var gone := AtOrAbove(rIdx.db, offset);
      if |removed| > 0 {
        assert removed[0] in gone;
        rIdx.Del(removed);
        assert (set h | h in removed) == gone;
        file := file[..offset];
        dataPos, dataLen, retiredAt := offset, offset, offset;
        CutValid();
      } else {
        assert gone == {} by {
          assert forall h :: h in gone ==> h in removed;
        }
      }
    }

    lemma {:induction false} CutValid()
      requires buf == [] && dataPos == dataLen == |file| && writeLru == map[]
      ensures Valid()
    {}

    static ghost predicate LruFits(lru: map<int, bytes>) { |lru| <= LRU_ENTRIES }

    /** Flushed position plus buffered bytes is the length of the log. */
    ghost predicate Valid()
      reads this
    {
      && dataPos == |file| && dataPos + |buf| == dataLen && |buf| <= BUF_SIZE
      && LruOk(file + buf, writeLru) && LruFits(writeLru)
    }

    ghost function State(): Log
      reads this, rIdx
    {
      Log(file, buf, rIdx.db, dataStart, retiredAt, true)
    }

    // ---- the write buffer ----------------------------------------------------------

    method FlushBuffered()
      requires Valid()
      modifies this`file, this`buf, this`dataPos
      ensures Valid() && buf == [] && file == old(file + buf)
    {
      assert file + buf + [] == file + buf;
      file := file + buf;
      dataPos := dataPos + |buf|;
      buf := [];
    }

    /** bufio.Writer.Write: full buffers go to the file. */
    method BufferedWrite(p: bytes)
      requires dataPos == |file| && |buf| <= BUF_SIZE
      modifies this`file, this`buf, this`dataPos
      ensures dataPos == |file| && |buf| <= BUF_SIZE
      ensures file + buf == old(file + buf) + p
      ensures |file| >= |old(file)| && (|old(buf)| + |p| <= BUF_SIZE ==> file == old(file))
    {
      ghost var room := |buf| + |p| <= BUF_SIZE;
      var rest := p;
      while |rest| > BUF_SIZE - |buf|
        invariant dataPos == |file| && |buf| <= BUF_SIZE && |file| >= |old(file)|
        invariant file + buf + rest == old(file + buf) + p
        invariant room ==> |rest| + |buf| <= BUF_SIZE && file == old(file)
        decreases |rest|, |buf|
      {
        if buf == [] {
          file := file + rest;
          dataPos := dataPos + |rest|;
          rest := [];
        } else {
          var n := BUF_SIZE - |buf|;
          assert file + buf + rest == file + (buf + rest[..n]) + rest[n..];
          file := file + (buf + rest[..n]);
          dataPos := dataPos + BUF_SIZE;
          buf := [];
          rest := rest[n..];
        }
      }
      assert file + buf + rest == file + (buf + rest);
      buf := buf + rest;
    }

    /** Varint, CID and data of one block, through the write buffer. */
    method LdWrite(b: Block) returns (n: nat)
      requires dataPos == |file| && |buf| <= BUF_SIZE
      modifies this`file, this`buf, this`dataPos
      ensures dataPos == |file| && |buf| <= BUF_SIZE && |file| >= |old(file)|
      ensures file + buf == old(file + buf) + b.Section()
      ensures n == |b.Section()|
    {
      var v, c := Uvarint(b.EntryLen()), b.cid.Encode();
      hide Uvarint, Cid.Encode;
      BufferedWrite(v);
      BufferedWrite(c);
      BufferedWrite(b.data);
      var before := old(file + buf);
      assert before + v + c + b.data == before + (v + c + b.data);
      n := |v| + b.EntryLen();
    }

    /** writeLru.Add: an older entry is evicted if there are too many. */
    method LruAdd(loc: int, data: bytes)
      requires |writeLru| <= LRU_ENTRIES
      modifies this`writeLru
      ensures
        var added := old(writeLru)[loc := data];
        && loc in writeLru && (forall l :: l in writeLru ==> l in added && writeLru[l] == added[l])
        && |writeLru| <= LRU_ENTRIES && |writeLru| <= |old(writeLru)| + 1
        && (|old(writeLru)| < LRU_ENTRIES ==> writeLru == added)
    {
      if |writeLru| >= LRU_ENTRIES && loc !in writeLru {
        SomeKey(writeLru);
        var victim :| victim in writeLru;
        Evicted(writeLru, victim);
        writeLru := writeLru - {victim};
      }
      Added(writeLru, loc, data);
      writeLru := writeLru[loc := data];
    }

    static lemma {:induction false} SomeKey(m: map<int, bytes>)
      ensures |m| > 0 ==> exists l :: l in m
    {
      if forall l :: l !in m {
        assert m.Keys == {};
      }
    }

    static lemma {:induction false} Evicted(m: map<int, bytes>, l: int)
      requires l in m
      ensures |m - {l}| == |m| - 1
    {
      assert (m - {l}).Keys == m.Keys - {l};
    }

    static lemma {:induction false} Added(m: map<int, bytes>, l: int, data: bytes)
      ensures |m[l := data]| == if l in m then |m| else |m| + 1
    {
      assert m[l := data].Keys == m.Keys + {l};
    }

    /** One block of a batch: to the log, and to the cache under its packed location. */
    method Append(blk: Block) returns (loc: int)
      requires Valid() && blk.cid.Ok() && |blk.data| <= MAX_ENTRY_LEN
      requires |file + buf| + |blk.Section()| <= TWO_40
      modifies this`file, this`buf, this`dataPos, this`dataLen, this`writeLru
      ensures Valid() && loc == MakeOffsetLen(|old(file + buf)|, blk.EntryLen())
      ensures file + buf == old(file + buf) + blk.Section() && |file| >= |old(file)|
      ensures loc in writeLru && |writeLru| <= |old(writeLru)| + 1
      ensures |old(writeLru)| < LRU_ENTRIES ==> writeLru == old(writeLru)[loc := blk.data]
    {
      hide Block.Section, Block.EntryLen, MakeOffsetLen, RecAt, LruOk;
      loc := MakeOffsetLen(dataLen, blk.EntryLen());
      ghost var before, lru := file + buf, writeLru;
      var n := LdWrite(blk);
      LruAdd(loc, blk.data);
      Cached(before, blk, lru, writeLru);
      dataLen := dataLen + n;
    }

    /** The cache after blocks with these offsets were added: the last of them is there, and as long as there
        is room for all, all are, with what was there before. */
    static ghost predicate Recent(was: map<int, bytes>, lru: map<int, bytes>, offs: seq<int>) {
      && |lru| <= |was| + |offs|
      && (offs != [] && offs[|offs| - 1] != -1 ==> offs[|offs| - 1] in lru)
      && (|was| + |offs| <= LRU_ENTRIES ==>
            was.Keys <= lru.Keys && forall j :: 0 <= j < |offs| && offs[j] != -1 ==> offs[j] in lru)
    }

    static lemma {:induction false} RecentNone(lru: map<int, bytes>)
      ensures Recent(lru, lru, [])
    {}

    static lemma {:induction false} RecentSkips(was: map<int, bytes>, lru: map<int, bytes>, offs: seq<int>)
      requires Recent(was, lru, offs)
      ensures Recent(was, lru, offs + [-1])
    {}

    static lemma {:induction false} RecentAdds(was: map<int, bytes>, lru: map<int, bytes>, lru': map<int, bytes>,
        offs: seq<int>, loc: int, data: bytes)
      requires Recent(was, lru, offs) && loc in lru' && |lru'| <= |lru| + 1
      requires |lru| < LRU_ENTRIES ==> lru' == lru[loc := data]
      ensures Recent(was, lru', offs + [loc])
    {}

    /** A batch of blocks is appended and then indexed in one step. A block over the size limit
        aborts the batch after the earlier blocks were appended, with nothing indexed. */
    method Put(c: seq<Multihash>, b: seq<bytes>) returns (r: PutResult)
      requires Valid() && forall i :: 0 <= i < |c| ==> c[i].Ok()
      requires |c| == |b| ==> |State().Content()| + |Sections(Fresh(rIdx.db, c, b))| <= TWO_40
      modifies this`file, this`buf, this`dataPos, this`dataLen, this`writeLru, rIdx
      ensures Valid()
      ensures r == ReadOnly <==> !old(writable)
      ensures r == LengthMismatch <==> old(writable) && |c| != |b|
      ensures r.ReadOnly? || r.LengthMismatch? ==> State() == old(State())
      ensures r == PutOk ==>
                && Enabled(old(State()), Event.Put(c, b, |file|))
                && State() == Apply(old(State()), Event.Put(c, b, |file|))
                && Recent(old(writeLru), writeLru, Offsets(old(rIdx.db), c, b, |old(file + buf)|))
      ensures r.TooLarge? ==>
                && r.at < |c| == |b| && c[r.at] !in old(rIdx.db) && |b[r.at]| > MAX_ENTRY_LEN
                && Enabled(old(State()), PutRejected(c[..r.at], b[..r.at], |file|))
                && State() == Apply(old(State()), PutRejected(c[..r.at], b[..r.at], |file|))
    {
      hide Sections, Fresh, Offsets, Block.Section, Block.EntryLen, MakeOffsetLen, RecAt, LruOk, Recent;
      if !writable {
        return ReadOnly;
      }
      if |c| != |b| {
        return LengthMismatch;
      }
      ghost var content, db := file + buf, rIdx.db;
      var hasList := rIdx.Has(c);
      var offsets: seq<int> := [];
      BatchStart(content, db, c, b);
      ghost var lru0 := writeLru;
      assert Recent(lru0, lru0, []) by { RecentNone(lru0); }
      var i := 0;
      while i < |c|
        invariant 0 <= i <= |c| && rIdx.db == db && |file| >= |old(file)|
        invariant Valid() && Recent(lru0, writeLru, offsets)
        invariant file + buf == content + Sections(Fresh(db, c[..i], b[..i]))
        invariant offsets == Offsets(db, c[..i], b[..i], |content|)
        invariant forall j :: 0 <= j < i ==> c[j] in db || |b[j]| <= MAX_ENTRY_LEN
      {
        BatchGrows(content, db, c, b, i);
        if hasList[i] {
          RecentSkips(lru0, writeLru, offsets);
          offsets := offsets + [-1];
        } else {
          if MAX_ENTRY_LEN < |b[i]| {
            BatchBound(content, db, c, b, i);
            Resplit(file, buf);
            return TooLarge(i);
          }
          ghost var lru := writeLru;
          BatchBound(content, db, c, b, i + 1);
          var loc := Append(RawBlock(c[i], b[i]));
          RecentAdds(lru0, lru, writeLru, offsets, loc, b[i]);
          offsets := offsets + [loc];
        }
        i := i + 1;
      }
      assert c[..i] == c && b[..i] == b;
      rIdx.Put(c, offsets);
      Resplit(file, buf);
      return PutOk;
    }

    /** The new end of the log is recorded once everything before it is in the file. */
    method Commit() returns (at: nat)
      requires Valid()
      modifies this`file, this`buf, this`dataPos, this`retiredAt
      ensures Valid()
      ensures !old(writable) ==> at == 0 && State() == old(State())
      ensures old(writable) ==> at == dataLen && State() == Apply(old(State()), Event.Commit)
    {
      if !writable {
        return 0;
      }
      FlushBuffered();
      if retiredAt != dataLen {
        retiredAt := dataLen;
      }
      at := dataLen;
    }

    // ---- reading ---------------------------------------------------------------------

    /** One location that the LRU does not have: flush only where the entry is not in the file. */
    method ReadEntry(loc: int) returns (v: ViewResult)
      requires Valid()
      modifies this`file, this`buf, this`dataPos
      ensures Valid() && file + buf == old(file + buf)
      ensures |file| == |old(file)| || buf == []
      ensures v == ViewAt(file + buf, loc)
    {
      hide ParseCid, LruOk, FromOffsetLen;
      var (off, entLen) := FromOffsetLen(loc);
      if entLen < 0 {
        return Failed;  // slicing with a negative length
      }
      var lenlen := |Uvarint(entLen)|;
      if dataPos < off + lenlen + entLen {
        FlushBuffered();
        if dataPos < off + lenlen + entLen {
          assert file + buf == file;
          return Failed;  // "entry beyond range after flush"
        }
      }
      SliceOfConcat(file, buf, off + lenlen, off + lenlen + entLen);
      var ent := file[off + lenlen..off + lenlen + entLen];
      match ParseCid(ent) {
        case None => return Failed;
        case Some((_, n)) => return Data(ent[n..]);
      }
    }

    /** The batched read computes one query after another, from cache, buffer or file, and so refines
        the two layers of any run that has led to this log. */
    method View(c: seq<Multihash>) returns (r: Option<seq<ViewResult>>)
      requires Valid()
      modifies this`file, this`buf, this`dataPos
      ensures Valid()
      ensures State() == old(State()) || State() == Apply(old(State()), FlushForRead)
      ensures Answers(old(State()), writeLru, c, r)
      ensures forall h: Hist :: HistInv(h) && h.log == old(State()) ==> BatchRefines(h, writeLru, c, r)
    {
      hide ViewAt, LruOk, HistInv, BatchRefines;
      var locs := rIdx.Get(c);
      var out: seq<ViewResult> := [];
      ghost var s := State();
      var i := 0;
      while i < |c|
        invariant 0 <= i <= |c| == |locs| && |out| == i && Valid() && s.db == rIdx.db
        invariant file + buf == s.Content() && (|file| == |s.file| || buf == [])
        invariant forall j :: 0 <= j < i ==> out[j] == LogRuns.View(s, writeLru, c[j]) && out[j] != Failed
      {
        var v: ViewResult;
        if locs[i] == -1 {
          v := NotFound;
        } else if locs[i] in writeLru {
          v := Data(writeLru[locs[i]]);
        } else {
          v := ReadEntry(locs[i]);
          if v == Failed {
            SameSplit(s.file, s.buf, file, buf);
            r := None;
            assert LogRuns.View(s, writeLru, c[i]) == Failed;
            RefinesRuns(s, writeLru, c, r);
            return;
          }
        }
        out := out + [v];
        i := i + 1;
      }
      SameSplit(s.file, s.buf, file, buf);
      r := Some(out);
      RefinesRuns(s, writeLru, c, r);
    }
  }

  lemma {:induction false} RefinesRuns(s: Log, lru: map<int, bytes>, c: seq<Multihash>, r: Option<seq<ViewResult>>)
    requires s.running && LruOk(s.Content(), lru) && Answers(s, lru, c, r)
    ensures forall h: Hist :: HistInv(h) && h.log == s ==> BatchRefines(h, lru, c, r)
  {
    hide HistInv, BatchRefines, LruOk, Answers;
    forall h: Hist | HistInv(h) && h.log == s
      ensures BatchRefines(h, lru, c, r)
    {
      AnswersRefine(h, lru, c, r);
    }
  }

  lemma {:induction false} SameSplit(file: bytes, buf: bytes, file': bytes, buf': bytes)
    requires file + buf == file' + buf' && (|file| == |file'| || buf' == [])
    ensures (file == file' && buf == buf') || (file' == file + buf && buf' == [])
  {
    Resplit(file, buf);
    Resplit(file', buf');
  }
}
