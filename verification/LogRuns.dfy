/** A block log as a state machine: what Put, Commit, reads, a process crash and Open do to the
    data file, the write buffer, the index and the retired offset in the head. */
module LogRuns {
  import opened Bytes
  import opened Cars
  import opened LevelIndex

  const MAX_ENTRY_LEN: nat := 0x100_0000

  /** file is what the operating system has, buf what the process still buffers. */
  datatype Log = Log(file: bytes, buf: bytes, db: Db, dataStart: nat, retiredAt: nat, running: bool) {
    function Content(): bytes { file + buf }

    function DataLen(): nat { |file| + |buf| }
  }

  function RawBlock(h: Multihash, data: bytes): Block { Block(Cid(RAW, h), data) }

  /** A block together with the offset of its section. */
  datatype Rec = Rec(off: nat, block: Block) {
    function End(): nat { off + |block.Section()| }
  }

  ghost predicate RecAt(content: bytes, r: Rec) {
    r.End() <= |content| && content[r.off..r.End()] == r.block.Section()
  }

  lemma {:induction false} RecAtExtended(content: bytes, more: bytes, r: Rec)
    requires RecAt(content, r)
    ensures RecAt(content + more, r)
  {
    SliceOfConcat(content, more, r.off, r.End());
  }

  lemma {:induction false} AppendedRec(before: bytes, r: Rec)
    requires r.off == |before|
    ensures RecAt(before + r.block.Section(), r)
  {
    hide Block.Section;
  }

  // ---- Put -------------------------------------------------------------------------

  /** The blocks Put appends: those whose hash was not indexed when the batch began. */
  function Fresh(db: Db, c: seq<Multihash>, b: seq<bytes>): seq<Block>
    requires |c| == |b|
  {
    if c == [] then []
    else
      var n := |c| - 1;
      var before := Fresh(db, c[..n], b[..n]);
      if c[n] in db then before else before + [RawBlock(c[n], b[n])]
  }

  /** The offsets handed to the index: -1 for a hash that was there already. */
  function Offsets(db: Db, c: seq<Multihash>, b: seq<bytes>, at: nat): (offs: seq<int>)
    requires |c| == |b|
    ensures |offs| == |c|
  {
    if c == [] then []
    else
      var n := |c| - 1;
      var before := Offsets(db, c[..n], b[..n], at);
      if c[n] in db then before + [-1]
      else
        before + [MakeOffsetLen(at + |Sections(Fresh(db, c[..n], b[..n]))|, RawBlock(c[n], b[n]).EntryLen())]
  }

  /** What the batch newly stores, the last of duplicates winning. */
  function Stored(db: Db, c: seq<Multihash>, b: seq<bytes>): map<Multihash, bytes>
    requires |c| == |b|
  {
    if c == [] then map[]
    else
      var n := |c| - 1;
      var before := Stored(db, c[..n], b[..n]);
      if c[n] in db then before else before[c[n] := b[n]]
  }

  predicate Storable(c: seq<Multihash>, b: seq<bytes>) {
    |c| == |b| && forall i :: 0 <= i < |c| ==> c[i].Ok()
  }

  predicate SmallEnough(db: Db, c: seq<Multihash>, b: seq<bytes>)
    requires |c| == |b|
  {
    forall i :: 0 <= i < |c| ==> c[i] in db || |b[i]| <= MAX_ENTRY_LEN
  }

  // ---- events -----------------------------------------------------------------------

  datatype Event =
    | Put(c: seq<Multihash>, b: seq<bytes>, flushed: nat)
    | PutRejected(c: seq<Multihash>, b: seq<bytes>, flushed: nat)  // too large a block: those before it stay unindexed
    | FlushForRead
    | Commit
    | Crash(torn: bytes)  // the buffer is lost; a write in progress may have left bytes behind
    | Open
    | OpenInterrupted     // crash between the index deletion and the truncation

  /** content split so that the first flushed bytes are in the file. */
  predicate Splits(s: Log, added: bytes, flushed: nat) {
    |s.file| <= flushed <= s.DataLen() + |added| <= TWO_40
  }

  predicate Enabled(s: Log, e: Event) {
    match e
    case Put(c, b, flushed) =>
      s.running && Storable(c, b) && SmallEnough(s.db, c, b) && Splits(s, Sections(Fresh(s.db, c, b)), flushed)
    case PutRejected(c, b, flushed) =>
      s.running && Storable(c, b) && SmallEnough(s.db, c, b) && Splits(s, Sections(Fresh(s.db, c, b)), flushed)
    case FlushForRead => s.running
    case Commit => s.running
    case Crash(torn) => s.running && |s.file| + |torn| <= TWO_40
    case Open => !s.running && s.retiredAt <= |s.file|  // else: data file is shorter than head says
    case OpenInterrupted => !s.running && s.retiredAt <= |s.file|
  }

  /** The hashes Open removes: those whose section starts at or after the retired offset. */
  function ToTruncate(s: Log): set<Multihash>
  {
    AtOrAbove(s.db, s.retiredAt)
  }

  function Apply(s: Log, e: Event): Log
    requires Enabled(s, e)
  {
    match e
    case Put(c, b, flushed) =>
      var content := s.Content() + Sections(Fresh(s.db, c, b));
      s.(file := content[..flushed], buf := content[flushed..],
         db := PutAll(s.db, c, Offsets(s.db, c, b, s.DataLen())))
    case PutRejected(c, b, flushed) =>
      var content := s.Content() + Sections(Fresh(s.db, c, b));
      s.(file := content[..flushed], buf := content[flushed..])
    case FlushForRead => s.(file := s.Content(), buf := [])
    case Commit => s.(file := s.Content(), buf := [], retiredAt := s.DataLen())
    case Crash(torn) => s.(file := s.file + torn, buf := [], running := false)
    case Open =>
      // with nothing to remove, a torn tail stays in the file
      if ToTruncate(s) == {} then s.(buf := [], running := true)
      else s.(file := s.file[..s.retiredAt], buf := [], db := s.db - ToTruncate(s), running := true)
    case OpenInterrupted => s.(db := s.db - ToTruncate(s))
  }

  // ---- reading ------------------------------------------------------------------------

  datatype ViewResult = NotFound | Data(data: bytes) | Failed

  /** The read path: unpack the location, skip the length prefix, parse the CID off the entry. */
  function ViewAt(content: bytes, loc: int): ViewResult
  {
    var (off, entLen) := FromOffsetLen(loc);
    if entLen < 0 then Failed
    else
      var from := off + |Uvarint(entLen)|;
      if |content| < from + entLen then Failed
      else
        var ent := content[from..from + entLen];
        match ParseCid(ent)
        case None => Failed
        case Some((_, n)) => Data(ent[n..])
  }

  /** The cache of recent blocks under the packed location, then the log. */
  function ViewCached(lru: map<int, bytes>, content: bytes, loc: int): ViewResult {
    if loc in lru then Data(lru[loc]) else ViewAt(content, loc)
  }

  /** One query: the index, then the cache and the log. */
  function View(s: Log, lru: map<int, bytes>, h: Multihash): ViewResult {
    if h !in s.db || s.db[h] == -1 then NotFound else ViewCached(lru, s.Content(), s.db[h])
  }

  /** A batch of queries: it fails if one of them does. */
  ghost predicate Answers(s: Log, lru: map<int, bytes>, c: seq<Multihash>, r: Option<seq<ViewResult>>) {
    && (r.None? <==> exists i :: 0 <= i < |c| && View(s, lru, c[i]) == Failed)
    && (r.Some? ==> |r.value| == |c| && forall i :: 0 <= i < |c| ==> r.value[i] == View(s, lru, c[i]))
  }

  // ---- the cache ----------------------------------------------------------------------

  /** A cache entry is the data of a block whose section is in the log at its packed location. */
  ghost predicate Caches(content: bytes, loc: int, data: bytes, r: Rec) {
    && r.off < TWO_40 && r.block.cid.Ok()
    && loc == MakeOffsetLen(r.off, r.block.EntryLen())
    && RecAt(content, r) && data == r.block.data
  }

  ghost predicate LruOk(content: bytes, lru: map<int, bytes>) {
    forall loc :: loc in lru ==> exists r: Rec :: Caches(content, loc, lru[loc], r)
  }

  /** One section at one place: two records at the same offset are the same record. */
  lemma {:induction false} SameRec(content: bytes, a: Rec, b: Rec)
    requires a.off == b.off && RecAt(content, a) && RecAt(content, b) && |content| <= TWO_40
    requires a.block.cid.Ok() && b.block.cid.Ok()
    ensures a == b
  {
    hide ReadUvarint, ParseCid, Uvarint, Cid.Encode;
    var x, y := a.block.cid.Encode() + a.block.data, b.block.cid.Encode() + b.block.data;
    RestAfter(content, a);
    RestAfter(content, b);
    UvarintRoundTrip(|x|, x + content[a.End()..]);
    UvarintRoundTrip(|y|, y + content[b.End()..]);
    var n := |Uvarint(|x|)|;
    assert content[a.off..][n..][..|x|] == x;
    assert content[b.off..][n..][..|y|] == y;
    CidRoundTrip(a.block.cid, a.block.data);
    CidRoundTrip(b.block.cid, b.block.data);
    assert a.block.data == x[|a.block.cid.Encode()|..] && b.block.data == y[|b.block.cid.Encode()|..];
  }

  lemma {:induction false} RestAfter(content: bytes, r: Rec)
    requires RecAt(content, r)
    ensures
      var x := r.block.cid.Encode() + r.block.data;
      content[r.off..] == Uvarint(|x|) + (x + content[r.End()..])
  {
    hide Uvarint, Cid.Encode;
    assert content[r.off..] == content[r.off..r.End()] + content[r.End()..];
  }

  /** Cache and log agree on every location of a section of the log, whatever its length. */
  lemma {:induction false} LruAgrees(content: bytes, lru: map<int, bytes>, r: Rec)
    requires LruOk(content, lru) && RecAt(content, r) && r.off < TWO_40 && r.block.cid.Ok() && |content| <= TWO_40
    requires MakeOffsetLen(r.off, r.block.EntryLen()) in lru
    ensures lru[MakeOffsetLen(r.off, r.block.EntryLen())] == r.block.data
  {
    hide RecAt, MakeOffsetLen, FromOffsetLen, Block.EntryLen;
    var loc := MakeOffsetLen(r.off, r.block.EntryLen());
    var q: Rec :| Caches(content, loc, lru[loc], q);
    OffsetKept(r.off, r.block.EntryLen());
    OffsetKept(q.off, q.block.EntryLen());
    SameRec(content, r, q);
  }

  /** A packed location that the read path can unpack. */
  predicate Addressable(r: Rec) { r.off < TWO_40 && r.block.EntryLen() < TWO_23 }

  /** Reading at the packed location of a record returns its data. */
  lemma {:induction false} ViewFindsRec(content: bytes, r: Rec)
    requires RecAt(content, r) && Addressable(r) && r.block.cid.Ok()
    ensures ViewAt(content, MakeOffsetLen(r.off, r.block.EntryLen())) == Data(r.block.data)
  {
    hide ParseCid, MakeOffsetLen, FromOffsetLen, Uvarint;
    OffsetLenRoundTrip(r.off, r.block.EntryLen());
    var v, c := Uvarint(r.block.EntryLen()), r.block.cid.Encode();
    SliceOfSlice(content, r.off, r.End(), |v|, |v| + r.block.EntryLen());
    SliceAfter(v, c + r.block.data, |v|, |v| + r.block.EntryLen());
    assert v + c + r.block.data == v + (c + r.block.data);
    CidRoundTrip(r.block.cid, r.block.data);
    var ent := c + r.block.data;
    assert ent[0..|ent|] == ent && ent[|c|..] == r.block.data;
  }

  /** Past the cache, an entry of 2^23 bytes or more is never read back: its packed length comes out
      negative, or too short for the data. */
  lemma {:induction false} ViewLosesLarge(content: bytes, off: nat, b: Block)
    requires b.cid.Ok() && b.EntryLen() >= TWO_23
    ensures ViewAt(content, MakeOffsetLen(off, b.EntryLen())) != Data(b.data)
  {
    hide ParseCid, Cid.Encode;
    CidLength(b.cid);
    var len, low := b.EntryLen(), off % TWO_40;
    PackedModulo(len, low);
    var l := len % 0x100_0000;
    if l < TWO_23 {
      assert MakeOffsetLen(off, len) == l * TWO_40 + low;
      assert len >= l + 0x100_0000;
    } else {
      assert MakeOffsetLen(off, len) == (l - 0x100_0000) * TWO_40 + low;
      assert FromOffsetLen(MakeOffsetLen(off, len)).1 == l - 0x100_0000;
    }
  }
}
