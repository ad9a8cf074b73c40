/** RepairCarLog.Read: an explicit-stack walk over a possibly damaged canonical CAR that must
    hand out the undamaged bytes. */
module RepairReader {
  import opened Bytes
  import opened Cars
  import opened Preorder
  import opened RepairMatch

  const MIN_READ_DECISION := 100  // blocks
  const MAX_CORRUPT_PCT := 10

  datatype ReadError =
    | Eof
    | TooManyCorrupt
    | ShortCid
    | PeekEntry
    | NoRepair
    | BadLinks
    | DiscardEntry
    | EmptyLayer      // a decoded link block without links: the program would index out of range

  /** What the reader uses: link decoding, Prefix().Sum(data) == cid, and the repair callback,
      whose second argument is the bad data if there is any. */
  datatype RepairEnv = RepairEnv(
    dec: bytes -> Option<seq<Cid>>,
    sums: (Cid, bytes) -> bool,
    repair: (Cid, Option<bytes>) -> Option<bytes>)

  // ---- the tree that the stack still has to visit -------------------------------------------

  function RootCids(f: seq<Tree>): (c: seq<Cid>)
    ensures |c| == |f| && forall i :: 0 <= i < |f| ==> c[i] == f[i].block.cid
  {
    seq(|f|, i requires 0 <= i < |f| => f[i].block.cid)
  }

  /** Link blocks decode to the CIDs of their children; other blocks have none. */
  ghost predicate TreeOk(env: RepairEnv, t: Tree)
    decreases t
  {
    && (t.block.cid.codec == DAG_CBOR ==> t.kids != [] && env.dec(t.block.data) == Some(RootCids(t.kids)))
    && (t.block.cid.codec != DAG_CBOR ==> t.kids == [])
    && forall i :: 0 <= i < |t.kids| ==> TreeOk(env, t.kids[i])
  }

  ghost predicate ForestOk(env: RepairEnv, f: seq<Tree>) { forall i :: 0 <= i < |f| ==> TreeOk(env, f[i]) }

  /** What a stack of forests still has to emit, the last layer first. */
  ghost function Rem(trees: seq<seq<Tree>>): seq<Block> {
    if trees == [] then [] else Pre(trees[|trees| - 1]) + Rem(trees[..|trees| - 1])
  }

  // ---- what may be damaged ----------------------------------------------------------------

  /** No other stretch of the stream has this block's hash. */
  ghost predicate NoForgery(env: RepairEnv, b: Block, source: bytes) {
    forall i, j :: 0 <= i <= j <= |source| && env.sums(b.cid, source[i..j]) ==> source[i..j] == b.data
  }

  ghost predicate Repairs(env: RepairEnv, b: Block) {
    forall bad :: env.repair(b.cid, bad) == Some(b.data)
  }

  predicate SectionIntact(b: Block, source: bytes) { b.Section() <= source }

  /** At the head of the stream is b's section, possibly altered in content but not in length. */
  ghost predicate Readable(env: RepairEnv, b: Block, source: bytes) {
    && b.Ok() && Cid36(b.cid) && env.sums(b.cid, b.data)
    && |source| >= 40 && |source| >= |b.Section()|
    && BestOffset(b.cid.Encode()[..32], source[1..40], |Uvarint(b.EntryLen())| - 1)
    && (SectionIntact(b, source) || (NoForgery(env, b, source) && Repairs(env, b)))
  }

  /** A last section of fewer than 40 bytes, as when the last block of a CAR has one or two bytes: the
      reader peeks for a four-byte length prefix in any case, and gives up. */
  ghost predicate ShortLast(source: bytes, bs: seq<Block>) {
    |bs| == 1 && Cid36(bs[0].cid) && |source| == |bs[0].Section()| < 40
  }

  /** The stream has these blocks' sections, each of them readable unless it is a short last one. */
  ghost predicate Damaged(env: RepairEnv, source: bytes, bs: seq<Block>) {
    if bs == [] then source == []
    else
      ShortLast(source, bs) || (Readable(env, bs[0], source) && Damaged(env, source[|bs[0].Section()|..], bs[1..]))
  }

  /** A stack of CID lists whose subtrees are known. */
  ghost predicate StackOk(env: RepairEnv, trees: seq<seq<Tree>>, stack: seq<seq<Cid>>) {
    && |trees| == |stack|
    && forall i :: 0 <= i < |trees| ==> trees[i] != [] && ForestOk(env, trees[i]) && stack[i] == RootCids(trees[i])
  }

  class RepairCarLog {
    const env: RepairEnv
    var source: bytes                 // what the buffered reader has not discarded yet
    var expectCidStack: seq<seq<Cid>>
    var readBuf: bytes
    var totalRead: nat
    var bad: nat
    ghost var trees: seq<seq<Tree>>
    ghost var emitted: bytes

    /** NewCarRepairReader, after the header has been read and found to have this root. */
    constructor (env: RepairEnv, header: bytes, root: Cid, source: bytes, ghost tree: Tree)
      requires tree.block.cid == root
      ensures this.env == env && this.source == source && readBuf == header && expectCidStack == [[root]]
      ensures totalRead == 0 && bad == 0 && emitted == [] && trees == [[tree]]
    {
      this.env, this.source, readBuf, expectCidStack := env, source, header, [[root]];
      totalRead, bad := 0, 0;
      trees, emitted := [[tree]], [];
    }

    /** The stack denotes the remaining preorder, and the stream stands at the section of its
        first block. */
    ghost predicate Tracks()
      reads this
    {
      StackOk(env, trees, expectCidStack) && Damaged(env, source, Rem(trees))
    }

    /** What a call that only serves buffered bytes leaves alone. */
    ghost function Rest(): (bytes, seq<seq<Tree>>, seq<seq<Cid>>, nat, nat)
      reads this
    {
      (source, trees, expectCidStack, totalRead, bad)
    }

    /** The whole CAR: handed out, buffered and still to come. */
    ghost function Whole(): bytes
      reads this
    {
      emitted + readBuf + Sections(Rem(trees))
    }

    ghost predicate Intact()
      reads this
    {
      source == Sections(Rem(trees))
    }

    ghost predicate AtShort()
      reads this
    {
      ShortLast(source, Rem(trees))
    }

    predicate TooMany()
      reads this
    {
      Over(totalRead, bad)
    }

    /** The next section has been altered; a short last one is not looked at. */
    ghost predicate AlteredNext()
      reads this
    {
      Rem(trees) != [] && AlteredHead(source, Rem(trees))
    }

    /** The repairs of one entry, read from the stream that starts with it under a claimed
        length. None: the repair callback failed. */
    method RepairEntry(c: Cid, vEntLen: Option<nat>, ghost b: Block) returns (r: Option<bytes>, wasCorrupt: bool)
      ensures r.Some? ==> |r.value| >= |c.Encode()|
      ensures b.cid == c && EntryAhead(env, b, source, vEntLen) ==>
                r == Some(c.Encode() + b.data) && (wasCorrupt <==> !Unharmed(b, source, vEntLen))
    {
      hide Cid.Encode;
      var exp := c.Encode();
      var ent: bytes := [];
      r, wasCorrupt := None, false;
      if vEntLen.None? || vEntLen.value > MAX_SECTION {
        wasCorrupt := true;
        var good := env.repair(c, None);
        if good.None? {
          return;
        }
        ent := exp + good.value;
      }
      if |ent| == 0 {
        if vEntLen.value > |source| {
          wasCorrupt := true;
          var good := env.repair(c, None);
          if good.None? {
            return;
          }
          ent := exp + good.value;
        } else {
          ent := source[..vEntLen.value];
        }
      }
      if |ent| < |exp| {
        wasCorrupt := true;
        var good := env.repair(c, None);
        if good.None? {
          return;
        }
        ent := exp + good.value;
      }
      ghost var known := b.cid == c && EntryAhead(env, b, source, vEntLen);
      assert known && Unharmed(b, source, vEntLen) ==> !wasCorrupt && ent == exp + b.data;
      assert known ==> SumsOnlyGood(env, b, ent[|exp|..]) by {
        if known {
          if ent == exp + b.data {
            assert ent[|exp|..] == b.data;
          } else {
            assert ent[|exp|..] == source[|exp|..vEntLen.value];
          }
        }
      }
      ghost var d := ent[|exp|..];
      if ent[..|exp|] != exp {
        wasCorrupt := true;
        ent := exp + ent[|exp|..];
      }
      assert ent == exp + d && ent[|exp|..] == d;
      assert known && Unharmed(b, source, vEntLen) ==> !wasCorrupt && d == b.data;
      if !env.sums(c, ent[|exp|..]) {
        wasCorrupt := true;
        var good := env.repair(c, Some(ent[|exp|..]));
        if good.None? {
          return;
        }
        ent := exp + good.value;
      }
      r := Some(ent);
    }

    /** Locate the entry of the block c at the stream's head, step over its length prefix and
        repair it. */
    method TakeEntry(c: Cid, ghost b: Block) returns (r: Option<bytes>, e: ReadError, wasCorrupt: bool)
      modifies this`source
      ensures r.Some? ==> |r.value| >= |c.Encode()|
      ensures e == ShortCid || e == PeekEntry || e == NoRepair
      ensures |c.Encode()| == 36 && |old(source)| < 40 ==> r == None && e == PeekEntry && !wasCorrupt
      ensures old(Readable(env, b, source)) && b.cid == c ==>
                && r == Some(c.Encode() + b.data)
                && |Uvarint(b.EntryLen())| <= |old(source)| && source == old(source)[|Uvarint(b.EntryLen())|..]
                && (wasCorrupt <==> !old(SectionIntact(b, source)))
    {
      hide Cid.Encode, Uvarint, ReadUvarint, Overlap, Readable, SectionIntact, Repairs, NoForgery, BestOffset,
        EntryAhead, Unharmed;
      ghost var known := Readable(env, b, source) && b.cid == c;
      if known {
        ReadableHead(env, b, source);
      }
      var exp := c.Encode();
      r, wasCorrupt := None, false;
      if |exp| < 32 {
        e := ShortCid;
        return;
      }
      if |source| < |exp| + 4 {
        e := PeekEntry;
        return;
      }
      var cidLenEnt := source[..|exp| + 4];
      var m := Match32Bytes(exp[..32], cidLenEnt[1..]);
      if m.None? {
        e := PeekEntry;
        return;
      }
      var varintLen := m.value.0 + 1;
      OffsetSmall(exp[..32], cidLenEnt[1..], m.value.0);
      if known {
        OneBestOffset(exp[..32], cidLenEnt[1..], m.value.0, |Uvarint(b.EntryLen())| - 1);
        EntryFollows(env, b, source);
        assert cidLenEnt[..varintLen] == source[..varintLen];
      }
      source := source[varintLen..];
      var v := ReadUvarint(cidLenEnt[..varintLen]);
      e := NoRepair;
      r, wasCorrupt := RepairEntry(c, if v.Some? then Some(v.value.0) else None, b);
    }

    /** The part of Read that produces the next section into readBuf. */
    method NextBlock() returns (err: Option<ReadError>, wasCorrupt: bool)
      requires readBuf == []
      modifies this`source, this`expectCidStack, this`readBuf, this`trees
      ensures old(Tracks() && trees == []) ==>
                && Tracks() && Whole() == old(Whole()) == emitted && Rem(trees) == old(Rem(trees)) == []
                && err == Some(Eof) && !wasCorrupt && readBuf == []
      ensures old(Tracks() && trees != [] && !AtShort()) ==>
                && Tracks() && Whole() == old(Whole())
                && old(Rem(trees)) != [] && Rem(trees) == old(Rem(trees))[1..]
                && err == None && readBuf != []
                && |old(Rem(trees))[0].Section()| <= |old(source)|
                && source == old(source)[|old(Rem(trees))[0].Section()|..]
                && (wasCorrupt <==> old(AlteredNext()))
      ensures old(Tracks() && AtShort()) ==> err == Some(PeekEntry) && !wasCorrupt && readBuf == []
      ensures old(Tracks() && !AtShort() && Intact()) ==> Intact() && !wasCorrupt
      ensures err != Some(TooManyCorrupt)
    {
      hide Cid.Encode, Uvarint, Readable, SectionIntact, Sections, StackOk, Damaged, Rem, Next, Popped,
        Block.Section;
      wasCorrupt := false;
      StackShape(env, trees, expectCidStack);
      NothingLeft(env, source, trees);
      if |expectCidStack| == 0 {
        return Some(Eof), false;
      }
      var top := |expectCidStack| - 1;
      var layer := expectCidStack[top];
      if |layer| == 0 {
        return Some(EmptyLayer), false;
      }
      var c := layer[0];
      ghost var known, b := Tracks() && !AtShort(), Block(c, []);
      if Tracks() {
        b := trees[top][0].block;
        StackStep(env, trees, expectCidStack);
        RemStep(env, trees);
      }
      if known {
        SectionParts(b);
        SectionsHead(b, Rem(Next(trees)));
        HeadReadable(env, source, Rem(trees));
        trees := Next(trees);
      }
      ghost var stack0, source0 := expectCidStack, source;
      if |layer| == 1 {
        expectCidStack := expectCidStack[..top];
      } else {
        expectCidStack := expectCidStack[top := layer[1..]];
      }
      assert expectCidStack == Popped(stack0) by { PoppedIs(stack0); }
      var ent, e, corrupt := TakeEntry(c, b);
      wasCorrupt := corrupt;
      if ent.None? {
        return Some(e), wasCorrupt;
      }
      readBuf := Uvarint(|ent.value|) + ent.value;
      if c.codec == DAG_CBOR {
        var links := env.dec(ent.value[|c.Encode()|..]);
        if links.None? {
          return Some(BadLinks), wasCorrupt;
        }
        expectCidStack := expectCidStack + [links.value];
      }
      if |ent.value| > |source| {
        return Some(DiscardEntry), wasCorrupt;
      }
      source := source[|ent.value|..];
      if known {
        AfterSection(source0, |Uvarint(b.EntryLen())|, |ent.value|);
        SameWhole(emitted, b.Section(), Sections(Rem(trees)));
      }
      err := None;
    }

    /** io.Reader's Read into a buffer of this size. Every call that has nothing buffered reads a block and
        counts it, and counts it as bad exactly if its section was altered. */
    method Read(size: nat) returns (out: bytes, err: Option<ReadError>)
      modifies this
      ensures |out| <= size && emitted == old(emitted) + out
      ensures old(readBuf) != [] ==>
                && err == None && Rest() == old(Rest())
                && |out| == Least(size, |old(readBuf)|) && out == old(readBuf)[..|out|]
      ensures old(readBuf) == [] ==> totalRead == old(totalRead) + 1 && (err == Some(TooManyCorrupt) <==> TooMany())
      ensures old(Tracks() && readBuf == []) ==> bad == old(bad) + if old(AlteredNext()) then 1 else 0
      ensures old(Tracks() && readBuf == [] && trees == []) ==>
                (err == Some(Eof) || err == Some(TooManyCorrupt)) && out == [] && old(Whole()) == emitted
      ensures old(Tracks() && readBuf == [] && AtShort()) ==>
                (err == Some(PeekEntry) || err == Some(TooManyCorrupt)) && out == []
      ensures old(Tracks() && trees != [] && !AtShort()) || (old(Tracks()) && old(readBuf) != []) ==>
                && Tracks() && Whole() == old(Whole()) && (err == None || err == Some(TooManyCorrupt))
                && (err == None && size > 0 ==> out != [])
      ensures old(Tracks() && readBuf == [] && trees != [] && !AtShort()) ==>
                && old(Rem(trees)) != [] && Rem(trees) == old(Rem(trees))[1..]
                && |old(Rem(trees))[0].Section()| <= |old(source)|
                && source == old(source)[|old(Rem(trees))[0].Section()|..]
    {
      hide Cid.Encode, Uvarint, Sections, StackOk, Damaged, Rem, ShortLast;
      if |readBuf| > 0 {
        out := Serve(size);
        return out, None;
      }
      out := [];
      totalRead := totalRead + 1;
      var wasCorrupt;
      err, wasCorrupt := NextBlock();
      if err.None? {
        out := Serve(size);
      }
      if wasCorrupt {
        bad := bad + 1;
      }
      if Over(totalRead, bad) {
        err := Some(TooManyCorrupt);
      }
      assert emitted + [] == emitted;
    }

    /** copy(p, r.readBuf) */
    method Serve(size: nat) returns (out: bytes)
      modifies this`readBuf, this`emitted
      ensures |out| == Least(size, |old(readBuf)|) && out == old(readBuf)[..|out|]
      ensures emitted == old(emitted) + out && Whole() == old(Whole())
    {
      hide Sections, Rem;
      var n := Least(size, |readBuf|);
      out := readBuf[..n];
      assert readBuf == out + readBuf[n..];
      readBuf := readBuf[n..];
      emitted := emitted + out;
    }

    /** Reading until an error, with any nonempty buffer sizes (io.ReadAll, io.Copy): the whole CAR, or a
        prefix of it. All but the last section is what comes of a CAR whose last section is short. Which it
        is depends on the stream and the counters alone. */
    method ReadAll(sizes: nat -> nat) returns (out: bytes, err: ReadError)
      requires Tracks() && forall i :: sizes(i) > 0
      modifies this
      ensures emitted == old(emitted) + out && emitted <= old(Whole())
      ensures err == Ending(old(source), old(Rem(trees)), old(totalRead), old(bad))
      ensures err == Eof ==> emitted == old(Whole())
      ensures err == PeekEntry ==>
                EndsShort(old(Rem(trees))) && emitted + LastSection(old(Rem(trees))) == old(Whole())
    {
      hide Sections, StackOk, Damaged, Rem, ShortLast, Block.Section, Ending, AlteredHead, Over;
      out := [];
      var i := 0;
      ghost var bs, whole := Rem(trees), Whole();
      ghost var ending := Ending(source, bs, totalRead, bad);
      SuffixOfSelf(bs);
      while true
        invariant Tracks() && Whole() == whole && emitted == old(emitted) + out
        invariant Suffix(Rem(trees), bs) && Ending(source, Rem(trees), totalRead, bad) == ending
        decreases |Whole()| - |emitted|
      {
        ghost var rem, source0, total0, bad0 := Rem(trees), source, totalRead, bad;
        NothingLeft(env, source, trees);
        EndIsShort(env, source, rem, bs);
        EndingStep(source0, rem, total0, bad0);
        assert emitted <= whole;
        var part, e := Read(sizes(i));
        out := out + part;
        if e == Some(PeekEntry) {
          assert whole == old(emitted) + out + [] + Sections(rem);
          OneLeft(rem, bs);
        }
        if e.Some? {
          return out, e.value;
        }
        SuffixNext(Rem(trees), rem, bs);
        i := i + 1;
      }
    }
  }

  function Least(a: nat, b: nat): nat { if a < b then a else b }

  // ---- when too much is corrupt ---------------------------------------------------------------

  /** More than a tenth of the reads, after the first hundred. */
  predicate Over(total: nat, bad: nat) { total > MIN_READ_DECISION && bad * 100 / total > MAX_CORRUPT_PCT }

  ghost predicate AlteredHead(source: bytes, bs: seq<Block>)
    requires bs != []
  {
    !ShortLast(source, bs) && !SectionIntact(bs[0], source)
  }

  /** How reading ends, from counters so far. */
  ghost function Ending(source: bytes, bs: seq<Block>, total: nat, bad: nat): ReadError
    decreases |bs|
  {
    if bs == [] then if Over(total + 1, bad) then TooManyCorrupt else Eof
    else if ShortLast(source, bs) || |source| < |bs[0].Section()| then
      if Over(total + 1, bad) then TooManyCorrupt else PeekEntry
    else
      var bad' := bad + if AlteredHead(source, bs) then 1 else 0;
      if Over(total + 1, bad') then TooManyCorrupt
      else Ending(source[|bs[0].Section()|..], bs[1..], total + 1, bad')
  }

  lemma {:induction false} EndingStep(source: bytes, bs: seq<Block>, total: nat, bad: nat)
    ensures bs == [] ==> Ending(source, bs, total, bad) == if Over(total + 1, bad) then TooManyCorrupt else Eof
    ensures bs != [] && ShortLast(source, bs) ==>
              !AlteredHead(source, bs)
              && Ending(source, bs, total, bad) == if Over(total + 1, bad) then TooManyCorrupt else PeekEntry
    ensures bs != [] && !ShortLast(source, bs) && |bs[0].Section()| <= |source| ==>
              var bad' := bad + if AlteredHead(source, bs) then 1 else 0;
              Ending(source, bs, total, bad) ==
                if Over(total + 1, bad') then TooManyCorrupt
                else Ending(source[|bs[0].Section()|..], bs[1..], total + 1, bad')
  {
    hide Over, SectionIntact, Block.Section;
  }

  /** How many of the first n sections of the stream have been altered. */
  ghost function Altered(source: bytes, bs: seq<Block>, n: nat): nat
    decreases n
  {
    if n == 0 || bs == [] || |source| < |bs[0].Section()| then 0
    else
      (if AlteredHead(source, bs) then 1 else 0) + Altered(source[|bs[0].Section()|..], bs[1..], n - 1)
  }

  /** How many reads it takes to get to the end of the stream, which is a read too unless it is a short last
      section that fails. */
  ghost function Reads(bs: seq<Block>): nat { |bs| + if EndsShort(bs) then 0 else 1 }

  ghost predicate OverAfter(source: bytes, bs: seq<Block>, total: nat, bad: nat, n: nat) {
    Over(total + n, bad + Altered(source, bs, n))
  }

  ghost predicate OverSometime(source: bytes, bs: seq<Block>, total: nat, bad: nat) {
    exists n :: 0 < n <= Reads(bs) && OverAfter(source, bs, total, bad, n)
  }

  /** Reading stops for too much corruption exactly if after some number of reads the altered sections
      among them are too many; otherwise it ends as the last section says. */
  lemma {:induction false} EndingIff(env: RepairEnv, source: bytes, bs: seq<Block>, total: nat, bad: nat)
    requires Damaged(env, source, bs)
    ensures Ending(source, bs, total, bad) == TooManyCorrupt <==> OverSometime(source, bs, total, bad)
    ensures Ending(source, bs, total, bad) != TooManyCorrupt ==>
              Ending(source, bs, total, bad) == if EndsShort(bs) then PeekEntry else Eof
    decreases |bs|
  {
    hide Over, SectionIntact, Block.Section, Readable;
    SuffixOfSelf(bs);
    EndIsShort(env, source, bs, bs);
    if bs == [] || ShortLast(source, bs) {
      assert Altered(source, bs, 1) == 0;
      assert OverAfter(source, bs, total, bad, 1) <==> Over(total + 1, bad);
    } else {
      HeadReadable(env, source, bs);
      var rest, bad' := source[|bs[0].Section()|..], bad + if AlteredHead(source, bs) then 1 else 0;
      EndingIff(env, rest, bs[1..], total + 1, bad');
      LastOfRest(bs);
      AlteredNone(rest, bs[1..]);
      forall n | 0 < n <= Reads(bs)
        ensures OverAfter(source, bs, total, bad, n) <==>
                  if n == 1 then Over(total + 1, bad') else OverAfter(rest, bs[1..], total + 1, bad', n - 1)
      {}
      assert OverAfter(source, bs, total, bad, 1) <==> Over(total + 1, bad');
      if OverSometime(rest, bs[1..], total + 1, bad') {
        var n :| 0 < n <= Reads(bs[1..]) && OverAfter(rest, bs[1..], total + 1, bad', n);
        assert OverAfter(source, bs, total, bad, n + 1);
      }
    }
  }

  /** After more than a hundred reads more than a tenth of the sections read had been altered, in whole
      percents. */
  ghost predicate TooCorrupt(source: bytes, bs: seq<Block>) {
    exists n :: 100 < n <= Reads(bs) && Altered(source, bs, n) * 100 / n > 10
  }

  lemma {:induction false} EndingFromStart(env: RepairEnv, source: bytes, bs: seq<Block>)
    requires Damaged(env, source, bs)
    ensures Ending(source, bs, 0, 0) ==
              if TooCorrupt(source, bs) then TooManyCorrupt else if EndsShort(bs) then PeekEntry else Eof
  {
    hide Altered, Ending, Damaged, EndsShort, Reads;
    EndingIff(env, source, bs, 0, 0);
    if OverSometime(source, bs, 0, 0) {
      var n :| 0 < n <= Reads(bs) && OverAfter(source, bs, 0, 0, n);
      assert Altered(source, bs, n) * 100 / n > 10;
    }
    if TooCorrupt(source, bs) {
      var n :| 100 < n <= Reads(bs) && Altered(source, bs, n) * 100 / n > 10;
      assert OverAfter(source, bs, 0, 0, n);
    }
  }

  lemma {:induction false} AlteredNone(source: bytes, bs: seq<Block>)
    ensures Altered(source, bs, 0) == 0
  {}

  lemma {:induction false} LastOfRest(bs: seq<Block>)
    requires bs != []
    ensures |bs| > 1 ==> (EndsShort(bs[1..]) <==> EndsShort(bs)) && Reads(bs) == Reads(bs[1..]) + 1
    ensures |bs| == 1 && !EndsShort(bs) ==> Reads(bs) == Reads(bs[1..]) + 1 && !EndsShort(bs[1..])
  {
    hide Block.Section;
  }

  // ---- the end of the stream ------------------------------------------------------------------

  ghost predicate EndsShort(bs: seq<Block>) { bs != [] && |bs[|bs| - 1].Section()| < 40 }

  ghost function LastSection(bs: seq<Block>): bytes
    requires bs != []
  {
    bs[|bs| - 1].Section()
  }

  ghost predicate Suffix(a: seq<Block>, bs: seq<Block>) { |a| <= |bs| && a == bs[|bs| - |a|..] }

  lemma {:induction false} SuffixOfSelf(bs: seq<Block>)
    ensures Suffix(bs, bs)
  {}

  lemma {:induction false} SuffixNext(now: seq<Block>, was: seq<Block>, bs: seq<Block>)
    requires Suffix(was, bs) && (now == was || (was != [] && now == was[1..]))
    ensures Suffix(now, bs)
  {}

  lemma {:induction false} OneLeft(rem: seq<Block>, bs: seq<Block>)
    requires Suffix(rem, bs) && |rem| == 1
    ensures bs != [] && rem[0] == bs[|bs| - 1] && Sections(rem) == LastSection(bs)
  {
    assert rem == [rem[0]];
    SectionsOne(rem[0]);
  }

  /** A single section that is left is short for the reader exactly when it has fewer than 40 bytes. */
  lemma {:induction false} EndIsShort(env: RepairEnv, source: bytes, rem: seq<Block>, bs: seq<Block>)
    requires Damaged(env, source, rem) && Suffix(rem, bs)
    ensures ShortLast(source, rem) ==> |rem| == 1 && EndsShort(bs)
    ensures |rem| == 1 && EndsShort(bs) ==> ShortLast(source, rem)
  {
    hide Block.Section, BestOffset, Repairs, NoForgery;
    if |rem| == 1 {
      assert rem[1..] == [];
      assert rem[0] == bs[|bs| - 1];
    }
  }

  /** The entry claimed to have this length stands undamaged at the head of the stream. */
  predicate Unharmed(b: Block, source: bytes, vEntLen: Option<nat>) {
    vEntLen == Some(b.EntryLen()) && b.EntryLen() <= MAX_SECTION && b.cid.Encode() + b.data <= source
  }

  ghost predicate EntryAhead(env: RepairEnv, b: Block, source: bytes, vEntLen: Option<nat>) {
    && env.sums(b.cid, b.data) && b.EntryLen() <= MAX_SECTION
    && (Unharmed(b, source, vEntLen) || (NoForgery(env, b, source) && Repairs(env, b)))
  }

  ghost predicate SumsOnlyGood(env: RepairEnv, b: Block, d: bytes) {
    d == b.data || (Repairs(env, b) && (env.sums(b.cid, d) ==> d == b.data))
  }

  lemma {:induction false} ReadableHead(env: RepairEnv, b: Block, source: bytes)
    requires Readable(env, b, source)
    ensures |b.cid.Encode()| == 36 && |source| >= 40
    ensures source[..36 + 4][1..] == source[1..40]
    ensures BestOffset(b.cid.Encode()[..32], source[1..40], |Uvarint(b.EntryLen())| - 1)
  {
    hide Cid.Encode, BestOffset, Uvarint, Repairs, NoForgery;
  }

  lemma {:induction false} OffsetSmall(patt: bytes, buf: bytes, off: nat)
    requires |patt| + 3 <= |buf| && BestOffset(patt, buf, off)
    ensures off < 4
  {}

  lemma {:induction false} PrefixDrop(a: bytes, b: bytes, s: bytes)
    requires a + b <= s
    ensures s[..|a|] == a && b <= s[|a|..]
  {
    var t := a + b;
    assert s[..|a|] == t[..|a|];
    assert s[|a|..|t|] == t[|a|..];
  }

  lemma {:induction false} PrefixJoin(a: bytes, b: bytes, s: bytes)
    requires |a| <= |s|
    ensures s[..|a|] == a && b <= s[|a|..] ==> a + b <= s
  {
    assert s == s[..|a|] + s[|a|..];
  }

  /** Behind the length prefix stands the entry, or what is left of it. */
  lemma {:induction false} EntryFollows(env: RepairEnv, b: Block, source: bytes)
    requires Readable(env, b, source)
    ensures
      var n := |Uvarint(b.EntryLen())|;
      && n <= |source|
      && var v := ReadUvarint(source[..n]);
         var claimed := if v.Some? then Some(v.value.0) else None;
         EntryAhead(env, b, source[n..], claimed) && (SectionIntact(b, source) <==> Unharmed(b, source[n..], claimed))
  {
    hide Cid.Encode, BestOffset, Uvarint, Repairs, ReadUvarint;
    var v, exp := Uvarint(b.EntryLen()), b.cid.Encode();
    var n := |v|;
    if SectionIntact(b, source) {
      var entry := exp + b.data;
      ConcatAssoc(v, exp, b.data);
      PrefixDrop(v, entry, source);
      assert v == v + [];
      UvarintRoundTrip(b.EntryLen(), []);
    } else {
      PrefixJoin(v, exp + b.data, source);
      ConcatAssoc(v, exp, b.data);
      if ReadUvarint(source[..n]).Some? && ReadUvarint(source[..n]).value.0 == b.EntryLen() {
        UvarintOnly(source[..n], b.EntryLen(), 9);
      }
      forall i, j | 0 <= i <= j <= |source[n..]| && env.sums(b.cid, source[n..][i..j])
        ensures source[n..][i..j] == b.data
      {
        assert source[n..][i..j] == source[n + i..n + j];
      }
    }
  }

  // ---- one step of the walk ---------------------------------------------------------------

  /** The stack after its next block: popped, and the block's children pushed. */
  ghost function Next(trees: seq<seq<Tree>>): seq<seq<Tree>>
    requires trees != [] && trees[|trees| - 1] != []
  {
    var top := |trees| - 1;
    var layer := trees[top];
    var rest := if |layer| == 1 then trees[..top] else trees[top := layer[1..]];
    if layer[0].kids == [] then rest else rest + [layer[0].kids]
  }

  /** The CID stack after its first CID. */
  function Popped(stack: seq<seq<Cid>>): seq<seq<Cid>>
    requires stack != [] && stack[|stack| - 1] != []
  {
    var top := |stack| - 1;
    if |stack[top]| == 1 then stack[..top] else stack[top := stack[top][1..]]
  }

  lemma {:induction false} PoppedIs(stack: seq<seq<Cid>>)
    requires stack != [] && stack[|stack| - 1] != []
    ensures
      var top := |stack| - 1;
      Popped(stack) == if |stack[top]| == 1 then stack[..top] else stack[top := stack[top][1..]]
  {}

  lemma {:induction false} StackShape(env: RepairEnv, trees: seq<seq<Tree>>, stack: seq<seq<Cid>>)
    ensures
      StackOk(env, trees, stack) ==>
        && |trees| == |stack|
        && (stack != [] ==> trees[|trees| - 1] != [] && |stack[|stack| - 1]| == |trees[|trees| - 1]|)
  {}

  /** Popping a CID and pushing the links of its block keeps the stack in step with the trees. */
  lemma {:induction false} StackStep(env: RepairEnv, trees: seq<seq<Tree>>, stack: seq<seq<Cid>>)
    requires StackOk(env, trees, stack) && stack != []
    ensures trees[|trees| - 1] != [] && stack[|stack| - 1] != []
    ensures
      var t := trees[|trees| - 1][0];
      && t.block.cid == stack[|stack| - 1][0]
      && (t.block.cid.codec == DAG_CBOR ==>
            && env.dec(t.block.data) == Some(RootCids(t.kids))
            && StackOk(env, Next(trees), Popped(stack) + [RootCids(t.kids)]))
      && (t.block.cid.codec != DAG_CBOR ==> StackOk(env, Next(trees), Popped(stack)))
  {
    hide Pre;
    var top := |trees| - 1;
    assert ForestOk(env, trees[top]);
    var layer := trees[top];
    var t := layer[0];
    assert TreeOk(env, t);
    var rest := if |layer| == 1 then trees[..top] else trees[top := layer[1..]];
    assert RootCids(layer)[1..] == RootCids(layer[1..]);
    assert StackOk(env, rest, Popped(stack)) by {
      if |layer| > 1 {
        assert ForestOk(env, layer[1..]);
      }
    }
    assert ForestOk(env, t.kids);
  }

  lemma {:induction false} SectionParts(b: Block)
    ensures Uvarint(|b.cid.Encode() + b.data|) + (b.cid.Encode() + b.data) == b.Section()
    ensures |b.Section()| == |Uvarint(b.EntryLen())| + |b.cid.Encode() + b.data|
    ensures (b.cid.Encode() + b.data)[|b.cid.Encode()|..] == b.data
  {
    hide Uvarint, Cid.Encode;
  }

  lemma {:induction false} SectionsHead(b: Block, bs: seq<Block>)
    ensures Sections([b] + bs) == b.Section() + Sections(bs)
    ensures ([b] + bs)[0] == b && ([b] + bs)[1..] == bs
    ensures (b.Section() + Sections(bs))[|b.Section()|..] == Sections(bs)
    ensures SectionIntact(b, b.Section() + Sections(bs))
  {
    hide Sections, Block.Section;
    SectionsConcat([b], bs);
    SectionsOne(b);
  }

  lemma {:induction false} AfterSection(s: bytes, i: nat, j: nat)
    requires i + j <= |s|
    ensures s[i..][j..] == s[i + j..]
  {}

  lemma {:induction false} SameWhole(a: bytes, b: bytes, c: bytes)
    ensures a + [] + (b + c) == a + b + c
  {
    assert a + [] + (b + c) == a + b + c;
  }

  lemma {:induction false} RemSnoc(trees: seq<seq<Tree>>, f: seq<Tree>)
    ensures Rem(trees + [f]) == Pre(f) + Rem(trees)
  {
    hide Pre;
    assert (trees + [f])[..|trees|] == trees;
  }

  /** The next block is the first of the remaining preorder, the rest is what the stack then has. */
  lemma {:induction false} RemStep(env: RepairEnv, trees: seq<seq<Tree>>)
    requires trees != [] && trees[|trees| - 1] != []
    ensures Rem(trees) == [trees[|trees| - 1][0].block] + Rem(Next(trees))
  {
    hide Pre, Rem;
    var top := |trees| - 1;
    var layer, below := trees[top], trees[..top];
    var b, kids, more := layer[0].block, layer[0].kids, layer[1..];
    assert trees == below + [layer];
    RemSnoc(below, layer);
    PreHead(layer);
    var rest := if |layer| == 1 then below else trees[top := more];
    assert Rem(rest) == Pre(more) + Rem(below) by {
      if |layer| == 1 {
        PreNone();
        assert more == [] && [] + Rem(below) == Rem(below);
      } else {
        assert rest == below + [more];
        RemSnoc(below, more);
      }
    }
    RemSnoc(rest, kids);
    PreNone();
    Regroup([b], Pre(kids), Pre(more), Rem(below));
  }

  lemma {:induction false} PreHead(f: seq<Tree>)
    requires f != []
    ensures Pre(f) == [f[0].block] + Pre(f[0].kids) + Pre(f[1..])
  {}

  lemma {:induction false} PreNone()
    ensures Pre([]) == []
  {}

  lemma {:induction false} Regroup(a: seq<Block>, b: seq<Block>, c: seq<Block>, d: seq<Block>)
    ensures a + b + c + d == a + (b + (c + d))
    ensures b == [] ==> a + b + c + d == a + (c + d)
  {
    assert a + b + c + d == a + (b + (c + d));
  }

  lemma {:induction false} NothingLeft(env: RepairEnv, source: bytes, trees: seq<seq<Tree>>)
    ensures trees == [] ==> Rem(trees) == [] && Sections(Rem(trees)) == []
  {}

  lemma {:induction false} HeadReadable(env: RepairEnv, source: bytes, bs: seq<Block>)
    requires bs != [] && Damaged(env, source, bs) && !ShortLast(source, bs)
    ensures Readable(env, bs[0], source) && |bs[0].Section()| <= |source|
    ensures Damaged(env, source[|bs[0].Section()|..], bs[1..])
  {
    hide BestOffset, Block.Section;
  }
}
