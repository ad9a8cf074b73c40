/** genTopCar: the layers of link blocks appended to a finished log, bottom up. */
module TopCar {
  import opened Bytes
  import opened Cars
  import opened LogRebuild
  import opened TopTree

  /** Blocks of all layers in file order. */
  function Flat(ls: seq<seq<Block>>): seq<Block> {
    if ls == [] then [] else Flat(ls[..|ls| - 1]) + ls[|ls| - 1]
  }

  /** Where each layer starts in a file whose header has base bytes. */
  function LayerOffsets(base: nat, ls: seq<seq<Block>>): (offs: seq<nat>)
    ensures |offs| == |ls|
  {
    if ls == [] then []
    else LayerOffsets(base, ls[..|ls| - 1]) + [base + |Sections(Flat(ls[..|ls| - 1]))|]
  }

  lemma {:induction false} FlatSnoc(ls: seq<seq<Block>>, l: seq<Block>)
    ensures Flat(ls + [l]) == Flat(ls) + l
  {
    assert (ls + [l])[..|ls|] == ls;
  }

  lemma {:induction false} LayerOffsetsSnoc(base: nat, ls: seq<seq<Block>>, l: seq<Block>)
    ensures LayerOffsets(base, ls + [l]) == LayerOffsets(base, ls) + [base + |Sections(Flat(ls))|]
  {
    hide Sections, Flat;
    assert (ls + [l])[..|ls|] == ls;
  }

  /** The identity CID a log's header carries until its real root is known. */
  function PlaceholderCid(): Cid { Cid(RAW, Multihash(0, Zeros(32))) }

  lemma {:induction false} RootFitsPlaceholder(env: CarEnv, links: seq<Cid>)
    requires env.Ok()
    ensures |LinkBlock(env, links).cid.Encode()| == |PlaceholderCid().Encode()| == 36
  {
    assert |env.sum(env.enc(links))| == 32;
  }

  datatype TopResult =
    | BadLog                 // iterating the log failed
    | NoRoot                 // "expected 1 link to top layer"
    | HeaderLength           // the new header would not fit over the old one
    | Topped(file: bytes, layerOffsets: seq<nat>)

  class TopBuilder {
    const env: CarEnv
    var content: bytes        // data file and write buffer
    var nextLinks: seq<Cid>

    constructor (env: CarEnv, content: bytes)
      ensures this.env == env && this.content == content && nextLinks == []
    {
      this.env := env;
      this.content := content;
      nextLinks := [];
    }

    method WriteLinkBlock(links: seq<Cid>)
      modifies this
      ensures content == old(content) + LinkBlock(env, links).Section()
      ensures nextLinks == old(nextLinks) + [LinkBlock(env, links).cid]
    {
      var nd := LinkBlock(env, links);
      nextLinks := nextLinks + [nd.cid];
      content := content + nd.Section();
    }

    /** Content and links after writing the blocks g on top of base. */
    ghost predicate Wrote(base: bytes, g: seq<Block>)
      reads this
    {
      content == base + Sections(g) && nextLinks == Cids(g)
    }

    static lemma {:induction false} WroteMore(base: bytes, g: seq<Block>, b: Block)
      ensures base + Sections(g) + b.Section() == base + Sections(g + [b])
      ensures Cids(g) + [b.cid] == Cids(g + [b])
    {
      hide Sections, Block.Section;
      SectionsSnoc(g, b);
      ConcatAssoc(base, Sections(g), b.Section());
    }

    /** Nothing that was there before has changed. */
    ghost predicate Extends(base: bytes)
      reads this
    {
      |base| <= |content| && content[..|base|] == base
    }

    static lemma {:induction false} OnlyExtends(t: TopBuilder, base: bytes, g: seq<Block>)
      requires t.Wrote(base, g)
      ensures t.Extends(base)
    {
      hide Sections, Cids;
    }

    /** A header of the same length leaves the log's own bytes where they are. */
    static lemma {:induction false} NewHeader(before: bytes, after: bytes, header: bytes)
      requires |header| <= |before| <= |after| && after[..|before|] == before
      ensures (header + after[|header|..])[|header|..|before|] == before[|header|..]
    {
      var n, m := |header|, |before|;
      SliceOfConcat(after[..m], after[m..], n, m);
      assert after == after[..m] + after[m..];
      assert (header + after[n..])[n..m] == after[n..m];
      assert before[n..m] == before[n..];
    }

    static lemma {:induction false} StillExtends(a: bytes, b: bytes, c: bytes)
      requires |a| <= |b| <= |c| && b[..|a|] == a && c[..|b|] == b
      ensures c[..|a|] == a
    {
      SliceOfSlice(c, 0, |b|, 0, |a|);
      assert c[0..|b|] == c[..|b|] && b[0..|a|] == b[..|a|];
    }

    /** The blocks written for the CIDs c while the last |cur| of them are still collected. */
    ghost predicate Collecting(base: bytes, c: seq<Cid>, cur: seq<Cid>)
      reads this
    {
      && |cur| <= |c| && (|c| - |cur|) % ARITY == 0 && cur == c[|c| - |cur|..]
      && Wrote(base, Group(env, c[..|c| - |cur|]))
    }

    static lemma {:induction false} RunCloses(env: CarEnv, c: seq<Cid>, cur: seq<Cid>)
      requires |cur| <= |c| && (|c| - |cur|) % ARITY == 0 && cur == c[|c| - |cur|..] && 0 < |cur| <= ARITY
      ensures Group(env, c) == Group(env, c[..|c| - |cur|]) + [LinkBlock(env, cur)]
    {
      hide Group, LinkBlock;
      var a := c[..|c| - |cur|];
      assert c == a + cur;
      GroupConcat(env, a, cur);
      GroupOne(env, cur);
    }

    /** One more CID: a full run of links becomes a block. */
    method AddLink(curLinks: seq<Cid>, x: Cid, ghost base: bytes, ghost c: seq<Cid>) returns (r: seq<Cid>)
      requires |curLinks| < ARITY && Collecting(base, c, curLinks)
      modifies this
      ensures |r| < ARITY && Collecting(base, c + [x], r)
    {
      hide Sections, Group, LinkBlock, Block.Section;
      Collected(c, curLinks, x);
      r := curLinks + [x];
      if |r| == ARITY {
        RunCloses(env, c + [x], r);
        WroteMore(base, Group(env, (c + [x])[..|c| + 1 - ARITY]), LinkBlock(env, r));
        Whole(c + [x]);
        WriteLinkBlock(r);
        r := [];
      }
    }

    /** The links left over at the end of the log. */
    method CloseRun(curLinks: seq<Cid>, ghost base: bytes, ghost c: seq<Cid>)
      requires |curLinks| < ARITY && Collecting(base, c, curLinks)
      modifies this
      ensures Wrote(base, Group(env, c))
    {
      hide Sections, Group, LinkBlock, Block.Section;
      if |curLinks| > 0 {
        RunCloses(env, c, curLinks);
        WroteMore(base, Group(env, c[..|c| - |curLinks|]), LinkBlock(env, curLinks));
        WriteLinkBlock(curLinks);
      } else {
        Whole(c);
      }
    }

    /** The first layer of link blocks, written while the log is iterated up to dataEnd. */
    method FirstLayer(dataStart: nat, dataEnd: nat) returns (ok: bool)
      requires dataStart <= dataEnd == |content| && nextLinks == []
      modifies this
      ensures ok <==> ParseAll(old(content)[dataStart..dataEnd]).Some?
      ensures forall leaves :: IsLog(old(content)[dataStart..dataEnd], leaves) ==>
                ok && Wrote(old(content), Group(env, Cids(leaves)))
      ensures Extends(old(content))
    {
      hide Sections, Group, LinkBlock, Block.Section, AllOk, ReadNode, Block.Ok, Wrote, Cids, ParseAll;
      ghost var base := content;
      var rest := content[dataStart..dataEnd];
      ghost var leaves: seq<Block>, known := FindLog(rest);
      var curLinks: seq<Cid> := [];
      ghost var c: seq<Cid>, i: nat := [], 0;
      Begin(this, base, leaves);
      while rest != []
        invariant |curLinks| < ARITY && Collecting(base, c, curLinks)
        invariant ParseAll(base[dataStart..dataEnd]).None? <==> ParseAll(rest).None?
        invariant known ==> i <= |leaves| && AllOk(leaves) && rest == Sections(leaves[i..]) && c == Cids(leaves[..i])
        decreases |rest|
      {
        if known {
          ReadsNext(leaves, i, rest);
          CidsSnoc(leaves, i);
        }
        ParseStep(rest);
        var node := ReadNode(rest);
        if node.None? {
          assert !known;
          OnlyExtends(this, base, Group(env, c[..|c| - |curLinks|]));
          return false;
        }
        var (b, n) := node.value;
        curLinks := AddLink(curLinks, b.cid, base, c);
        c := c + [b.cid];
        rest := rest[n..];
        i := i + 1;
      }
      CloseRun(curLinks, base, c);
      OnlyExtends(this, base, Group(env, c));
      ParsedEnd();
      if known {
        LastNode(leaves, i);
      }
      OneLog(base[dataStart..dataEnd], leaves, known);
      return true;
    }

    static ghost method FindLog(s: bytes) returns (leaves: seq<Block>, known: bool)
      ensures known <==> exists l :: IsLog(s, l)
      ensures known ==> IsLog(s, leaves)
    {
      leaves, known := [], false;
      if l :| IsLog(s, l) {
        leaves, known := l, true;
      }
    }

    static lemma {:induction false} OneLog(s: bytes, leaves: seq<Block>, known: bool)
      requires known <==> exists l :: IsLog(s, l)
      requires known ==> IsLog(s, leaves)
      ensures forall l :: IsLog(s, l) ==> known && l == leaves
    {
      forall l | IsLog(s, l)
        ensures l == leaves
      {
        SameLog(s, l, leaves);
      }
    }

    static lemma {:induction false} CidsSnoc(leaves: seq<Block>, i: nat)
      requires i < |leaves|
      ensures Cids(leaves[..i + 1]) == Cids(leaves[..i]) + [leaves[i].cid]
    {}

    static lemma {:induction false} Begin(t: TopBuilder, base: bytes, leaves: seq<Block>)
      requires t.content == base && t.nextLinks == []
      ensures leaves[0..] == leaves && leaves[..0] == [] && Cids([]) == []
      ensures t.Wrote(base, Group(t.env, []))
    {
      assert base + Sections([]) == base;
    }

    static lemma {:induction false} ReadsNext(leaves: seq<Block>, i: nat, rest: bytes)
      requires i <= |leaves| && AllOk(leaves) && rest == Sections(leaves[i..]) && rest != []
      ensures i < |leaves| && ReadNode(rest) == Some((leaves[i], |leaves[i].Section()|))
      ensures rest[|leaves[i].Section()|..] == Sections(leaves[i + 1..])
    {
      hide ReadNode, Block.Section, Block.Ok, Sections;
      if i == |leaves| {
        assert leaves[i..] == [];
        SectionsNone();
      } else {
        var tail := Sections(leaves[i + 1..]);
        assert leaves[i..] == [leaves[i]] + leaves[i + 1..];
        SectionsConcat([leaves[i]], leaves[i + 1..]);
        SectionsOne(leaves[i]);
        SectionRoundTrip(leaves[i], tail);
        assert (leaves[i].Section() + tail)[|leaves[i].Section()|..] == tail;
      }
    }

    static lemma {:induction false} Collected(c: seq<Cid>, cur: seq<Cid>, x: Cid)
      requires |cur| <= |c| && cur == c[|c| - |cur|..]
      ensures cur + [x] == (c + [x])[|c| + 1 - |cur + [x]|..]
      ensures (c + [x])[..|c| + 1 - |cur + [x]|] == c[..|c| - |cur|]
    {}

    static lemma {:induction false} Whole(c: seq<Cid>)
      ensures c[..|c|] == c && c[|c|..] == []
    {}

    static lemma {:induction false} LastNode(leaves: seq<Block>, i: nat)
      requires i <= |leaves| && Sections(leaves[i..]) == []
      ensures i == |leaves| && leaves[..i] == leaves
    {
      SectionsLeft(leaves, i);
    }

    /** One more layer over the links of the last one. */
    method NextLayer(curLinks: seq<Cid>)
      requires nextLinks == []
      modifies this
      ensures Wrote(old(content), Group(env, curLinks))
    {
      hide Sections, Group, LinkBlock, Block.Section;
      ghost var base := content;
      Begin(this, base, []);
      var i := 0;
      assert curLinks[..0] == [];
      while i < |curLinks|
        invariant 0 <= i && i % ARITY == 0
        invariant Wrote(base, Group(env, curLinks[..if i < |curLinks| then i else |curLinks|]))
      {
        var end := if i + ARITY > |curLinks| then |curLinks| else i + ARITY;
        SliceOfSlice(curLinks, 0, end, i, end);
        SliceOfSlice(curLinks, 0, end, 0, i);
        assert curLinks[0..end] == curLinks[..end] && curLinks[0..i] == curLinks[..i];
        RunCloses(env, curLinks[..end], curLinks[i..end]);
        WroteMore(base, Group(env, curLinks[..i]), LinkBlock(env, curLinks[i..end]));
        WriteLinkBlock(curLinks[i..end]);
        i := i + ARITY;
      }
      assert curLinks[..|curLinks|] == curLinks;
    }

    /** genTopCar: link layers until a single root, then the root goes into the header. */
    method GenTopCar(dataStart: nat) returns (r: TopResult)
      requires env.Ok() && nextLinks == [] && dataStart <= |content|
      requires content[..dataStart] == env.head(PlaceholderCid())
      modifies this
      ensures forall leaves :: IsLog(old(content)[dataStart..], leaves) ==> r == Finished(env, leaves)
      ensures r == BadLog <==> ParseAll(old(content)[dataStart..]).None?
      ensures !r.Topped? ==> Extends(old(content))
      ensures r.Topped? ==>
                && dataStart <= |old(content)| <= |r.file| && r.layerOffsets != []
                && r.file[dataStart..|old(content)|] == old(content)[dataStart..]
    {
      hide Sections, Group, LinkBlock, Block.Section, AllOk, CarEnv.Ok, TopLayers, AllLayers, LayerOffsets,
        Flat, Cids, Finished, ParseAll;
      ghost var head, rest := content[..dataStart], content[dataStart..];
      assert content[dataStart..|content|] == rest && content == head + rest;
      ghost var leaves: seq<Block>, known := FindLog(rest);
      OneLog(rest, leaves, known);
      var layerOffsets: seq<nat> := [dataStart, |content|];
      var ok := FirstLayer(dataStart, |content|);
      if !ok {
        assert !known;
        return BadLog;
      }
      ghost var done: seq<seq<Block>>, l := [leaves], Group(env, Cids(leaves));
      if known {
        FirstLayerDone(env, head, leaves);
      }
      while |nextLinks| > 1
        invariant |layerOffsets| >= 2 && |content| >= dataStart && Extends(old(content))
        invariant known ==> nextLinks == Cids(l) && content == head + Sections(Flat(done + [l]))
        invariant known ==> layerOffsets == LayerOffsets(dataStart, done + [l])
        invariant known && leaves != [] ==> l != [] && AllLayers(env, leaves) == done + TopLayers(env, l)
        invariant known && leaves == [] ==> l == []
        decreases |nextLinks|
      {
        ghost var before, prev := content, nextLinks;
        var curLinks := nextLinks;
        nextLinks := [];
        layerOffsets := layerOffsets + [|content|];
        NextLayer(curLinks);
        OnlyExtends(this, before, Group(env, curLinks));
        StillExtends(old(content), before, content);
        LayerSmaller(env, curLinks);
        if known {
          NextLayerDone(env, head, done, l, dataStart);
          done := done + [l];
          l := Group(env, Cids(l));
        }
      }
      if |nextLinks| != 1 {
        if known {
          NoRootCase(env, leaves, l);
        }
        return NoRoot;
      }
      var header := env.head(nextLinks[0]);
      if known {
        RootCase(env, head, leaves, done, l, dataStart);
      }
      if |header| != dataStart {
        return HeaderLength;
      }
      NewHeader(old(content), content, header);
      content := header + content[dataStart..];
      layerOffsets := [dataStart] + layerOffsets[1..];
      return Topped(content, layerOffsets);
    }
  }

  /** What a log of these leaves becomes. */
  function Finished(env: CarEnv, leaves: seq<Block>): TopResult {
    if leaves == [] then NoRoot
    else
      var ls := AllLayers(env, leaves);
      var header := env.head(Root(env, leaves).cid);
      Topped(header + Sections(Flat(ls)), LayerOffsets(|header|, ls))
  }

  function Root(env: CarEnv, leaves: seq<Block>): Block
    requires leaves != []
  {
    var ls := AllLayers(env, leaves);
    TopLayersEnd(env, leaves);
    ls[|ls| - 1][0]
  }

  lemma {:induction false} LastLayerIsOne(env: CarEnv, l: seq<Block>)
    requires l != []
    ensures
      var ls := TopLayers(env, l);
      |ls[|ls| - 1]| == 1
    decreases |l|
  {
    TopLayersChain(env, l);
  }

  lemma {:induction false} TopLayersEnd(env: CarEnv, leaves: seq<Block>)
    requires leaves != []
    ensures
      var ls := AllLayers(env, leaves);
      |ls| >= 2 && |ls[|ls| - 1]| == 1
  {
    GroupSize(env, Cids(leaves));
    LastLayerIsOne(env, Group(env, Cids(leaves)));
  }

  lemma {:induction false} FirstLayerDone(env: CarEnv, head: bytes, leaves: seq<Block>)
    ensures
      var l := Group(env, Cids(leaves));
      && head + Sections(leaves) + Sections(l) == head + Sections(Flat([leaves] + [l]))
      && [|head|, |head + Sections(leaves)|] == LayerOffsets(|head|, [leaves] + [l])
      && (leaves != [] ==> l != [] && AllLayers(env, leaves) == [leaves] + TopLayers(env, l))
      && (leaves == [] ==> l == [])
  {
    hide Sections, Group, LinkBlock, TopLayers, Cids;
    GroupSize(env, Cids(leaves));
    var l := Group(env, Cids(leaves));
    assert [] + [leaves] == [leaves] && [] + leaves == leaves;
    FlatSnoc([], leaves);
    FlatSnoc([leaves], l);
    SectionsConcat(leaves, l);
    ConcatAssoc(head, Sections(leaves), Sections(l));
    LayerOffsetsSnoc(|head|, [], leaves);
    LayerOffsetsSnoc(|head|, [leaves], l);
    SectionsNone();
  }

  lemma {:induction false} LayerSmaller(env: CarEnv, c: seq<Cid>)
    requires |c| > 1
    ensures |Cids(Group(env, c))| < |c|
  {
    GroupSize(env, c);
  }

  lemma {:induction false} NextLayerDone(env: CarEnv, head: bytes, done: seq<seq<Block>>, l: seq<Block>, base: nat)
    requires |Cids(l)| > 1 && base == |head|
    ensures
      var up := Group(env, Cids(l));
      var content := head + Sections(Flat(done + [l]));
      && up != []
      && content + Sections(up) == head + Sections(Flat(done + [l] + [up]))
      && LayerOffsets(base, done + [l]) + [|content|] == LayerOffsets(base, done + [l] + [up])
      && done + TopLayers(env, l) == done + [l] + TopLayers(env, up)
  {
    hide Sections, Group, LinkBlock, LayerOffsets, Flat;
    GroupSize(env, Cids(l));
    var up := Group(env, Cids(l));
    FlatSnoc(done + [l], up);
    SectionsConcat(Flat(done + [l]), up);
    ConcatAssoc(head, Sections(Flat(done + [l])), Sections(up));
    LayerOffsetsSnoc(base, done + [l], up);
    ConcatAssoc(done, [l], TopLayers(env, up));
  }

  lemma {:induction false} NoRootCase(env: CarEnv, leaves: seq<Block>, l: seq<Block>)
    requires |Cids(l)| == 0
    requires leaves != [] ==> l != []
    ensures Finished(env, leaves) == NoRoot
  {}

  lemma {:induction false} RootCase(env: CarEnv, head: bytes, leaves: seq<Block>, done: seq<seq<Block>>,
      l: seq<Block>, base: nat)
    requires env.Ok() && base == |head| && head == env.head(PlaceholderCid())
    requires |Cids(l)| == 1 && (leaves == [] ==> l == [])
    requires leaves != [] ==> AllLayers(env, leaves) == done + TopLayers(env, l)
    ensures leaves != []
    ensures
      var header := env.head(Cids(l)[0]);
      var content, offs := head + Sections(Flat(done + [l])), LayerOffsets(base, done + [l]);
      && |header| == base && |offs| > 0
      && Finished(env, leaves) == Topped(header + content[base..], [base] + offs[1..])
  {
    hide Sections, Group, LinkBlock, Flat, AllLayers;
    assert TopLayers(env, l) == [l];
    var ls := AllLayers(env, leaves);
    assert ls == done + [l];
    assert ls[|ls| - 1] == l;
    RootIsLink(env, leaves);
    assert Cids(l)[0] == Root(env, leaves).cid;
    assert (head + Sections(Flat(ls)))[base..] == Sections(Flat(ls));
    FirstOffset(base, ls);
  }

  lemma {:induction false} FirstOffset(base: nat, ls: seq<seq<Block>>)
    requires ls != []
    ensures [base] + LayerOffsets(base, ls)[1..] == LayerOffsets(base, ls)
  {
    if |ls| > 1 {
      FirstOffset(base, ls[..|ls| - 1]);
    }
  }

  lemma {:induction false} RootIsLink(env: CarEnv, leaves: seq<Block>)
    requires env.Ok() && leaves != []
    ensures |env.head(Root(env, leaves).cid)| == |env.head(PlaceholderCid())|
  {
    GroupSize(env, Cids(leaves));
    var up := Group(env, Cids(leaves));
    TopLayersChain(env, up);
    var ls := TopLayers(env, up);
    var below := if |ls| > 1 then ls[|ls| - 2] else leaves;
    assert ls[|ls| - 1] == Group(env, Cids(below));
    var c := Cids(below);
    GroupAt(env, c, 0);
    RootFitsPlaceholder(env, c[0..Min(ARITY, |c|)]);
    assert Root(env, leaves) == LinkBlock(env, c[0..Min(ARITY, |c|)]);
    assert |Root(env, leaves).cid.Encode()| == |PlaceholderCid().Encode()|;
  }
}
