/** The wide tree above a finished log: link blocks of at most 2048 CIDs, layer by layer, and the
    depth-first order of the canonical CAR. */
module TopTree {
  import opened Bytes
  import opened Cars
  import opened LogRebuild

  const ARITY := 2048

  predicate CidsOk(c: seq<Cid>) { forall i :: 0 <= i < |c| ==> c[i].Ok() }

  /** DAG-CBOR encoding of a list of links, SHA-256, and the CARv1 header, kept abstract. */
  datatype CarEnv = CarEnv(enc: seq<Cid> -> bytes, dec: bytes -> Option<seq<Cid>>, sum: bytes -> bytes,
      head: Cid -> bytes) {
    /** What those libraries promise: links decode to what was encoded, digests have 32 bytes,
        link blocks fit a section, and a header's length depends only on its root's length. */
    ghost predicate Ok() {
      && (forall l {:trigger enc(l)} :: CidsOk(l) ==> dec(enc(l)) == Some(l))
      && (forall l {:trigger enc(l)} :: |l| <= ARITY && CidsOk(l) ==> |enc(l)| <= 0x40_0000)
      && (forall b {:trigger sum(b)} :: |sum(b)| == 32)
      && (forall a: Cid, b: Cid {:trigger head(a), head(b)} ::
            |a.Encode()| == |b.Encode()| ==> |head(a)| == |head(b)|)
    }
  }

  function LinkBlock(env: CarEnv, links: seq<Cid>): Block {
    Block(Cid(DAG_CBOR, Multihash(SHA2_256, env.sum(env.enc(links)))), env.enc(links))
  }

  lemma {:induction false} LinkBlockOk(env: CarEnv, links: seq<Cid>)
    requires env.Ok() && |links| <= ARITY && CidsOk(links)
    ensures LinkBlock(env, links).Ok()
  {
    hide Cid.Encode;
    var b := LinkBlock(env, links);
    assert |env.sum(env.enc(links))| == 32;
    CidLength(b.cid);
  }

  function Min(a: nat, b: nat): nat { if a <= b then a else b }

  function Cids(bs: seq<Block>): (c: seq<Cid>)
    ensures |c| == |bs| && forall i :: 0 <= i < |bs| ==> c[i] == bs[i].cid
  {
    seq(|bs|, i requires 0 <= i < |bs| => bs[i].cid)
  }

  /** One layer of link blocks over a list of CIDs. */
  function Group(env: CarEnv, c: seq<Cid>): seq<Block>
    decreases |c|
  {
    if c == [] then []
    else
      var n := Min(ARITY, |c|);
      [LinkBlock(env, c[..n])] + Group(env, c[n..])
  }

  /** ceil(n / ARITY) */
  function Parents(n: nat): nat { (n + ARITY - 1) / ARITY }

  lemma {:induction false} GroupSize(env: CarEnv, c: seq<Cid>)
    ensures |Group(env, c)| == Parents(|c|)
    decreases |c|
  {
    if c != [] {
      GroupSize(env, c[Min(ARITY, |c|)..]);
    }
  }

  /** Link block i holds the i-th run of 2048 CIDs. */
  lemma {:induction false} GroupAt(env: CarEnv, c: seq<Cid>, i: nat)
    requires i < Parents(|c|)
    ensures |Group(env, c)| == Parents(|c|)
    ensures i * ARITY < |c|
    ensures Group(env, c)[i] == LinkBlock(env, c[i * ARITY..Min((i + 1) * ARITY, |c|)])
    decreases |c|
  {
    GroupSize(env, c);
    var n := Min(ARITY, |c|);
    if i > 0 {
      var rest := c[n..];
      assert n == ARITY;
      GroupAt(env, rest, i - 1);
      var lo, hi := (i - 1) * ARITY, Min(i * ARITY, |rest|);
      assert c[n..|c|] == rest;
      SliceOfSlice(c, n, |c|, lo, hi);
      assert n + hi == Min((i + 1) * ARITY, |c|);
    }
  }

  /** Appending CIDs one by one: a full run closes a link block. */
  lemma {:induction false} GroupConcat(env: CarEnv, a: seq<Cid>, b: seq<Cid>)
    requires |a| % ARITY == 0
    ensures Group(env, a + b) == Group(env, a) + Group(env, b)
    decreases |a|
  {
    hide LinkBlock;
    if a == [] {
      assert a + b == b;
    } else {
      GroupConcat(env, a[ARITY..], b);
      assert (a + b)[..ARITY] == a[..ARITY];
      assert (a + b)[ARITY..] == a[ARITY..] + b;
      ConcatAssoc([LinkBlock(env, a[..ARITY])], Group(env, a[ARITY..]), Group(env, b));
    }
  }

  lemma {:induction false} GroupOne(env: CarEnv, c: seq<Cid>)
    requires 0 < |c| <= ARITY
    ensures Group(env, c) == [LinkBlock(env, c)]
  {
    assert c[..|c|] == c;
  }

  /** The layers above and including l, up to a layer of one block. */
  function TopLayers(env: CarEnv, l: seq<Block>): (ls: seq<seq<Block>>)
    requires l != []
    ensures |ls| > 0 && ls[0] == l
    decreases |l|
  {
    if |l| == 1 then [l]
    else
      GroupSize(env, Cids(l));
      [l] + TopLayers(env, Group(env, Cids(l)))
  }

  /** All layers of a log: its blocks, then at least one layer of link blocks. */
  function AllLayers(env: CarEnv, leaves: seq<Block>): seq<seq<Block>>
    requires leaves != []
  {
    GroupSize(env, Cids(leaves));
    [leaves] + TopLayers(env, Group(env, Cids(leaves)))
  }

  /** Layers as genTopCar leaves them: raw leaves, each layer the links of the one below, one root. */
  ghost predicate Layered(env: CarEnv, ls: seq<seq<Block>>) {
    && |ls| >= 2 && |ls[|ls| - 1]| == 1
    && (forall k :: 0 <= k < |ls| ==> ls[k] != [] && AllOk(ls[k]))
    && (forall i :: 0 <= i < |ls[0]| ==> ls[0][i].cid.codec == RAW)
    && (forall k :: 0 < k < |ls| ==> ls[k] == Group(env, Cids(ls[k - 1])))
  }

  lemma {:induction false} CidsOfOk(bs: seq<Block>)
    requires AllOk(bs)
    ensures CidsOk(Cids(bs))
  {
    forall i | 0 <= i < |bs|
      ensures bs[i].cid.Ok()
    {
      assert bs[i].Ok();
    }
  }

  /** Link blocks over valid CIDs fit a section. */
  lemma {:induction false} GroupOk(env: CarEnv, bs: seq<Block>)
    requires env.Ok() && AllOk(bs)
    ensures AllOk(Group(env, Cids(bs)))
  {
    hide Group, Block.Ok, CarEnv.Ok, LinkBlock;
    var c := Cids(bs);
    CidsOfOk(bs);
    GroupSize(env, c);
    forall i | 0 <= i < |Group(env, c)|
      ensures Group(env, c)[i].Ok()
    {
      GroupAt(env, c, i);
      LinkBlockOk(env, c[i * ARITY..Min((i + 1) * ARITY, |c|)]);
    }
  }

  lemma {:induction false} TopLayersChain(env: CarEnv, l: seq<Block>)
    requires l != []
    ensures
      var ls := TopLayers(env, l);
      && |ls[|ls| - 1]| == 1
      && (forall k :: 0 <= k < |ls| ==> ls[k] != [])
      && (forall k :: 0 < k < |ls| ==> ls[k] == Group(env, Cids(ls[k - 1])))
    decreases |l|
  {
    hide Group;
    if |l| > 1 {
      GroupSize(env, Cids(l));
      var up := Group(env, Cids(l));
      TopLayersChain(env, up);
      var rest, ls := TopLayers(env, up), TopLayers(env, l);
      assert forall k :: 0 < k < |ls| ==> ls[k] == rest[k - 1];
    }
  }

  lemma {:induction false} TopLayersOk(env: CarEnv, l: seq<Block>)
    requires l != [] && env.Ok() && AllOk(l)
    ensures forall k :: 0 <= k < |TopLayers(env, l)| ==> AllOk(TopLayers(env, l)[k])
    decreases |l|
  {
    hide Group, AllOk, CarEnv.Ok;
    if |l| > 1 {
      GroupSize(env, Cids(l));
      GroupOk(env, l);
      var up := Group(env, Cids(l));
      TopLayersOk(env, up);
      var rest, ls := TopLayers(env, up), TopLayers(env, l);
      assert forall k :: 0 < k < |ls| ==> ls[k] == rest[k - 1];
    }
  }

  lemma {:induction false} AllLayersLayered(env: CarEnv, leaves: seq<Block>)
    requires leaves != [] && env.Ok() && AllOk(leaves)
    requires forall i :: 0 <= i < |leaves| ==> leaves[i].cid.codec == RAW
    ensures Layered(env, AllLayers(env, leaves))
  {
    hide Group, Block.Ok, CarEnv.Ok;
    GroupSize(env, Cids(leaves));
    var up := Group(env, Cids(leaves));
    GroupOk(env, leaves);
    TopLayersChain(env, up);
    TopLayersOk(env, up);
    var rest, ls := TopLayers(env, up), AllLayers(env, leaves);
    assert forall k :: 0 < k < |ls| ==> ls[k] == rest[k - 1];
  }

  // ---- how many layers ------------------------------------------------------------

  ghost function Pow2048(n: nat): (p: nat)
    ensures p > 0
  {
    if n == 0 then 1 else ARITY * Pow2048(n - 1)
  }

  lemma {:induction false} LayerCount(env: CarEnv, l: seq<Block>, d: nat)
    requires l != [] && |l| <= Pow2048(d)
    ensures |TopLayers(env, l)| <= d + 1
    decreases d
  {
    if |l| > 1 {
      GroupSize(env, Cids(l));
      assert d > 0;
      LayerCount(env, Group(env, Cids(l)), d - 1);
    }
  }

  /** Any log of fewer than 2^63 blocks has at most 7 layers, so a Head has room for them. */
  lemma {:induction false} AtMostSevenLayers(env: CarEnv, leaves: seq<Block>)
    requires 0 < |leaves| < TWO_63
    ensures |AllLayers(env, leaves)| <= 7
  {
    GroupSize(env, Cids(leaves));
    assert Pow2048(5) == 0x80_0000_0000_0000 by {
      assert Pow2048(3) == 0x2_0000_0000;
    }
    assert Parents(|leaves|) <= 0x10_0000_0000_0000;
    LayerCount(env, Group(env, Cids(leaves)), 5);
  }

  // ---- the libraries' promises can be kept --------------------------------------------------

  ghost function CidsBytes(l: seq<Cid>): bytes { if l == [] then [] else l[0].Encode() + CidsBytes(l[1..]) }

  lemma {:induction false} CidsBytesInjective(a: seq<Cid>, b: seq<Cid>)
    requires CidsOk(a) && CidsOk(b) && CidsBytes(a) == CidsBytes(b)
    ensures a == b
    decreases |a|
  {
    hide Cid.Encode, ParseCid;
    if a != [] && b != [] {
      CidRoundTrip(a[0], CidsBytes(a[1..]));
      CidRoundTrip(b[0], CidsBytes(b[1..]));
      assert a[0] == b[0];
      assert CidsBytes(a)[|a[0].Encode()|..] == CidsBytes(a[1..]);
      assert CidsBytes(b)[|b[0].Encode()|..] == CidsBytes(b[1..]);
      CidsBytesInjective(a[1..], b[1..]);
      assert a == [a[0]] + a[1..] && b == [b[0]] + b[1..];
    }
  }

  lemma {:induction false} CidsBytesSize(l: seq<Cid>)
    requires CidsOk(l)
    ensures |CidsBytes(l)| <= 160 * |l|
  {
    hide Cid.Encode;
    if l != [] {
      CidLength(l[0]);
      CidsBytesSize(l[1..]);
    }
  }

  ghost function CidsOf(b: bytes): Option<seq<Cid>> {
    if exists l :: CidsOk(l) && CidsBytes(l) == b then
      var l :| CidsOk(l) && CidsBytes(l) == b;
      Some(l)
    else None
  }

  /** Some encoding, decoding, digest and header functions do what CarEnv.Ok asks of them. */
  lemma {:induction false} EnvExists() returns (env: CarEnv)
    ensures env.Ok()
  {
    env := CarEnv(l => CidsBytes(l), b => CidsOf(b), b => Zeros(32), c => []);
    forall l {:trigger env.enc(l)} | CidsOk(l)
      ensures env.dec(env.enc(l)) == Some(l)
      ensures |l| <= ARITY ==> |env.enc(l)| <= 0x40_0000
    {
      var found := CidsOf(CidsBytes(l));
      CidsBytesInjective(l, found.value);
      CidsBytesSize(l);
    }
  }
}
