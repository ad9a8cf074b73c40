/** What the root CID of a log's tree says: it commits to the CIDs of the log, in order. */
module TreeCommits {
  import opened Bytes
  import opened Cars
  import opened LogRebuild
  import opened TopTree

  /** No two link blocks of these layers have the same digest and different bytes. */
  ghost predicate DigestsApart(env: CarEnv, a: seq<Block>, b: seq<Block>) {
    forall i, j :: 0 <= i < |a| && 0 <= j < |b| && env.sum(a[i].data) == env.sum(b[j].data) ==> a[i].data == b[j].data
  }

  ghost predicate TreesApart(env: CarEnv, a: seq<seq<Block>>, b: seq<seq<Block>>) {
    forall k, m :: 0 < k < |a| && 0 < m < |b| ==> DigestsApart(env, a[k], b[m])
  }

  lemma {:induction false} LinksCommit(env: CarEnv, a: seq<Cid>, b: seq<Cid>)
    requires env.Ok() && CidsOk(a) && CidsOk(b)
    requires DigestsApart(env, [LinkBlock(env, a)], [LinkBlock(env, b)])
    requires LinkBlock(env, a).cid == LinkBlock(env, b).cid
    ensures a == b
  {
    var x, y := [LinkBlock(env, a)], [LinkBlock(env, b)];
    assert x[0].data == y[0].data;
    assert env.dec(env.enc(a)) == Some(a) && env.dec(env.enc(b)) == Some(b);
  }

  /** A layer of link blocks determines the CIDs below it. */
  lemma {:induction false} LayerCommits(env: CarEnv, a: seq<Cid>, b: seq<Cid>)
    requires env.Ok() && CidsOk(a) && CidsOk(b)
    requires DigestsApart(env, Group(env, a), Group(env, b))
    requires Cids(Group(env, a)) == Cids(Group(env, b))
    ensures a == b
    decreases |a|
  {
    hide CarEnv.Ok, LinkBlock;
    GroupSize(env, a);
    GroupSize(env, b);
    if a != [] {
      var n, m := Min(ARITY, |a|), Min(ARITY, |b|);
      var x, y := Group(env, a), Group(env, b);
      assert x[0] == LinkBlock(env, a[..n]) && y[0] == LinkBlock(env, b[..m]);
      assert Cids(x)[0] == Cids(y)[0];
      LinksCommit(env, a[..n], b[..m]);
      assert x[1..] == Group(env, a[n..]) && y[1..] == Group(env, b[m..]);
      assert Cids(x[1..]) == Cids(x)[1..] && Cids(y[1..]) == Cids(y)[1..];
      LayerCommits(env, a[n..], b[m..]);
      assert a == a[..n] + a[n..] && b == b[..m] + b[m..];
    }
  }

  /** From the root down, the layers of two trees with the same root have the same CIDs. */
  lemma {:induction false} SameFromTop(env: CarEnv, a: seq<seq<Block>>, b: seq<seq<Block>>, j: nat)
    requires env.Ok() && Layered(env, a) && Layered(env, b) && TreesApart(env, a, b)
    requires a[|a| - 1][0].cid == b[|b| - 1][0].cid && j < |a| && j < |b|
    ensures Cids(a[|a| - 1 - j]) == Cids(b[|b| - 1 - j])
  {
    hide CarEnv.Ok, Group, DigestsApart, AllOk;
    if j > 0 {
      SameFromTop(env, a, b, j - 1);
      var k, m := |a| - j, |b| - j;
      assert a[k] == Group(env, Cids(a[k - 1])) && b[m] == Group(env, Cids(b[m - 1]));
      CidsOfOk(a[k - 1]);
      CidsOfOk(b[m - 1]);
      LayerCommits(env, Cids(a[k - 1]), Cids(b[m - 1]));
    }
  }

  /** Above the leaves there are only links. */
  lemma {:induction false} LinksAbove(env: CarEnv, ls: seq<seq<Block>>, k: nat)
    requires Layered(env, ls) && 0 < k < |ls|
    ensures Cids(ls[k]) != [] && Cids(ls[k])[0].codec == DAG_CBOR
  {
    GroupAt(env, Cids(ls[k - 1]), 0);
  }

  /** Two finished logs with the same root have the same number of layers and the same leaf CIDs, in the same
      order, if the digests of their link blocks do not collide. */
  lemma {:induction false} RootCommits(env: CarEnv, a: seq<seq<Block>>, b: seq<seq<Block>>)
    requires env.Ok() && Layered(env, a) && Layered(env, b) && TreesApart(env, a, b)
    requires a[|a| - 1][0].cid == b[|b| - 1][0].cid
    ensures |a| == |b| && Cids(a[0]) == Cids(b[0])
  {
    hide CarEnv.Ok, Group, AllOk, DigestsApart, Layered;
    NotEmpty(env, a);
    NotEmpty(env, b);
    if |a| < |b| {
      LinksAbove(env, b, |b| - |a|);
      SameFromTop(env, a, b, |a| - 1);
    } else if |b| < |a| {
      LinksAbove(env, a, |a| - |b|);
      SameFromTop(env, a, b, |b| - 1);
    } else {
      SameFromTop(env, a, b, |a| - 1);
    }
  }

  lemma {:induction false} NotEmpty(env: CarEnv, ls: seq<seq<Block>>)
    requires Layered(env, ls)
    ensures |ls| >= 2 && Cids(ls[0]) != [] && Cids(ls[0])[0].codec == RAW
  {}
}
