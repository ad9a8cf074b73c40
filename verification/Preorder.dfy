/** Depth-first order of a block tree, and of the tree that layers stand for. */
module Preorder {
  import opened Bytes
  import opened Cars
  import opened TopTree

  datatype Tree = Tree(block: Block, kids: seq<Tree>)

  /** A node, then its children in order. */
  function Pre(f: seq<Tree>): seq<Block>
    decreases f
  {
    if f == [] then [] else [f[0].block] + Pre(f[0].kids) + Pre(f[1..])
  }

  /** The trees under positions lo..hi of layer k. */
  function Forest(ls: seq<seq<Block>>, k: nat, lo: nat, hi: nat): seq<Tree>
    requires k < |ls| && hi <= |ls[k]|
    decreases k, hi - lo
  {
    if lo >= hi then []
    else [Tree(ls[k][lo], Kids(ls, k, lo))] + Forest(ls, k, lo + 1, hi)
  }

  function Kids(ls: seq<seq<Block>>, k: nat, i: nat): seq<Tree>
    requires k < |ls| && i < |ls[k]|
    decreases k, 0
  {
    if k == 0 then []
    else Forest(ls, k - 1, i * ARITY, Min((i + 1) * ARITY, |ls[k - 1]|))
  }

  lemma {:induction false} PreConcat(a: seq<Tree>, b: seq<Tree>)
    ensures Pre(a + b) == Pre(a) + Pre(b)
    decreases |a|
  {
    if a == [] {
      assert a + b == b;
    } else {
      PreConcat(a[1..], b);
      assert (a + b)[1..] == a[1..] + b;
      ConcatAssoc([a[0].block] + Pre(a[0].kids), Pre(a[1..]), Pre(b));
    }
  }

  lemma {:induction false} PreStep(ls: seq<seq<Block>>, k: nat, lo: nat, hi: nat)
    requires k < |ls| && lo < hi <= |ls[k]|
    ensures Pre(Forest(ls, k, lo, hi)) == [ls[k][lo]] + Pre(Kids(ls, k, lo)) + Pre(Forest(ls, k, lo + 1, hi))
  {
    hide Kids;
    var t := Tree(ls[k][lo], Kids(ls, k, lo));
    assert Forest(ls, k, lo, hi)[1..] == Forest(ls, k, lo + 1, hi);
  }

  lemma {:induction false} ForestSplit(ls: seq<seq<Block>>, k: nat, lo: nat, mid: nat, hi: nat)
    requires k < |ls| && lo <= mid <= hi <= |ls[k]|
    ensures Forest(ls, k, lo, hi) == Forest(ls, k, lo, mid) + Forest(ls, k, mid, hi)
    decreases mid - lo
  {
    if lo < mid {
      ForestSplit(ls, k, lo + 1, mid, hi);
    }
  }

  // ---- which part of each layer a boundary corresponds to ----------------------------

  /** Position in layer j of the first block under position x of layer k. */
  function Boundary(ls: seq<seq<Block>>, k: nat, j: nat, x: nat): nat
    requires j <= k < |ls|
    decreases k
  {
    if j == k then x else Boundary(ls, k - 1, j, Min(x * ARITY, |ls[k - 1]|))
  }

  /** Consecutive layer sizes are a number of blocks and the number of its link blocks. */
  ghost predicate Sized(ls: seq<seq<Block>>) {
    forall k :: 0 < k < |ls| ==> |ls[k]| == Parents(|ls[k - 1]|)
  }

  lemma {:induction false} LayeredSized(env: CarEnv, ls: seq<seq<Block>>)
    requires Layered(env, ls)
    ensures Sized(ls)
  {
    hide Group;
    forall k | 0 < k < |ls|
      ensures |ls[k]| == Parents(|ls[k - 1]|)
    {
      GroupSize(env, Cids(ls[k - 1]));
    }
  }

  lemma {:induction false} BoundaryInRange(ls: seq<seq<Block>>, k: nat, j: nat, x: nat)
    requires j <= k < |ls| && x <= |ls[k]|
    ensures Boundary(ls, k, j, x) <= |ls[j]|
    decreases k
  {
    if j < k {
      BoundaryInRange(ls, k - 1, j, Min(x * ARITY, |ls[k - 1]|));
    }
  }

  lemma {:induction false} BoundaryMonotone(ls: seq<seq<Block>>, k: nat, j: nat, x: nat, y: nat)
    requires j <= k < |ls| && x <= y
    ensures Boundary(ls, k, j, x) <= Boundary(ls, k, j, y)
    decreases k
  {
    if j < k {
      BoundaryMonotone(ls, k - 1, j, Min(x * ARITY, |ls[k - 1]|), Min(y * ARITY, |ls[k - 1]|));
    }
  }

  /** The end of a layer lies over the end of every lower layer. */
  lemma {:induction false} BoundaryEnd(ls: seq<seq<Block>>, k: nat, j: nat)
    requires j <= k < |ls| && Sized(ls)
    ensures Boundary(ls, k, j, |ls[k]|) == |ls[j]|
    decreases k
  {
    if j < k {
      BoundaryEnd(ls, k - 1, j);
    }
  }

  lemma {:induction false} BoundaryStart(ls: seq<seq<Block>>, k: nat, j: nat)
    requires j <= k < |ls|
    ensures Boundary(ls, k, j, 0) == 0
    decreases k
  {
    if j < k {
      BoundaryStart(ls, k - 1, j);
    }
  }

  // ---- what the order contains --------------------------------------------------------

  /** The blocks of layers 0..k that lie under positions lo..hi of layer k. */
  ghost function Under(ls: seq<seq<Block>>, k: nat, lo: nat, hi: nat): multiset<Block>
    requires k < |ls| && lo <= hi <= |ls[k]|
    decreases k
  {
    multiset(ls[k][lo..hi]) +
    (if k == 0 then multiset{}
     else
       BoundaryMonotone(ls, k, k - 1, lo, hi);
       Under(ls, k - 1, Min(lo * ARITY, |ls[k - 1]|), Min(hi * ARITY, |ls[k - 1]|)))
  }

  lemma {:induction false} UnderSplit(ls: seq<seq<Block>>, k: nat, lo: nat, mid: nat, hi: nat)
    requires k < |ls| && lo <= mid <= hi <= |ls[k]|
    ensures Under(ls, k, lo, hi) == Under(ls, k, lo, mid) + Under(ls, k, mid, hi)
    decreases k
  {
    assert ls[k][lo..hi] == ls[k][lo..mid] + ls[k][mid..hi];
    if k > 0 {
      UnderSplit(ls, k - 1, Min(lo * ARITY, |ls[k - 1]|), Min(mid * ARITY, |ls[k - 1]|), Min(hi * ARITY, |ls[k - 1]|));
    }
  }

  /** Depth-first order visits each block under a range exactly once. */
  lemma {:induction false} PreVisits(ls: seq<seq<Block>>, k: nat, lo: nat, hi: nat)
    requires k < |ls| && lo <= hi <= |ls[k]| && Sized(ls)
    ensures multiset(Pre(Forest(ls, k, lo, hi))) == Under(ls, k, lo, hi)
    decreases k, hi - lo
  {
    if lo == hi {
      UnderNothing(ls, k, lo);
    } else {
      PreStep(ls, k, lo, hi);
      UnderSplit(ls, k, lo, lo + 1, hi);
      PreVisits(ls, k, lo + 1, hi);
      KidsVisit(ls, k, lo);
    }
  }

  lemma {:induction false} UnderNothing(ls: seq<seq<Block>>, k: nat, x: nat)
    requires k < |ls| && x <= |ls[k]|
    ensures Under(ls, k, x, x) == multiset{}
    decreases k
  {
    if k > 0 {
      UnderNothing(ls, k - 1, Min(x * ARITY, |ls[k - 1]|));
    }
  }

  lemma {:induction false} KidsVisit(ls: seq<seq<Block>>, k: nat, i: nat)
    requires k < |ls| && i < |ls[k]| && Sized(ls)
    ensures multiset([ls[k][i]] + Pre(Kids(ls, k, i))) == Under(ls, k, i, i + 1)
    decreases k, 0
  {
    assert ls[k][i..i + 1] == [ls[k][i]];
    if k > 0 {
      assert i * ARITY < |ls[k - 1]|;
      PreVisits(ls, k - 1, i * ARITY, Min((i + 1) * ARITY, |ls[k - 1]|));
    }
  }

  /** The raw blocks of a sequence, in order. */
  function Leaves(bs: seq<Block>): seq<Block> {
    if bs == [] then []
    else (if bs[0].cid.codec == RAW then [bs[0]] else []) + Leaves(bs[1..])
  }

  lemma {:induction false} LeavesConcat(a: seq<Block>, b: seq<Block>)
    ensures Leaves(a + b) == Leaves(a) + Leaves(b)
  {
    if a == [] {
      assert a + b == b;
    } else {
      LeavesConcat(a[1..], b);
      assert (a + b)[1..] == a[1..] + b;
      ConcatAssoc(if a[0].cid.codec == RAW then [a[0]] else [], Leaves(a[1..]), Leaves(b));
    }
  }

  /** Only the bottom layer is raw. */
  ghost predicate RawBottom(ls: seq<seq<Block>>) {
    && |ls| > 0
    && (forall i :: 0 <= i < |ls[0]| ==> ls[0][i].cid.codec == RAW)
    && (forall k, i :: 0 < k < |ls| && 0 <= i < |ls[k]| ==> ls[k][i].cid.codec != RAW)
  }

  lemma {:induction false} LayeredRawBottom(env: CarEnv, ls: seq<seq<Block>>)
    requires Layered(env, ls)
    ensures RawBottom(ls)
  {
    LayeredSized(env, ls);
    forall k, i | 0 < k < |ls| && 0 <= i < |ls[k]|
      ensures ls[k][i].cid.codec != RAW
    {
      hide Group;
      GroupAt(env, Cids(ls[k - 1]), i);
    }
  }

  /** Depth-first order keeps the leaves in log order. */
  lemma {:induction false} LeavesInOrder(ls: seq<seq<Block>>, k: nat, lo: nat, hi: nat)
    requires k < |ls| && lo <= hi <= |ls[k]| && Sized(ls) && RawBottom(ls)
    ensures Boundary(ls, k, 0, lo) <= Boundary(ls, k, 0, hi) <= |ls[0]|
    ensures Leaves(Pre(Forest(ls, k, lo, hi))) == ls[0][Boundary(ls, k, 0, lo)..Boundary(ls, k, 0, hi)]
    decreases k, hi - lo
  {
    hide Leaves, Pre, Forest, Kids, Boundary, RawBottom, Sized;
    BoundaryMonotone(ls, k, 0, lo, hi);
    BoundaryInRange(ls, k, 0, hi);
    if lo == hi {
      NothingInOrder(ls, k, lo);
    } else {
      PreStep(ls, k, lo, hi);
      LeavesInOrder(ls, k, lo + 1, hi);
      NodeLeaves(ls, k, lo);
      var a, m, z := Boundary(ls, k, 0, lo), Boundary(ls, k, 0, lo + 1), Boundary(ls, k, 0, hi);
      BoundaryMonotone(ls, k, 0, lo, lo + 1);
      BoundaryMonotone(ls, k, 0, lo + 1, hi);
      LeavesConcat([ls[k][lo]] + Pre(Kids(ls, k, lo)), Pre(Forest(ls, k, lo + 1, hi)));
      assert ls[0][a..z] == ls[0][a..m] + ls[0][m..z];
    }
  }

  lemma {:induction false} NothingInOrder(ls: seq<seq<Block>>, k: nat, x: nat)
    requires k < |ls| && x <= |ls[k]|
    ensures Leaves(Pre(Forest(ls, k, x, x))) == []
  {}

  lemma {:induction false} NodeLeaves(ls: seq<seq<Block>>, k: nat, i: nat)
    requires k < |ls| && i < |ls[k]| && Sized(ls) && RawBottom(ls)
    ensures Boundary(ls, k, 0, i) <= Boundary(ls, k, 0, i + 1) <= |ls[0]|
    ensures Leaves([ls[k][i]] + Pre(Kids(ls, k, i))) == ls[0][Boundary(ls, k, 0, i)..Boundary(ls, k, 0, i + 1)]
    decreases k, 0
  {
    BoundaryMonotone(ls, k, 0, i, i + 1);
    BoundaryInRange(ls, k, 0, i + 1);
    var b := [ls[k][i]];
    LeavesConcat(b, Pre(Kids(ls, k, i)));
    assert b[1..] == [];
    if k > 0 {
      assert i * ARITY < |ls[k - 1]|;
      LeavesInOrder(ls, k - 1, i * ARITY, Min((i + 1) * ARITY, |ls[k - 1]|));
    }
  }

  /** The canonical order of a finished log: each block of each layer once, leaves in log order. */
  function Canonical(ls: seq<seq<Block>>): seq<Block>
    requires |ls| > 0
  {
    Pre(Forest(ls, |ls| - 1, 0, |ls[|ls| - 1]|))
  }

  ghost function AllBlocks(ls: seq<seq<Block>>): multiset<Block> {
    if ls == [] then multiset{} else AllBlocks(ls[..|ls| - 1]) + multiset(ls[|ls| - 1])
  }

  lemma {:induction false} UnderAll(ls: seq<seq<Block>>, k: nat)
    requires k < |ls| && Sized(ls)
    ensures Under(ls, k, 0, |ls[k]|) == AllBlocks(ls[..k + 1])
    decreases k
  {
    assert ls[..k + 1][..k] == ls[..k];
    assert ls[k][0..|ls[k]|] == ls[k];
    if k > 0 {
      UnderAll(ls, k - 1);
    }
  }

  lemma {:induction false} CanonicalOrder(env: CarEnv, ls: seq<seq<Block>>)
    requires Layered(env, ls)
    ensures multiset(Canonical(ls)) == AllBlocks(ls)
    ensures Leaves(Canonical(ls)) == ls[0]
  {
    hide Group, Pre, Forest, Under, Boundary, Leaves;
    LayeredSized(env, ls);
    LayeredRawBottom(env, ls);
    var k := |ls| - 1;
    PreVisits(ls, k, 0, |ls[k]|);
    UnderAll(ls, k);
    assert ls[..k + 1] == ls;
    LeavesInOrder(ls, k, 0, |ls[k]|);
    BoundaryEnd(ls, k, 0);
    BoundaryStart(ls, k, 0);
    assert ls[0][0..|ls[0]|] == ls[0];
  }
}
