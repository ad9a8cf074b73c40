/** WriteCar: the layer-ordered log read through one cursor per layer and written depth first. */
module WriteCar {
  import opened Bytes
  import opened Cars
  import opened LogRebuild
  import opened TopTree
  import opened Preorder
  import opened TopCar

  /** Offset in the file of block x of layer j. */
  function At(ls: seq<seq<Block>>, offs: seq<nat>, j: nat, x: nat): nat
    requires j < |ls| == |offs| && x <= |ls[j]|
  {
    offs[j] + |Sections(ls[j][..x])|
  }

  /** Every layer's sections are in the file, from its offset on. */
  ghost predicate FileHolds(file: bytes, ls: seq<seq<Block>>, offs: seq<nat>) {
    && |offs| == |ls|
    && forall j :: 0 <= j < |ls| ==>
         && AllOk(ls[j])
         && offs[j] + |Sections(ls[j])| <= |file|
         && file[offs[j]..offs[j] + |Sections(ls[j])|] == Sections(ls[j])
  }

  /** A finished log: layers as genTopCar builds them, in place in the file. */
  ghost predicate Good(env: CarEnv, file: bytes, ls: seq<seq<Block>>, offs: seq<nat>) {
    env.Ok() && Layered(env, ls) && |offs| == |ls| && FileHolds(file, ls, offs)
  }

  lemma {:induction false} ReadsBlock(file: bytes, ls: seq<seq<Block>>, offs: seq<nat>, j: nat, x: nat)
    requires FileHolds(file, ls, offs) && j < |ls| && x < |ls[j]|
    ensures At(ls, offs, j, x) <= |file|
    ensures
      var b := ls[j][x];
      && ReadNode(file[At(ls, offs, j, x)..]) == Some((b, |b.Section()|))
      && At(ls, offs, j, x) + |b.Section()| == At(ls, offs, j, x + 1)
  {
    hide Sections, Block.Section, ReadNode, Block.Ok;
    var l, b := ls[j], ls[j][x];
    SectionsAt(l, x);
    assert l[..x + 1] == l[..x] + [b];
    SectionsSnoc(l[..x], b);
    assert b.Ok();
    var p, e := At(ls, offs, j, x), offs[j] + |Sections(l)|;
    var rest := Sections(l[x + 1..]) + file[e..];
    Remainder(file, offs[j], e, Sections(l[..x]), b.Section(), Sections(l[x + 1..]));
    SectionRoundTrip(b, rest);
  }

  lemma {:induction false} Remainder(file: bytes, o: nat, e: nat, a: bytes, b: bytes, c: bytes)
    requires o <= e <= |file| && file[o..e] == a + b + c
    ensures file[o + |a|..] == b + (c + file[e..])
  {
    assert file[o..] == file[o..e] + file[e..];
    assert file[o + |a|..] == file[o..][|a|..];
  }

  /** All cursors up to layer k stand at the boundary x of layer k. */
  ghost predicate CursorAt(pos: seq<nat>, ls: seq<seq<Block>>, offs: seq<nat>, k: nat, x: nat)
    requires k < |ls| == |offs|
  {
    && |pos| == |ls| && x <= |ls[k]|
    && forall j :: 0 <= j <= k ==>
         Boundary(ls, k, j, x) <= |ls[j]| && pos[j] == At(ls, offs, j, Boundary(ls, k, j, x))
  }

  /** The cursors below layer k stand at the boundary x of layer k. */
  ghost predicate CursorUnder(pos: seq<nat>, ls: seq<seq<Block>>, offs: seq<nat>, k: nat, x: nat)
    requires k < |ls| == |offs|
  {
    |pos| == |ls| && x <= |ls[k]| && (k > 0 ==> CursorAt(pos, ls, offs, k - 1, Min(x * ARITY, |ls[k - 1]|)))
  }

  /** Moving the cursor of layer k leaves those below it where they are. */
  lemma {:induction false} CursorUnderStable(pos: seq<nat>, pos': seq<nat>, ls: seq<seq<Block>>, offs: seq<nat>,
      k: nat, x: nat)
    requires k < |ls| == |offs| && CursorUnder(pos, ls, offs, k, x)
    requires |pos'| == |pos| && forall j :: 0 <= j < |pos| && j != k ==> pos'[j] == pos[j]
    ensures CursorUnder(pos', ls, offs, k, x)
  {
    hide Boundary, At;
  }

  class CarWriter {
    const env: CarEnv
    const file: bytes
    var pos: seq<nat>   // one read cursor a layer
    var out: bytes

    constructor (env: CarEnv, file: bytes, layerOffsets: seq<nat>)
      ensures this.env == env && this.file == file && pos == layerOffsets && out == []
    {
      this.env := env;
      this.file := file;
      pos := layerOffsets;
      out := [];
    }

    /** carutil.ReadNode on one layer's reader. */
    method ReadLayer(j: nat) returns (r: Option<Block>)
      requires j < |pos|
      modifies this`pos
      ensures |pos| == |old(pos)| && forall i :: 0 <= i < |pos| && i != j ==> pos[i] == old(pos)[i]
      ensures
        var p := old(pos)[j];
        if p > |file| || ReadNode(file[p..]).None? then r == None
        else
          var (b, n) := ReadNode(file[p..]).value;
          r == Some(b) && pos[j] == p + n
    {
      if pos[j] > |file| {
        return None;
      }
      var node := ReadNode(file[pos[j]..]);
      if node.None? {
        return None;
      }
      pos := pos[j := pos[j] + node.value.1];
      return Some(node.value.0);
    }

    /** writeNode: the block itself, then its links read in order from the layer below. */
    method WriteNode(b: Block, atLayer: nat, ghost ls: seq<seq<Block>>, ghost offs: seq<nat>,
        ghost i: nat) returns (ok: bool)
      requires atLayer < |pos|
      modifies this
      ensures |pos| == |old(pos)| && forall j :: atLayer <= j < |pos| ==> pos[j] == old(pos)[j]
      ensures
        Good(env, file, ls, offs) && atLayer < |ls| && i < |ls[atLayer]| && b == ls[atLayer][i]
        && old(CursorUnder(pos, ls, offs, atLayer, i)) ==>
          && ok && CursorUnder(pos, ls, offs, atLayer, i + 1)
          && out == old(out) + Sections([b] + Pre(Kids(ls, atLayer, i)))
      decreases atLayer
    {
      hide Sections, Block.Section, ReadNode, CursorAt, Pre, Kids, Forest, Boundary, Group, FileHolds,
        CarEnv.Ok, Layered, At;
      ghost var good :=
        Good(env, file, ls, offs) && atLayer < |ls| && i < |ls[atLayer]| && b == ls[atLayer][i]
        && CursorUnder(pos, ls, offs, atLayer, i);
      out := out + b.Section();
      if good {
        SectionsOne(b);
        LeafOrLink(env, ls, atLayer, i);
      }
      if b.cid.codec == RAW {
        if good {
          LeafAlone(ls, i);
        }
        return true;
      }
      var links := env.dec(b.data);
      if links.None? || atLayer == 0 {
        return false;
      }
      ghost var lo, start := i * ARITY, out;
      if good {
        EmptyForest(ls, atLayer - 1, lo, start);
      }
      var t := 0;
      while t < |links.value|
        invariant 0 <= t <= |links.value| && |pos| == |old(pos)|
        invariant forall j :: atLayer <= j < |pos| ==> pos[j] == old(pos)[j]
        invariant good ==>
                    && lo + t <= |ls[atLayer - 1]|
                    && CursorAt(pos, ls, offs, atLayer - 1, lo + t)
                    && out == start + Sections(Pre(Forest(ls, atLayer - 1, lo, lo + t)))
      {
        ghost var x := lo + t;
        if good {
          CursorReads(env, file, pos, ls, offs, atLayer - 1, x);
        }
        ghost var before := pos;
        var node := ReadLayer(atLayer - 1);
        if node.None? || node.value.cid != links.value[t] {
          return false;
        }
        if good {
          CursorUnderStable(before, pos, ls, offs, atLayer - 1, x);
        }
        var done := WriteNode(node.value, atLayer - 1, ls, offs, x);
        if !done {
          return false;
        }
        if good {
          CursorAdvanced(pos, ls, offs, atLayer - 1, x);
          OneMoreTree(ls, atLayer - 1, lo, x, start);
        }
        t := t + 1;
      }
      if good {
        KidsAre(ls, atLayer, i);
        SectionsConcat([b], Pre(Kids(ls, atLayer, i)));
        ConcatAssoc(old(out), b.Section(), Sections(Pre(Kids(ls, atLayer, i))));
      }
      return true;
    }
  }

  /** What the cursor of layer k reads; the cursors below stand where block x's children start. */
  lemma {:induction false} CursorReads(env: CarEnv, file: bytes, pos: seq<nat>, ls: seq<seq<Block>>,
      offs: seq<nat>, k: nat, x: nat)
    requires Good(env, file, ls, offs) && k < |ls| && x < |ls[k]| && CursorAt(pos, ls, offs, k, x)
    ensures pos[k] == At(ls, offs, k, x) <= |file|
    ensures ReadNode(file[pos[k]..]) == Some((ls[k][x], |ls[k][x].Section()|))
    ensures At(ls, offs, k, x) + |ls[k][x].Section()| == At(ls, offs, k, x + 1)
    ensures CursorUnder(pos, ls, offs, k, x)
  {
    hide Sections, Block.Section, ReadNode, Group, FileHolds, CarEnv.Ok, At;
    ReadsBlock(file, ls, offs, k, x);
    assert Boundary(ls, k, k, x) == x;
    if k > 0 {
      forall j | 0 <= j <= k - 1
        ensures Boundary(ls, k - 1, j, Min(x * ARITY, |ls[k - 1]|)) == Boundary(ls, k, j, x)
      {}
    }
  }

  lemma {:induction false} CursorAdvanced(pos: seq<nat>, ls: seq<seq<Block>>, offs: seq<nat>, k: nat, x: nat)
    requires k < |ls| == |offs| && x < |ls[k]| && CursorUnder(pos, ls, offs, k, x + 1)
    requires pos[k] == At(ls, offs, k, x + 1)
    ensures CursorAt(pos, ls, offs, k, x + 1)
  {
    hide Sections, At;
    forall j | 0 <= j <= k
      ensures Boundary(ls, k, j, x + 1) <= |ls[j]| && pos[j] == At(ls, offs, j, Boundary(ls, k, j, x + 1))
    {
      if j < k {
        assert Boundary(ls, k, j, x + 1) == Boundary(ls, k - 1, j, Min((x + 1) * ARITY, |ls[k - 1]|));
      }
    }
  }

  /** A node's codec tells its layer, and a link block decodes to its children's CIDs. */
  lemma {:induction false} LeafOrLink(env: CarEnv, ls: seq<seq<Block>>, k: nat, i: nat)
    requires env.Ok() && Layered(env, ls) && k < |ls| && i < |ls[k]|
    ensures ls[k][i].cid.codec == RAW <==> k == 0
    ensures k > 0 ==>
              var n := |ls[k - 1]|;
              var links := env.dec(ls[k][i].data);
              && i * ARITY < n && links.Some?
              && |links.value| == Min((i + 1) * ARITY, n) - i * ARITY
              && forall t :: 0 <= t < |links.value| ==> links.value[t] == ls[k - 1][i * ARITY + t].cid
  {
    if k > 0 {
      hide Group;
      var c := Cids(ls[k - 1]);
      GroupSize(env, c);
      GroupAt(env, c, i);
      var links := c[i * ARITY..Min((i + 1) * ARITY, |c|)];
      assert ls[k][i] == LinkBlock(env, links);
    }
  }

  lemma {:induction false} LeafAlone(ls: seq<seq<Block>>, i: nat)
    requires |ls| > 0 && i < |ls[0]|
    ensures [ls[0][i]] + Pre(Kids(ls, 0, i)) == [ls[0][i]]
  {}

  lemma {:induction false} EmptyForest(ls: seq<seq<Block>>, k: nat, lo: nat, start: bytes)
    requires k < |ls| && lo <= |ls[k]|
    ensures start == start + Sections(Pre(Forest(ls, k, lo, lo)))
  {}

  lemma {:induction false} KidsAre(ls: seq<seq<Block>>, k: nat, i: nat)
    requires 0 < k < |ls| && i < |ls[k]|
    ensures Kids(ls, k, i) == Forest(ls, k - 1, i * ARITY, Min((i + 1) * ARITY, |ls[k - 1]|))
  {}

  lemma {:induction false} OneMoreTree(ls: seq<seq<Block>>, k: nat, lo: nat, x: nat, start: bytes)
    requires k < |ls| && lo <= x < |ls[k]|
    ensures start + Sections(Pre(Forest(ls, k, lo, x))) + Sections([ls[k][x]] + Pre(Kids(ls, k, x)))
         == start + Sections(Pre(Forest(ls, k, lo, x + 1)))
  {
    hide Sections, Kids;
    ForestSplit(ls, k, lo, x, x + 1);
    PreConcat(Forest(ls, k, lo, x), Forest(ls, k, x, x + 1));
    PreStep(ls, k, x, x + 1);
    assert Forest(ls, k, x + 1, x + 1) == [] && Pre([]) == [];
    var a, b := Pre(Forest(ls, k, lo, x)), [ls[k][x]] + Pre(Kids(ls, k, x));
    assert b + [] == b;
    SectionsConcat(a, b);
    ConcatAssoc(start, Sections(a), Sections(b));
  }

  // ---- the whole CAR ----------------------------------------------------------------

  function RootOf(ls: seq<seq<Block>>): Block
    requires |ls| > 0 && |ls[|ls| - 1]| > 0
  {
    ls[|ls| - 1][0]
  }

  /** The canonical CAR of a layered log: header, then every section in depth-first order. */
  function CanonicalCar(env: CarEnv, ls: seq<seq<Block>>): bytes
    requires |ls| > 0 && |ls[|ls| - 1]| > 0
  {
    env.head(RootOf(ls).cid) + Sections(Canonical(ls))
  }

  /** WriteCar. None stands for its errors: no layers, an unreadable root, a node that does not
      read or does not have the CID its parent links. On a finished log with layers ls none of
      them occurs, and every layer below the root is read exactly to its end. */
  method Write(env: CarEnv, file: bytes, layerOffsets: seq<nat>, ghost ls: seq<seq<Block>>)
    returns (r: Option<(bytes, Cid)>, pos: seq<nat>)
    ensures |pos| == |layerOffsets|
    ensures Good(env, file, ls, layerOffsets) ==>
              && r == Some((CanonicalCar(env, ls), RootOf(ls).cid))
              && forall j :: 0 <= j < |ls| - 1 ==> pos[j] == layerOffsets[j] + |Sections(ls[j])|
  {
    hide Sections, Canonical, CursorUnder, Layered, FileHolds, ReadNode, Block.Section, CarEnv.Ok, Kids, Pre;
    ghost var good := Good(env, file, ls, layerOffsets);
    if good {
      RootReads(env, file, ls, layerOffsets);
    }
    if |layerOffsets| == 0 {
      return None, layerOffsets;
    }
    var w := new CarWriter(env, file, layerOffsets);
    var top := |layerOffsets| - 1;
    var root := w.ReadLayer(top);
    if root.None? {
      return None, w.pos;
    }
    var rcid := root.value.cid;
    w.out := w.out + env.head(rcid);
    w.pos := w.pos[top := layerOffsets[top]];
    assert w.pos == layerOffsets;
    var ok := w.WriteNode(root.value, top, ls, layerOffsets, 0);
    if good {
      AtTheEnd(env, w.pos, ls, layerOffsets);
    }
    if !ok {
      return None, w.pos;
    }
    return Some((w.out, rcid)), w.pos;
  }

  lemma {:induction false} RootReads(env: CarEnv, file: bytes, ls: seq<seq<Block>>, offs: seq<nat>)
    requires Good(env, file, ls, offs)
    ensures |offs| == |ls| > 1 && |ls[|ls| - 1]| == 1
    ensures
      var top := |ls| - 1;
      && offs[top] <= |file|
      && ReadNode(file[offs[top]..]) == Some((RootOf(ls), |RootOf(ls).Section()|))
      && [] + env.head(RootOf(ls).cid) == env.head(RootOf(ls).cid)
      && [RootOf(ls)] + Pre(Kids(ls, top, 0)) == Canonical(ls)
    ensures CursorUnder(offs, ls, offs, |ls| - 1, 0)
  {
    hide Sections, ReadNode, Block.Section, CarEnv.Ok, Group, FileHolds, Canonical, CursorUnder, Pre, Kids;
    var top := |ls| - 1;
    ReadsBlock(file, ls, offs, top, 0);
    EmptyPrefix(ls, top);
    RootPre(ls);
    StartCursors(ls, offs);
  }

  lemma {:induction false} RootPre(ls: seq<seq<Block>>)
    requires |ls| > 0 && |ls[|ls| - 1]| == 1
    ensures [RootOf(ls)] + Pre(Kids(ls, |ls| - 1, 0)) == Canonical(ls)
  {
    hide Pre, Kids, Forest;
    var top := |ls| - 1;
    PreStep(ls, top, 0, 1);
    NoMore(ls, top, [RootOf(ls)] + Pre(Kids(ls, top, 0)));
  }

  /** Fresh readers stand at the start of their layers. */
  lemma {:induction false} StartCursors(ls: seq<seq<Block>>, offs: seq<nat>)
    requires |ls| == |offs| > 1
    ensures CursorUnder(offs, ls, offs, |ls| - 1, 0)
  {
    hide Sections, Boundary;
    var top := |ls| - 1;
    assert Min(0 * ARITY, |ls[top - 1]|) == 0;
    forall j | 0 <= j <= top - 1
      ensures Boundary(ls, top - 1, j, 0) <= |ls[j]| && offs[j] == At(ls, offs, j, Boundary(ls, top - 1, j, 0))
    {
      BoundaryStart(ls, top - 1, j);
      EmptyPrefix(ls, j);
    }
  }

  lemma {:induction false} NoMore(ls: seq<seq<Block>>, k: nat, p: seq<Block>)
    requires k < |ls| && |ls[k]| == 1
    ensures p + Pre(Forest(ls, k, 1, 1)) == p
  {}

  lemma {:induction false} EmptyPrefix(ls: seq<seq<Block>>, j: nat)
    requires j < |ls|
    ensures |Sections(ls[j][..0])| == 0
  {}

  lemma {:induction false} AtTheEnd(env: CarEnv, pos: seq<nat>, ls: seq<seq<Block>>, offs: seq<nat>)
    requires Layered(env, ls) && |ls| == |offs| && CursorUnder(pos, ls, offs, |ls| - 1, 1)
    ensures forall j :: 0 <= j < |ls| - 1 ==> pos[j] == offs[j] + |Sections(ls[j])|
  {
    hide Sections, Group, Boundary;
    LayeredSized(env, ls);
    var top := |ls| - 1;
    forall j | 0 <= j < top
      ensures pos[j] == offs[j] + |Sections(ls[j])|
    {
      var n := |ls[top - 1]|;
      assert Min(1 * ARITY, n) == n;
      BoundaryEnd(ls, top - 1, j);
      assert ls[j][..|ls[j]|] == ls[j];
    }
  }

  // ---- from genTopCar to WriteCar -----------------------------------------------------

  lemma {:induction false} FlatFile(head: bytes, ls: seq<seq<Block>>, j: nat)
    requires j < |ls|
    ensures
      var file, o := head + Sections(Flat(ls)), LayerOffsets(|head|, ls)[j];
      o + |Sections(ls[j])| <= |file| && file[o..o + |Sections(ls[j])|] == Sections(ls[j])
  {
    hide Sections;
    var init, last := ls[..|ls| - 1], ls[|ls| - 1];
    SectionsConcat(Flat(init), last);
    ConcatAssoc(head, Sections(Flat(init)), Sections(last));
    var before := head + Sections(Flat(init));
    if j < |init| {
      FlatFile(head, init, j);
      var o := LayerOffsets(|head|, init)[j];
      SliceOfConcat(before, Sections(last), o, o + |Sections(ls[j])|);
    } else {
      SliceAfter(before, Sections(last), |before|, |before| + |Sections(last)|);
    }
  }

  /** What genTopCar leaves behind is a finished log for WriteCar. */
  lemma {:induction false} FinishedIsGood(env: CarEnv, leaves: seq<Block>)
    requires env.Ok() && leaves != [] && AllOk(leaves)
    requires forall i :: 0 <= i < |leaves| ==> leaves[i].cid.codec == RAW
    ensures Finished(env, leaves).Topped?
    ensures
      var t := Finished(env, leaves);
      Good(env, t.file, AllLayers(env, leaves), t.layerOffsets)
  {
    hide Sections, Group, AllLayers, Flat, LayerOffsets, Block.Ok, CarEnv.Ok;
    AllLayersLayered(env, leaves);
    TopLayersEnd(env, leaves);
    var ls, t := AllLayers(env, leaves), Finished(env, leaves);
    var head := env.head(Root(env, leaves).cid);
    forall j | 0 <= j < |ls|
      ensures AllOk(ls[j])
      ensures
        var o := t.layerOffsets[j];
        o + |Sections(ls[j])| <= |t.file| && t.file[o..o + |Sections(ls[j])|] == Sections(ls[j])
    {
      assert AllOk(ls[j]);
      FlatFile(head, ls, j);
    }
  }

  /** For every nonempty log of raw blocks, the file and offsets that genTopCar produces are such
      that Write emits a header and a depth-first order in which each block of each layer comes
      once and the leaves keep their log order. */
  lemma {:induction false} FinishedCarIsCanonical(env: CarEnv, leaves: seq<Block>)
    requires env.Ok() && leaves != [] && AllOk(leaves)
    requires forall i :: 0 <= i < |leaves| ==> leaves[i].cid.codec == RAW
    ensures
      var ls, t := AllLayers(env, leaves), Finished(env, leaves);
      && t.Topped? && Good(env, t.file, ls, t.layerOffsets)
      && multiset(Canonical(ls)) == AllBlocks(ls)
      && Leaves(Canonical(ls)) == leaves
  {
    FinishedIsGood(env, leaves);
    hide Sections, Group, Canonical, Good, Finished, TopLayers;
    AllLayersLayered(env, leaves);
    CanonicalOrder(env, AllLayers(env, leaves));
  }
}
