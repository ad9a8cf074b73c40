/** The repair reader over the CARs that WriteCar produces. */
module RepairCanonical {
  import opened Bytes
  import opened Cars
  import opened TopTree
  import opened Preorder
  import opened WriteCar
  import opened RepairMatch
  import opened RepairReader

  /** The tree of a finished log. */
  function TreeOf(ls: seq<seq<Block>>): Tree
    requires |ls| > 0 && |ls[|ls| - 1]| > 0
  {
    Tree(RootOf(ls), Kids(ls, |ls| - 1, 0))
  }

  lemma {:induction false} TreeOfPre(ls: seq<seq<Block>>)
    requires |ls| > 0 && |ls[|ls| - 1]| == 1
    ensures Rem([[TreeOf(ls)]]) == Canonical(ls)
  {
    hide Kids, Canonical;
    RootPre(ls);
    var f := [TreeOf(ls)];
    assert Pre(f) == [f[0].block] + Pre(f[0].kids) + Pre(f[1..]);
    assert Rem([f]) == Pre(f) + Rem([]);
  }

  /** Link blocks decode to their children, so the stack can follow the layers. */
  lemma {:induction false} LayersTreeOk(env: CarEnv, renv: RepairEnv, ls: seq<seq<Block>>, k: nat, i: nat)
    requires env.Ok() && Layered(env, ls) && renv.dec == env.dec && k < |ls| && i < |ls[k]|
    ensures TreeOk(renv, Tree(ls[k][i], Kids(ls, k, i)))
    decreases k
  {
    hide Group, CarEnv.Ok, Forest;
    LeafOrLink(env, ls, k, i);
    if k == 0 {
      KidsOfLeaf(ls, i);
    } else {
      LinkCodec(env, ls, k, i);
      KidsAre(ls, k, i);
      var lo, hi := i * ARITY, Min((i + 1) * ARITY, |ls[k - 1]|);
      var kids := Kids(ls, k, i);
      ForestAt(ls, k - 1, lo, hi);
      forall t | 0 <= t < |kids|
        ensures TreeOk(renv, kids[t])
      {
        LayersTreeOk(env, renv, ls, k - 1, lo + t);
      }
      assert RootCids(kids) == env.dec(ls[k][i].data).value;
    }
  }

  lemma {:induction false} KidsOfLeaf(ls: seq<seq<Block>>, i: nat)
    requires |ls| > 0 && i < |ls[0]|
    ensures Kids(ls, 0, i) == []
  {}

  lemma {:induction false} LinkCodec(env: CarEnv, ls: seq<seq<Block>>, k: nat, i: nat)
    requires Layered(env, ls) && 0 < k < |ls| && i < |ls[k]|
    ensures ls[k][i].cid.codec == DAG_CBOR
  {
    hide Group;
    GroupSize(env, Cids(ls[k - 1]));
    GroupAt(env, Cids(ls[k - 1]), i);
  }

  lemma {:induction false} ForestAt(ls: seq<seq<Block>>, k: nat, lo: nat, hi: nat)
    requires k < |ls| && lo <= hi <= |ls[k]|
    ensures |Forest(ls, k, lo, hi)| == hi - lo
    ensures forall i :: 0 <= i < hi - lo ==> Forest(ls, k, lo, hi)[i] == Tree(ls[k][lo + i], Kids(ls, k, lo + i))
    decreases hi - lo
  {
    hide Kids;
    if lo < hi {
      ForestAt(ls, k, lo + 1, hi);
      var f, rest := Forest(ls, k, lo, hi), Forest(ls, k, lo + 1, hi);
      forall i | 0 <= i < hi - lo
        ensures f[i] == Tree(ls[k][lo + i], Kids(ls, k, lo + i))
      {
        if i > 0 {
          assert f[i] == rest[i - 1];
        }
      }
    }
  }

  // ---- which streams can be read ----------------------------------------------------------

  /** Stated per section: a stream of the right length in which each block's section is readable, unless it
      is a last one of fewer than 40 bytes. */
  ghost predicate Damageable(renv: RepairEnv, source: bytes, bs: seq<Block>) {
    && |source| == |Sections(bs)|
    && forall i :: 0 <= i < |bs| ==>
         && |Sections(bs[..i])| <= |source|
         && (Readable(renv, bs[i], source[|Sections(bs[..i])|..]) ||
             ShortLast(source[|Sections(bs[..i])|..], bs[i..]))
  }

  lemma {:induction false} DamagedFrom(renv: RepairEnv, source: bytes, bs: seq<Block>, i: nat)
    requires Damageable(renv, source, bs) && i <= |bs|
    ensures |Sections(bs[..i])| <= |source|
    ensures Damaged(renv, source[|Sections(bs[..i])|..], bs[i..])
    decreases |bs| - i
  {
    hide Sections, Readable, Block.Section;
    if i == |bs| {
      assert bs[..i] == bs;
    } else {
      DamagedFrom(renv, source, bs, i + 1);
      assert bs[..i + 1] == bs[..i] + [bs[i]];
      SectionsSnoc(bs[..i], bs[i]);
      AfterSection(source, |Sections(bs[..i])|, |bs[i].Section()|);
      assert bs[i..][1..] == bs[i + 1..];
      assert bs[i..][0] == bs[i];
    }
  }

  /** Where the reader stands is where a canonical section starts. */
  lemma {:induction false} OnBoundary(renv: RepairEnv, source: bytes, bs: seq<Block>)
    requires Damaged(renv, source, bs)
    ensures |source| == |Sections(bs)|
    decreases |bs|
  {
    hide Sections, Block.Section;
    if bs == [] {
      SectionsNone();
    } else if ShortLast(source, bs) {
      assert bs == [bs[0]];
      SectionsOne(bs[0]);
    } else {
      HeadReadable(renv, source, bs);
      OnBoundary(renv, source[|bs[0].Section()|..], bs[1..]);
      SectionsHead(bs[0], bs[1..]);
      assert bs == [bs[0]] + bs[1..];
    }
  }

  /** What the reader needs of the blocks of an undamaged CAR. */
  ghost predicate Plain(renv: RepairEnv, bs: seq<Block>) {
    forall i :: 0 <= i < |bs| ==> bs[i].Ok() && Cid36(bs[i].cid) && renv.sums(bs[i].cid, bs[i].data)
  }

  lemma {:induction false} TailLong(bs: seq<Block>)
    requires bs != [] && forall i :: 0 <= i < |bs| ==> Cid36(bs[i].cid)
    ensures |Sections(bs)| >= 40 || (|bs| == 1 && |Sections(bs)| == |bs[0].Section()|)
  {
    hide Uvarint, Cid.Encode;
    if |bs| == 1 {
      assert bs == [bs[0]];
      SectionsOne(bs[0]);
    } else {
      assert bs[|bs| - 1].Section() != [] && bs[|bs| - 2].Section() != [];
      assert Sections(bs[..|bs| - 1]) == Sections(bs[..|bs| - 1][..|bs| - 2]) + bs[|bs| - 2].Section();
    }
  }

  /** An undamaged stream is readable up to a short last section: its length prefixes never look like
      CIDs. */
  lemma {:induction false} IntactDamaged(renv: RepairEnv, bs: seq<Block>)
    requires Plain(renv, bs)
    ensures Damaged(renv, Sections(bs), bs)
    decreases |bs|
  {
    hide Sections, Block.Section, BestOffset, Cid36, Block.Ok;
    if bs == [] {
      SectionsNone();
    } else {
      IntactDamaged(renv, bs[1..]);
      TailLong(bs);
      SectionsHead(bs[0], bs[1..]);
      assert bs == [bs[0]] + bs[1..];
      if |Sections(bs)| >= 40 {
        IntactOffset(bs[0], Sections(bs));
      }
    }
  }

  // ---- the reader against the writer --------------------------------------------------------

  /** Given a canonical CAR whose sections were altered in content but not in length, with the true
      CID offset winning each match and correct repairs, the reader hands out exactly the undamaged CAR.
      It stops earlier, after a prefix of it, exactly if after some number of reads more than a tenth of the
      sections read had been altered; or else because the last section is short, which is then all that is
      missing. */
  method RepairDamaged(env: CarEnv, renv: RepairEnv, source: bytes, ghost ls: seq<seq<Block>>, root: Cid,
      sizes: nat -> nat)
    returns (out: bytes, err: ReadError)
    requires env.Ok() && Layered(env, ls) && renv.dec == env.dec && root == RootOf(ls).cid
    requires Damageable(renv, source, Canonical(ls))
    requires forall i :: sizes(i) > 0
    ensures err == TooManyCorrupt <==> TooCorrupt(source, Canonical(ls))
    ensures err != TooManyCorrupt ==> err == if EndsShort(Canonical(ls)) then PeekEntry else Eof
    ensures err == Eof ==> out == CanonicalCar(env, ls)
    ensures err == PeekEntry ==>
              EndsShort(Canonical(ls)) && out + LastSection(Canonical(ls)) == CanonicalCar(env, ls)
    ensures out <= CanonicalCar(env, ls)
  {
    hide Sections, Canonical, Kids, CarEnv.Ok, Group, Rem, Damaged, Damageable, TreeOk, EndsShort, LastSection,
      TooCorrupt, Ending;
    ghost var tree := TreeOf(ls);
    LayersTreeOk(env, renv, ls, |ls| - 1, 0);
    TreeOfPre(ls);
    DamagedFrom(renv, source, Canonical(ls), 0);
    StartsAtZero(source, Canonical(ls));
    var r := new RepairCarLog(renv, env.head(root), root, source, tree);
    assert ForestOk(renv, [tree]) && RootCids([tree]) == [root];
    out, err := r.ReadAll(sizes);
    EndingFromStart(renv, source, Canonical(ls));
    assert [] + out == out && [] + env.head(root) == env.head(root);
  }

  lemma {:induction false} StartsAtZero(source: bytes, bs: seq<Block>)
    ensures source[|Sections(bs[..0])|..] == source && bs[0..] == bs
  {}

  /** The explicit-stack reader refines the recursive writer, for every sequence of nonempty buffer sizes:
      over what Write produced for a finished log it returns the same bytes exactly when the last section
      has at least 40 of them; otherwise it fails with everything but that section handed out. */
  method ReadWritten(env: CarEnv, renv: RepairEnv, file: bytes, layerOffsets: seq<nat>, ghost ls: seq<seq<Block>>,
      sizes: nat -> nat)
    returns (car: bytes, out: bytes, err: ReadError)
    requires Good(env, file, ls, layerOffsets) && renv.dec == env.dec && Plain(renv, Canonical(ls))
    requires forall i :: sizes(i) > 0
    ensures car == CanonicalCar(env, ls)
    ensures err == Eof <==> |LastSection(Canonical(ls))| >= 40
    ensures if err == Eof then out == car else err == PeekEntry && out + LastSection(Canonical(ls)) == car
  {
    hide Sections, Canonical, Kids, CarEnv.Ok, Group, Rem, Damaged, Damageable, TreeOk, FileHolds, Plain;
    RootPre(ls);
    var w, _ := Write(env, file, layerOffsets, ls);
    car := w.value.0;
    var root := w.value.1;
    var source := car[|env.head(root)|..];
    assert source == Sections(Canonical(ls));
    IntactDamageable(renv, Canonical(ls));
    out, err := RepairDamaged(env, renv, source, ls, root, sizes);
    NothingAltered(Canonical(ls));
  }

  /** An undamaged stream is never too corrupt. */
  lemma {:induction false} NothingAltered(bs: seq<Block>)
    ensures !TooCorrupt(Sections(bs), bs)
  {
    hide Sections, Altered;
    forall n: nat | true
      ensures Altered(Sections(bs), bs, n) == 0
    {
      IntactAltered(bs, n);
    }
  }

  lemma {:induction false} IntactAltered(bs: seq<Block>, n: nat)
    ensures Altered(Sections(bs), bs, n) == 0
  {
    hide Sections, Block.Section;
    if n > 0 && bs != [] {
      SectionsHead(bs[0], bs[1..]);
      assert bs == [bs[0]] + bs[1..];
      IntactAltered(bs[1..], n - 1);
    }
  }

  /** The last section, with a length prefix of one byte and a CID of 36, is short exactly when the last block
      has at most two bytes. No run over such a CAR, damaged or not, ends with Eof. */
  lemma {:induction false} EndsShortIff(bs: seq<Block>)
    requires bs != [] && Cid36(bs[|bs| - 1].cid)
    ensures EndsShort(bs) <==> |bs[|bs| - 1].data| <= 2
  {
    hide Cid.Encode;
  }

  lemma {:induction false} IntactDamageable(renv: RepairEnv, bs: seq<Block>)
    requires Plain(renv, bs)
    ensures Damageable(renv, Sections(bs), bs)
  {
    hide Sections, Block.Section, BestOffset, Cid36, Block.Ok;
    forall i | 0 <= i < |bs|
      ensures |Sections(bs[..i])| <= |Sections(bs)|
      ensures
        var rest := Sections(bs)[|Sections(bs[..i])|..];
        Readable(renv, bs[i], rest) || ShortLast(rest, bs[i..])
    {
      SectionsConcat(bs[..i], bs[i..]);
      assert bs == bs[..i] + bs[i..];
      assert Sections(bs)[|Sections(bs[..i])|..] == Sections(bs[i..]);
      IntactDamaged(renv, bs[i..]);
    }
  }
}
