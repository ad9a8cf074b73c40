/** DataCidWriter: a piece commitment computed from chunks of 8 MiB (padded) that are hashed on
    their own, against the one Merkle tree over the whole zero-padded payload. */
module PieceCommitment {
  import opened Bytes

  /** The tree hash, kept abstract: a leaf for 127 payload bytes (128 padded) and an inner node. */
  datatype Hasher = Hasher(leaf: bytes -> bytes, node: (bytes, bytes) -> bytes)

  const QUAD := 127
  const QUAD_PADDED := 128
  const BUF_DEPTH: nat := 16
  const COMMP_BUF: nat := 0x7f_0000           // 8 MiB less the padding: 2^16 runs of 127 bytes
  const COMMP_BUF_PAD: nat := 0x80_0000
  const MIN_PAYLOAD := 65                     // shorter inputs have no piece commitment
  const MAX_PIECES := 8192                    // 64 GiB of 8 MiB pieces

  /** How many payload bytes a tree of this depth covers. */
  function Covers(d: nat): nat { QUAD * Pow2(d) }

  function Take(p: bytes, n: nat): bytes { if n <= |p| then p[..n] else p }

  function Skip(p: bytes, n: nat): bytes { if n <= |p| then p[n..] else [] }

  /** The root of the tree of this depth over the zero-padded payload. */
  function Root(h: Hasher, p: bytes, d: nat): bytes
    requires |p| <= Covers(d)
    decreases d, |p|
  {
    if d == 0 then h.leaf(p + Zeros(QUAD - |p|))
    else h.node(Root(h, Take(p, Covers(d - 1)), d - 1), Root(h, Skip(p, Covers(d - 1)), d - 1))
  }

  /** The least depth that covers n bytes. */
  function DepthOf(n: nat): (d: nat)
    ensures n <= Covers(d) && (d > 0 ==> Covers(d - 1) < n)
  {
    if n <= QUAD then 0
    else
      var e := DepthOf((n + 1) / 2);
      assert Pow2(e + 1) == 2 * Pow2(e);
      assert e > 0 ==> Pow2(e) == 2 * Pow2(e - 1);
      e + 1
  }

  /** What one pass over a whole payload yields (commp.Calc): root and padded size. */
  function Digest(h: Hasher, p: bytes): Option<(bytes, nat)> {
    if |p| < MIN_PAYLOAD then None
    else Some((Root(h, p, DepthOf(|p|)), QUAD_PADDED * Pow2(DepthOf(|p|))))
  }

  /** The padded size: the least power of two of 128-byte runs whose 127-byte runs hold the payload. */
  lemma {:induction false} DigestSize(h: Hasher, p: bytes, d: nat)
    requires |p| >= MIN_PAYLOAD
    ensures Digest(h, p).Some?
    ensures |p| <= 127 * Pow2(d) <==> Digest(h, p).value.1 <= 128 * Pow2(d)
  {
    var e := DepthOf(|p|);
    if e <= d {
      Pow2Monotone(e, d);
    } else {
      Pow2Monotone(d, e - 1);
      PowHalf(e);
    }
  }

  /** The root over 2^d roots (GenerateUnsealedCID over equal pieces). */
  function Balanced(h: Hasher, roots: seq<bytes>, d: nat): bytes
    requires |roots| == Pow2(d)
  {
    if d == 0 then roots[0]
    else h.node(Balanced(h, roots[..Pow2(d - 1)], d - 1), Balanced(h, roots[Pow2(d - 1)..], d - 1))
  }

  // ---- zero padding ------------------------------------------------------------------------

  lemma {:induction false} ZerosSplit(a: nat, b: nat)
    ensures Zeros(a) + Zeros(b) == Zeros(a + b)
  {
    var x, y := Zeros(a) + Zeros(b), Zeros(a + b);
    forall i | 0 <= i < a + b
      ensures x[i] == y[i]
    {}
  }

  lemma {:induction false} TakePadded(p: bytes, z: nat, n: nat) returns (y: nat)
    ensures Take(p + Zeros(z), n) == Take(p, n) + Zeros(y)
    ensures Skip(p + Zeros(z), n) == Skip(p, n) + Zeros(z - y) && y <= z
  {
    if n <= |p| {
      y := 0;
      assert (p + Zeros(z))[..n] == p[..n] + Zeros(0);
      assert (p + Zeros(z))[n..] == p[n..] + Zeros(z);
    } else if n <= |p| + z {
      y := n - |p|;
      ZerosSplit(y, z - y);
      assert p + Zeros(z) == p + Zeros(y) + Zeros(z - y);
      assert (p + Zeros(z))[..n] == p + Zeros(y);
      assert (p + Zeros(z))[n..] == [] + Zeros(z - y);
    } else {
      y := z;
      assert [] + Zeros(0) == [];
    }
  }

  /** Zero bytes behind the payload do not change the root. */
  lemma {:induction false} RootZeroPadded(h: Hasher, p: bytes, z: nat, d: nat)
    requires |p| + z <= Covers(d)
    ensures Root(h, p + Zeros(z), d) == Root(h, p, d)
    decreases d
  {
    hide Take, Skip;
    if d == 0 {
      ZerosSplit(z, QUAD - |p| - z);
      assert p + Zeros(z) + Zeros(QUAD - |p| - z) == p + (Zeros(z) + Zeros(QUAD - |p| - z));
    } else {
      var n := Covers(d - 1);
      var y := TakePadded(p, z, n);
      HalvesFit(p, d);
      HalvesFit(p + Zeros(z), d);
      RootZeroPadded(h, Take(p, n), y, d - 1);
      RootZeroPadded(h, Skip(p, n), z - y, d - 1);
    }
  }

  lemma {:induction false} HalvesFit(p: bytes, d: nat)
    requires d > 0 && |p| <= Covers(d)
    ensures |Take(p, Covers(d - 1))| <= Covers(d - 1) && |Skip(p, Covers(d - 1))| <= Covers(d - 1)
  {}

  // ---- what a root says of the payload -------------------------------------------------------

  /** The leaf and node hashes do not collide. */
  ghost predicate Injective(h: Hasher) {
    && (forall a, b :: |a| == |b| == QUAD && h.leaf(a) == h.leaf(b) ==> a == b)
    && (forall a, b, c, d :: h.node(a, b) == h.node(c, d) ==> a == c && b == d)
  }

  lemma {:induction false} LeafCommits(h: Hasher, p: bytes, q: bytes)
    requires Injective(h) && |p| == |q| <= Covers(0) && Root(h, p, 0) == Root(h, q, 0)
    ensures p == q
  {
    var z := Zeros(QUAD - |p|);
    assert p == (p + z)[..|p|] && q == (q + z)[..|q|];
  }

  lemma {:induction false} NodeCommits(h: Hasher, a: bytes, b: bytes, c: bytes, d: bytes)
    requires Injective(h) && h.node(a, b) == h.node(c, d)
    ensures a == c && b == d
  {}

  /** Payloads of the same length with the same root are equal. */
  lemma {:induction false} RootCommits(h: Hasher, p: bytes, q: bytes, d: nat)
    requires Injective(h) && |p| == |q| <= Covers(d) && Root(h, p, d) == Root(h, q, d)
    ensures p == q
    decreases d
  {
    hide Root, Injective, Covers, Take, Skip, Zeros;
    if d == 0 {
      LeafCommits(h, p, q);
    } else {
      var n := Covers(d - 1);
      RootIsNode(h, p, d);
      RootIsNode(h, q, d);
      HalfLengths(p, q, n);
      NodeCommits(h, Root(h, Take(p, n), d - 1), Root(h, Skip(p, n), d - 1), Root(h, Take(q, n), d - 1),
        Root(h, Skip(q, n), d - 1));
      RootCommits(h, Take(p, n), Take(q, n), d - 1);
      RootCommits(h, Skip(p, n), Skip(q, n), d - 1);
      Halves(p, n);
      Halves(q, n);
    }
  }

  lemma {:induction false} HalfLengths(p: bytes, q: bytes, n: nat)
    requires |p| == |q|
    ensures |Take(p, n)| == |Take(q, n)| && |Skip(p, n)| == |Skip(q, n)|
  {}

  lemma {:induction false} Halves(p: bytes, n: nat)
    ensures Take(p, n) + Skip(p, n) == p
  {}

  /** Sizes and roots that Sum may return for two payloads, both defined and the same: the same payload. */
  lemma {:induction false} SumCommits(h: Hasher, p: bytes, q: bytes)
    requires Injective(h) && Expected(h, p) == Expected(h, q) && Expected(h, p).Summed? && Expected(h, p).root.Some?
    ensures p == q
  {
    hide Root, Injective, DepthOf, Covers;
    RootCommits(h, p, q, DepthOf(|p|));
  }

  /** The zero-padded payload. */
  function Padded(p: bytes, n: nat): (r: bytes)
    requires |p| <= n
    ensures |r| == n
  {
    p + Zeros(n - |p|)
  }

  /** The hash that a leaf's siblings lead to, the bits of its number saying on which side they stand. */
  function Fold(h: Hasher, x: bytes, path: seq<bytes>, i: nat): bytes
    decreases |path|
  {
    if path == [] then x
    else Fold(h, if i % 2 == 0 then h.node(x, path[0]) else h.node(path[0], x), path[1..], i / 2)
  }

  lemma {:induction false} FoldSnoc(h: Hasher, x: bytes, path: seq<bytes>, s: bytes, i: nat)
    ensures
      var n := Pow2(|path|);
      var y := Fold(h, x, path, i % n);
      Fold(h, x, path + [s], i) == if i / n % 2 == 0 then h.node(y, s) else h.node(s, y)
    decreases |path|
  {
    if path == [] {
      assert [s][1..] == [];
      assert path + [s] == [s];
    } else {
      var x' := if i % 2 == 0 then h.node(x, path[0]) else h.node(path[0], x);
      var n, m := Pow2(|path|), Pow2(|path| - 1);
      BitsOf(i, m);
      FoldSnoc(h, x', path[1..], s, i / 2);
      assert (path + [s])[1..] == path[1..] + [s];
    }
  }

  lemma {:induction false} BitsOf(i: nat, m: nat)
    requires m > 0
    ensures i % (2 * m) % 2 == i % 2 && i % (2 * m) / 2 == i / 2 % m && i / (2 * m) == i / 2 / m
  {
    DivTwice(i, 2, m);
    var q, j := i / (2 * m), i / 2;
    assert j / m == q;
    assert j == m * q + j % m;
    assert i == 2 * m * q + (2 * (j % m) + i % 2) by { assert 2 * (m * q) == 2 * m * q; }
    assert i % (2 * m) == 2 * (j % m) + i % 2 by { ModIs(i, 2 * m, q, 2 * (j % m) + i % 2); }
  }

  lemma {:induction false} ModIs(x: nat, d: nat, q: nat, r: nat)
    requires d > 0 && x == d * q + r && r < d
    ensures x % d == r
  {
    DivIs(x, d, q, r);
  }

  /** Run i of 127 bytes of the zero-padded payload. */
  function Quad(p: bytes, d: nat, i: nat): bytes
    requires |p| <= Covers(d) && i < Pow2(d)
  {
    assert QUAD * (i + 1) <= QUAD * Pow2(d);
    Padded(p, Covers(d))[QUAD * i..QUAD * (i + 1)]
  }

  /** Every run of 127 bytes is included in the root: d siblings lead from its leaf there. */
  lemma {:induction false} Inclusion(h: Hasher, p: bytes, d: nat, i: nat) returns (path: seq<bytes>)
    requires |p| <= Covers(d) && i < Pow2(d)
    ensures |path| == d && Fold(h, h.leaf(Quad(p, d, i)), path, i) == Root(h, p, d)
    decreases d
  {
    if d == 0 {
      path := [];
      assert Padded(p, QUAD)[0..QUAD] == p + Zeros(QUAD - |p|);
    } else {
      hide Root, Quad, Take, Skip, Fold, Pow2;
      PowHalf(d);
      var n, m := Covers(d - 1), Pow2(d - 1);
      RootIsNode(h, p, d);
      var left := i < m;
      var half, other := if left then Take(p, n) else Skip(p, n), if left then Skip(p, n) else Take(p, n);
      var j := if left then i else i - m;
      QuadOfHalf(p, d, i);
      var low := Inclusion(h, half, d - 1, j);
      path := low + [Root(h, other, d - 1)];
      BitTop(i, m);
      FoldSnoc(h, h.leaf(Quad(p, d, i)), low, Root(h, other, d - 1), i);
    }
  }

  lemma {:induction false} PowHalf(d: nat)
    requires d > 0
    ensures Pow2(d) == 2 * Pow2(d - 1)
  {}

  lemma {:induction false} BitTop(i: nat, m: nat)
    requires m > 0 && i < 2 * m
    ensures i < m ==> i % m == i && i / m == 0
    ensures i >= m ==> i % m == i - m && i / m == 1
  {
    if i >= m {
      DivIs(i, m, 1, i - m);
    } else {
      DivIs(i, m, 0, i);
    }
  }

  lemma {:induction false} QuadOfHalf(p: bytes, d: nat, i: nat)
    requires d > 0 && |p| <= Covers(d) && i < Pow2(d)
    ensures |Take(p, Covers(d - 1))| <= Covers(d - 1) && |Skip(p, Covers(d - 1))| <= Covers(d - 1)
    ensures i < Pow2(d - 1) ==> Quad(p, d, i) == Quad(Take(p, Covers(d - 1)), d - 1, i)
    ensures i >= Pow2(d - 1) ==> Quad(p, d, i) == Quad(Skip(p, Covers(d - 1)), d - 1, i - Pow2(d - 1))
  {
    hide Pow2, Take, Skip, Padded;
    PowHalf(d);
    var n := Covers(d - 1);
    HalvesFit(p, d);
    PaddedHalves(p, n);
    var w := Padded(p, 2 * n);
    if i < Pow2(d - 1) {
      SliceOfSlice(w, 0, n, QUAD * i, QUAD * (i + 1));
      assert w[0..n] == Padded(Take(p, n), n);
    } else {
      var j := i - Pow2(d - 1);
      SliceOfSlice(w, n, 2 * n, QUAD * j, QUAD * (j + 1));
      assert w[n..2 * n] == Padded(Skip(p, n), n);
    }
  }

  lemma {:induction false} PaddedHalves(p: bytes, n: nat)
    requires |p| <= 2 * n
    ensures |Take(p, n)| <= n && |Skip(p, n)| <= n
    ensures Padded(p, 2 * n) == Padded(Take(p, n), n) + Padded(Skip(p, n), n)
  {
    var x, y := Padded(p, 2 * n), Padded(Take(p, n), n) + Padded(Skip(p, n), n);
    forall k | 0 <= k < 2 * n
      ensures x[k] == y[k]
    {}
  }

  // ---- chunk roots compose to the whole tree -------------------------------------------------

  /** The i-th run of 8 MiB (padded) of a payload, empty beyond its end. */
  function Chunk(p: bytes, i: nat): (c: bytes)
    ensures |c| <= COMMP_BUF
  {
    Take(Skip(p, i * COMMP_BUF), COMMP_BUF)
  }

  lemma {:induction false} BufCovers()
    ensures Covers(BUF_DEPTH) == COMMP_BUF && Pow2(BUF_DEPTH) == 0x1_0000
    ensures Covers(BUF_DEPTH - 1) == COMMP_BUF / 2 && Pow2(BUF_DEPTH - 1) == 0x8000
  {
    assert Pow2(8) == 256;
    assert Pow2(12) == 4096;
  }

  function ChunkRoot(h: Hasher, p: bytes, i: nat): bytes {
    BufCovers();
    Root(h, Chunk(p, i), BUF_DEPTH)
  }

  lemma {:induction false} CoversMore(d: nat)
    ensures Covers(BUF_DEPTH + d) == COMMP_BUF * Pow2(d)
    ensures Pow2(BUF_DEPTH + d) == 0x1_0000 * Pow2(d)
    decreases d
  {
    BufCovers();
    if d > 0 {
      CoversMore(d - 1);
    }
  }

  lemma {:induction false} ChunkOfHalves(p: bytes, n: nat, i: nat)
    ensures i < n ==> Chunk(Take(p, n * COMMP_BUF), i) == Chunk(p, i)
    ensures Chunk(Skip(p, n * COMMP_BUF), i) == Chunk(p, n + i)
  {
    var at := n * COMMP_BUF;
    if i < n {
      assert i * COMMP_BUF + COMMP_BUF <= at;
    }
  }

  /** The chunk roots of the two halves of a payload. */
  lemma {:induction false} RootsOfHalves(h: Hasher, p: bytes, roots: seq<bytes>, n: nat)
    requires |roots| == 2 * n && forall i :: 0 <= i < |roots| ==> roots[i] == ChunkRoot(h, p, i)
    ensures forall i :: 0 <= i < n ==> roots[..n][i] == ChunkRoot(h, Take(p, n * COMMP_BUF), i)
    ensures forall i :: 0 <= i < n ==> roots[n..][i] == ChunkRoot(h, Skip(p, n * COMMP_BUF), i)
  {
    hide Take, Skip, Root, Chunk, Pow2, Covers;
    forall i | 0 <= i < n
      ensures roots[..n][i] == ChunkRoot(h, Take(p, n * COMMP_BUF), i)
      ensures roots[n..][i] == ChunkRoot(h, Skip(p, n * COMMP_BUF), i)
    {
      ChunkOfHalves(p, n, i);
      assert roots[n..][i] == roots[n + i];
    }
  }

  lemma {:induction false} RootIsNode(h: Hasher, p: bytes, d: nat)
    requires d > 0 && |p| <= Covers(d)
    ensures |Take(p, Covers(d - 1))| <= Covers(d - 1) && |Skip(p, Covers(d - 1))| <= Covers(d - 1)
    ensures Root(h, p, d) == h.node(Root(h, Take(p, Covers(d - 1)), d - 1), Root(h, Skip(p, Covers(d - 1)), d - 1))
  {
    hide Covers, Take, Skip, Pow2;
    HalvesFit(p, d);
  }

  lemma {:induction false} BalancedIsNode(h: Hasher, roots: seq<bytes>, d: nat)
    requires d > 0 && |roots| == Pow2(d)
    ensures
      var n := Pow2(d - 1);
      && |roots| == 2 * n
      && Balanced(h, roots, d) == h.node(Balanced(h, roots[..n], d - 1), Balanced(h, roots[n..], d - 1))
  {}

  /** Independent chunk roots, in order and completed with roots of empty chunks, are the layer of
      the one-pass tree that stands 16 levels above its leaves. */
  lemma {:induction false} ChunksCompose(h: Hasher, p: bytes, roots: seq<bytes>, d: nat)
    requires |roots| == Pow2(d) && |p| <= COMMP_BUF * Pow2(d)
    requires forall i :: 0 <= i < |roots| ==> roots[i] == ChunkRoot(h, p, i)
    ensures |p| <= Covers(BUF_DEPTH + d)
    ensures Balanced(h, roots, d) == Root(h, p, BUF_DEPTH + d)
    decreases d
  {
    hide Take, Skip, Root, Balanced, Pow2, Covers, ChunkRoot;
    CoversMore(d);
    if d == 0 {
      Pow2Zero();
      ChunksComposeOne(h, p, roots);
    } else {
      CoversMore(d - 1);
      var n := Pow2(d - 1);
      BalancedIsNode(h, roots, d);
      RootIsNode(h, p, BUF_DEPTH + d);
      RootsOfHalves(h, p, roots, n);
      ChunksCompose(h, Take(p, n * COMMP_BUF), roots[..n], d - 1);
      ChunksCompose(h, Skip(p, n * COMMP_BUF), roots[n..], d - 1);
    }
  }

  lemma {:induction false} ChunksComposeOne(h: Hasher, p: bytes, roots: seq<bytes>)
    requires |roots| == Pow2(0) && |p| <= COMMP_BUF && roots[0] == ChunkRoot(h, p, 0)
    ensures |p| <= Covers(BUF_DEPTH) && Balanced(h, roots, 0) == Root(h, p, BUF_DEPTH)
  {
    hide Root;
    BufCovers();
    OnlyChunk(p);
  }

  lemma {:induction false} OnlyChunk(p: bytes)
    requires |p| <= COMMP_BUF
    ensures Chunk(p, 0) == p
  {
    assert p[0..] == p;
  }

  // ---- the filler ---------------------------------------------------------------------------

  /** bits.Len */
  function BitsLen(n: nat): (l: nat)
    ensures n < Pow2(l) && (l > 0 ==> Pow2(l - 1) <= n)
  {
    if n == 0 then 0
    else
      var l := BitsLen(n / 2);
      assert Pow2(l + 1) == 2 * Pow2(l);
      assert l > 0 ==> Pow2(l) == 2 * Pow2(l - 1);
      l + 1
  }

  lemma {:induction false} Pow2Monotone(a: nat, b: nat)
    requires a <= b
    ensures Pow2(a) <= Pow2(b)
    decreases b
  {
    if a < b {
      Pow2Monotone(a, b - 1);
    }
  }

  lemma {:induction false} Pow2Zero()
    ensures Pow2(0) == 1
  {}

  lemma {:induction false} SameDepth(n: nat, a: nat, b: nat)
    requires n <= Covers(a) && (a > 0 ==> Covers(a - 1) < n)
    requires n <= Covers(b) && (b > 0 ==> Covers(b - 1) < n)
    ensures a == b
  {
    if a < b {
      Pow2Monotone(a, b - 1);
    } else if b < a {
      Pow2Monotone(b, a - 1);
    }
  }

  /** The depth of the whole payload is 16 plus that of its chunks. */
  lemma {:induction false} DepthOfChunks(n: nat, leaves: nat)
    requires leaves > 0 && (leaves - 1) * COMMP_BUF < n <= leaves * COMMP_BUF
    requires leaves > 1 || n > COMMP_BUF / 2
    ensures DepthOf(n) == BUF_DEPTH + BitsLen(leaves - 1)
  {
    hide DepthOf, BitsLen, Pow2, Covers;
    var d := BitsLen(leaves - 1);
    CoversMore(d);
    BufCovers();
    if d > 0 {
      CoversMore(d - 1);
    }
    Pow2Zero();
    SameDepth(n, DepthOf(n), BUF_DEPTH + d);
  }

  // ---- the writer ------------------------------------------------------------------------------

  /** Roots of the full chunks of a payload. */
  ghost function FullRoots(h: Hasher, p: bytes): (r: seq<bytes>)
    ensures |r| == |p| / COMMP_BUF
    ensures forall i :: 0 <= i < |r| ==> r[i] == ChunkRoot(h, p, i)
  {
    seq(|p| / COMMP_BUF, i requires 0 <= i < |p| / COMMP_BUF => ChunkRoot(h, p, i))
  }

  /** Full chunks keep their roots when more is written. */
  lemma {:induction false} ChunkKept(h: Hasher, p: bytes, q: bytes, i: nat)
    requires (i + 1) * COMMP_BUF <= |p|
    ensures ChunkRoot(h, p + q, i) == ChunkRoot(h, p, i)
  {
    hide Root;
    var lo := i * COMMP_BUF;
    assert lo + COMMP_BUF <= |p|;
    assert (p + q)[lo..][..COMMP_BUF] == p[lo..][..COMMP_BUF];
  }

  lemma {:induction false} NextLength(len: nat, more: nat)
    requires more <= COMMP_BUF - len % COMMP_BUF
    ensures
      var b := len % COMMP_BUF;
      && (b + more < COMMP_BUF ==> (len + more) % COMMP_BUF == b + more && (len + more) / COMMP_BUF == len / COMMP_BUF)
      && (b + more == COMMP_BUF ==> (len + more) % COMMP_BUF == 0 && (len + more) / COMMP_BUF == len / COMMP_BUF + 1)
  {
    var k, b := len / COMMP_BUF, len % COMMP_BUF;
    assert len + more == k * COMMP_BUF + (b + more);
  }

  lemma {:induction false} FullDigest(h: Hasher, p: bytes)
    requires |p| == COMMP_BUF
    ensures |p| <= Covers(BUF_DEPTH) && Digest(h, p) == Some((Root(h, p, BUF_DEPTH), COMMP_BUF_PAD))
  {
    hide Root, DepthOf, Pow2, Covers;
    BufCovers();
    SameDepth(|p|, DepthOf(|p|), BUF_DEPTH);
  }

  /** The buffer after more bytes were copied behind what it held. */
  lemma {:induction false} Buffered(before: bytes, after: bytes, was: bytes, more: bytes)
    requires |before| == |after| == COMMP_BUF && |was| % COMMP_BUF + |more| <= COMMP_BUF
    requires
      var n := |was| % COMMP_BUF;
      && before[..n] == was[|was| - n..]
      && (forall i :: 0 <= i < n ==> after[i] == before[i])
      && (forall i :: 0 <= i < |more| ==> after[n + i] == more[i])
    ensures
      var n := |was| % COMMP_BUF;
      after[..n + |more|] == (was + more)[|was| - n..]
  {
    var n := |was| % COMMP_BUF;
    var x, y := after[..n + |more|], (was + more)[|was| - n..];
    forall i | 0 <= i < n + |more|
      ensures x[i] == y[i]
    {
      if i < n {
        assert before[..n][i] == was[|was| - n..][i];
      } else {
        assert after[n + (i - n)] == more[i - n];
      }
    }
  }

  /** The buffer has become full: its digest is the root of the payload's next chunk. */
  lemma {:induction false} FullChunk(h: Hasher, was: bytes, more: bytes, full: bytes)
    requires |more| == COMMP_BUF - |was| % COMMP_BUF && |full| == COMMP_BUF
    requires full == (was + more)[|was| - |was| % COMMP_BUF..]
    ensures Digest(h, full).Some?
    ensures FullRoots(h, was + more) == FullRoots(h, was) + [Digest(h, full).value.0]
  {
    hide Root, Pow2, Covers, DepthOf, Digest;
    var k, p := |was| / COMMP_BUF, was + more;
    FullDigest(h, full);
    NextLength(|was|, |more|);
    assert Chunk(p, k) == full;
    hide Chunk, Take, Skip;
    forall i | 0 <= i < k
      ensures ChunkRoot(h, p, i) == ChunkRoot(h, was, i)
    {
      ChunkKept(h, was, more, i);
    }
  }

  lemma {:induction false} PartialChunk(h: Hasher, was: bytes, more: bytes)
    requires |was| % COMMP_BUF + |more| < COMMP_BUF
    ensures FullRoots(h, was + more) == FullRoots(h, was)
  {
    hide Root, ChunkRoot;
    NextLength(|was|, |more|);
    forall i | 0 <= i < |was| / COMMP_BUF
      ensures ChunkRoot(h, was + more, i) == ChunkRoot(h, was, i)
    {
      ChunkKept(h, was, more, i);
    }
  }

  datatype SumResult =
    | Summed(payloadSize: nat, pieceSize: nat, root: Option<bytes>)   // None: an undefined CID
    | SumError                                                        // no pieces, or more than 64 GiB

  /** What Sum must return: the one-pass digest of the payload, where there is one. */
  ghost function Expected(h: Hasher, p: bytes): SumResult {
    if |p| == 0 || |p| > MAX_PIECES * COMMP_BUF then SumError
    else
      match Digest(h, p)
      case None => Summed(|p|, 0, None)
      case Some((root, size)) => Summed(|p|, size, Some(root))
  }

  /** zerocomm.ZeroPieceCommitment(CommPBuf) */
  function ZeroPiece(h: Hasher): bytes {
    BufCovers();
    Root(h, [], BUF_DEPTH)
  }

  /** nonffi.GenerateUnsealedCID over a power of two of 8 MiB pieces, for 64 GiB sectors. */
  function GenerateUnsealed(h: Hasher, pieces: seq<bytes>): Option<bytes>
    requires |pieces| > 0 ==> |pieces| == Pow2(BitsLen(|pieces| - 1))
  {
    if |pieces| == 0 || |pieces| > MAX_PIECES then None else Some(Balanced(h, pieces, BitsLen(|pieces| - 1)))
  }

  /** ceil(n / CommPBuf) */
  function Chunks(n: nat): nat { (n + COMMP_BUF - 1) / COMMP_BUF }

  lemma {:induction false} ChunkCount(n: nat)
    ensures n % COMMP_BUF != 0 ==> Chunks(n) == n / COMMP_BUF + 1
    ensures n % COMMP_BUF == 0 ==> Chunks(n) == n / COMMP_BUF
    ensures n > 0 ==> Chunks(n) > 0 && (Chunks(n) - 1) * COMMP_BUF < n <= Chunks(n) * COMMP_BUF
  {}

  lemma {:induction false} WholeChunks(n: nat)
    requires n % COMMP_BUF == 0
    ensures n == n / COMMP_BUF * COMMP_BUF
  {}

  /** The zero-filled buffer digests to the root of the last, partial chunk. */
  lemma {:induction false} PaddedChunk(h: Hasher, p: bytes, tail: bytes)
    requires 0 < |tail| < COMMP_BUF && |tail| == |p| % COMMP_BUF && tail == p[|p| - |tail|..]
    ensures Digest(h, tail + Zeros(COMMP_BUF - |tail|)) == Some((ChunkRoot(h, p, |p| / COMMP_BUF), COMMP_BUF_PAD))
  {
    hide Root, Pow2, Covers, DepthOf, Digest;
    var k := |p| / COMMP_BUF;
    assert Chunk(p, k) == tail;
    BufCovers();
    FullDigest(h, tail + Zeros(COMMP_BUF - |tail|));
    RootZeroPadded(h, tail, COMMP_BUF - |tail|, BUF_DEPTH);
  }

  /** A payload that fits the buffer: its own digest, which is the root of chunk 0 from half of
      the buffer on. */
  lemma {:induction false} OnlyPart(h: Hasher, p: bytes, tail: bytes)
    requires 0 < |p| < COMMP_BUF && tail == p[|p| - |p| % COMMP_BUF..]
    ensures tail == p
    ensures
      var d := Digest(h, p);
      var pps := if d.Some? then d.value.1 else 0;
      && (pps - pps / 128 < COMMP_BUF ==> Expected(h, p) == Summed(|p|, pps, if d.Some? then Some(d.value.0) else None))
      && (pps - pps / 128 >= COMMP_BUF ==> d.Some? && d.value.0 == ChunkRoot(h, p, 0) && |p| > COMMP_BUF / 2)
  {
    hide Root, Pow2, Covers, DepthOf, Chunk, Take, Skip;
    assert p[0..] == p;
    OnlyChunk(p);
    BufCovers();
    var e := DepthOf(|p|);
    if e > BUF_DEPTH {
      Pow2Monotone(BUF_DEPTH, e - 1);
      CoversMonotone(BUF_DEPTH, e - 1);
    }
    if e < BUF_DEPTH {
      Pow2Monotone(e, BUF_DEPTH - 1);
    }
  }

  lemma {:induction false} CoversMonotone(a: nat, b: nat)
    requires a <= b
    ensures Covers(a) <= Covers(b)
  {
    Pow2Monotone(a, b);
  }

  lemma {:induction false} EmptyChunk(h: Hasher, p: bytes, i: nat)
    requires |p| <= i * COMMP_BUF
    ensures ChunkRoot(h, p, i) == ZeroPiece(h)
  {
    hide Root, Pow2, Covers;
    assert Chunk(p, i) == [];
  }

  /** Chunk roots completed to a power of two give the one-pass digest. */
  lemma {:induction false} SumMatches(h: Hasher, p: bytes, ls: seq<bytes>, n: nat)
    requires n == Chunks(|p|) && (n == 1 ==> |p| > COMMP_BUF / 2)
    requires |ls| == if n == 0 then 0 else Pow2(BitsLen(n - 1))
    requires forall j :: 0 <= j < |ls| ==> ls[j] == ChunkRoot(h, p, j)
    ensures |ls| > 0 ==> |ls| == Pow2(BitsLen(|ls| - 1))
    ensures |ls| == 1 ==> Expected(h, p) == Summed(|p|, COMMP_BUF_PAD, Some(ls[0]))
    ensures |ls| != 1 ==>
              var u := GenerateUnsealed(h, ls);
              Expected(h, p) == if u.None? then SumError else Summed(|p|, |ls| * COMMP_BUF_PAD, u)
  {
    hide Root, Chunk, ChunkRoot, DepthOf, Pow2, Covers, Take, Skip, BitsLen, Balanced;
    ChunkCount(|p|);
    if n > 0 {
      var d := BitsLen(n - 1);
      PowerOfTwo(d);
      DepthOfChunks(|p|, n);
      CoversMore(d);
      ChunksCompose(h, p, ls, d);
      AtMost(n, d);
      if d == 0 {
        Pow2Zero();
        BalancedOne(h, ls);
      }
    }
  }

  lemma {:induction false} BalancedOne(h: Hasher, ls: seq<bytes>)
    requires |ls| == Pow2(0)
    ensures Balanced(h, ls, 0) == ls[0]
  {}

  lemma {:induction false} PowerOfTwo(d: nat)
    ensures BitsLen(Pow2(d) - 1) == d
    ensures Pow2(d) == 1 <==> d == 0
  {
    hide BitsLen;
    var l := BitsLen(Pow2(d) - 1);
    if l < d {
      Pow2Monotone(l, d - 1);
    } else if l > d {
      Pow2Monotone(d, l - 1);
    }
  }

  lemma {:induction false} AtMost(n: nat, d: nat)
    requires n > 0 && d == BitsLen(n - 1)
    ensures Pow2(d) <= MAX_PIECES <==> n <= MAX_PIECES
  {
    hide BitsLen;
    assert Pow2(13) == MAX_PIECES by { assert Pow2(8) == 256; }
    if d <= 13 {
      Pow2Monotone(d, 13);
    } else {
      Pow2Monotone(13, d - 1);
      Pow2Monotone(14, d);
    }
  }

  /** The channel of one full chunk: its root can be received once. */
  datatype Leaf = Pending(root: bytes) | Drained

  class DataCidWriter {
    const h: Hasher
    var len: nat
    const buf: array<byte>
    var leaves: seq<Leaf>       // one for each full chunk, in write order
    ghost var written: bytes

    constructor (h: Hasher)
      ensures this.h == h && Valid() && fresh(buf) && written == [] && leaves == []
    {
      this.h := h;
      len, leaves, written := 0, [], [];
      buf := new byte[COMMP_BUF](_ => 0);
    }

    ghost predicate Valid()
      reads this, buf
    {
      && buf.Length == COMMP_BUF && len == |written| && LeavesOf(leaves, FullRoots(h, written))
      && buf[..len % COMMP_BUF] == written[len - len % COMMP_BUF..]
    }

    /** No leaf has been received yet; receiving one a second time would block forever. */
    ghost predicate Unread()
      reads this
    {
      Drained !in leaves
    }

    static ghost predicate LeavesOf(ls: seq<Leaf>, roots: seq<bytes>) {
      |ls| == |roots| && forall i :: 0 <= i < |ls| ==> ls[i] == Drained || ls[i] == Pending(roots[i])
    }

    /** One round of Write's loop: fill the buffer, hash it when it is full. */
    method WriteSome(p: bytes) returns (rest: bytes)
      requires Valid() && |p| > 0
      modifies this`len, this`leaves, this`written, buf
      ensures Valid() && |rest| < |p| && p == p[..|p| - |rest|] + rest && written == old(written) + p[..|p| - |rest|]
      ensures |leaves| >= |old(leaves)| && leaves[..|old(leaves)|] == old(leaves) && (old(Unread()) ==> Unread())
    {
      hide Root, Chunk, ChunkRoot, FullRoots, DepthOf, Digest, Pow2, Covers, Take, Skip;
      var buffered := len % COMMP_BUF;
      var toBuffer := COMMP_BUF - buffered;
      if toBuffer > |p| {
        toBuffer := |p|;
      }
      forall i | 0 <= i < toBuffer {
        buf[buffered + i] := p[i];
      }
      rest := p[toBuffer..];
      ghost var was := written;
      len := len + toBuffer;
      written := written + p[..toBuffer];
      assert p == p[..toBuffer] + rest;
      Buffered(old(buf[..]), buf[..], was, p[..toBuffer]);
      NextLength(|was|, toBuffer);
      if len % COMMP_BUF == 0 {
        assert buf[..buffered + toBuffer] == buf[..];
        FullChunk(h, was, p[..toBuffer], buf[..]);
        leaves := leaves + [Pending(Digest(h, buf[..]).value.0)];
        assert written[len..] == [];
      } else {
        PartialChunk(h, was, p[..toBuffer]);
      }
    }

    /** io.Writer: full buffers are hashed as leaves of their own. */
    method Write(p: bytes) returns (n: nat)
      requires Valid()
      modifies this`len, this`leaves, this`written, buf
      ensures Valid() && written == old(written) + p && n == |p|
      ensures |leaves| >= |old(leaves)| && leaves[..|old(leaves)|] == old(leaves) && (old(Unread()) ==> Unread())
    {
      hide Root, Chunk, ChunkRoot, FullRoots;
      var rest := p;
      assert old(written) + p[..0] == old(written);
      while |rest| > 0
        invariant Valid() && |rest| <= |p| && rest == p[|p| - |rest|..]
        invariant written == old(written) + p[..|p| - |rest|]
        invariant |leaves| >= |old(leaves)| && leaves[..|old(leaves)|] == old(leaves) && (old(Unread()) ==> Unread())
      {
        ghost var done := p[..|p| - |rest|];
        ghost var before := rest;
        rest := WriteSome(rest);
        ConcatAssoc(old(written), done, before[..|before| - |rest|]);
        assert p[..|p| - |rest|] == done + before[..|before| - |rest|];
      }
      assert p[..|p|] == p;
      n := |p|;
    }

    /** Receives every leaf. */
    method ReceiveLeaves() returns (ls: seq<bytes>)
      requires Valid() && Unread()
      modifies this`leaves
      ensures Valid() && ls == FullRoots(h, written) && AllDrained()
    {
      hide FullRoots, ChunkRoot;
      AllPending(leaves, FullRoots(h, written));
      ls, leaves := Receive(leaves, FullRoots(h, written));
      StillValid();
    }

    static method Receive(leaves: seq<Leaf>, ghost roots: seq<bytes>) returns (ls: seq<bytes>, left: seq<Leaf>)
      requires |leaves| == |roots| && forall i :: 0 <= i < |leaves| ==> leaves[i] == Pending(roots[i])
      ensures ls == roots && |left| == |leaves| && forall i :: 0 <= i < |left| ==> left[i] == Drained
    {
      ls, left := [], leaves;
      var i := 0;
      while i < |left|
        invariant 0 <= i <= |left| == |leaves| && ls == roots[..i]
        invariant forall j :: 0 <= j < i ==> left[j] == Drained
        invariant forall j :: i <= j < |left| ==> left[j] == Pending(roots[j])
      {
        ls := ls + [left[i].root];
        left := left[i := Drained];
        i := i + 1;
      }
    }

    ghost predicate AllDrained()
      reads this
    {
      forall i :: 0 <= i < |leaves| ==> leaves[i] == Drained
    }

    lemma {:induction false} NoneLeft()
      requires Valid() && AllDrained()
      ensures Unread() <==> |written| < COMMP_BUF
    {
      hide ChunkRoot;
      if |leaves| > 0 {
        assert leaves[0] in leaves;
      }
    }

    static lemma {:induction false} AllPending(ls: seq<Leaf>, roots: seq<bytes>)
      requires LeavesOf(ls, roots) && Drained !in ls
      ensures |ls| == |roots| && forall i :: 0 <= i < |ls| ==> ls[i] == Pending(roots[i])
    {
      forall i | 0 <= i < |ls|
        ensures ls[i] == Pending(roots[i])
      {
        assert ls[i] in ls;
      }
    }

    twostate lemma StillValid()
      requires old(Valid()) && len == old(len) && written == old(written) && buf[..] == old(buf[..])
      requires |leaves| == |old(leaves)| && AllDrained()
      ensures Valid()
    {
      hide FullRoots, ChunkRoot;
    }

    /** The chunk roots, the last partial chunk included. None: the payload was too small for
        them, and the answer is the digest of the buffered bytes alone. */
    method LastLeaf() returns (ls: seq<bytes>, small: Option<SumResult>)
      requires Valid() && Unread()
      modifies buf, this`leaves
      ensures Valid() && AllDrained()
      ensures small.Some? ==> small.value == Expected(h, written)
      ensures small.None? ==>
                && |ls| == Chunks(|written|) && (|ls| == 1 ==> |written| > COMMP_BUF / 2)
                && forall i :: 0 <= i < |ls| ==> ls[i] == ChunkRoot(h, written, i)
    {
      hide Root, Chunk, ChunkRoot, DepthOf, Digest, Pow2, Covers, Take, Skip, Expected;
      var lastLen := len % COMMP_BUF;
      ls := ReceiveLeaves();
      small := None;
      ChunkCount(len);
      if lastLen != 0 {
        ghost var tail := buf[..lastLen];
        if |ls| != 0 {
          forall i | lastLen <= i < COMMP_BUF {
            buf[i] := 0;
          }
          assert buf[..lastLen] == tail;
          assert buf[..] == tail + Zeros(COMMP_BUF - lastLen);
          PaddedChunk(h, written, tail);
          lastLen := COMMP_BUF;
          assert buf[..lastLen] == buf[..];
        } else {
          OnlyPart(h, written, tail);
        }
        var digest := Digest(h, buf[..lastLen]);
        var pps := if digest.Some? then digest.value.1 else 0;
        if pps - pps / 128 < COMMP_BUF {
          small := Some(Summed(len, pps, if digest.Some? then Some(digest.value.0) else None));
          return;
        }
        ls := ls + [digest.value.0];
      } else {
        WholeChunks(len);
      }
    }

    /** Size and root of everything written so far. It can be asked for again only as long as no full
        chunk has been written. */
    method Sum() returns (r: SumResult)
      requires Valid() && Unread()
      modifies buf, this`leaves
      ensures Valid() && r == Expected(h, written)
      ensures Unread() <==> |written| < COMMP_BUF
    {
      hide Root, Chunk, ChunkRoot, DepthOf, Digest, Pow2, Covers, Take, Skip, Expected, BitsLen, FullRoots,
        GenerateUnsealed, ZeroPiece, Chunks;
      var rawLen := len;
      var ls, small := LastLeaf();
      NoneLeft();
      if small.Some? {
        return small.value;
      }
      var fillerLeaves := if |ls| == 0 then 0 else Pow2(BitsLen(|ls| - 1)) - |ls|;
      ghost var n := |ls|;
      ChunkCount(|written|);
      for i := 0 to fillerLeaves
        invariant Valid() && |ls| == n + i && (Unread() <==> |written| < COMMP_BUF)
        invariant forall j :: 0 <= j < |ls| ==> ls[j] == ChunkRoot(h, written, j)
      {
        EmptyChunk(h, written, n + i);
        ls := ls + [ZeroPiece(h)];
      }
      SumMatches(h, written, ls, n);
      if |ls| == 1 {
        return Summed(rawLen, COMMP_BUF_PAD, Some(ls[0]));
      }
      var p := GenerateUnsealed(h, ls);
      if p.None? {
        return SumError;
      }
      return Summed(rawLen, |ls| * COMMP_BUF_PAD, p);
    }
  }
}
