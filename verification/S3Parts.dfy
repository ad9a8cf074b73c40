/** Multipart upload of a group's CAR: the chunk size for a file size, and the look-ahead loop
    that cuts a stream into numbered parts. */
module S3Parts {
  import opened Bytes

  const PART_SIZE := 128 * 0x10_0000
  const MIN_PART_SIZE := 8 * 0x10_0000
  const ADJUSTMENT_SIZE := 100 * 1024
  const LARGEST := 150 * 1024 * 0x10_0000  // 150 GiB

  /** math.Ceil of the quotient; the operands are far below 2^53, so rounding cannot reach the
      next integer. */
  function NumParts(fileSize: nat, chunk: nat): (n: nat)
    requires chunk > 0
    ensures fileSize <= n * chunk && (n > 0 ==> (n - 1) * chunk < fileSize)
  {
    var n := (fileSize + chunk - 1) / chunk;
    CeilBounds(fileSize, chunk);
    n
  }

  lemma {:induction false} CeilBounds(x: nat, d: nat)
    requires d > 0
    ensures
      var n := (x + d - 1) / d;
      x <= n * d && (n > 0 ==> (n - 1) * d < x)
  {
    var n, m := (x + d - 1) / d, (x + d - 1) % d;
    assert x + d - 1 == n * d + m;
    assert (n - 1) * d == n * d - d;
  }

  lemma {:induction false} MulLe(a: int, b: int, d: nat)
    ensures a <= b ==> a * d <= b * d
  {
    if a <= b {
      assert (b - a) * d >= 0;
      assert b * d == (b - a) * d + a * d;
    }
  }

  lemma {:induction false} OneCeil(x: nat, d: nat, n: nat)
    requires d > 0 && n > 0 && (n - 1) * d < x <= n * d
    ensures NumParts(x, d) == n
  {
    hide NumParts;
    var m := NumParts(x, d);
    MulLe(m, n - 1, d);
    MulLe(n, m - 1, d);
  }

  function LastPart(fileSize: nat, chunk: nat): int
    requires chunk > 0
  {
    fileSize - (NumParts(fileSize, chunk) - 1) * chunk
  }

  /** The last of the parts is never larger than a chunk, so the program's branch that enlarges
      the chunk is never taken. */
  lemma {:induction false} LastPartBounds(fileSize: nat, chunk: nat)
    requires chunk > 0 && fileSize > 0
    ensures 0 < LastPart(fileSize, chunk) <= chunk
  {
    var n := NumParts(fileSize, chunk);
    assert (n - 1) * chunk == n * chunk - chunk;
  }

  /** A chunk size after s adjustments and a last part after k full ones. */
  ghost predicate Adjusted(fileSize: nat, k: nat, s: nat, chunk: int, last: int) {
    && k <= 1199 && 0 < fileSize - k * PART_SIZE && s <= 82
    && chunk == PART_SIZE - s * ADJUSTMENT_SIZE && last == fileSize - k * PART_SIZE + k * s * ADJUSTMENT_SIZE
    && chunk > 0 && NumParts(fileSize, chunk) == k + 1 && last == LastPart(fileSize, chunk)
  }

  lemma {:induction false} AdjustOnce(fileSize: nat, k: nat, s: nat, chunk: int, last: int)
    requires MIN_PART_SIZE <= fileSize && Adjusted(fileSize, k, s, chunk, last) && last < MIN_PART_SIZE
    ensures s < 82 && Adjusted(fileSize, k, s + 1, chunk - ADJUSTMENT_SIZE, last + k * ADJUSTMENT_SIZE)
  {
    hide NumParts;
    FewSteps(fileSize, k, s, last);
    assert k * (s + 1) == k * s + k;
    var chunk', last' := chunk - ADJUSTMENT_SIZE, last + k * ADJUSTMENT_SIZE;
    Distribute(k, s + 1);
    assert k * chunk' + last' == fileSize;
    assert (k + 1) * chunk' == k * chunk' + chunk';
    OneCeil(fileSize, chunk', k + 1);
  }

  lemma {:induction false} FewSteps(fileSize: nat, k: nat, s: nat, last: int)
    requires MIN_PART_SIZE <= fileSize && k <= 1199 && 0 < fileSize - k * PART_SIZE && last < MIN_PART_SIZE
    requires last == fileSize - k * PART_SIZE + k * s * ADJUSTMENT_SIZE
    ensures k > 0 && k * s <= 81 && s <= 81 && k + s + 1 <= 1228
  {
    assert k * s <= 81;
    MulLe(1, k, s);
    MulLe(1, s, k);
  }

  lemma {:induction false} Distribute(k: nat, t: nat)
    ensures k * (PART_SIZE - t * ADJUSTMENT_SIZE) == k * PART_SIZE - k * t * ADJUSTMENT_SIZE
  {}

  lemma {:induction false} LastPartIs(fileSize: nat, chunk: nat)
    requires chunk > 0
    ensures LastPart(fileSize, chunk) == fileSize - (NumParts(fileSize, chunk) - 1) * chunk
  {}

  lemma {:induction false} IsTooSmall(fileSize: nat, chunk: nat)
    requires chunk > 0 && LastPart(fileSize, chunk) < MIN_PART_SIZE
    ensures TooSmall(fileSize, chunk)
  {}

  /** The first of the sizes 128 MiB, less 100 KiB, less 200 KiB, ... that leaves a last part of at least 8 MiB. */
  ghost predicate FirstFit(fileSize: nat, s: nat, chunk: int) {
    && chunk == PART_SIZE - s * ADJUSTMENT_SIZE > 0 && LastPart(fileSize, chunk) >= MIN_PART_SIZE
    && TooSmallBefore(fileSize, s)
  }

  ghost predicate TooSmallBefore(fileSize: nat, s: nat) {
    forall t :: 0 <= t < s ==> TooSmall(fileSize, PART_SIZE - t * ADJUSTMENT_SIZE)
  }

  ghost predicate TooSmall(fileSize: nat, chunk: int) { chunk > 0 && LastPart(fileSize, chunk) < MIN_PART_SIZE }

  /** For sizes from 8 MiB to 150 GiB the adjustment ends with the first size that fits, a chunk of 119 to
      128 MiB and a last part between 8 MiB and the chunk. */
  method CalculateChunkSize(fileSize: nat) returns (chunkSize: int, ghost s: nat)
    requires MIN_PART_SIZE <= fileSize <= LARGEST
    ensures FirstFit(fileSize, s, chunkSize)
    ensures 119 * 0x10_0000 <= chunkSize <= PART_SIZE
    ensures MIN_PART_SIZE <= LastPart(fileSize, chunkSize) <= chunkSize
  {
    hide NumParts, LastPart, TooSmall;
    var numParts := NumParts(fileSize, PART_SIZE);
    chunkSize := PART_SIZE;
    var lastPartSize := fileSize - (numParts - 1) * chunkSize;
    ghost var k: nat := numParts - 1;
    s := 0;
    LastPartIs(fileSize, chunkSize);
    LastPartBounds(fileSize, chunkSize);
    while lastPartSize < MIN_PART_SIZE || lastPartSize > chunkSize
      invariant Adjusted(fileSize, k, s, chunkSize, lastPartSize) && lastPartSize <= chunkSize
      invariant TooSmallBefore(fileSize, s)
      decreases 82 - s
    {
      AdjustOnce(fileSize, k, s, chunkSize, lastPartSize);
      IsTooSmall(fileSize, chunkSize);
      if lastPartSize < MIN_PART_SIZE {
        chunkSize := chunkSize - ADJUSTMENT_SIZE;
      } else if lastPartSize > chunkSize {
        chunkSize := chunkSize + ADJUSTMENT_SIZE;
      }
      numParts := NumParts(fileSize, chunkSize);
      lastPartSize := fileSize - (numParts - 1) * chunkSize;
      LastPartIs(fileSize, chunkSize);
      LastPartBounds(fileSize, chunkSize);
      s := s + 1;
    }
  }

  /** The lower limit is sharp: a smaller nonempty file has no acceptable chunk size. */
  lemma {:induction false} SmallFileNeverFits(fileSize: nat, chunk: nat)
    requires 0 < fileSize < MIN_PART_SIZE && chunk > 0
    ensures LastPart(fileSize, chunk) < MIN_PART_SIZE
  {
    var n := NumParts(fileSize, chunk);
    assert (n - 1) * chunk >= 0;
  }

  // ---- the upload loop ----------------------------------------------------------------------

  function Joined(parts: seq<bytes>): bytes {
    if parts == [] then [] else Joined(parts[..|parts| - 1]) + parts[|parts| - 1]
  }

  lemma {:induction false} JoinedSnoc(parts: seq<bytes>, p: bytes)
    ensures Joined(parts + [p]) == Joined(parts) + p
  {
    assert (parts + [p])[..|parts|] == parts;
  }

  /** What io.ReadFull leaves in the buffer. */
  function ReadFull(src: bytes, n: nat): (r: (bytes, bytes))
    ensures r.0 + r.1 == src && |r.0| <= n && (|r.0| < n ==> r.1 == [])
  {
    if |src| <= n then (src, []) else (src[..n], src[n..])
  }

  ghost predicate AllWhole(parts: seq<bytes>, partSize: nat) { forall i :: 0 <= i < |parts| ==> |parts[i]| == partSize }

  /** All parts but the last are one chunk. */
  ghost predicate Cut(parts: seq<bytes>, partSize: nat) { parts != [] ==> AllWhole(parts[..|parts| - 1], partSize) }

  lemma {:induction false} JoinedLast(parts: seq<bytes>)
    requires parts != []
    ensures |Joined(parts)| == |Joined(parts[..|parts| - 1])| + |parts[|parts| - 1]|
  {}

  lemma {:induction false} OneMore(n: nat, d: nat)
    ensures (n + 1) * d == n * d + d
  {}

  lemma {:induction false} WholeSize(parts: seq<bytes>, partSize: nat)
    requires AllWhole(parts, partSize)
    ensures |Joined(parts)| == |parts| * partSize
  {
    if parts == [] {
      assert Joined(parts) == [];
    } else {
      hide Joined;
      var n := |parts| - 1;
      WholeSize(parts[..n], partSize);
      JoinedLast(parts);
      OneMore(n, partSize);
    }
  }

  /** The last part is what full chunks leave of the stream. */
  lemma {:induction false} CutSize(parts: seq<bytes>, partSize: nat)
    requires Cut(parts, partSize) && parts != []
    ensures |Joined(parts)| == (|parts| - 1) * partSize + |parts[|parts| - 1]|
  {
    WholeSize(parts[..|parts| - 1], partSize);
  }

  /** Numbered 1, 2, ... in order, the parts join to the stream, whatever its length; every part but
      the last is exactly one chunk, and no part of a stream of at least 8 MiB is smaller. */
  method UploadParts(source: bytes, partSize: nat) returns (parts: seq<bytes>)
    requires partSize >= MIN_PART_SIZE
    ensures Joined(parts) == source && Cut(parts, partSize)
    ensures parts != [] ==> 0 < |parts[|parts| - 1]| < partSize + MIN_PART_SIZE
    ensures |source| >= MIN_PART_SIZE ==> parts != [] && |parts[|parts| - 1]| >= MIN_PART_SIZE
  {
    hide ReadFull, Joined;
    parts := [];
    var (curPart, src) := ReadFull(source, partSize);
    JoinedNone(source, curPart, src);
    while |curPart| > 0
      invariant Joined(parts) + curPart + src == source && Cut(parts, partSize)
      invariant curPart != [] ==> AllWhole(parts, partSize)
      invariant |curPart| <= partSize && (|curPart| < partSize ==> src == [])
      invariant parts != [] ==> 0 < |parts[|parts| - 1]| < partSize + MIN_PART_SIZE
      invariant parts != [] && |source| >= MIN_PART_SIZE ==> |parts[|parts| - 1]| >= MIN_PART_SIZE
      invariant parts != [] && curPart != [] ==> |curPart| >= MIN_PART_SIZE
      invariant parts == [] ==> curPart + src == source
      decreases |curPart| + |src|
    {
      var (nextPart, rest) := ReadFull(src, partSize);
      Rejoin(Joined(parts), curPart, nextPart, rest);
      src := rest;
      if |nextPart| < MIN_PART_SIZE && |nextPart| > 0 {
        curPart := curPart + nextPart;
        nextPart := [];
      }
      JoinedSnoc(parts, curPart);
      assert (parts + [curPart])[..|parts|] == parts;
      parts := parts + [curPart];
      curPart := nextPart;
    }
  }

  lemma {:induction false} JoinedNone(source: bytes, a: bytes, b: bytes)
    requires a + b == source
    ensures Joined([]) + a + b == source
  {
    assert [] + a == a;
  }

  lemma {:induction false} Rejoin(a: bytes, b: bytes, c: bytes, d: bytes)
    ensures a + b + (c + d) == (a + b) + c + d
    ensures a + b + (c + d) == a + (b + c) + [] + d
  {
    assert a + b + (c + d) == a + (b + c) + [] + d;
  }

  /** For a stream of the announced length no merging happens: every part has between 8 MiB and one
      chunk, and there are as many parts as the size computation assumed. */
  method UploadGroup(source: bytes) returns (parts: seq<bytes>, chunk: nat)
    requires MIN_PART_SIZE <= |source| <= LARGEST
    ensures Joined(parts) == source && Cut(parts, chunk) && parts != []
    ensures 119 * 0x10_0000 <= chunk <= PART_SIZE
    ensures |parts| == NumParts(|source|, chunk)
    ensures MIN_PART_SIZE <= |parts[|parts| - 1]| <= chunk
  {
    hide NumParts, Joined, Cut;
    ghost var s;
    chunk, s := CalculateChunkSize(|source|);
    parts := UploadParts(source, chunk);
    CutSize(parts, chunk);
    SameCut(|source|, chunk, |parts|, |parts[|parts| - 1]|);
  }

  lemma {:induction false} SameCut(size: nat, chunk: nat, n: nat, last: nat)
    requires n > 0 && size == (n - 1) * chunk + last && 0 < last < chunk + MIN_PART_SIZE && chunk >= MIN_PART_SIZE
    requires MIN_PART_SIZE <= LastPart(size, chunk) <= chunk
    ensures n == NumParts(size, chunk) && last == LastPart(size, chunk)
  {
    hide NumParts;
    var m := NumParts(size, chunk);
    if last <= chunk {
      assert (n - 1) * chunk + chunk == n * chunk;
      OneCeil(size, chunk, n);
    } else {
      assert (n - 1) * chunk + 2 * chunk == (n + 1) * chunk;
      assert (n - 1) * chunk + chunk == n * chunk;
      OneCeil(size, chunk, n + 1);
    }
  }
}
