/** The 256-bit filter at the end of each BSST bucket, read in two ways: as a bloom filter
    (is bit e set?) and, through masked popcounts, as a lower bound on the slot of a key. */
module BloomRank {
  import opened Bytes

  const FILTER_BYTES := 32
  const FILTER_BITS := 256

  // ---- single bits ----------------------------------------------------------

  /** b & (1 << k) != 0 */
  predicate BitOf(b: nat, k: nat) {
    if k == 0 then b % 2 == 1 else BitOf(b / 2, k - 1)
  }

  /** b | (1 << k), for an n-bit b */
  function OrBit(b: nat, k: nat, ghost n: nat := 8): (r: nat)
    requires k < n && b < Pow2(n)
    ensures r < Pow2(n)
  {
    if k == 0 then (if b % 2 == 1 then b else b + 1)
    else b % 2 + 2 * OrBit(b / 2, k - 1, n - 1)
  }

  lemma {:induction false} OrBitSets(b: nat, k: nat, j: nat, n: nat)
    requires k < n && b < Pow2(n)
    ensures BitOf(OrBit(b, k, n), j) == (j == k || BitOf(b, j))
  {
    hide Pow2;
    if k > 0 {
      HalfFits(b, n);
      Halved(b % 2, OrBit(b / 2, k - 1, n - 1));
      if j > 0 {
        OrBitSets(b / 2, k - 1, j - 1, n - 1);
      }
    } else if j > 0 {
      assert OrBit(b, k, n) / 2 == b / 2;
    }
  }

  lemma {:induction false} HalfFits(b: nat, n: nat)
    requires n > 0 && b < Pow2(n)
    ensures b / 2 < Pow2(n - 1)
  {}

  lemma {:induction false} Halved(bit: nat, x: nat)
    requires bit < 2
    ensures (bit + 2 * x) / 2 == x && (bit + 2 * x) % 2 == bit
  {}

  predicate Bit(filter: bytes, i: nat)
    requires i < 8 * |filter|
  {
    BitOf(filter[i / 8], i % 8)
  }

  /** bloomHead[i/8] |= 1 << (i%8) */
  function SetBit(filter: bytes, i: nat): (r: bytes)
    requires i < 8 * |filter|
    ensures |r| == |filter|
  {
    assert Pow2(8) == 256 by { assert Pow2(4) == 16; }
    filter[i / 8 := OrBit(filter[i / 8], i % 8)]
  }

  lemma {:induction false} SetBitAt(filter: bytes, i: nat, j: nat)
    requires i < 8 * |filter| && j < 8 * |filter|
    ensures Bit(SetBit(filter, i), j) == (j == i || Bit(filter, j))
  {
    assert Pow2(8) == 256 by { assert Pow2(4) == 16; }
    OrBitSets(filter[i / 8], i % 8, j % 8, 8);
  }

  // ---- uint64 words, least significant bit first -----------------------------

  type Word = w: seq<bool> | |w| == 64 witness seq(64, i => false)

  function Ones(): Word { seq(64, i => true) }

  function And(a: Word, b: Word): Word { seq(64, i requires 0 <= i < 64 => a[i] && b[i]) }
  function Or(a: Word, b: Word): Word { seq(64, i requires 0 <= i < 64 => a[i] || b[i]) }
  function ShiftRight(a: Word, k: nat): Word { seq(64, i requires 0 <= i < 64 => i + k < 64 && a[i + k]) }

  /** Two's complement negation of a uint64: -x is the complement of x - 1. */
  function Negate(x: nat): Word {
    if x == 0 then seq(64, i => false)
    else seq(64, i requires 0 <= i < 64 => !BitOf(x - 1, i))
  }

  function BitOr(a: nat, b: nat): nat {
    if a == 0 then b
    else if b == 0 then a
    else (if a % 2 == 1 || b % 2 == 1 then 1 else 0) + 2 * BitOr(a / 2, b / 2)
  }

  function BitAnd(a: nat, b: nat): nat {
    if a == 0 || b == 0 then 0
    else (if a % 2 == 1 && b % 2 == 1 then 1 else 0) + 2 * BitAnd(a / 2, b / 2)
  }

  /** binary.LittleEndian.Uint64 of the j-th 8-byte group of the filter. */
  function LoadWord(filter: bytes, j: nat): Word
    requires |filter| == FILTER_BYTES && j < 4
  {
    seq(64, i requires 0 <= i < 64 => Bit(filter, 64 * j + i))
  }

  /** How many of the first m bits are set. */
  function Rank(s: seq<bool>, m: nat): (r: nat)
    requires m <= |s|
    ensures r <= m
  {
    if m == 0 then 0 else Rank(s, m - 1) + (if s[m - 1] then 1 else 0)
  }

  function OnesCount(w: Word): nat { Rank(w, 64) }

  // ---- the masks of Has and Get ----------------------------------------------

  /** The four mask words computed for bloom index e. */
  function Masks(e: nat): (m: (Word, Word, Word, Word))
    requires e < FILTER_BITS
  {
    var mLast := ShiftRight(Ones(), 63 - e % 64);
    var bei6 := e / 64;
    var inM2 := e / 128 % 2;
    var inM1 := BitOr(inM2, bei6);
    var inM3 := BitAnd(inM2, bei6);
    (Or(mLast, Negate(inM1)),
     Or(And(mLast, Negate(inM1)), Negate(inM2)),
     Or(And(mLast, Negate(inM2)), Negate(inM3)),
     And(mLast, Negate(inM3)))
  }

  /** minOffIdx: the slot at which the scan of a bucket starts. */
  function StartIndex(filter: bytes, e: nat): int
    requires |filter| == FILTER_BYTES && e < FILTER_BITS
  {
    var m := Masks(e);
    OnesCount(And(LoadWord(filter, 0), m.0)) + OnesCount(And(LoadWord(filter, 1), m.1)) +
    OnesCount(And(LoadWord(filter, 2), m.2)) + OnesCount(And(LoadWord(filter, 3), m.3)) - 1
  }

  lemma {:induction false} SmallNegations()
    ensures forall i :: 0 <= i < 64 ==> !Negate(0)[i]
    ensures forall i :: 0 <= i < 64 ==> Negate(1)[i]
    ensures forall i :: 0 <= i < 64 ==> Negate(3)[i] == (i != 1)
  {
    forall i | 0 <= i < 64
      ensures Negate(1)[i] && Negate(3)[i] == (i != 1)
    {
      ZeroHasNoBits(i);
      if i >= 2 {
        ZeroHasNoBits(i - 2);
        assert BitOf(2, i) == BitOf(1, i - 1) == BitOf(0, i - 2);
      } else {
        assert !BitOf(2, 0) && BitOf(2, 1) == BitOf(1, 0);
      }
    }
  }

  lemma {:induction false} ZeroHasNoBits(i: nat)
    ensures !BitOf(0, i)
  {
    if i > 0 {
      ZeroHasNoBits(i - 1);
    }
  }

  /** Each quarter of the 256-bit mask, as its own words say it. */
  function MaskBit(e: nat, i: nat): bool
    requires e < FILTER_BITS && i < FILTER_BITS
  {
    var m := Masks(e);
    if i < 64 then m.0[i] else if i < 128 then m.1[i - 64] else if i < 192 then m.2[i - 128] else m.3[i - 192]
  }

  /** The exact mask: all bits up to e, except that bit 1 is dropped for e = 128 and e = 192. */
  lemma {:induction false} MaskExact(e: nat, i: nat)
    requires e < FILTER_BITS && i < FILTER_BITS
    ensures MaskBit(e, i) == (i <= e && !(i == 1 && (e == 128 || e == 192)))
  {
    SmallNegations();
    var q := e / 64;
    if q == 0 {
      assert BitOr(0, 0) == 0 && BitAnd(0, 0) == 0;
    } else if q == 1 {
      assert BitOr(0, 1) == 1 && BitAnd(0, 1) == 0;
    } else if q == 2 {
      assert BitOr(1, 2) == 3 by { assert BitOr(0, 1) == 1; }
      assert BitAnd(1, 2) == 0 by { assert BitAnd(0, 1) == 0; }
    } else {
      assert BitOr(1, 3) == 3 by { assert BitOr(0, 1) == 1; }
      assert BitAnd(1, 3) == 1 by { assert BitAnd(0, 1) == 0; }
    }
  }

  // ---- rank lemmas -----------------------------------------------------------

  lemma {:induction false} RankMonotone(a: seq<bool>, b: seq<bool>, m: nat)
    requires m <= |a| && m <= |b|
    requires forall i :: 0 <= i < m && a[i] ==> b[i]
    ensures Rank(a, m) <= Rank(b, m)
  {
    if m > 0 {
      RankMonotone(a, b, m - 1);
    }
  }

  lemma {:induction false} RankConcat(a: seq<bool>, b: seq<bool>, m: nat)
    requires m <= |b|
    ensures Rank(a + b, |a| + m) == Rank(a, |a|) + Rank(b, m)
  {
    if m > 0 {
      RankConcat(a, b, m - 1);
    } else {
      RankPrefix(a, a + b, |a|);
    }
  }

  lemma {:induction false} RankPrefix(a: seq<bool>, b: seq<bool>, m: nat)
    requires m <= |a| && m <= |b|
    requires forall i :: 0 <= i < m ==> a[i] == b[i]
    ensures Rank(a, m) == Rank(b, m)
  {
    if m > 0 {
      RankPrefix(a, b, m - 1);
    }
  }

  /** No bits set from m on: the rank stays what it was at m. */
  lemma {:induction false} RankTail(a: seq<bool>, m: nat, n: nat)
    requires m <= n <= |a|
    requires forall i :: m <= i < n ==> !a[i]
    ensures Rank(a, n) == Rank(a, m)
    decreases n
  {
    if m < n {
      RankTail(a, m, n - 1);
    }
  }

  lemma {:induction false} RankPositive(a: seq<bool>, i: nat, n: nat)
    requires i < n <= |a| && a[i]
    ensures Rank(a, n) >= 1
    decreases n
  {
    if i < n - 1 {
      RankPositive(a, i, n - 1);
    }
  }

  /** One more bit raises the rank by at most one. */
  lemma {:induction false} RankOneMore(a: seq<bool>, b: seq<bool>, k: nat, n: nat)
    requires n <= |a| && n <= |b|
    requires forall i :: 0 <= i < n && i != k ==> a[i] == b[i]
    ensures Rank(b, n) <= Rank(a, n) + 1
  {
    if n > 0 {
      if k == n - 1 {
        RankPrefix(a, b, n - 1);
      } else {
        RankOneMore(a, b, k, n - 1);
      }
    }
  }

  /** The filter as a sequence of bits. */
  function Bits(filter: bytes): (s: seq<bool>)
    requires |filter| == FILTER_BYTES
    ensures |s| == FILTER_BITS
  {
    seq(FILTER_BITS, i requires 0 <= i < FILTER_BITS => Bit(filter, i))
  }

  ghost function Masked(filter: bytes, e: nat): (s: seq<bool>)
    requires |filter| == FILTER_BYTES && e < FILTER_BITS
    ensures |s| == FILTER_BITS
  {
    seq(FILTER_BITS, i requires 0 <= i < FILTER_BITS => Bit(filter, i) && MaskBit(e, i))
  }

  lemma {:induction false} StartIndexIsMaskedRank(filter: bytes, e: nat)
    requires |filter| == FILTER_BYTES && e < FILTER_BITS
    ensures StartIndex(filter, e) == Rank(Masked(filter, e), FILTER_BITS) - 1
  {
    hide Masks;
    var m := Masks(e);
    var w0: seq<bool>, w1: seq<bool> := And(LoadWord(filter, 0), m.0), And(LoadWord(filter, 1), m.1);
    var w2: seq<bool>, w3: seq<bool> := And(LoadWord(filter, 2), m.2), And(LoadWord(filter, 3), m.3);
    RankConcat(w0, w1, 64);
    RankConcat(w0 + w1, w2, 64);
    RankConcat(w0 + w1 + w2, w3, 64);
    RankPrefix(w0 + w1 + w2 + w3, Masked(filter, e), FILTER_BITS);
  }

  /** Where bit e is set, the scan starts at slot 0 or later, and no later than the number of
      set bits below e. The quirk at e = 128 and e = 192 only makes it start earlier. */
  lemma {:induction false} StartIndexBounds(filter: bytes, e: nat)
    requires |filter| == FILTER_BYTES && e < FILTER_BITS
    requires Bit(filter, e)
    ensures 0 <= StartIndex(filter, e) <= Rank(Bits(filter), e)
  {
    StartIndexIsMaskedRank(filter, e);
    var s := Masked(filter, e);
    forall i | 0 <= i < FILTER_BITS
      ensures s[i] == (Bit(filter, i) && i <= e && !(i == 1 && (e == 128 || e == 192)))
    {
      MaskExact(e, i);
    }
    RankPositive(s, e, FILTER_BITS);
    RankTail(s, e + 1, FILTER_BITS);
    RankMonotone(s, Bits(filter), e + 1);
  }
}
