/** PebbleIndex: which groups hold a multihash, in two key spaces of one sorted key-value store. */
module TopIndex {
  import opened Bytes
  import opened Cars

  const LETTER_I: byte := 105
  const LETTER_S: byte := 115
  const COLON: byte := 58

  // ---- keys and values --------------------------------------------------------------------

  function GroupPrefix(m: Multihash): bytes { [LETTER_I, COLON] + m.Encode() }

  function GroupBytes(g: int): (s: bytes)
    requires IsInt64(g)
    ensures |s| == 8
  {
    BigEndian(ToUint64(g), 8)
  }

  /** 'i:' multihash group: an empty value says the group holds the multihash. */
  function GroupKey(m: Multihash, g: int): bytes
    requires IsInt64(g)
  {
    GroupPrefix(m) + GroupBytes(g)
  }

  /** 's:' multihash: the size, then the best group if there is one. */
  function SizeKey(m: Multihash): bytes { [LETTER_S, COLON] + m.Encode() }

  predicate IsInt32(x: int) { -0x8000_0000 <= x < 0x8000_0000 }

  /** The big-endian bytes of uint32(size). */
  function SizeBytes(size: int): (s: bytes)
    requires IsInt32(size)
    ensures |s| == 4
  {
    BigEndian(if size < 0 then size + 0x1_0000_0000 else size, 4)
  }

  function GetSize(s: bytes): int {
    var u := FromBigEndian(s);
    if u < 0x8000_0000 then u else u - 0x1_0000_0000
  }

  function GetGroup(s: bytes): (g: int)
    ensures IsInt64(g)
  {
    ToInt64(FromBigEndian(s))
  }

  function Ones8(): bytes { [255, 255, 255, 255, 255, 255, 255, 255] }

  lemma {:induction false} SizeRoundTrip(size: int)
    requires IsInt32(size)
    ensures GetSize(SizeBytes(size)) == size
  {
    assert Pow256(4) == 0x1_0000_0000;
    BigEndianRoundTrip(if size < 0 then size + 0x1_0000_0000 else size, 4);
  }

  lemma {:induction false} GroupRoundTrip(g: int)
    requires IsInt64(g)
    ensures GetGroup(GroupBytes(g)) == g
  {
    Pow256Of8();
    BigEndianRoundTrip(ToUint64(g), 8);
  }

  lemma {:induction false} GroupKeyInjective(m: Multihash, g: int, m': Multihash, g': int)
    requires m.Ok() && m'.Ok() && IsInt64(g) && IsInt64(g') && GroupKey(m, g) == GroupKey(m', g')
    ensures m == m' && g == g'
  {
    hide Multihash.Encode, GroupBytes;
    StripTwo(LETTER_I, m.Encode(), GroupBytes(g), m'.Encode(), GroupBytes(g'));
    MultihashPrefixFree(m, m', GroupBytes(g), GroupBytes(g'));
    GroupRoundTrip(g);
    GroupRoundTrip(g');
  }

  lemma {:induction false} StripTwo(x: byte, a: bytes, b: bytes, c: bytes, d: bytes)
    requires [x, COLON] + a + b == [x, COLON] + c + d
    ensures a + b == c + d
  {
    assert a + b == ([x, COLON] + a + b)[2..];
    assert c + d == ([x, COLON] + c + d)[2..];
  }

  lemma {:induction false} SizeKeyInjective(m: Multihash, m': Multihash)
    requires m.Ok() && m'.Ok() && SizeKey(m) == SizeKey(m')
    ensures m == m'
  {
    hide Multihash.Encode;
    assert m.Encode() == SizeKey(m)[2..] && m'.Encode() == SizeKey(m')[2..];
    assert m.Encode() + [] == m'.Encode() + [];
    MultihashPrefixFree(m, m', [], []);
  }

  lemma {:induction false} KeySpacesDiffer(m: Multihash, m': Multihash, g: int)
    requires IsInt64(g)
    ensures SizeKey(m) != GroupKey(m', g)
  {
    hide Multihash.Encode, GroupBytes;
    assert SizeKey(m)[0] == LETTER_S && GroupKey(m', g)[0] == LETTER_I;
  }

  // ---- the iterated range -----------------------------------------------------------------

  predicate InRange(k: bytes, lo: bytes, hi: bytes) { !Below(k, lo) && Below(k, hi) }

  /** A key between p and p + q starts with p. */
  lemma {:induction false} BetweenHasPrefix(p: bytes, q: bytes, k: bytes)
    requires InRange(k, p, p + q)
    ensures p <= k
    decreases |p|
  {
    if p != [] {
      assert k != [];
      assert (p + q)[0] == p[0] && (p + q)[1..] == p[1..] + q;
      BetweenHasPrefix(p[1..], q, k[1..]);
      assert k == [k[0]] + k[1..] && p == [p[0]] + p[1..];
    }
  }

  lemma {:induction false} BelowOnes(s: bytes, n: nat)
    requires |s| == n && n <= 8
    ensures Below(s, Ones8()[..n]) <==> s != Ones8()[..n]
    decreases n
  {
    var t := Ones8()[..n];
    if n > 0 {
      assert t[1..] == Ones8()[..n - 1];
      BelowOnes(s[1..], n - 1);
      assert s == [s[0]] + s[1..] && t == [t[0]] + t[1..];
    }
  }

  lemma {:induction false} AllOnes(n: nat)
    requires n <= 8
    ensures BigEndian(Pow256(n) - 1, n) == Ones8()[..n]
  {
    if n > 0 {
      AllOnes(n - 1);
      assert (Pow256(n) - 1) / 256 == Pow256(n - 1) - 1;
      assert (Pow256(n) - 1) % 256 == 255;
      assert Ones8()[..n] == Ones8()[..n - 1] + [255];
    }
  }

  lemma {:induction false} OnesIsMinusOne(g: int)
    requires IsInt64(g)
    ensures GroupBytes(g) == Ones8() <==> g == -1
  {
    hide BigEndian, FromBigEndian;
    GroupRoundTrip(g);
    GroupRoundTrip(-1);
    AllOnes(8);
    Pow256Of8();
    assert Ones8()[..8] == Ones8();
  }

  /** The bounds of the iteration hold the multihash's own group keys and no others, except that
      the key of group -1 is the excluded upper bound itself. */
  lemma {:induction false} RangeHoldsGroup(m: Multihash, g: int)
    requires IsInt64(g)
    ensures InRange(GroupKey(m, g), GroupPrefix(m), GroupPrefix(m) + Ones8()) <==> g != -1
  {
    hide GroupPrefix, GroupBytes;
    var p, b := GroupPrefix(m), GroupBytes(g);
    assert p + [] == p;
    BelowSamePrefix(p, b, []);
    BelowSamePrefix(p, b, Ones8());
    assert Ones8()[..8] == Ones8();
    BelowOnes(b, 8);
    OnesIsMinusOne(g);
  }

  lemma {:induction false} RangeOnlyOwn(m: Multihash, m': Multihash, g': int)
    requires m.Ok() && m'.Ok() && IsInt64(g')
    requires InRange(GroupKey(m', g'), GroupPrefix(m), GroupPrefix(m) + Ones8())
    ensures m == m'
  {
    hide Multihash.Encode, GroupBytes;
    var k, p := GroupKey(m', g'), GroupPrefix(m);
    BetweenHasPrefix(p, Ones8(), k);
    var rest := k[|p|..];
    assert k == p + rest;
    StripTwo(LETTER_I, m.Encode(), rest, m'.Encode(), GroupBytes(g'));
    MultihashPrefixFree(m, m', rest, GroupBytes(g'));
  }

  lemma {:induction false} RangeNoSize(m: Multihash, m': Multihash)
    ensures !InRange(SizeKey(m'), GroupPrefix(m), GroupPrefix(m) + Ones8())
  {
    hide Multihash.Encode;
    assert SizeKey(m')[0] == LETTER_S && (GroupPrefix(m) + Ones8())[0] == LETTER_I;
  }

  // ---- what the index stands for -------------------------------------------------------------

  type Store = map<bytes, bytes>

  /** For each multihash the groups that hold it, its last added size, and the group of its size key. */
  datatype Top = Top(groups: map<Multihash, set<int>>, sizes: map<Multihash, int>, best: map<Multihash, int>)

  function GroupsOf(t: Top, m: Multihash): set<int> { if m in t.groups then t.groups[m] else {} }

  function AddOne(t: Top, m: Multihash, size: int, g: int): Top {
    Top(t.groups[m := GroupsOf(t, m) + {g}], t.sizes[m := size], t.best[m := g])
  }

  function AddAll(t: Top, mh: seq<Multihash>, sizes: seq<int>, g: int): Top
    requires |mh| == |sizes|
  {
    if mh == [] then t
    else
      var n := |mh| - 1;
      AddOne(AddAll(t, mh[..n], sizes[..n], g), mh[n], sizes[n], g)
  }

  function DropOne(t: Top, m: Multihash, g: int): Top {
    Top(t.groups[m := GroupsOf(t, m) - {g}], t.sizes, if m in t.best && t.best[m] == g then t.best - {m} else t.best)
  }

  function DropAll(t: Top, mh: seq<Multihash>, g: int): Top {
    if mh == [] then t
    else
      var n := |mh| - 1;
      DropOne(DropAll(t, mh[..n], g), mh[n], g)
  }

  function SizeValue(t: Top, m: Multihash): bytes
    requires m in t.sizes && IsInt32(t.sizes[m]) && (m in t.best ==> IsInt64(t.best[m]))
  {
    SizeBytes(t.sizes[m]) + if m in t.best then GroupBytes(t.best[m]) else []
  }

  ghost predicate IsGroupKey(k: bytes, m: Multihash) { exists g :: IsInt64(g) && k == GroupKey(m, g) }

  ghost predicate KnownKey(k: bytes) { exists m: Multihash :: m.Ok() && (k == SizeKey(m) || IsGroupKey(k, m)) }

  ghost predicate WellFormed(t: Top) {
    && (forall m: Multihash :: GroupsOf(t, m) != {} ==> m.Ok() && m in t.sizes)
    && (forall m: Multihash, g: int :: g in GroupsOf(t, m) ==> IsInt64(g))
    && (forall m :: m in t.sizes ==> m.Ok() && IsInt32(t.sizes[m]))
    && (forall m :: m in t.best ==> m in t.sizes && IsInt64(t.best[m]) && t.best[m] in GroupsOf(t, m))
  }

  ghost predicate GroupsStored(db: Store, t: Top) {
    forall m: Multihash, g :: m.Ok() && IsInt64(g) ==> (GroupKey(m, g) in db <==> g in GroupsOf(t, m))
  }

  ghost predicate SizesStored(db: Store, t: Top)
    requires WellFormed(t)
  {
    forall m: Multihash :: m.Ok() ==>
      && (SizeKey(m) in db <==> m in t.sizes)
      && (m in t.sizes ==> db[SizeKey(m)] == SizeValue(t, m))
  }

  /** The store holds exactly the keys of the abstract index. */
  ghost predicate Represents(db: Store, t: Top) {
    && WellFormed(t)
    && (forall k :: k in db ==> KnownKey(k))
    && GroupsStored(db, t) && SizesStored(db, t)
  }

  function StoreAdd(db: Store, m: Multihash, size: int, g: int): Store
    requires IsInt32(size) && IsInt64(g)
  {
    db[GroupKey(m, g) := []][SizeKey(m) := SizeBytes(size) + GroupBytes(g)]
  }

  lemma {:induction false} KnownKeys(m: Multihash, g: int)
    requires m.Ok() && IsInt64(g)
    ensures KnownKey(GroupKey(m, g)) && KnownKey(SizeKey(m))
  {
    hide GroupKey, SizeKey, Multihash.Ok;
    assert IsGroupKey(GroupKey(m, g), m);
  }

  lemma {:induction false} AddWellFormed(t: Top, m: Multihash, size: int, g: int)
    requires WellFormed(t) && m.Ok() && IsInt32(size) && IsInt64(g)
    ensures WellFormed(AddOne(t, m, size, g))
  {
    var t' := AddOne(t, m, size, g);
    forall m': Multihash | GroupsOf(t', m') != {}
      ensures m'.Ok() && m' in t'.sizes
    {
      assert m' == m || GroupsOf(t', m') == GroupsOf(t, m');
    }
    forall m': Multihash, g' | g' in GroupsOf(t', m')
      ensures IsInt64(g')
    {
      assert g' in GroupsOf(t, m') || g' == g;
    }
    forall m' | m' in t'.best
      ensures m' in t'.sizes && IsInt64(t'.best[m']) && t'.best[m'] in GroupsOf(t', m')
    {
      assert m' in t.best || m' == m;
    }
  }

  lemma {:induction false} AddGroups(db: Store, t: Top, m: Multihash, size: int, g: int)
    requires GroupsStored(db, t) && m.Ok() && IsInt32(size) && IsInt64(g)
    ensures GroupsStored(StoreAdd(db, m, size, g), AddOne(t, m, size, g))
  {
    hide GroupKey, SizeKey, GroupBytes, SizeBytes, Multihash.Ok;
    var db', t' := StoreAdd(db, m, size, g), AddOne(t, m, size, g);
    forall m': Multihash, g' | m'.Ok() && IsInt64(g')
      ensures GroupKey(m', g') in db' <==> g' in GroupsOf(t', m')
    {
      KeySpacesDiffer(m, m', g');
      if GroupKey(m', g') == GroupKey(m, g) {
        GroupKeyInjective(m', g', m, g);
      }
    }
  }

  lemma {:induction false} AddSizes(db: Store, t: Top, m: Multihash, size: int, g: int)
    requires WellFormed(t) && SizesStored(db, t) && m.Ok() && IsInt32(size) && IsInt64(g)
    requires WellFormed(AddOne(t, m, size, g))
    ensures SizesStored(StoreAdd(db, m, size, g), AddOne(t, m, size, g))
  {
    hide GroupKey, SizeKey, GroupBytes, SizeBytes, Multihash.Ok, GroupsOf;
    var db', t' := StoreAdd(db, m, size, g), AddOne(t, m, size, g);
    forall m': Multihash | m'.Ok()
      ensures SizeKey(m') in db' <==> m' in t'.sizes
      ensures m' in t'.sizes ==> db'[SizeKey(m')] == SizeValue(t', m')
    {
      KeySpacesDiffer(m', m, g);
      if SizeKey(m') == SizeKey(m) {
        SizeKeyInjective(m', m);
      }
    }
  }

  lemma {:induction false} AddStep(db: Store, t: Top, m: Multihash, size: int, g: int)
    requires Represents(db, t) && m.Ok() && IsInt32(size) && IsInt64(g)
    ensures Represents(StoreAdd(db, m, size, g), AddOne(t, m, size, g))
  {
    hide GroupKey, SizeKey, GroupBytes, SizeBytes, Multihash.Ok, WellFormed, GroupsStored, SizesStored,
      KnownKey, AddOne;
    AddWellFormed(t, m, size, g);
    AddGroups(db, t, m, size, g);
    AddSizes(db, t, m, size, g);
    KnownKeys(m, g);
  }

  /** One multihash of a dropped batch; was is the stored size value before the batch. */
  function StoreDrop(db: Store, m: Multihash, g: int, was: Option<bytes>): Store
    requires IsInt64(g)
  {
    var less := db - {GroupKey(m, g)};
    if was.Some? && |was.value| > 4 && GetGroup(was.value[4..]) == g then less[SizeKey(m) := was.value[..4]]
    else less
  }

  /** The size value before the batch, where earlier drops of the batch have at most removed g. */
  ghost predicate Before(t: Top, m: Multihash, g: int, was: Option<bytes>)
    requires WellFormed(t)
  {
    && (was.Some? <==> m in t.sizes)
    && (m in t.sizes ==>
          || was.value == SizeValue(t, m)
          || (m !in t.best && IsInt64(g) && was.value == SizeBytes(t.sizes[m]) + GroupBytes(g)))
  }

  lemma {:induction false} WasValue(t: Top, m: Multihash, g: int, v: bytes)
    requires WellFormed(t) && IsInt64(g) && m in t.sizes && Before(t, m, g, Some(v))
    ensures v[..4] == SizeBytes(t.sizes[m])
    ensures
      var hit := |v| > 4 && GetGroup(v[4..]) == g;
      && (m in t.best && t.best[m] == g ==> hit)
      && (m in t.best && t.best[m] != g ==> !hit)
    ensures
      var t' := DropOne(t, m, g);
      m !in t'.best ==>
        (if |v| > 4 && GetGroup(v[4..]) == g then v[..4] else SizeValue(t, m)) == SizeBytes(t.sizes[m])
  {
    hide GroupBytes, SizeBytes, GetGroup;
    var s := SizeBytes(t.sizes[m]);
    GroupRoundTrip(g);
    if m in t.best {
      GroupRoundTrip(t.best[m]);
      assert (s + GroupBytes(t.best[m]))[4..] == GroupBytes(t.best[m]);
    }
    assert (s + GroupBytes(g))[4..] == GroupBytes(g);
    assert s + [] == s;
  }

  lemma {:induction false} DropWellFormed(t: Top, m: Multihash, g: int)
    requires WellFormed(t) && m.Ok() && IsInt64(g)
    ensures WellFormed(DropOne(t, m, g))
  {
    hide Multihash.Ok;
    var t' := DropOne(t, m, g);
    forall m': Multihash | GroupsOf(t', m') != {}
      ensures m'.Ok() && m' in t'.sizes
    {
      assert m' == m || GroupsOf(t', m') == GroupsOf(t, m');
      assert GroupsOf(t, m') != {};
    }
    forall m': Multihash, g' | g' in GroupsOf(t', m')
      ensures IsInt64(g')
    {
      assert g' in GroupsOf(t, m');
    }
    forall m' | m' in t'.best
      ensures m' in t'.sizes && IsInt64(t'.best[m']) && t'.best[m'] in GroupsOf(t', m')
    {
      assert m' in t.best && t'.best[m'] == t.best[m'];
    }
  }

  lemma {:induction false} DropGroups(db: Store, t: Top, m: Multihash, g: int, was: Option<bytes>)
    requires GroupsStored(db, t) && m.Ok() && IsInt64(g)
    ensures GroupsStored(StoreDrop(db, m, g, was), DropOne(t, m, g))
  {
    hide GroupKey, SizeKey, GetGroup, Multihash.Ok;
    var db', t' := StoreDrop(db, m, g, was), DropOne(t, m, g);
    forall m': Multihash, g' | m'.Ok() && IsInt64(g')
      ensures GroupKey(m', g') in db' <==> g' in GroupsOf(t', m')
    {
      KeySpacesDiffer(m, m', g');
      if GroupKey(m', g') == GroupKey(m, g) {
        GroupKeyInjective(m', g', m, g);
      }
    }
  }

  lemma {:induction false} DropSizes(db: Store, t: Top, m: Multihash, g: int, was: Option<bytes>)
    requires WellFormed(t) && SizesStored(db, t) && m.Ok() && IsInt64(g) && Before(t, m, g, was)
    requires WellFormed(DropOne(t, m, g))
    ensures SizesStored(StoreDrop(db, m, g, was), DropOne(t, m, g))
  {
    hide GroupKey, SizeKey, GroupBytes, SizeBytes, GetGroup, Multihash.Ok, SizeValue;
    var db', t' := StoreDrop(db, m, g, was), DropOne(t, m, g);
    if m in t.sizes {
      WasValue(t, m, g, was.value);
    }
    forall m': Multihash | m'.Ok()
      ensures SizeKey(m') in db' <==> m' in t'.sizes
      ensures m' in t'.sizes ==> db'[SizeKey(m')] == SizeValue(t', m')
    {
      KeySpacesDiffer(m', m, g);
      if SizeKey(m') == SizeKey(m) {
        SizeKeyInjective(m', m);
      }
      if m' in t.sizes {
        SizeValueAfterDrop(t, m', m, g);
      }
    }
  }

  lemma {:induction false} DropStep(db: Store, t: Top, m: Multihash, g: int, was: Option<bytes>)
    requires Represents(db, t) && m.Ok() && IsInt64(g) && Before(t, m, g, was)
    ensures Represents(StoreDrop(db, m, g, was), DropOne(t, m, g))
  {
    hide GroupKey, SizeKey, GroupBytes, SizeBytes, GetGroup, Multihash.Ok, WellFormed, GroupsStored,
      SizesStored, KnownKey, DropOne, Before;
    DropWellFormed(t, m, g);
    DropGroups(db, t, m, g, was);
    DropSizes(db, t, m, g, was);
    KnownKeys(m, g);
  }

  lemma {:induction false} SizeValueAfterDrop(t: Top, m': Multihash, m: Multihash, g: int)
    requires WellFormed(t) && WellFormed(DropOne(t, m, g)) && m' in t.sizes
    ensures
      var t' := DropOne(t, m, g);
      SizeValue(t', m') == if m' == m && m !in t'.best then SizeBytes(t.sizes[m]) else SizeValue(t, m')
  {}

  lemma {:induction false} DropAllSizes(t: Top, mh: seq<Multihash>, g: int)
    ensures
      var t' := DropAll(t, mh, g);
      && t'.sizes == t.sizes
      && (forall m :: m in t'.best ==> m in t.best && t'.best[m] == t.best[m])
      && (forall m :: m in t.best && m !in t'.best ==> t.best[m] == g)
  {
    if mh != [] {
      DropAllSizes(t, mh[..|mh| - 1], g);
    }
  }

  /** The value read before the batch, seen from any point of the batch. */
  lemma {:induction false} StillBefore(db: Store, t: Top, mh: seq<Multihash>, g: int, m: Multihash)
    requires Represents(db, t) && m.Ok() && IsInt64(g) && WellFormed(DropAll(t, mh, g))
    ensures Before(DropAll(t, mh, g), m, g, if SizeKey(m) in db then Some(db[SizeKey(m)]) else None)
  {
    hide GroupKey, SizeKey, GroupBytes, SizeBytes, DropAll, Multihash.Ok, KnownKey, GroupsStored;
    DropAllSizes(t, mh, g);
    assert SizeKey(m) in db <==> m in t.sizes;
  }

  // ---- iteration ---------------------------------------------------------------------------

  predicate Least(s: set<bytes>, k: bytes) { k in s && forall o :: o in s ==> o == k || Below(k, o) }

  lemma {:induction false} LeastWith(rest: set<bytes>, k: bytes, x: bytes)
    requires Least(rest, k) && x !in rest
    ensures Least(rest + {x}, if Below(x, k) then x else k)
  {
    hide Below;
    BelowTotal(x, k);
    if Below(x, k) {
      forall o | o in rest + {x}
        ensures o == x || Below(x, o)
      {
        if o != x && o != k {
          BelowTransitive(x, k, o);
        }
      }
    }
  }

  lemma {:induction false} LeastBelow(s: set<bytes>, k: bytes)
    requires Least(s, k)
    ensures forall o :: o in s && o != k ==> Below(k, o)
  {
    hide Below;
  }

  lemma {:induction false} LeastExists(s: set<bytes>) returns (k: bytes)
    requires s != {}
    ensures Least(s, k)
    decreases |s|
  {
    hide Below;
    if x :| x in s {
      var rest := s - {x};
      assert s == rest + {x};
      if rest == {} {
        k := x;
      } else {
        hide Least;
        k := LeastExists(rest);
        LeastWith(rest, k, x);
        k := if Below(x, k) then x else k;
      }
    }
  }

  /** The keys an iterator with these bounds visits, in order. */
  method Scan(db: Store, lo: bytes, hi: bytes) returns (keys: seq<bytes>)
    ensures forall k :: k in keys <==> k in db && InRange(k, lo, hi)
    ensures forall i, j :: 0 <= i < j < |keys| ==> Below(keys[i], keys[j])
  {
    hide Below;
    keys := [];
    var left := set k | k in db && InRange(k, lo, hi);
    while left != {}
      invariant forall k :: k in left ==> k in db && InRange(k, lo, hi)
      invariant forall k :: k in db && InRange(k, lo, hi) ==> k in left || k in keys
      invariant forall k :: k in keys ==> k in db && InRange(k, lo, hi)
      invariant forall i, k :: 0 <= i < |keys| && k in left ==> Below(keys[i], k)
      invariant forall i, j :: 0 <= i < j < |keys| ==> Below(keys[i], keys[j])
      decreases |left|
    {
      ghost var least := LeastExists(left);
      var k :| k in left && Least(left, k);
      LeastBelow(left, k);
      left := left - {k};
      keys := keys + [k];
    }
  }

  // ---- the index -----------------------------------------------------------------------------

  datatype Answer = More | Enough | Fail

  /** A visit: the position of the queried multihash and a group. */
  type Visit = (nat, int)

  /** What the callback answered to visit k. */
  function AnswerAt(cb: seq<Visit> -> Answer, visits: seq<Visit>, k: nat): Answer
    requires k < |visits|
  {
    cb(visits[..k + 1])
  }

  predicate AllMore(cb: seq<Visit> -> Answer, visits: seq<Visit>, idx: nat) {
    forall k :: 0 <= k < |visits| && visits[k].0 == idx ==> AnswerAt(cb, visits, k) == More
  }

  lemma {:induction false} AllMoreSnoc(cb: seq<Visit> -> Answer, visits: seq<Visit>, v: Visit, idx: nat)
    ensures AllMore(cb, visits + [v], idx) ==> AllMore(cb, visits, idx)
    ensures AllMore(cb, visits + [v], idx) && v.0 == idx ==> cb(visits + [v]) == More
  {
    var next := visits + [v];
    if AllMore(cb, next, idx) {
      forall k | 0 <= k < |visits| && visits[k].0 == idx
        ensures cb(visits[..k + 1]) == More
      {
        assert next[k] == visits[k] && next[..k + 1] == visits[..k + 1];
      }
      assert next[|visits|] == v && next[..|visits| + 1] == next;
    }
  }

  class PebbleIndex {
    var db: Store
    ghost var top: Top

    constructor ()
      ensures Valid() && top == Top(map[], map[], map[])
    {
      db := map[];
      top := Top(map[], map[], map[]);
    }

    ghost predicate Valid()
      reads this
    {
      Represents(db, top)
    }

    method AddGroup(mh: seq<Multihash>, sizes: seq<int>, group: int)
      requires Valid() && |mh| == |sizes| && IsInt64(group)
      requires forall i :: 0 <= i < |mh| ==> mh[i].Ok() && IsInt32(sizes[i])
      modifies this
      ensures Valid() && top == AddAll(old(top), mh, sizes, group)
    {
      hide Represents, GroupKey, SizeKey, GroupBytes, SizeBytes, Multihash.Ok, AddOne;
      var batch := db;
      ghost var t := top;
      for i := 0 to |mh|
        invariant db == old(db) && top == old(top)
        invariant t == AddAll(top, mh[..i], sizes[..i], group) && Represents(batch, t)
      {
        assert mh[..i + 1][..i] == mh[..i] && sizes[..i + 1][..i] == sizes[..i];
        AddStep(batch, t, mh[i], sizes[i], group);
        batch := batch[GroupKey(mh[i], group) := []];
        batch := batch[SizeKey(mh[i]) := SizeBytes(sizes[i]) + GroupBytes(group)];
        t := AddOne(t, mh[i], sizes[i], group);
      }
      assert mh[..|mh|] == mh && sizes[..|sizes|] == sizes;
      db := batch;
      top := t;
    }

    method DropGroup(mh: seq<Multihash>, group: int)
      requires Valid() && IsInt64(group) && forall i :: 0 <= i < |mh| ==> mh[i].Ok()
      modifies this
      ensures Valid() && top == DropAll(old(top), mh, group)
    {
      hide Represents, GroupKey, SizeKey, GroupBytes, GetGroup, Multihash.Ok, DropOne, Before;
      var batch := db;
      ghost var t := top;
      for i := 0 to |mh|
        invariant db == old(db) && top == old(top)
        invariant t == DropAll(top, mh[..i], group) && Represents(batch, t)
      {
        assert mh[..i + 1][..i] == mh[..i];
        var sizeKey := SizeKey(mh[i]);
        RepresentsWellFormed(batch, t);
        StillBefore(db, top, mh[..i], group, mh[i]);
        DropStep(batch, t, mh[i], group, if sizeKey in db then Some(db[sizeKey]) else None);
        batch := batch - {GroupKey(mh[i], group)};
        if sizeKey in db {
          var val := db[sizeKey];
          if |val| > 4 && GetGroup(val[4..]) == group {
            batch := batch[sizeKey := val[..4]];
          }
        }
        t := DropOne(t, mh[i], group);
      }
      assert mh[..|mh|] == mh;
      db := batch;
      top := t;
    }

    /** The last added size of each multihash, -1 if it was never added. */
    method GetSizes(mh: seq<Multihash>) returns (sizes: seq<int>)
      requires Valid() && forall i :: 0 <= i < |mh| ==> mh[i].Ok()
      ensures |sizes| == |mh|
      ensures forall i :: 0 <= i < |mh| ==> sizes[i] == if mh[i] in top.sizes then top.sizes[mh[i]] else -1
    {
      hide SizeKey, SizeBytes, GroupBytes, GetSize, Multihash.Ok, GroupsStored, KnownKey;
      sizes := [];
      for i := 0 to |mh|
        invariant |sizes| == i
        invariant forall j :: 0 <= j < i ==> sizes[j] == if mh[j] in top.sizes then top.sizes[mh[j]] else -1
      {
        var m := mh[i];
        assert SizeKey(m) in db <==> m in top.sizes;
        if SizeKey(m) in db {
          assert db[SizeKey(m)][..4] == SizeBytes(top.sizes[m]);
          SizeRoundTrip(top.sizes[m]);
          sizes := sizes + [GetSize(db[SizeKey(m)][..4])];
        } else {
          sizes := sizes + [-1];
        }
      }
    }

    /** The groups of one multihash: the one in the size key, then the keys of the list. */
    method VisitOne(m: Multihash, idx: nat, cb: seq<Visit> -> Answer, before: seq<Visit>)
      returns (visits: seq<Visit>, ok: bool)
      requires Valid() && m.Ok()
      ensures before <= visits
      ensures forall k :: |before| <= k < |visits| ==> visits[k].0 == idx && visits[k].1 in GroupsOf(top, m)
      ensures ok && AllMore(cb, visits, idx) ==> forall g :: g in GroupsOf(top, m) && g != -1 ==> (idx, g) in visits
      ensures forall k :: |before| <= k < |visits| - 1 ==> AnswerAt(cb, visits, k) == More
      ensures !ok <==> |visits| > |before| && cb(visits) == Fail
    {
      hide Represents, SizeKey, GroupKey, GroupPrefix, GetGroup, Multihash.Ok, GroupsOf, AllMore;
      visits := before;
      SizeKeyTells(db, top, m);
      if SizeKey(m) !in db {
        return visits, true;
      }
      var val := db[SizeKey(m)];
      if |val| > 4 {
        AllMoreSnoc(cb, visits, (idx, GetGroup(val[4..])), idx);
        visits := visits + [(idx, GetGroup(val[4..]))];
        assert visits[..|visits|] == visits;
        var a := cb(visits);
        if a != More {
          return visits, a == Enough;
        }
      }
      var keys := Scan(db, GroupPrefix(m), GroupPrefix(m) + Ones8());
      ghost var seen: seq<int> := [];
      for i := 0 to |keys|
        invariant before <= visits
        invariant forall k :: |before| <= k < |visits| ==> visits[k].0 == idx && visits[k].1 in GroupsOf(top, m)
        invariant forall k :: |before| <= k < |visits| ==> AnswerAt(cb, visits, k) == More
        invariant |seen| == i
        invariant forall k :: 0 <= k < i ==>
                    IsInt64(seen[k]) && keys[k] == GroupKey(m, seen[k]) && (idx, seen[k]) in visits
      {
        var key := keys[i];
        assert key in keys;
        var g := OwnKey(db, top, m, key);
        AllMoreSnoc(cb, visits, (idx, g), idx);
        ghost var was := visits;
        visits := visits + [(idx, GetGroup(key[|key| - 8..]))];
        assert visits[..|visits|] == visits;
        SameAnswers(cb, was, visits);
        var a := cb(visits);
        if a != More {
          return visits, a == Enough;
        }
        seen := seen + [g];
      }
      AllSeen(db, top, m, keys, seen);
      assert visits[..|visits|] == visits;
      assert |visits| > |before| ==> AnswerAt(cb, visits, |visits| - 1) == More;
      ok := true;
    }

    /** The groups of each multihash, to a callback that says whether it wants more of them: while
        it does, it sees exactly the groups added and not since dropped. */
    method GetGroups(mh: seq<Multihash>, cb: seq<Visit> -> Answer) returns (visits: seq<Visit>, ok: bool)
      requires Valid() && forall i :: 0 <= i < |mh| ==> mh[i].Ok()
      ensures forall k :: 0 <= k < |visits| ==> visits[k].0 < |mh| && visits[k].1 in GroupsOf(top, mh[visits[k].0])
      ensures ok ==>
                forall idx, g ::
                  0 <= idx < |mh| && AllMore(cb, visits, idx) && g in GroupsOf(top, mh[idx]) && g != -1 ==>
                    (idx, g) in visits
      ensures forall j, k :: 0 <= j < k < |visits| ==> visits[j].0 <= visits[k].0
      ensures forall j, k :: 0 <= j < k < |visits| && visits[j].0 == visits[k].0 ==> AnswerAt(cb, visits, j) == More
      ensures forall k :: 0 <= k < |visits| && AnswerAt(cb, visits, k) == Fail ==> !ok && k == |visits| - 1
      ensures !ok ==> visits != [] && cb(visits) == Fail
    {
      hide Represents, Multihash.Ok, GroupsOf, AllMore;
      visits := [];
      for idx := 0 to |mh|
        invariant forall k :: 0 <= k < |visits| ==> visits[k].0 < idx && visits[k].1 in GroupsOf(top, mh[visits[k].0])
        invariant Stops(cb, visits)
        invariant forall k :: 0 <= k < |visits| ==> AnswerAt(cb, visits, k) != Fail
        invariant forall i, g :: 0 <= i < idx && AllMore(cb, visits, i) && g in GroupsOf(top, mh[i]) && g != -1 ==>
                    (i, g) in visits
      {
        ghost var before := visits;
        var more, fine := VisitOne(mh[idx], idx, cb, visits);
        StopsMore(cb, before, more, idx);
        assert more[..|more|] == more;
        SameAnswers(cb, before, more);
        if !fine {
          return more, false;
        }
        visits := more;
        forall i | AllMore(cb, visits, i)
          ensures AllMore(cb, before, i)
        {
          AllMorePrefix(cb, before, visits, i);
        }
        assert forall v :: v in before ==> v in visits;
      }
      ok := true;
    }
  }

  /** In order of the queries, and on to a further group of one only where the callback asked for more. */
  ghost predicate Stops(cb: seq<Visit> -> Answer, visits: seq<Visit>) {
    forall j, k :: 0 <= j < k < |visits| ==>
      visits[j].0 <= visits[k].0 && (visits[j].0 == visits[k].0 ==> AnswerAt(cb, visits, j) == More)
  }

  lemma {:induction false} StopsMore(cb: seq<Visit> -> Answer, before: seq<Visit>, visits: seq<Visit>, idx: nat)
    requires Stops(cb, before) && before <= visits && forall k :: 0 <= k < |before| ==> before[k].0 < idx
    requires forall k :: |before| <= k < |visits| ==> visits[k].0 == idx
    requires forall k :: |before| <= k < |visits| - 1 ==> AnswerAt(cb, visits, k) == More
    ensures Stops(cb, visits)
  {
    SameAnswers(cb, before, visits);
    forall j, k | 0 <= j < k < |visits|
      ensures visits[j].0 <= visits[k].0 && (visits[j].0 == visits[k].0 ==> AnswerAt(cb, visits, j) == More)
    {
      if j < |before| {
        assert visits[j] == before[j];
        if k < |before| {
          assert visits[k] == before[k];
        }
      }
    }
  }

  lemma {:induction false} SameAnswers(cb: seq<Visit> -> Answer, a: seq<Visit>, b: seq<Visit>)
    requires a <= b
    ensures forall k :: 0 <= k < |a| ==> AnswerAt(cb, a, k) == AnswerAt(cb, b, k)
  {
    forall k | 0 <= k < |a|
      ensures AnswerAt(cb, a, k) == AnswerAt(cb, b, k)
    {
      assert a[..k + 1] == b[..k + 1];
    }
  }

  lemma {:induction false} AllMorePrefix(cb: seq<Visit> -> Answer, a: seq<Visit>, b: seq<Visit>, idx: nat)
    requires a <= b && AllMore(cb, b, idx)
    ensures AllMore(cb, a, idx)
  {
    forall k | 0 <= k < |a| && a[k].0 == idx
      ensures cb(a[..k + 1]) == More
    {
      assert b[k] == a[k] && b[..k + 1] == a[..k + 1];
    }
  }

  lemma {:induction false} RepresentsWellFormed(db: Store, t: Top)
    requires Represents(db, t)
    ensures WellFormed(t)
  {}

  /** What the size key says about the groups. */
  lemma {:induction false} SizeKeyTells(db: Store, t: Top, m: Multihash)
    requires Represents(db, t) && m.Ok()
    ensures SizeKey(m) !in db ==> GroupsOf(t, m) == {}
    ensures SizeKey(m) in db ==>
              var v := db[SizeKey(m)];
              |v| > 4 ==> GetGroup(v[4..]) in GroupsOf(t, m)
  {
    hide SizeKey, GroupKey, GroupBytes, SizeBytes, GetGroup, Multihash.Ok, KnownKey, GroupsStored;
    assert SizeKey(m) in db <==> m in t.sizes;
    if SizeKey(m) in db {
      var v := db[SizeKey(m)];
      assert v == SizeValue(t, m);
      if m in t.best {
        assert v[4..] == GroupBytes(t.best[m]);
        GroupRoundTrip(t.best[m]);
      }
    }
  }

  /** A key that the iterator visits for m is m's key of a group. */
  lemma {:induction false} OwnKey(db: Store, t: Top, m: Multihash, k: bytes) returns (g: int)
    requires Represents(db, t) && m.Ok() && k in db && InRange(k, GroupPrefix(m), GroupPrefix(m) + Ones8())
    ensures IsInt64(g) && k == GroupKey(m, g) && g in GroupsOf(t, m)
    ensures |k| >= 8 && GetGroup(k[|k| - 8..]) == g
  {
    hide GroupBytes, GetGroup, InRange, GroupPrefix, SizeKey, Multihash.Ok, WellFormed, SizesStored;
    assert KnownKey(k);
    var m': Multihash :| m'.Ok() && (k == SizeKey(m') || IsGroupKey(k, m'));
    RangeNoSize(m, m');
    g :| IsInt64(g) && k == GroupKey(m', g);
    RangeOnlyOwn(m, m', g);
    assert k == GroupPrefix(m) + GroupBytes(g);
    assert k[|k| - 8..] == GroupBytes(g);
    GroupRoundTrip(g);
  }

  lemma {:induction false} AllSeen(db: Store, t: Top, m: Multihash, keys: seq<bytes>, seen: seq<int>)
    requires Represents(db, t) && m.Ok() && |keys| == |seen|
    requires forall k :: k in keys <==> k in db && InRange(k, GroupPrefix(m), GroupPrefix(m) + Ones8())
    requires forall i :: 0 <= i < |keys| ==> IsInt64(seen[i]) && keys[i] == GroupKey(m, seen[i])
    ensures forall g :: g in GroupsOf(t, m) && g != -1 ==> g in seen
  {
    hide GroupKey, InRange, GroupPrefix, Multihash.Ok, SizesStored;
    forall g | g in GroupsOf(t, m) && g != -1
      ensures g in seen
    {
      assert GroupKey(m, g) in db;
      RangeHoldsGroup(m, g);
      var i :| 0 <= i < |keys| && keys[i] == GroupKey(m, g);
      GroupKeyInjective(m, g, m, seen[i]);
      assert seen[i] in seen;
    }
  }

  // ---- histories -----------------------------------------------------------------------------

  datatype Op =
    | Add(mh: seq<Multihash>, sizes: seq<int>, g: int)
    | Drop(mh: seq<Multihash>, g: int)

  predicate OpOk(o: Op) { o.Add? ==> |o.mh| == |o.sizes| }

  function History(ops: seq<Op>): Top
    requires forall i :: 0 <= i < |ops| ==> OpOk(ops[i])
  {
    if ops == [] then Top(map[], map[], map[])
    else
      var before, o := History(ops[..|ops| - 1]), ops[|ops| - 1];
      assert OpOk(o);
      match o
      case Add(mh, sizes, g) => AddAll(before, mh, sizes, g)
      case Drop(mh, g) => DropAll(before, mh, g)
  }

  predicate Mentions(o: Op, m: Multihash, g: int) { m in o.mh && o.g == g }

  /** Some operation added the pair and none after it dropped it. */
  ghost predicate AddedNotDropped(ops: seq<Op>, m: Multihash, g: int) {
    exists i :: 0 <= i < |ops| && ops[i].Add? && Mentions(ops[i], m, g) && NeverDropped(ops[i + 1..], m, g)
  }

  ghost predicate NeverDropped(ops: seq<Op>, m: Multihash, g: int) {
    forall j :: 0 <= j < |ops| ==> !(ops[j].Drop? && Mentions(ops[j], m, g))
  }

  lemma {:induction false} AddAllGroups(t: Top, mh: seq<Multihash>, sizes: seq<int>, g: int, m: Multihash)
    requires |mh| == |sizes|
    ensures GroupsOf(AddAll(t, mh, sizes, g), m) == if m in mh then GroupsOf(t, m) + {g} else GroupsOf(t, m)
  {
    if mh != [] {
      var n := |mh| - 1;
      AddAllGroups(t, mh[..n], sizes[..n], g, m);
      assert mh == mh[..n] + [mh[n]];
    }
  }

  lemma {:induction false} DropAllGroups(t: Top, mh: seq<Multihash>, g: int, m: Multihash)
    ensures GroupsOf(DropAll(t, mh, g), m) == if m in mh then GroupsOf(t, m) - {g} else GroupsOf(t, m)
  {
    if mh != [] {
      var n := |mh| - 1;
      DropAllGroups(t, mh[..n], g, m);
      assert mh == mh[..n] + [mh[n]];
    }
  }

  /** After any history, a group holds a multihash exactly when it was added and not since dropped. */
  lemma {:induction false} HistoryDecides(ops: seq<Op>, m: Multihash, g: int)
    requires forall i :: 0 <= i < |ops| ==> OpOk(ops[i])
    ensures g in GroupsOf(History(ops), m) <==> AddedNotDropped(ops, m, g)
  {
    if ops != [] {
      var n := |ops| - 1;
      var init, o := ops[..n], ops[n];
      HistoryDecides(init, m, g);
      if o.Add? {
        AddAllGroups(History(init), o.mh, o.sizes, o.g, m);
      } else {
        DropAllGroups(History(init), o.mh, o.g, m);
      }
      hide History, AddAll, DropAll, GroupsOf;
      HistorySnoc(init, o, m, g);
      assert ops == init + [o];
    }
  }

  lemma {:induction false} HistorySnoc(init: seq<Op>, o: Op, m: Multihash, g: int)
    ensures AddedNotDropped(init + [o], m, g) <==>
              (o.Add? && Mentions(o, m, g)) || (AddedNotDropped(init, m, g) && !(o.Drop? && Mentions(o, m, g)))
  {
    var ops := init + [o];
    if o.Add? && Mentions(o, m, g) {
      assert ops[|init|] == o && ops[|init| + 1..] == [];
    }
    if AddedNotDropped(ops, m, g) {
      var i :| 0 <= i < |ops| && ops[i].Add? && Mentions(ops[i], m, g) && NeverDropped(ops[i + 1..], m, g);
      if i < |init| {
        assert init[i] == ops[i] && ops[i + 1..] == init[i + 1..] + [o];
        NeverSnoc(init[i + 1..], o, m, g);
      }
    }
    if AddedNotDropped(init, m, g) {
      var i :| 0 <= i < |init| && init[i].Add? && Mentions(init[i], m, g) && NeverDropped(init[i + 1..], m, g);
      assert ops[i] == init[i] && ops[i + 1..] == init[i + 1..] + [o];
      NeverSnoc(init[i + 1..], o, m, g);
    }
  }

  lemma {:induction false} NeverSnoc(init: seq<Op>, o: Op, m: Multihash, g: int)
    ensures NeverDropped(init + [o], m, g) <==> NeverDropped(init, m, g) && !(o.Drop? && Mentions(o, m, g))
  {
    var ops := init + [o];
    if NeverDropped(ops, m, g) {
      assert ops[|init|] == o;
      forall j | 0 <= j < |init|
        ensures !(init[j].Drop? && Mentions(init[j], m, g))
      {
        assert ops[j] == init[j];
      }
    }
  }

  /** The last size added for a multihash. */
  function LastSize(ops: seq<Op>, m: Multihash): Option<int>
    requires forall i :: 0 <= i < |ops| ==> OpOk(ops[i])
  {
    if ops == [] then None
    else
      var o := ops[|ops| - 1];
      assert OpOk(o);
      if o.Add? && m in o.mh then Some(LastOf(o.mh, o.sizes, m)) else LastSize(ops[..|ops| - 1], m)
  }

  function LastOf(mh: seq<Multihash>, sizes: seq<int>, m: Multihash): int
    requires |mh| == |sizes| && m in mh
  {
    var n := |mh| - 1;
    if mh[n] == m then sizes[n] else LastOf(mh[..n], sizes[..n], m)
  }

  lemma {:induction false} AddAllSizes(t: Top, mh: seq<Multihash>, sizes: seq<int>, g: int, m: Multihash)
    requires |mh| == |sizes|
    ensures
      var t' := AddAll(t, mh, sizes, g);
      && (m in mh ==> m in t'.sizes && t'.sizes[m] == LastOf(mh, sizes, m))
      && (m !in mh ==> (m in t'.sizes <==> m in t.sizes) && (m in t.sizes ==> t'.sizes[m] == t.sizes[m]))
  {
    if mh != [] {
      var n := |mh| - 1;
      AddAllSizes(t, mh[..n], sizes[..n], g, m);
      assert mh == mh[..n] + [mh[n]];
    }
  }

  /** The size is that of the last addition; drops never change it. */
  lemma {:induction false} SizeIsLastAdded(ops: seq<Op>, m: Multihash)
    requires forall i :: 0 <= i < |ops| ==> OpOk(ops[i])
    ensures
      var t := History(ops);
      LastSize(ops, m) == if m in t.sizes then Some(t.sizes[m]) else None
  {
    if ops != [] {
      var init, o := ops[..|ops| - 1], ops[|ops| - 1];
      SizeIsLastAdded(init, m);
      if o.Add? {
        AddAllSizes(History(init), o.mh, o.sizes, o.g, m);
      } else {
        DropAllSizes(History(init), o.mh, o.g);
      }
    }
  }
}
