/** The packed (offset, length) values of the block index, and the LevelDB index that maps
    multihashes to them while a log is writable. */
module LevelIndex {
  import opened Bytes
  import opened Cars

  const TWO_23: int := 0x80_0000
  const TWO_40: int := 0x100_0000_0000

  /** int64(length) << 40 | off & 0xFFFFFFFFFF, in 64-bit arithmetic. */
  function MakeOffsetLen(off: nat, length: nat): (v: int)
    ensures IsInt64(v)
  {
    ToInt64(length * TWO_40 + off % TWO_40)
  }

  /** offlen & 0xFFFFFFFFFF, offlen >> 40 (an arithmetic shift). On a two's-complement number
      these are the Euclidean remainder and quotient, for negative values too. */
  function FromOffsetLen(v: int): (r: (nat, int)) { (v % TWO_40, v / TWO_40) }

  /** The pair survives packing exactly when the offset has 40 bits and the length 23, although
      blocks of up to 2^24 bytes are accepted. */
  lemma {:induction false} OffsetLenRoundTrip(off: nat, length: nat)
    ensures FromOffsetLen(MakeOffsetLen(off, length)) == (off, length) <==> off < TWO_40 && length < TWO_23
  {
    var low := off % TWO_40;
    var w := (length * TWO_40 + low) % TWO_64;
    assert TWO_64 == 0x100_0000 * TWO_40;
    PackedModulo(length, low);
    var l := length % 0x100_0000;
    assert w == l * TWO_40 + low;
    if l < TWO_23 {
      assert MakeOffsetLen(off, length) == l * TWO_40 + low;
    } else {
      assert MakeOffsetLen(off, length) == (l - 0x100_0000) * TWO_40 + low;
    }
  }

  lemma {:induction false} PackedModulo(length: nat, low: nat)
    requires low < TWO_40
    ensures (length * TWO_40 + low) % TWO_64 == length % 0x100_0000 * TWO_40 + low
  {
    var q, l := length / 0x100_0000, length % 0x100_0000;
    assert length * TWO_40 + low == q * TWO_64 + (l * TWO_40 + low);
  }

  /** The offset part is kept for every length, as long as it fits 40 bits. */
  lemma {:induction false} OffsetKept(off: nat, length: nat)
    requires off < TWO_40
    ensures FromOffsetLen(MakeOffsetLen(off, length)).0 == off
  {
    PackedModulo(length, off);
  }

  /** An 8 MiB entry is accepted by the size check but unpacks to a negative length. */
  lemma {:induction false} EightMiBEntryIsLost(off: nat)
    requires off < TWO_40
    ensures FromOffsetLen(MakeOffsetLen(off, 0x80_0000)) == (off, -0x80_0000)
  {
    PackedModulo(0x80_0000, off);
  }

  // ---- the key-value contents ----------------------------------------------------

  type Db = map<Multihash, int>

  /** A write batch: entries in order, -1 offsets skipped, later writes winning. */
  function PutAll(db: Db, c: seq<Multihash>, offs: seq<int>): Db
    requires |c| == |offs|
  {
    if c == [] then db
    else
      var n := |c| - 1;
      var before := PutAll(db, c[..n], offs[..n]);
      if offs[n] == -1 then before else before[c[n] := offs[n]]
  }

  /** The keys whose entry starts at or above an offset. */
  function AtOrAbove(db: Db, at: nat): (s: set<Multihash>)
    ensures forall h :: h in s <==> h in db && FromOffsetLen(db[h]).0 >= at
  {
    set h | h in db && FromOffsetLen(db[h]).0 >= at
  }

  class LevelDBIndex {
    var db: Db

    constructor ()
      ensures db == map[]
    {
      db := map[];
    }

    method Has(c: seq<Multihash>) returns (out: seq<bool>)
      ensures |out| == |c| && forall i :: 0 <= i < |c| ==> out[i] == (c[i] in db)
    {
      out := [];
      for i := 0 to |c|
        invariant |out| == i && forall j :: 0 <= j < i ==> out[j] == (c[j] in db)
      {
        out := out + [c[i] in db];
      }
    }

    method Put(c: seq<Multihash>, offs: seq<int>)
      requires |c| == |offs|
      modifies this
      ensures db == PutAll(old(db), c, offs)
    {
      var batch := db;
      for i := 0 to |c|
        invariant db == old(db) && batch == PutAll(db, c[..i], offs[..i])
      {
        assert c[..i + 1][..i] == c[..i] && offs[..i + 1][..i] == offs[..i];
        if offs[i] != -1 {
          batch := batch[c[i] := offs[i]];
        }
      }
      assert c[..|c|] == c && offs[..|c|] == offs;
      db := batch;
    }

    /** -1 for a hash that is not indexed. */
    method Get(c: seq<Multihash>) returns (out: seq<int>)
      ensures |out| == |c| && forall i :: 0 <= i < |c| ==> out[i] == if c[i] in db then db[c[i]] else -1
    {
      out := [];
      for i := 0 to |c|
        invariant |out| == i
        invariant forall j :: 0 <= j < i ==> out[j] == if c[j] in db then db[c[j]] else -1
      {
        out := out + [if c[i] in db then db[c[i]] else -1];
      }
    }

    /** One callback per key, in the iterator's order. */
    method List() returns (out: seq<(Multihash, int)>)
      ensures forall p :: p in out <==> p.0 in db && p.1 == db[p.0]
      ensures |out| == |db|
    {
      out := [];
      var left := db.Keys;
      while left != {}
        invariant left <= db.Keys && |out| + |left| == |db|
        invariant forall p :: p in out <==> p.0 in db && p.0 !in left && p.1 == db[p.0]
        decreases |left|
      {
        var h :| h in left;
        left := left - {h};
        out := out + [(h, db[h])];
      }
    }

    method ToTruncate(atOrAbove: nat) returns (out: seq<Multihash>)
      ensures forall h :: h in out <==> h in AtOrAbove(db, atOrAbove)
    {
      out := [];
      var left := db.Keys;
      while left != {}
        invariant left <= db.Keys
        invariant forall h :: h in out <==> h in AtOrAbove(db, atOrAbove) && h !in left
        decreases |left|
      {
        var h :| h in left;
        left := left - {h};
        if FromOffsetLen(db[h]).0 >= atOrAbove {
          out := out + [h];
        }
      }
    }

    method Del(c: seq<Multihash>)
      modifies this
      ensures db == old(db) - (set h | h in c)
    {
      var batch := db;
      for i := 0 to |c|
        invariant db == old(db) && batch == db - (set h | h in c[..i])
      {
        assert c[..i + 1] == c[..i] + [c[i]];
        batch := batch - {c[i]};
      }
      assert c[..|c|] == c;
      db := batch;
    }
  }
}
