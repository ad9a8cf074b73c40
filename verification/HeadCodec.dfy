/** The head of a CarLog as a CBOR map (RFC 8949, section 3) in a null-padded 512-byte file. */
module HeadCodec {
  import opened Bytes
  import Cars
  import TopTree
  import TopCar

  const HEAD_SIZE: nat := 512
  const MAX_LENGTH: nat := 8192   // strings, arrays and maps that the generated codec accepts
  const TWO_32: nat := 0x1_0000_0000

  const MAJ_UNSIGNED: nat := 0
  const MAJ_NEGATIVE: nat := 1
  const MAJ_TEXT: nat := 3
  const MAJ_ARRAY: nat := 4
  const MAJ_MAP: nat := 5
  const MAJ_OTHER: nat := 7

  datatype Head = Head(valid: bool, dataEnd: int, version: int, external: bool, readOnly: bool,
                       dataStart: int, finalized: bool, offloaded: bool, retiredAt: int, layerOffsets: seq<int>) {
    predicate Ok() {
      && IsInt64(dataEnd) && IsInt64(version) && IsInt64(dataStart) && IsInt64(retiredAt)
      && |layerOffsets| <= MAX_LENGTH && forall i :: 0 <= i < |layerOffsets| ==> IsInt64(layerOffsets[i])
    }
  }

  // ---- data item heads ------------------------------------------------------------------------

  /** The shortest head of a major type and its argument. */
  function ItemHead(maj: nat, n: nat): (s: bytes)
    requires maj < 8 && n < TWO_64
    ensures 1 <= |s| <= 9 && (n < 24 ==> |s| == 1) && (n < 256 ==> |s| <= 2)
  {
    if n < 24 then [maj * 32 + n]
    else if n < 0x100 then [maj * 32 + 24] + BigEndian(n, 1)
    else if n < 0x1_0000 then [maj * 32 + 25] + BigEndian(n, 2)
    else if n < TWO_32 then [maj * 32 + 26] + BigEndian(n, 4)
    else [maj * 32 + 27] + BigEndian(n, 8)
  }

  /** Major type, argument and length of a head; heads that are not the shortest are refused. */
  function ReadItemHead(s: bytes): (r: Option<(nat, nat, nat)>)
    ensures r.Some? ==> 0 < r.value.2 <= |s|
  {
    if s == [] then None
    else
      var maj, low := s[0] / 32, s[0] % 32;
      if low < 24 then Some((maj, low, 1))
      else if low > 27 then None
      else
        var n := if low == 24 then 1 else if low == 25 then 2 else if low == 26 then 4 else 8;
        if |s| < 1 + n then None
        else
          var v := FromBigEndian(s[1..1 + n]);
          var least := if low == 24 then 24 else if low == 25 then 0x100 else if low == 26 then 0x1_0000 else TWO_32;
          if v < least then None else Some((maj, v, 1 + n))
  }

  lemma {:induction false} FirstByte(maj: nat, low: nat)
    requires low < 32
    ensures (maj * 32 + low) / 32 == maj && (maj * 32 + low) % 32 == low
  {}

  /** A head with an argument of k bytes is read back where that is the shortest form. */
  lemma {:induction false} WideHead(maj: nat, n: nat, low: nat, k: nat, least: nat, rest: bytes)
    requires maj < 8 && n < Pow256(k) && least <= n
    requires (low, k, least) in {(24, 1, 24), (25, 2, 0x100), (26, 4, 0x1_0000), (27, 8, TWO_32)}
    ensures ReadItemHead([maj * 32 + low] + BigEndian(n, k) + rest) == Some((maj, n, 1 + k))
  {
    hide BigEndian, FromBigEndian, Pow256;
    FirstByte(maj, low);
    BigEndianRoundTrip(n, k);
    var s := [maj * 32 + low] + BigEndian(n, k) + rest;
    assert s[0] == maj * 32 + low && s[1..1 + k] == BigEndian(n, k);
  }

  lemma {:induction false} ItemHeadRoundTrip(maj: nat, n: nat, rest: bytes)
    requires maj < 8 && n < TWO_64
    ensures ReadItemHead(ItemHead(maj, n) + rest) == Some((maj, n, |ItemHead(maj, n)|))
  {
    hide BigEndian, Pow256, ReadItemHead;
    Widths();
    if n < 24 {
      NarrowHead(maj, n, rest);
    } else if n < 0x100 {
      WideHead(maj, n, 24, 1, 24, rest);
    } else if n < 0x1_0000 {
      WideHead(maj, n, 25, 2, 0x100, rest);
    } else if n < TWO_32 {
      WideHead(maj, n, 26, 4, 0x1_0000, rest);
    } else {
      WideHead(maj, n, 27, 8, TWO_32, rest);
    }
  }

  lemma {:induction false} NarrowHead(maj: nat, n: nat, rest: bytes)
    requires maj < 8 && n < 24
    ensures ReadItemHead([maj * 32 + n] + rest) == Some((maj, n, 1))
  {
    FirstByte(maj, n);
  }

  /** A head that is read is the shortest one for what it says. */
  lemma {:induction false} OnlyShortest(s: bytes)
    requires ReadItemHead(s).Some?
    ensures
      var (maj, n, k) := ReadItemHead(s).value;
      maj < 8 && n < TWO_64 && s[..k] == ItemHead(maj, n)
  {
    Widths();
    var low := s[0] % 32;
    if low >= 24 {
      var k := if low == 24 then 1 else if low == 25 then 2 else if low == 26 then 4 else 8;
      BigEndianBound(s[1..1 + k]);
      BigEndianOnly(s[1..1 + k]);
      hide BigEndian, FromBigEndian, Pow256;
      assert s[..1 + k] == [s[0]] + s[1..1 + k];
    }
  }

  lemma {:induction false} Widths()
    ensures Pow256(1) == 0x100 && Pow256(2) == 0x1_0000 && Pow256(4) == TWO_32 && Pow256(8) == TWO_64
  {
    Pow256Of8();
    assert Pow256(2) == 0x1_0000;
  }

  // ---- values ---------------------------------------------------------------------------------

  function PutInt(x: int): (s: bytes)
    requires IsInt64(x)
    ensures 1 <= |s| <= 9
  {
    if x >= 0 then ItemHead(MAJ_UNSIGNED, x) else ItemHead(MAJ_NEGATIVE, -x - 1)
  }

  function GetInt(s: bytes): (r: Option<(int, nat)>)
    ensures r.Some? ==> 0 < r.value.1 <= |s|
  {
    match ReadItemHead(s)
    case None => None
    case Some((maj, extra, n)) =>
      if extra >= TWO_63 then None
      else if maj == MAJ_UNSIGNED then Some((extra, n))
      else if maj == MAJ_NEGATIVE then Some((-1 - extra, n))
      else None
  }

  lemma {:induction false} IntRoundTrip(x: int, rest: bytes)
    requires IsInt64(x)
    ensures GetInt(PutInt(x) + rest) == Some((x, |PutInt(x)|))
  {
    hide ItemHead, ReadItemHead;
    ItemHeadRoundTrip(if x >= 0 then MAJ_UNSIGNED else MAJ_NEGATIVE, if x >= 0 then x else -x - 1, rest);
  }

  function PutBool(b: bool): bytes { [if b then 0xf5 else 0xf4] }

  function GetBool(s: bytes): (r: Option<(bool, nat)>)
    ensures r.Some? ==> 0 < r.value.1 <= |s|
  {
    match ReadItemHead(s)
    case None => None
    case Some((maj, extra, n)) =>
      if maj != MAJ_OTHER then None
      else if extra == 20 then Some((false, n))
      else if extra == 21 then Some((true, n))
      else None
  }

  lemma {:induction false} BoolRoundTrip(b: bool, rest: bytes)
    ensures GetBool(PutBool(b) + rest) == Some((b, 1))
  {}

  function PutInts(xs: seq<int>): bytes
    requires forall i :: 0 <= i < |xs| ==> IsInt64(xs[i])
  {
    if xs == [] then [] else PutInt(xs[0]) + PutInts(xs[1..])
  }

  /** n integers in a row. */
  function GetInts(s: bytes, n: nat): (r: Option<(seq<int>, nat)>)
    ensures r.Some? ==> r.value.1 <= |s| && |r.value.0| == n
    decreases n
  {
    if n == 0 then Some(([], 0))
    else
      match GetInt(s)
      case None => None
      case Some((x, a)) =>
        match GetInts(s[a..], n - 1)
        case None => None
        case Some((xs, b)) => Some(([x] + xs, a + b))
  }

  lemma {:induction false} IntsRoundTrip(xs: seq<int>, rest: bytes)
    requires forall i :: 0 <= i < |xs| ==> IsInt64(xs[i])
    ensures GetInts(PutInts(xs) + rest, |xs|) == Some((xs, |PutInts(xs)|))
    decreases |xs|
  {
    hide PutInt, GetInt;
    if xs != [] {
      var a, b := PutInt(xs[0]), PutInts(xs[1..]);
      assert PutInts(xs) + rest == a + (b + rest);
      IntRoundTrip(xs[0], b + rest);
      assert (a + (b + rest))[|a|..] == b + rest;
      IntsRoundTrip(xs[1..], rest);
      assert [xs[0]] + xs[1..] == xs;
    }
  }

  lemma {:induction false} BigEndianExamples()
    ensures BigEndian(24, 1) == [0x18] && BigEndian(100, 1) == [0x64] && BigEndian(99, 1) == [0x63]
    ensures BigEndian(1000, 2) == [0x03, 0xe8] && BigEndian(999, 2) == [0x03, 0xe7]
    ensures BigEndian(1000000, 4) == [0x00, 0x0f, 0x42, 0x40]
    ensures BigEndian(1000000000000, 8) == [0x00, 0x00, 0x00, 0xe8, 0xd4, 0xa5, 0x10, 0x00]
  {
    assert BigEndian(0, 3) == [0, 0, 0];
    assert BigEndian(0xe8d4, 5) == [0, 0, 0, 0xe8, 0xd4];
    assert BigEndian(0xf, 2) == [0, 0xf];
  }

  /** Examples of RFC 8949, appendix A: integers of every width. */
  lemma {:induction false} IntegerExamples()
    ensures PutInt(0) == [0x00] && PutInt(23) == [0x17] && PutInt(24) == [0x18, 0x18] && PutInt(100) == [0x18, 0x64]
    ensures PutInt(1000) == [0x19, 0x03, 0xe8] && PutInt(1000000) == [0x1a, 0x00, 0x0f, 0x42, 0x40]
    ensures PutInt(1000000000000) == [0x1b, 0x00, 0x00, 0x00, 0xe8, 0xd4, 0xa5, 0x10, 0x00]
    ensures PutInt(-1) == [0x20] && PutInt(-10) == [0x29] && PutInt(-100) == [0x38, 0x63]
    ensures PutInt(-1000) == [0x39, 0x03, 0xe7]
  {
    BigEndianExamples();
    hide BigEndian;
  }

  /** ... truth values, an array and a text. */
  lemma {:induction false} OtherExamples()
    ensures PutBool(false) == [0xf4] && PutBool(true) == [0xf5]
    ensures ItemHead(MAJ_ARRAY, 3) + PutInts([1, 2, 3]) == [0x83, 0x01, 0x02, 0x03]
    ensures PutText("IETF") == [0x64, 0x49, 0x45, 0x54, 0x46]
  {
    hide BigEndian;
    assert PutInts([]) == [];
    assert PutInts([3]) == [0x03] by { assert [3][1..] == []; }
    assert PutInts([2, 3]) == [0x02, 0x03] by { assert [2, 3][1..] == [3]; }
    assert [1, 2, 3][1..] == [2, 3];
  }

  // ---- fields ---------------------------------------------------------------------------------

  datatype Value = Flag(b: bool) | Number(x: int) | Numbers(xs: seq<int>)

  datatype Kind = FlagKind | NumberKind | NumbersKind

  const FIELDS: nat := 10

  /** The fields in the order they are written. */
  function Name(i: nat): (s: string)
    requires i < FIELDS
    ensures 0 < |s| < 24
  {
    match i
    case 0 => "Valid"
    case 1 => "DataEnd"
    case 2 => "Version"
    case 3 => "External"
    case 4 => "ReadOnly"
    case 5 => "DataStart"
    case 6 => "Finalized"
    case 7 => "Offloaded"
    case 8 => "RetiredAt"
    case _ => "LayerOffsets"
  }

  function KindOf(i: nat): Kind {
    if i == 9 then NumbersKind
    else if i == 1 || i == 2 || i == 5 || i == 8 then NumberKind
    else FlagKind
  }

  function Get(h: Head, i: nat): (v: Value)
    requires i < FIELDS
    ensures HasKind(v, KindOf(i))
  {
    match i
    case 0 => Flag(h.valid)
    case 1 => Number(h.dataEnd)
    case 2 => Number(h.version)
    case 3 => Flag(h.external)
    case 4 => Flag(h.readOnly)
    case 5 => Number(h.dataStart)
    case 6 => Flag(h.finalized)
    case 7 => Flag(h.offloaded)
    case 8 => Number(h.retiredAt)
    case _ => Numbers(h.layerOffsets)
  }

  predicate HasKind(v: Value, k: Kind) {
    match k
    case FlagKind => v.Flag?
    case NumberKind => v.Number?
    case NumbersKind => v.Numbers?
  }

  /** Setting a field; an empty array leaves the slice as it is. */
  function Set(h: Head, i: nat, v: Value): Head
    requires i < FIELDS && HasKind(v, KindOf(i))
  {
    match i
    case 0 => h.(valid := v.b)
    case 1 => h.(dataEnd := v.x)
    case 2 => h.(version := v.x)
    case 3 => h.(external := v.b)
    case 4 => h.(readOnly := v.b)
    case 5 => h.(dataStart := v.x)
    case 6 => h.(finalized := v.b)
    case 7 => h.(offloaded := v.b)
    case 8 => h.(retiredAt := v.x)
    case _ => if v.xs == [] then h else h.(layerOffsets := v.xs)
  }

  predicate ValueOk(v: Value) {
    match v
    case Flag(_) => true
    case Number(x) => IsInt64(x)
    case Numbers(xs) => |xs| <= MAX_LENGTH && forall i :: 0 <= i < |xs| ==> IsInt64(xs[i])
  }

  function PutValue(v: Value): bytes
    requires ValueOk(v)
  {
    match v
    case Flag(b) => PutBool(b)
    case Number(x) => PutInt(x)
    case Numbers(xs) => ItemHead(MAJ_ARRAY, |xs|) + PutInts(xs)
  }

  function GetValue(k: Kind, s: bytes): (r: Option<(Value, nat)>)
    ensures r.Some? ==> HasKind(r.value.0, k) && r.value.1 <= |s|
  {
    match k
    case FlagKind => (match GetBool(s) case None => None case Some((b, n)) => Some((Flag(b), n)))
    case NumberKind => (match GetInt(s) case None => None case Some((x, n)) => Some((Number(x), n)))
    case NumbersKind =>
      match ReadItemHead(s)
      case None => None
      case Some((maj, extra, n)) =>
        if extra > MAX_LENGTH || maj != MAJ_ARRAY then None
        else
          match GetInts(s[n..], extra)
          case None => None
          case Some((xs, m)) => Some((Numbers(xs), n + m))
  }

  lemma {:induction false} ValueRoundTrip(v: Value, k: Kind, rest: bytes)
    requires ValueOk(v) && HasKind(v, k)
    ensures GetValue(k, PutValue(v) + rest) == Some((v, |PutValue(v)|))
  {
    hide ItemHead, ReadItemHead, PutInts, GetInts, PutInt, GetInt, PutBool, GetBool;
    match v
    case Flag(b) => BoolRoundTrip(b, rest); assert |PutBool(b)| == 1 by { BoolLength(b); }
    case Number(x) => IntRoundTrip(x, rest);
    case Numbers(xs) =>
      var a, b := ItemHead(MAJ_ARRAY, |xs|), PutInts(xs);
      assert a + b + rest == a + (b + rest);
      ItemHeadRoundTrip(MAJ_ARRAY, |xs|, b + rest);
      assert (a + (b + rest))[|a|..] == b + rest;
      IntsRoundTrip(xs, rest);
  }

  lemma {:induction false} BoolLength(b: bool)
    ensures |PutBool(b)| == 1
  {}

  function Ascii(s: string): (b: bytes)
    ensures |b| == |s|
  {
    seq(|s|, i requires 0 <= i < |s| => s[i] as int % 256)
  }

  function PutText(s: string): bytes
    requires |s| < 24
  {
    ItemHead(MAJ_TEXT, |s|) + Ascii(s)
  }

  function GetText(s: bytes): (r: Option<(bytes, nat)>)
    ensures r.Some? ==> 0 < r.value.1 <= |s|
  {
    match ReadItemHead(s)
    case None => None
    case Some((maj, len, n)) =>
      if maj != MAJ_TEXT || len > MAX_LENGTH || |s| < n + len then None else Some((s[n..n + len], n + len))
  }

  lemma {:induction false} TextRoundTrip(t: string, rest: bytes)
    requires |t| < 24
    ensures GetText(PutText(t) + rest) == Some((Ascii(t), |PutText(t)|))
  {
    hide ItemHead, ReadItemHead, Ascii;
    var a, b := ItemHead(MAJ_TEXT, |t|), Ascii(t);
    assert a + b + rest == a + (b + rest);
    ItemHeadRoundTrip(MAJ_TEXT, |t|, b + rest);
    assert (a + (b + rest))[|a|..|a| + |b|] == b;
  }

  /** Which field a name selects, in the order of the program's switch. */
  function Lookup(name: bytes, i: nat := 0): (r: Option<nat>)
    requires i <= FIELDS
    ensures r.Some? ==> r.value < FIELDS
    decreases FIELDS - i
  {
    if i == FIELDS then None else if name == Ascii(Name(i)) then Some(i) else Lookup(name, i + 1)
  }

  lemma {:induction false} NamesDiffer(i: nat, j: nat)
    requires i < j < FIELDS
    ensures Ascii(Name(i)) != Ascii(Name(j))
  {
    var a, b := Name(i), Name(j);
    if |a| == |b| {
      assert Ascii(a)[0] == a[0] as int % 256 && Ascii(b)[0] == b[0] as int % 256;
    }
  }

  lemma {:induction false} LookupFrom(i: nat, from: nat)
    requires from <= i < FIELDS
    ensures Lookup(Ascii(Name(i)), from) == Some(i)
    decreases i - from
  {
    hide Name, Ascii;
    if from < i {
      NamesDiffer(from, i);
      LookupFrom(i, from + 1);
    }
  }

  /** The value that stands under a name. */
  function Stored(h: Head, name: string): Option<Value> {
    match Lookup(Ascii(name))
    case None => None
    case Some(i) => Some(Get(h, i))
  }

  /** Which field has which name. */
  lemma {:induction false} NamedFields(h: Head)
    ensures Stored(h, "Valid") == Some(Flag(h.valid)) && Stored(h, "DataEnd") == Some(Number(h.dataEnd))
    ensures Stored(h, "Version") == Some(Number(h.version)) && Stored(h, "External") == Some(Flag(h.external))
    ensures Stored(h, "ReadOnly") == Some(Flag(h.readOnly)) && Stored(h, "DataStart") == Some(Number(h.dataStart))
    ensures Stored(h, "Finalized") == Some(Flag(h.finalized)) && Stored(h, "Offloaded") == Some(Flag(h.offloaded))
    ensures Stored(h, "RetiredAt") == Some(Number(h.retiredAt))
    ensures Stored(h, "LayerOffsets") == Some(Numbers(h.layerOffsets))
  {
    hide Ascii, Lookup;
    LookupFrom(0, 0);
    LookupFrom(1, 0);
    LookupFrom(2, 0);
    LookupFrom(3, 0);
    LookupFrom(4, 0);
    LookupFrom(5, 0);
    LookupFrom(6, 0);
    LookupFrom(7, 0);
    LookupFrom(8, 0);
    LookupFrom(9, 0);
  }

  // ---- the map --------------------------------------------------------------------------------

  function Field(h: Head, i: nat): bytes
    requires i < FIELDS && h.Ok()
  {
    PutText(Name(i)) + PutValue(Get(h, i))
  }

  /** Fields from i on. */
  function FieldsFrom(h: Head, i: nat): bytes
    requires i <= FIELDS && h.Ok()
    decreases FIELDS - i
  {
    if i == FIELDS then [] else Field(h, i) + FieldsFrom(h, i + 1)
  }

  function Encode(h: Head): bytes
    requires h.Ok()
  {
    ItemHead(MAJ_MAP, FIELDS) + FieldsFrom(h, 0)
  }

  function Blank(): Head { Head(false, 0, 0, false, false, 0, false, false, 0, []) }

  /** A head whose first i fields have been decoded. */
  function Decoded(h: Head, i: nat): Head
    requires i <= FIELDS
  {
    if i == 0 then Blank() else Set(Decoded(h, i - 1), i - 1, Get(h, i - 1))
  }

  lemma {:induction false} AllDecoded(h: Head)
    ensures Decoded(h, FIELDS) == h
  {
    hide Decoded;
    FirstDecoded(h);
    NextDecoded(h, 0);
    NextDecoded(h, 1);
    NextDecoded(h, 2);
    NextDecoded(h, 3);
    NextDecoded(h, 4);
    NextDecoded(h, 5);
    NextDecoded(h, 6);
    NextDecoded(h, 7);
    NextDecoded(h, 8);
    NextDecoded(h, 9);
  }

  /** One round of the decode loop: a name, and the value of the field it selects. A name that
      selects none is reported as an error here. */
  function GetField(h: Head, s: bytes): (r: Option<(Head, nat)>)
    ensures r.Some? ==> 0 < r.value.1 <= |s|
  {
    match GetText(s)
    case None => None
    case Some((name, n)) =>
      match Lookup(name)
      case None => None
      case Some(i) =>
        match GetValue(KindOf(i), s[n..])
        case None => None
        case Some((v, m)) => Some((Set(h, i, v), n + m))
  }

  lemma {:induction false} FieldRoundTrip(h: Head, i: nat, was: Head, rest: bytes)
    requires i < FIELDS && h.Ok()
    ensures GetField(was, Field(h, i) + rest) == Some((Set(was, i, Get(h, i)), |Field(h, i)|))
  {
    hide PutText, GetText, Lookup, GetValue, PutValue, Name, Set, KindOf, ItemHead, ReadItemHead;
    var a, b := PutText(Name(i)), PutValue(Get(h, i));
    assert a + b + rest == a + (b + rest);
    TextRoundTrip(Name(i), b + rest);
    LookupFrom(i, 0);
    assert (a + (b + rest))[|a|..] == b + rest;
    ValueRoundTrip(Get(h, i), KindOf(i), rest);
  }

  /** MarshalCBOR: the map head and the fields one after the other; None for too many offsets. */
  method MarshalCBOR(h: Head) returns (w: Option<bytes>)
    requires h.(layerOffsets := []).Ok() && forall i :: 0 <= i < |h.layerOffsets| ==> IsInt64(h.layerOffsets[i])
    ensures w.Some? <==> h.Ok()
    ensures w.Some? ==> w.value == Encode(h)
  {
    hide Field, FieldsFrom, PutText, PutValue;
    if |h.layerOffsets| > MAX_LENGTH {
      return None;
    }
    var out := ItemHead(MAJ_MAP, FIELDS);
    var i := 0;
    assert out + FieldsFrom(h, 0) == Encode(h);
    while i < FIELDS
      invariant 0 <= i <= FIELDS && out + FieldsFrom(h, i) == Encode(h)
    {
      NextField(h, i);
      ConcatAssoc(out, Field(h, i), FieldsFrom(h, i + 1));
      FieldIs(h, i);
      ConcatAssoc(out, PutText(Name(i)), PutValue(Get(h, i)));
      out := out + PutText(Name(i));
      out := out + PutValue(Get(h, i));
      i := i + 1;
    }
    NoField(h, out);
    return Some(out);
  }

  lemma {:induction false} NextField(h: Head, i: nat)
    requires i < FIELDS && h.Ok()
    ensures FieldsFrom(h, i) == Field(h, i) + FieldsFrom(h, i + 1)
  {}

  lemma {:induction false} FieldIs(h: Head, i: nat)
    requires i < FIELDS && h.Ok()
    ensures Field(h, i) == PutText(Name(i)) + PutValue(Get(h, i))
  {}

  lemma {:induction false} NoField(h: Head, out: bytes)
    requires h.Ok()
    ensures out + FieldsFrom(h, FIELDS) == out
  {}

  /** n fields by name, in any order, on top of what has been decoded. */
  function FoldFields(h: Head, s: bytes, n: nat): Option<Head>
    decreases n
  {
    if n == 0 then Some(h)
    else
      match GetField(h, s)
      case None => None
      case Some((h', k)) => FoldFields(h', s[k..], n - 1)
  }

  /** The head at the front of a stream; None for anything that is not a map of known, well-formed
      fields. */
  function Decode(s: bytes): Option<Head> {
    match ReadItemHead(s)
    case None => None
    case Some((maj, n, k)) => if maj != MAJ_MAP || n > MAX_LENGTH then None else FoldFields(Blank(), s[k..], n)
  }

  method UnmarshalCBOR(s: bytes) returns (r: Option<Head>)
    ensures r == Decode(s)
  {
    hide ReadItemHead, GetField;
    var start := ReadItemHead(s);
    if start.None? || start.value.0 != MAJ_MAP || start.value.1 > MAX_LENGTH {
      return None;
    }
    var h, rest := Blank(), s[start.value.2..];
    var i := 0;
    while i < start.value.1
      invariant 0 <= i <= start.value.1 && FoldFields(h, rest, start.value.1 - i) == Decode(s)
    {
      var f := GetField(h, rest);
      if f.None? {
        return None;
      }
      h := f.value.0;
      rest := rest[f.value.1..];
      i := i + 1;
    }
    return Some(h);
  }

  lemma {:induction false} FoldEncoded(h: Head, i: nat, tail: bytes)
    requires h.Ok() && i <= FIELDS
    ensures FoldFields(Decoded(h, i), FieldsFrom(h, i) + tail, FIELDS - i) == Some(h)
    decreases FIELDS - i
  {
    hide GetField, Field, FieldsFrom, Decoded, Get, Set;
    if i == FIELDS {
      AllDecoded(h);
    } else {
      NextField(h, i);
      ConcatAssoc(Field(h, i), FieldsFrom(h, i + 1), tail);
      FieldRoundTrip(h, i, Decoded(h, i), FieldsFrom(h, i + 1) + tail);
      NextDecoded(h, i);
      FoldEncoded(h, i + 1, tail);
    }
  }

  /** Every stream that starts with an encoded head decodes to that head. */
  lemma {:induction false} DecodeEncoded(h: Head, s: bytes)
    requires h.Ok() && Encode(h) <= s
    ensures Decode(s) == Some(h)
  {
    hide ItemHead, ReadItemHead, FieldsFrom, Decoded, FoldFields;
    Split(h, s);
    FirstDecoded(h);
    FoldEncoded(h, 0, s[|Encode(h)|..]);
  }

  lemma {:induction false} FirstDecoded(h: Head)
    ensures Decoded(h, 0) == Blank()
  {}

  lemma {:induction false} NextDecoded(h: Head, i: nat)
    requires i < FIELDS
    ensures Decoded(h, i + 1) == Set(Decoded(h, i), i, Get(h, i))
  {}

  lemma {:induction false} Split(h: Head, s: bytes)
    requires h.Ok() && Encode(h) <= s
    ensures ReadItemHead(s) == Some((MAJ_MAP, FIELDS, |ItemHead(MAJ_MAP, FIELDS)|))
    ensures s[|ItemHead(MAJ_MAP, FIELDS)|..] == FieldsFrom(h, 0) + s[|Encode(h)|..]
  {
    hide ItemHead, ReadItemHead, FieldsFrom;
    var a, b, tail := ItemHead(MAJ_MAP, FIELDS), FieldsFrom(h, 0), s[|Encode(h)|..];
    assert s == a + b + tail;
    ConcatAssoc(a, b, tail);
    ItemHeadRoundTrip(MAJ_MAP, FIELDS, b + tail);
    assert (a + (b + tail))[|a|..] == b + tail;
  }

  // ---- the head file ----------------------------------------------------------------------------

  lemma {:induction false} IntsSize(xs: seq<int>)
    requires forall i :: 0 <= i < |xs| ==> IsInt64(xs[i])
    ensures |PutInts(xs)| <= 9 * |xs|
  {
    hide PutInt;
    if xs != [] {
      IntsSize(xs[1..]);
    }
  }

  function NumbersSize(h: Head): nat
    requires h.Ok()
  {
    |PutInt(h.dataEnd)| + |PutInt(h.version)| + |PutInt(h.dataStart)| + |PutInt(h.retiredAt)|
  }

  /** Names, flags and the map head take 99 bytes. */
  lemma {:induction false} EncodeSize(h: Head)
    requires h.Ok()
    ensures |Encode(h)| == 99 + NumbersSize(h) + |ItemHead(MAJ_ARRAY, |h.layerOffsets|)| + |PutInts(h.layerOffsets)|
  {
    hide ItemHead, PutInt, PutInts, Field, FieldsFrom;
    FieldSizes(h);
    NextField(h, 0);
    NextField(h, 1);
    NextField(h, 2);
    NextField(h, 3);
    NextField(h, 4);
    TailSize(h);
  }

  lemma {:induction false} TailSize(h: Head)
    requires h.Ok()
    ensures |FieldsFrom(h, 5)| == |Field(h, 5)| + |Field(h, 6)| + |Field(h, 7)| + |Field(h, 8)| + |Field(h, 9)|
  {
    hide Field, FieldsFrom;
    NextField(h, 5);
    NextField(h, 6);
    NextField(h, 7);
    NextField(h, 8);
    NextField(h, 9);
    NoField(h, []);
  }

  lemma {:induction false} FieldSizes(h: Head)
    requires h.Ok()
    ensures |Field(h, 0)| == 7 && |Field(h, 3)| == 10 && |Field(h, 4)| == 10
    ensures |Field(h, 6)| == 11 && |Field(h, 7)| == 11
    ensures |Field(h, 1)| == 8 + |PutInt(h.dataEnd)| && |Field(h, 2)| == 8 + |PutInt(h.version)|
    ensures |Field(h, 5)| == 10 + |PutInt(h.dataStart)| && |Field(h, 8)| == 10 + |PutInt(h.retiredAt)|
    ensures |Field(h, 9)| == 13 + |ItemHead(MAJ_ARRAY, |h.layerOffsets|)| + |PutInts(h.layerOffsets)|
  {
    hide PutInt, PutInts, ItemHead, Ascii;
  }

  lemma {:induction false} IntOk(s: bytes)
    ensures GetInt(s).Some? ==> IsInt64(GetInt(s).value.0)
  {
    hide ReadItemHead;
  }

  lemma {:induction false} IntsOk(s: bytes, n: nat)
    ensures GetInts(s, n).Some? ==> forall i :: 0 <= i < n ==> IsInt64(GetInts(s, n).value.0[i])
    decreases n
  {
    hide GetInt, IsInt64;
    if n > 0 && GetInt(s).Some? {
      IntOk(s);
      IntsOk(s[GetInt(s).value.1..], n - 1);
    }
  }

  lemma {:induction false} FieldOk(h: Head, s: bytes)
    requires h.Ok()
    ensures GetField(h, s).Some? ==> GetField(h, s).value.0.Ok()
  {
    hide ReadItemHead, GetInt, GetInts, GetBool, GetText, Lookup, IsInt64;
    if GetText(s).Some? {
      var rest := s[GetText(s).value.1..];
      IntOk(rest);
      if ReadItemHead(rest).Some? {
        IntsOk(rest[ReadItemHead(rest).value.2..], ReadItemHead(rest).value.1);
      }
    }
  }

  /** Whatever decodes is a head that can be encoded: 64-bit numbers and no more offsets than allowed. */
  lemma {:induction false} DecodedIsOk(h: Head, s: bytes, n: nat)
    requires h.Ok()
    ensures FoldFields(h, s, n).Some? ==> FoldFields(h, s, n).value.Ok()
    decreases n
  {
    hide GetField, Head.Ok;
    if n > 0 && GetField(h, s).Some? {
      FieldOk(h, s);
      var (h', k) := GetField(h, s).value;
      DecodedIsOk(h', s[k..], n - 1);
    }
  }

  /** What mutHead leaves in the 512-byte buffer: the encoding and nulls. Beyond 512 bytes the
      growing writer moves away from the buffer, which then holds a truncated head: None. */
  function HeadFile(h: Head): (s: Option<bytes>)
    requires h.Ok()
    ensures s.Some? ==> |s.value| == HEAD_SIZE
  {
    var e := Encode(h);
    if |e| <= HEAD_SIZE then Some(e + Zeros(HEAD_SIZE - |e|)) else None
  }

  /** Every head with at most 41 layer offsets fits its file. */
  lemma {:induction false} FortyOneOffsetsFit(h: Head)
    requires h.Ok() && |h.layerOffsets| <= 41
    ensures HeadFile(h).Some?
  {
    hide Encode, PutInts, PutInt, ItemHead;
    EncodeSize(h);
    IntsSize(h.layerOffsets);
  }

  /** A head whose numbers all need nine bytes. */
  function Wide(n: nat): Head {
    Head(true, TWO_32, TWO_32, true, true, TWO_32, true, true, TWO_32, seq(n, i => TWO_32))
  }

  lemma {:induction false} WideInts(n: nat)
    ensures |PutInts(Wide(n).layerOffsets)| == 9 * n
  {
    if n > 0 {
      WideInts(n - 1);
      assert Wide(n).layerOffsets[1..] == Wide(n - 1).layerOffsets;
      assert |PutInt(TWO_32)| == 9;
    }
  }

  /** 41 is the exact limit: every head with at most n offsets fits if and only if n <= 41. */
  lemma {:induction false} FitsUpTo41(n: nat)
    ensures (forall h: Head :: h.Ok() && |h.layerOffsets| <= n ==> HeadFile(h).Some?) <==> n <= 41
  {
    hide Encode, PutInts, ItemHead, HeadFile;
    forall h: Head | h.Ok() && |h.layerOffsets| <= n && n <= 41
      ensures HeadFile(h).Some?
    {
      FortyOneOffsetsFit(h);
    }
    WideOverflows();
  }

  lemma {:induction false} WideOverflows()
    ensures Wide(42).Ok() && |Wide(42).layerOffsets| == 42 && HeadFile(Wide(42)) == None
  {
    hide Encode, PutInts;
    EncodeSize(Wide(42));
    WideInts(42);
    assert |PutInt(TWO_32)| == 9;
    assert |ItemHead(MAJ_ARRAY, 42)| == 2;
  }

  datatype HeadWrite =
    | Written(file: bytes)
    | Truncated            // more than 512 bytes: a truncated head is written, and nothing is reported
    | Refused              // an error, with the file as it was

  /** mutHead: read the head file, change the head, write it back. */
  method MutHead(file: bytes, mut: Head -> Option<Head>) returns (r: HeadWrite)
    ensures
      var h := Decode(file);
      var refused := |file| != HEAD_SIZE || h.None? || !h.value.valid || mut(h.value).None? || !mut(h.value).value.Ok();
      && (r == Refused <==> refused)
      && (!refused ==>
            var changed := mut(h.value).value;
            && (r == Truncated <==> |Encode(changed)| > HEAD_SIZE)
            && (|Encode(changed)| <= HEAD_SIZE ==> r.Written? && HeadFile(changed) == Some(r.file)))
  {
    hide Encode, Decode, Head.Ok;
    if |file| != HEAD_SIZE {
      return Refused;
    }
    var h := UnmarshalCBOR(file);
    if h.None? || !h.value.valid {
      return Refused;
    }
    var changed := mut(h.value);
    if changed.None? || !changed.value.Ok() {
      return Refused;
    }
    OkParts(changed.value);
    var w := MarshalCBOR(changed.value);
    if |w.value| > HEAD_SIZE {
      return Truncated;
    }
    return Written(w.value + Zeros(HEAD_SIZE - |w.value|));
  }

  /** A head that was written is the head that is read. */
  lemma {:induction false} HeadFileDecodes(h: Head)
    requires h.Ok() && |h.layerOffsets| <= 41
    ensures HeadFile(h).Some? && Decode(HeadFile(h).value) == Some(h)
  {
    hide Encode, Decode;
    FortyOneOffsetsFit(h);
    StartsWith(h, HeadFile(h).value);
    DecodeEncoded(h, HeadFile(h).value);
  }

  lemma {:induction false} StartsWith(h: Head, file: bytes)
    requires h.Ok() && HeadFile(h) == Some(file)
    ensures Encode(h) <= file
  {
    hide Encode;
  }

  lemma {:induction false} OkParts(h: Head)
    requires h.Ok()
    ensures h.(layerOffsets := []).Ok() && forall i :: 0 <= i < |h.layerOffsets| ==> IsInt64(h.layerOffsets[i])
  {}

  /** The head that genTopCar writes always fits: fewer than 2^63 leaves give at most 7 offsets. */
  lemma {:induction false} FinishedHeadFits(env: TopTree.CarEnv, leaves: seq<Cars.Block>, base: nat, h: Head)
    requires 0 < |leaves| < TWO_63
    requires h.Ok() && h.layerOffsets == TopCar.LayerOffsets(base, TopTree.AllLayers(env, leaves))
    ensures HeadFile(h).Some?
  {
    hide TopTree.AllLayers, TopCar.LayerOffsets, HeadFile;
    TopTree.AtMostSevenLayers(env, leaves);
    FortyOneOffsetsFit(h);
  }
}
