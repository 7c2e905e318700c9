/** The binary property list format: what each object is written as, and how bytes are read back. */
module BplistFormat {
  import opened Bytes
  import opened BigEndians
  import opened Positional
  import opened Options
  import opened Utf
  import opened Plist

  const NULL_TYPE: nat := 0x00
  const UINT: nat := 0x10
  const REAL: nat := 0x20
  const DATE: nat := 0x30
  const DATA: nat := 0x40
  const STRING: nat := 0x50
  const UNICODE: nat := 0x60
  const UID: nat := 0x80
  const ARRAY: nat := 0xA0
  const SET: nat := 0xC0
  const DICT: nat := 0xD0

  const WORD64: nat := 0x1_0000_0000_0000_0000

  function NeededBytes(x: nat): (n: nat)
    ensures n in {1, 2, 3, 4, 8}
  {
    if x < 0x100 then 1 else if x < 0x1_0000 then 2 else if x < 0x100_0000 then 3 else if x < 0x1_0000_0000 then 4 else 8
  }

  lemma PowersOf256()
    ensures Pow(256, 1) == 0x100 && Pow(256, 2) == 0x1_0000 && Pow(256, 3) == 0x100_0000 && Pow(256, 4) == 0x1_0000_0000
    ensures Pow(256, 8) == WORD64
  {
    assert Pow(256, 1) == 256 * Pow(256, 0);
    PowAdd(256, 1, 1);
    PowAdd(256, 2, 1);
    PowAdd(256, 2, 2);
    PowAdd(256, 4, 4);
  }

  lemma NeededBytesEnough(x: nat)
    requires x < WORD64
    ensures x < Pow(256, NeededBytes(x))
  {
    hide Pow;
    PowersOf256();
  }

  /** `UINT_TO_HOST`: more than eight bytes count only by their last eight. */
  function UintToHost(data: seq<Byte>, p: nat, n: nat): nat
    requires p + n <= |data|
  {
    if n > 8 then FromBigEndian(data[p + n - 8..p + n]) else FromBigEndian(data[p..p + n])
  }

  // ----- what the writer emits

  /** Integer objects are never three bytes long. */
  function IntSize(v: nat): (n: nat)
    ensures n in {1, 2, 4, 8}
  {
    if NeededBytes(v) == 3 then 4 else NeededBytes(v)
  }

  function Log2(n: nat): nat
  {
    if n == 8 then 3 else if n == 4 then 2 else if n == 2 then 1 else 0
  }

  function IntBytes(v: nat): seq<Byte>
  {
    [UINT + Log2(IntSize(v))] + BigEndian(v, IntSize(v))
  }

  function WideBytes(v: nat): seq<Byte>
  {
    [UINT + 4] + (seq(8, _ => 0) + BigEndian(v, 8))
  }

  function UidBytes(v: nat): seq<Byte>
  {
    var w := v % 0x1_0000_0000;
    [UID + (IntSize(w) - 1)] + BigEndian(w, IntSize(w))
  }

  function HeaderBytes(mark: nat, size: nat): seq<Byte>
    requires mark in {DATA, STRING, UNICODE, ARRAY, DICT}
  {
    if size < 15 then [mark + size] else [mark + 15] + IntBytes(size)
  }

  function UnitBytes(units: seq<Unit>): (r: seq<Byte>)
    ensures |r| == 2 * |units|
  {
    if units == [] then [] else [units[0] / 256, units[0] % 256] + UnitBytes(units[1..])
  }

  function RefBytes(refs: seq<nat>, refSize: nat): (r: seq<Byte>)
    ensures |r| == |refs| * refSize
  {
    if refs == [] then [] else BigEndian(refs[0], refSize) + RefBytes(refs[1..], refSize)
  }

  /** `is_ascii_string`, whose length parameter is a 32-bit `int`. */
  predicate Ascii(t: seq<Byte>)
  {
    var len := |t| % 0x1_0000_0000;
    len >= 0x8000_0000 || forall i :: 0 <= i < len ==> t[i] < 0x80
  }

  /** Every second element, from position k on. */
  function EverySecond<T>(s: seq<T>, k: nat): (r: seq<T>)
    requires |s| % 2 == 0 && k < 2
    ensures |r| == |s| / 2
  {
    seq(|s| / 2, i requires 0 <= i < |s| / 2 => s[2 * i + k])
  }

  function TextBytes(t: seq<Byte>): seq<Byte>
  {
    if Ascii(t) then HeaderBytes(STRING, |t|) + t
    else
      var units := Utf8ToUtf16(t, 0);
      HeaderBytes(UNICODE, |units|) + UnitBytes(units)
  }

  /** One object; `refs` holds the object numbers of its children. */
  function Encoded(n: Node, refs: seq<nat>, refSize: nat): seq<Byte>
    requires |refs| == |n.Children()| && (n.Dict? ==> |refs| % 2 == 0)
  {
    match n
    case Bool(b) => [if b then 9 else 8]
    case Uint(v, wide) => if wide then WideBytes(v) else IntBytes(v)
    case Uid(v) => UidBytes(v)
    case Str(t) => TextBytes(t)
    case Key(t) => TextBytes(t)
    case Data(_, bytes) => HeaderBytes(DATA, |bytes|) + bytes
    case Array(_, items) => HeaderBytes(ARRAY, |items|) + RefBytes(refs, refSize)
    case Dict(_, items) =>
      HeaderBytes(DICT, |items| / 2) + (RefBytes(EverySecond(refs, 0), refSize) + RefBytes(EverySecond(refs, 1), refSize))
    case Real(_) => []
    case Date(_) => []
  }

  // ----- how the parser reads one object

  /** A file with its trailer fields. */
  datatype File = File(data: seq<Byte>, numObjects: nat, refSize: nat, offsetSize: nat, offsetTable: nat)

  /** What `plist_from_bin` has checked before it looks at an object. */
  predicate Checked(f: File)
  {
    && |f.data| < 0x1_0000_0000 && f.numObjects > 0 && f.refSize > 0 && f.offsetSize > 0
    && f.offsetTable + f.numObjects * f.offsetSize + 32 <= |f.data|
  }

  predicate Sized(kind: nat)
  {
    kind in {DATA, STRING, UNICODE, ARRAY, SET, DICT}
  }

  /** The type, size and first content byte of the object at `off`. */
  datatype Header = Header(kind: nat, size: nat, pobject: nat)

  function Shifted(k: nat): (n: nat)
    ensures n > 0
  {
    if k == 0 then 1 else 2 * Shifted(k - 1)
  }

  function ReadHeader(f: File, off: nat): Option<Header>
    requires Checked(f) && off < f.offsetTable
  {
    var kind, size := f.data[off] / 16 * 16, f.data[off] % 16;
    if size == 15 && Sized(kind) then
      var marker := f.data[off + 1];
      var n := Shifted(marker % 16);
      if marker / 16 * 16 != UINT || off + 2 + n > f.offsetTable then None
      else Some(Header(kind, UintToHost(f.data, off + 2, n), off + 2 + n))
    else
      Some(Header(kind, size, off + 1))
  }

  lemma HeaderBound(f: File, off: nat)
    requires Checked(f) && off < f.offsetTable && ReadHeader(f, off).Some?
    ensures ReadHeader(f, off).value.pobject <= f.offsetTable
  {
  }

  /** The text up to the first NUL: what a C string keeps. */
  function CString(t: seq<Byte>): seq<Byte>
  {
    if t == [] || t[0] == 0 then [] else [t[0]] + CString(t[1..])
  }

  function ReadUnits(data: seq<Byte>, p: nat, n: nat): (units: seq<Unit>)
    requires p + 2 * n <= |data|
    ensures |units| == n
  {
    seq(n, i requires 0 <= i < n => (data[p + 2 * i] as nat) * 256 + (data[p + 2 * i + 1] as nat))
  }

  /** Objects without references. */
  function ReadLeaf(f: File, h: Header): Option<Node>
    requires Checked(f) && h.pobject <= f.offsetTable + 1
  {
    var p, size, ot := h.pobject, h.size, f.offsetTable;
    if h.kind == NULL_TYPE then
      if size == 9 then Some(Bool(true)) else if size == 8 then Some(Bool(false)) else None
    else if h.kind == UINT then
      var n := Shifted(size);
      if p + n > ot then None
      else if n in {1, 2, 4, 8} then Some(Uint(UintToHost(f.data, p, n), false))
      else if n == 16 then Some(Uint(UintToHost(f.data, p, n), true))
      else None
    else if h.kind == REAL then
      var n := Shifted(size);
      if p + n > ot then None else if n in {4, 8} then Some(Real(f.data[p..p + n])) else None
    else if h.kind == DATE then
      if size != 3 || p + 8 > ot then None else Some(Date(f.data[p..p + 8]))
    else if h.kind == DATA then
      if p + size > ot then None else Some(Data(0, f.data[p..p + size]))
    else if h.kind == STRING then
      if p + size > ot then None else Some(Str(CString(f.data[p..p + size])))
    else if h.kind == UNICODE then
      if p + 2 * size > ot || size == 0 then None
      else Some(Str(Utf16ToUtf8(ReadUnits(f.data, p, size), NoLead)))
    else if h.kind == UID then
      if p + size + 1 > ot then None
      else
        var v := UintToHost(f.data, p, size + 1);
        if v >= 0x1_0000_0000 then None else Some(Uid(v))
    else
      None
  }

  // ----- a written object is read back

  ghost predicate At(data: seq<Byte>, p: nat, s: seq<Byte>)
  {
    p + |s| <= |data| && data[p..p + |s|] == s
  }

  lemma {:induction false} AtSplit(data: seq<Byte>, p: nat, a: seq<Byte>, b: seq<Byte>)
    requires At(data, p, a + b)
    ensures At(data, p, a) && At(data, p + |a|, b)
  {
    var s := data[p..p + |a + b|];
    assert data[p..p + |a|] == s[..|a|] == (a + b)[..|a|] == a;
    assert data[p + |a|..p + |a| + |b|] == s[|a|..] == (a + b)[|a|..] == b;
  }

  lemma {:induction false} AtFirst(data: seq<Byte>, p: nat, s: seq<Byte>)
    requires At(data, p, s) && |s| > 0
    ensures data[p] == s[0]
  {
    assert data[p..p + |s|][0] == data[p];
  }

  lemma {:induction false} ReadBigEndian(data: seq<Byte>, p: nat, v: nat, n: nat)
    requires At(data, p, BigEndian(v, n)) && n <= 8 && v < Pow(256, n)
    ensures UintToHost(data, p, n) == v
  {
    BigEndianBack(v, n);
  }

  lemma ShiftedSizes()
    ensures Shifted(0) == 1 && Shifted(1) == 2 && Shifted(2) == 4 && Shifted(3) == 8 && Shifted(4) == 16
  {
    assert Shifted(1) == 2;
    assert Shifted(2) == 4;
    assert Shifted(3) == 8;
  }

  lemma {:induction false} IntBack(data: seq<Byte>, p: nat, v: nat)
    requires v < WORD64 && At(data, p, IntBytes(v))
    ensures data[p] / 16 * 16 == UINT && Shifted(data[p] % 16) == IntSize(v)
    ensures UintToHost(data, p + 1, IntSize(v)) == v
  {
    hide Shifted, Pow;
    ShiftedSizes();
    var n := IntSize(v);
    AtSplit(data, p, [UINT + Log2(n)], BigEndian(v, n));
    AtFirst(data, p, [UINT + Log2(n)]);
    NeededBytesEnough(v);
    PowMonotonic(256, NeededBytes(v), n);
    ReadBigEndian(data, p + 1, v, n);
  }

  lemma {:induction false} HeaderBack(f: File, off: nat, mark: nat, size: nat, rest: seq<Byte>)
    requires Checked(f) && mark in {DATA, STRING, UNICODE, ARRAY, DICT} && size < WORD64
    requires At(f.data, off, HeaderBytes(mark, size) + rest) && off + |HeaderBytes(mark, size) + rest| <= f.offsetTable
    ensures ReadHeader(f, off) == Some(Header(mark, size, off + |HeaderBytes(mark, size)|))
    ensures At(f.data, off + |HeaderBytes(mark, size)|, rest)
  {
    hide UintToHost, Shifted, IntBytes, IntSize;
    AtSplit(f.data, off, HeaderBytes(mark, size), rest);
    KindOfMark(mark, if size < 15 then size else 15);
    if size < 15 {
      AtFirst(f.data, off, [mark + size]);
    } else {
      AtSplit(f.data, off, [mark + 15], IntBytes(size));
      AtFirst(f.data, off, [mark + 15]);
      IntBack(f.data, off + 1, size);
      IntLength(size);
    }
  }

  lemma KindOfMark(mark: nat, size: nat)
    requires mark in {DATA, STRING, UNICODE, ARRAY, DICT, UID, UINT} && size < 16
    ensures (mark + size) / 16 * 16 == mark && (mark + size) % 16 == size
  {
  }

  lemma IntLength(v: nat)
    ensures |IntBytes(v)| == 1 + IntSize(v)
  {
  }

  lemma {:induction false} UnitsBack(data: seq<Byte>, p: nat, units: seq<Unit>)
    requires At(data, p, UnitBytes(units))
    ensures ReadUnits(data, p, |units|) == units
    decreases |units|
  {
    if units != [] {
      AtSplit(data, p, [units[0] / 256, units[0] % 256], UnitBytes(units[1..]));
      assert data[p] == data[p..p + 2][0] && data[p + 1] == data[p..p + 2][1];
      UnitsBack(data, p + 2, units[1..]);
      var r, t := ReadUnits(data, p, |units|), ReadUnits(data, p + 2, |units| - 1);
      assert forall i :: 1 <= i < |units| ==> r[i] == t[i - 1];
      assert r[0] == units[0];
      assert units == [units[0]] + units[1..];
    } else {
      assert ReadUnits(data, p, 0) == [];
    }
  }

  lemma {:induction false} NoNulBack(t: seq<Byte>)
    requires 0 !in t
    ensures CString(t) == t
  {
    if t != [] {
      NoNulBack(t[1..]);
    }
  }

  /** What the parser makes of an object: keys are strings until their dictionary claims them. */
  function Parsed(n: Node): Node
  {
    if n.Key? then Str(n.text) else Erase(n)
  }

  lemma {:induction false} TextBack(f: File, off: nat, t: seq<Byte>)
    requires Checked(f) && Text(t) && At(f.data, off, TextBytes(t)) && off + |TextBytes(t)| <= f.offsetTable
    ensures ReadHeader(f, off).Some? && var h := ReadHeader(f, off).value;
            h.kind in {STRING, UNICODE} && h.pobject <= f.offsetTable && ReadLeaf(f, h) == Some(Str(t))
  {
    hide ReadHeader, HeaderBytes, Utf16ToUtf8, Utf8ToUtf16, CString, ReadUnits, UnitBytes, ReadLeaf;
    if Ascii(t) {
      RawTextBack(f, off, t);
    } else {
      UnicodeBack(f, off, t);
    }
  }

  lemma {:induction false} RawTextBack(f: File, off: nat, t: seq<Byte>)
    requires Checked(f) && 0 !in t && At(f.data, off, HeaderBytes(STRING, |t|) + t)
    requires off + |HeaderBytes(STRING, |t|) + t| <= f.offsetTable
    ensures ReadHeader(f, off).Some? && var h := ReadHeader(f, off).value;
            h.kind == STRING && h.pobject <= f.offsetTable && ReadLeaf(f, h) == Some(Str(t))
  {
    hide ReadHeader, HeaderBytes, CString;
    HeaderBack(f, off, STRING, |t|, t);
    NoNulBack(t);
  }

  lemma {:induction false} UnicodeBack(f: File, off: nat, t: seq<Byte>)
    requires Checked(f) && Text(t) && t != []
    requires var units := Utf8ToUtf16(t, 0);
             && At(f.data, off, HeaderBytes(UNICODE, |units|) + UnitBytes(units))
             && off + |HeaderBytes(UNICODE, |units|) + UnitBytes(units)| <= f.offsetTable
    ensures ReadHeader(f, off).Some? && var h := ReadHeader(f, off).value;
            h.kind == UNICODE && h.pobject <= f.offsetTable && ReadLeaf(f, h) == Some(Str(t))
  {
    hide ReadHeader, HeaderBytes, Utf16ToUtf8, Utf8ToUtf16, CString, ReadUnits, UnitBytes, At, WellFormed;
    var units := Utf8ToUtf16(t, 0);
    HeaderBack(f, off, UNICODE, |units|, UnitBytes(units));
    UnitsBack(f.data, off + |HeaderBytes(UNICODE, |units|)|, units);
    RoundTrip(t, 0);
    assert t[0..] == t;
    NothingFromNothing();
  }

  lemma NothingFromNothing()
    ensures Utf16ToUtf8([], NoLead) == []
  {
  }

  lemma {:induction false} IntObjectBack(f: File, off: nat, v: nat)
    requires Checked(f) && v < WORD64 && At(f.data, off, IntBytes(v)) && off + |IntBytes(v)| <= f.offsetTable
    ensures ReadHeader(f, off).Some? && var h := ReadHeader(f, off).value;
            h.kind == UINT && h.pobject <= f.offsetTable && ReadLeaf(f, h) == Some(Uint(v, false))
  {
    hide UintToHost, Shifted, IntSize;
    IntLength(v);
    IntBack(f.data, off, v);
    KindOfMark(UINT, f.data[off] % 16);
  }

  lemma {:induction false} WideObjectBack(f: File, off: nat, v: nat)
    requires Checked(f) && v < WORD64 && At(f.data, off, WideBytes(v)) && off + |WideBytes(v)| <= f.offsetTable
    ensures ReadHeader(f, off).Some? && var h := ReadHeader(f, off).value;
            h.kind == UINT && h.pobject <= f.offsetTable && ReadLeaf(f, h) == Some(Uint(v, true))
  {
    hide Shifted, Pow, BigEndian, FromBigEndian;
    ShiftedSizes();
    PowersOf256();
    AtSplit(f.data, off, [UINT + 4], seq(8, _ => 0) + BigEndian(v, 8));
    AtFirst(f.data, off, [UINT + 4]);
    AtSplit(f.data, off + 1, seq(8, _ => 0), BigEndian(v, 8));
    BigEndianBack(v, 8);
  }

  lemma {:induction false} UidBack(f: File, off: nat, v: nat)
    requires Checked(f) && v < 0x1_0000_0000 && At(f.data, off, UidBytes(v)) && off + |UidBytes(v)| <= f.offsetTable
    ensures ReadHeader(f, off).Some? && var h := ReadHeader(f, off).value;
            h.kind == UID && h.pobject <= f.offsetTable && ReadLeaf(f, h) == Some(Uid(v))
  {
    hide Shifted, Pow, BigEndian, UintToHost;
    var n := IntSize(v);
    AtSplit(f.data, off, [UID + (n - 1)], BigEndian(v, n));
    AtFirst(f.data, off, [UID + (n - 1)]);
    KindOfMark(UID, n - 1);
    NeededBytesEnough(v);
    PowMonotonic(256, NeededBytes(v), n);
    ReadBigEndian(f.data, off + 1, v, n);
  }

  /** Every object without references is read back as it was written. */
  lemma {:induction false} LeafBack(f: File, off: nat, n: Node)
    requires Checked(f) && Storable(n) && !n.Container()
    requires At(f.data, off, Encoded(n, [], f.refSize)) && off + |Encoded(n, [], f.refSize)| <= f.offsetTable
    ensures off < f.offsetTable
    ensures ReadHeader(f, off).Some? && var h := ReadHeader(f, off).value;
            h.kind !in {ARRAY, SET, DICT} && h.pobject <= f.offsetTable && ReadLeaf(f, h) == Some(Parsed(n))
  {
    hide ReadHeader, ReadLeaf, TextBytes, IntBytes, WideBytes, UidBytes, HeaderBytes;
    LeafNotEmpty(n, f.refSize);
    match n
    case Bool(b) => BoolBack(f, off, b);
    case Uint(v, wide) => if wide { WideObjectBack(f, off, v); } else { IntObjectBack(f, off, v); }
    case Uid(v) => UidBack(f, off, v);
    case Str(t) => TextBack(f, off, t);
    case Key(t) => TextBack(f, off, t);
    case Data(_, bytes) => DataBack(f, off, bytes);
  }

  lemma LeafNotEmpty(n: Node, refSize: nat)
    requires Storable(n) && !n.Container()
    ensures |Encoded(n, [], refSize)| > 0
  {
  }

  lemma {:induction false} BoolBack(f: File, off: nat, b: bool)
    requires Checked(f) && At(f.data, off, [if b then 9 else 8]) && off + 1 <= f.offsetTable
    ensures ReadHeader(f, off).Some? && var h := ReadHeader(f, off).value;
            h.kind == NULL_TYPE && h.pobject <= f.offsetTable && ReadLeaf(f, h) == Some(Bool(b))
  {
    AtFirst(f.data, off, [if b then 9 else 8]);
  }

  lemma {:induction false} DataBack(f: File, off: nat, bytes: seq<Byte>)
    requires Checked(f) && At(f.data, off, HeaderBytes(DATA, |bytes|) + bytes)
    requires off + |HeaderBytes(DATA, |bytes|) + bytes| <= f.offsetTable
    ensures off < f.offsetTable
    ensures ReadHeader(f, off).Some? && var h := ReadHeader(f, off).value;
            h.kind == DATA && h.pobject <= f.offsetTable && ReadLeaf(f, h) == Some(Data(0, bytes))
  {
    hide ReadHeader;
    HeaderBack(f, off, DATA, |bytes|, bytes);
  }
}
