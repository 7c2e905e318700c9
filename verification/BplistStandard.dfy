/** Binary property lists as the format is published, byte by byte: what the writer makes conforms, and
    the parser reads every file that does. */
module BplistStandard {
  import opened Bytes
  import opened Arith
  import opened BigEndians
  import opened Options
  import opened Positional
  import opened Utf
  import opened UtfScalars
  import opened Plist
  import opened BplistFormat
  import opened BplistParser

  // ----- numbers

  /** A number of n bytes, the most significant first. */
  ghost function Number(data: seq<Byte>, p: nat, n: nat): nat
    requires p + n <= |data|
    decreases n
  {
    if n == 0 then 0 else data[p] * Pow(256, n - 1) + Number(data, p + 1, n - 1)
  }

  lemma {:induction false} NumberIs(data: seq<Byte>, p: nat, n: nat)
    requires p + n <= |data|
    ensures Number(data, p, n) == FromBigEndian(data[p..p + n])
    decreases n
  {
    hide Pow, FromBigEndian;
    if n == 0 {
      NoBytes();
      assert data[p..p] == [];
    } else {
      NumberIs(data, p + 1, n - 1);
      var rest := data[p + 1..p + n];
      assert data[p..p + n] == [data[p]] + rest;
      FromSplit([data[p]], rest);
      OneByteNumber(data[p]);
    }
  }

  lemma NoBytes()
    ensures FromBigEndian([]) == 0
  {
  }

  lemma OneByteNumber(d: Byte)
    ensures FromBigEndian([d]) == d
  {
    assert [d][..0] == [];
  }

  /** What the parser makes of a number: the same, if it is below 2^64. */
  lemma {:induction false} NumberRead(data: seq<Byte>, p: nat, n: nat)
    requires p + n <= |data| && (n <= 8 || Number(data, p, n) < 0x1_0000_0000_0000_0000)
    ensures UintToHost(data, p, n) == Number(data, p, n)
  {
    hide Pow, FromBigEndian;
    NumberIs(data, p, n);
    if n > 8 {
      var high, low := data[p..p + n - 8], data[p + n - 8..p + n];
      assert data[p..p + n] == high + low;
      FromSplit(high, low);
      PowersOf256();
      NoHighPart(FromBigEndian(high), FromBigEndian(low));
    }
  }

  lemma NoHighPart(high: nat, low: nat)
    requires high * 0x1_0000_0000_0000_0000 + low < 0x1_0000_0000_0000_0000
    ensures high == 0
  {
  }

  // ----- objects

  /** How many bytes of an integer follow its marker. */
  ghost function Width(marker: Byte): nat
  {
    if marker == 0x10 then 1 else if marker == 0x11 then 2 else if marker == 0x12 then 4 else if marker == 0x13 then 8 else 0
  }

  /** An object of this kind with this size: the size in the marker, or 15 there and an integer behind it. */
  ghost predicate Marked(f: File, off: nat, kind: nat, size: nat)
    requires Checked(f)
  {
    && off < f.offsetTable && f.data[off] / 16 == kind
    && if f.data[off] % 16 < 15 then f.data[off] % 16 == size
       else Width(f.data[off + 1]) > 0 && off + 2 + Width(f.data[off + 1]) <= f.offsetTable
            && Number(f.data, off + 2, Width(f.data[off + 1])) == size
  }

  /** Where what follows marker and size starts. */
  ghost function Content(f: File, off: nat): nat
    requires Checked(f) && off < f.offsetTable
  {
    if f.data[off] % 16 < 15 then off + 1 else off + 2 + Width(f.data[off + 1])
  }

  ghost predicate BytesStored(f: File, p: nat, s: seq<Byte>)
    requires Checked(f)
  {
    p + |s| <= f.offsetTable && f.data[p..p + |s|] == s
  }

  ghost predicate UnitsStored(f: File, p: nat, units: seq<Unit>)
    requires Checked(f)
  {
    p + 2 * |units| <= f.offsetTable && forall i :: 0 <= i < |units| ==> Number(f.data, p + 2 * i, 2) == units[i]
  }

  /** The text of these code points in UTF-16. */
  ghost predicate Utf16Stored(f: File, off: nat, t: seq<Byte>, cs: seq<Scalar>)
    requires Checked(f)
  {
    && t == AllUtf8(cs) && cs != [] && Marked(f, off, 0x6, |AllUtf16(cs)|)
    && UnitsStored(f, Content(f, off), AllUtf16(cs))
  }

  ghost predicate AsciiStored(f: File, off: nat, t: seq<Byte>)
    requires Checked(f)
  {
    && Marked(f, off, 0x5, |t|) && BytesStored(f, Content(f, off), t)
    && forall i :: 0 <= i < |t| ==> t[i] < 0x80
  }

  ghost predicate TextStored(f: File, off: nat, t: seq<Byte>)
    requires Checked(f)
  {
    0 !in t && (AsciiStored(f, off, t) || exists cs :: Utf16Stored(f, off, t, cs))
  }

  /** The offset of an object, in the table behind the objects. */
  ghost function Entry(f: File, index: nat): nat
    requires Checked(f) && index < f.numObjects
  {
    InTable(f, index);
    Number(f.data, f.offsetTable + index * f.offsetSize, f.offsetSize)
  }

  /** Where reference i of a dictionary of n pairs is: first all keys, then all values. */
  function PairPlace(n: nat, i: nat): nat
  {
    if i % 2 == 0 then i / 2 else n + i / 2
  }

  /** The reference at position j of a list of references names an object. */
  ghost predicate RefStored(f: File, p: nat, j: nat)
    requires Checked(f)
  {
    var q := p + j * f.refSize;
    q + f.refSize <= f.offsetTable && Number(f.data, q, f.refSize) < f.numObjects
  }

  ghost function Ref(f: File, p: nat, j: nat): (r: nat)
    requires Checked(f) && RefStored(f, p, j)
    ensures r < f.numObjects
  {
    Number(f.data, p + j * f.refSize, f.refSize)
  }

  /** The tree is stored at this offset. */
  ghost predicate Stored(f: File, off: nat, n: Node)
    requires Checked(f)
    decreases n
  {
    off < f.offsetTable &&
    match n
    case Bool(b) => f.data[off] == if b then 0x09 else 0x08
    case Uint(v, wide) =>
      if wide then f.data[off] == 0x14 && off + 17 <= f.offsetTable && Number(f.data, off + 1, 16) == v < 0x1_0000_0000_0000_0000
      else
        var w := Width(f.data[off]);
        w > 0 && off + 1 + w <= f.offsetTable && Number(f.data, off + 1, w) == v
    case Uid(v) =>
      && 0x80 <= f.data[off] <= 0x87
      && var w := f.data[off] as int - 0x7F;
         off + 1 + w <= f.offsetTable && Number(f.data, off + 1, w) == v < 0x1_0000_0000
    case Real(bits) =>
      ((f.data[off] == 0x22 && |bits| == 4) || (f.data[off] == 0x23 && |bits| == 8)) && BytesStored(f, off + 1, bits)
    case Date(bits) => f.data[off] == 0x33 && |bits| == 8 && BytesStored(f, off + 1, bits)
    case Str(t) => TextStored(f, off, t)
    case Key(t) => TextStored(f, off, t)
    case Data(_, bytes) => Marked(f, off, 0x4, |bytes|) && BytesStored(f, Content(f, off), bytes)
    case Array(_, items) =>
      && Marked(f, off, 0xA, |items|)
      && forall i :: 0 <= i < |items| ==>
           && !items[i].Key? && RefStored(f, Content(f, off), i)
           && Stored(f, Entry(f, Ref(f, Content(f, off), i)), items[i])
    case Dict(_, items) =>
      && |items| % 2 == 0 && Marked(f, off, 0xD, |items| / 2)
      && forall i :: 0 <= i < |items| ==>
           && (items[i].Key? <==> i % 2 == 0) && RefStored(f, Content(f, off), PairPlace(|items| / 2, i))
           && Stored(f, Entry(f, Ref(f, Content(f, off), PairPlace(|items| / 2, i))), items[i])
  }

  // ----- what is stored is read

  lemma {:induction false} MarkRead(f: File, off: nat, kind: nat, size: nat)
    requires Checked(f) && Marked(f, off, kind, size) && kind in {0x4, 0x5, 0x6, 0xA, 0xD}
    ensures ReadHeader(f, off) == Some(Header(16 * kind, size, Content(f, off))) && Content(f, off) <= f.offsetTable
  {
    hide UintToHost, Number, Shifted;
    ShiftedSizes();
    if f.data[off] % 16 == 15 {
      NumberRead(f.data, off + 2, Width(f.data[off + 1]));
    }
  }

  lemma PlainMark(f: File, off: nat)
    requires Checked(f) && off < f.offsetTable && (f.data[off] % 16 < 15 || f.data[off] / 16 !in {0x4, 0x5, 0x6, 0xA, 0xC, 0xD})
    ensures ReadHeader(f, off) == Some(Header(f.data[off] / 16 * 16, f.data[off] % 16, off + 1))
  {
  }

  ghost predicate LeafRead(f: File, off: nat, n: Node)
    requires Checked(f) && off < f.offsetTable
  {
    && ReadHeader(f, off).Some?
    && var h := ReadHeader(f, off).value;
       h.kind !in {ARRAY, SET, DICT} && h.pobject <= f.offsetTable && ReadLeaf(f, h) == Some(n)
  }

  lemma {:induction false} UintReads(f: File, off: nat, v: nat, wide: bool)
    requires Checked(f) && Stored(f, off, Uint(v, wide))
    ensures LeafRead(f, off, Uint(v, wide))
  {
    hide UintToHost, Number, Shifted;
    ShiftedSizes();
    PlainMark(f, off);
    NumberRead(f.data, off + 1, if wide then 16 else Width(f.data[off]));
  }

  lemma {:induction false} UidReads(f: File, off: nat, v: nat)
    requires Checked(f) && Stored(f, off, Uid(v))
    ensures LeafRead(f, off, Uid(v))
  {
    hide UintToHost, Number, Shifted;
    PlainMark(f, off);
    NumberRead(f.data, off + 1, f.data[off] as int - 0x7F);
  }

  lemma {:induction false} BitsRead(f: File, off: nat, n: Node)
    requires Checked(f) && Stored(f, off, n) && (n.Bool? || n.Real? || n.Date?)
    ensures LeafRead(f, off, n)
  {
    hide Shifted;
    ShiftedSizes();
    PlainMark(f, off);
  }

  lemma {:induction false} AsciiReads(f: File, off: nat, t: seq<Byte>)
    requires Checked(f) && 0 !in t && off < f.offsetTable && AsciiStored(f, off, t)
    ensures LeafRead(f, off, Str(t))
  {
    hide ReadHeader, CString;
    MarkRead(f, off, 0x5, |t|);
    NoNulBack(t);
  }

  lemma {:induction false} Utf16Reads(f: File, off: nat, t: seq<Byte>, cs: seq<Scalar>)
    requires Checked(f) && off < f.offsetTable && Utf16Stored(f, off, t, cs)
    ensures LeafRead(f, off, Str(t))
  {
    hide ReadHeader, Utf16ToUtf8, AllUtf8, AllUtf16, Utf16Of, ReadUnits;
    var units, p := AllUtf16(cs), Content(f, off);
    MarkRead(f, off, 0x6, |units|);
    UnitsAreRead(f, p, units);
    TextRead(cs);
    SomeUnits(cs);
  }

  lemma SomeUnits(cs: seq<Scalar>)
    requires cs != []
    ensures AllUtf16(cs) != []
  {
  }

  lemma {:induction false} UnitsAreRead(f: File, p: nat, units: seq<Unit>)
    requires Checked(f) && UnitsStored(f, p, units)
    ensures ReadUnits(f.data, p, |units|) == units
  {
    forall i | 0 <= i < |units|
      ensures ReadUnits(f.data, p, |units|)[i] == units[i]
    {
      PairNumber(f.data, p + 2 * i);
    }
  }

  lemma PairNumber(data: seq<Byte>, p: nat)
    requires p + 2 <= |data|
    ensures Number(data, p, 2) == data[p] as nat * 256 + data[p + 1] as nat
  {
    assert Number(data, p + 1, 1) == data[p + 1] * Pow(256, 0) + Number(data, p + 2, 0);
    assert Pow(256, 1) == 256 * Pow(256, 0);
  }

  lemma {:induction false} LeafReads(f: File, off: nat, n: Node)
    requires Checked(f) && Stored(f, off, n) && !n.Container()
    ensures LeafRead(f, off, Parsed(n))
  {
    hide ReadHeader, ReadLeaf, Marked, AsciiStored, Utf16Stored, Number;
    match n
    case Uint(v, wide) => UintReads(f, off, v, wide);
    case Uid(v) => UidReads(f, off, v);
    case Data(_, bytes) => DataReads(f, off, n);
    case Str(t) => TextReads(f, off, t);
    case Key(t) => TextReads(f, off, t);
    case _ => BitsRead(f, off, n);
  }

  lemma {:induction false} DataReads(f: File, off: nat, n: Node)
    requires Checked(f) && Stored(f, off, n) && n.Data?
    ensures LeafRead(f, off, Data(0, n.bytes))
  {
    hide ReadHeader;
    MarkRead(f, off, 0x4, |n.bytes|);
  }

  lemma {:induction false} TextReads(f: File, off: nat, t: seq<Byte>)
    requires Checked(f) && off < f.offsetTable && TextStored(f, off, t)
    ensures LeafRead(f, off, Str(t))
  {
    hide LeafRead, AsciiStored, Utf16Stored;
    if AsciiStored(f, off, t) {
      AsciiReads(f, off, t);
    } else {
      var cs :| Utf16Stored(f, off, t, cs);
      Utf16Reads(f, off, t, cs);
    }
  }

  // ----- one object holds trees of one size only

  lemma {:induction false} MarkOfLeaf(f: File, off: nat, n: Node)
    requires Checked(f) && Stored(f, off, n)
    ensures n.Array? <==> f.data[off] / 16 == 0xA
    ensures n.Dict? <==> f.data[off] / 16 == 0xD
  {
    hide Number, BytesStored, UnitsStored, AllUtf8, AllUtf16;
  }

  lemma {:induction false} SizesAgree(f: File, off: nat, n: Node, m: Node)
    requires Checked(f) && Stored(f, off, n) && Stored(f, off, m)
    ensures Size(n) == Size(m)
    decreases n
  {
    hide Number, Content, Entry, BytesStored, TextStored;
    MarkOfLeaf(f, off, n);
    MarkOfLeaf(f, off, m);
    if n.Container() {
      forall i | 0 <= i < |n.items|
        ensures Size(n.items[i]) == Size(m.items[i])
      {
        SizesAgree(f, Entry(f, Ref(f, Content(f, off), if n.Array? then i else PairPlace(|n.items| / 2, i))), n.items[i], m.items[i]);
      }
      SizeAllAgrees(n.items, m.items);
    }
  }

  lemma {:induction false} SizeAllAgrees(a: seq<Node>, b: seq<Node>)
    requires |a| == |b| && forall i :: 0 <= i < |a| ==> Size(a[i]) == Size(b[i])
    ensures SizeAll(a) == SizeAll(b)
  {
    hide Size;
    if a != [] {
      SizeAllAgrees(a[1..], b[1..]);
    }
  }

  // ----- trees

  /** The object holds a tree of more than `size` nodes. */
  ghost predicate HoldsLarger(f: File, index: nat, size: nat)
    requires Checked(f) && index < f.numObjects
  {
    exists m :: Stored(f, Entry(f, index), m) && Size(m) > size
  }

  ghost predicate AllLarger(f: File, path: seq<nat>, size: nat)
    requires Checked(f)
  {
    PathOk(path, f.numObjects) && forall i :: 0 <= i < |path| ==> HoldsLarger(f, path[i], size)
  }

  lemma {:induction false} NotOnPath(f: File, index: nat, n: Node, path: seq<nat>)
    requires Checked(f) && index < f.numObjects && Stored(f, Entry(f, index), n) && AllLarger(f, path, Size(n))
    ensures index !in path
  {
    hide Stored, Entry, Size;
    if index in path {
      var i :| 0 <= i < |path| && path[i] == index;
      LargerDiffers(f, index, n);
    }
  }

  lemma {:induction false} LargerDiffers(f: File, index: nat, n: Node)
    requires Checked(f) && index < f.numObjects && Stored(f, Entry(f, index), n)
    ensures !HoldsLarger(f, index, Size(n))
  {
    hide Stored, Entry, Size;
    forall m | Stored(f, Entry(f, index), m)
      ensures Size(m) == Size(n)
    {
      SizesAgree(f, Entry(f, index), n, m);
    }
  }

  lemma {:induction false} LessLarge(f: File, path: seq<nat>, size: nat, size': nat)
    requires Checked(f) && AllLarger(f, path, size) && size' <= size
    ensures AllLarger(f, path, size')
  {
    hide Stored, Entry, Size;
    forall i | 0 <= i < |path|
      ensures HoldsLarger(f, path[i], size')
    {
      assert HoldsLarger(f, path[i], size);
    }
  }

  lemma {:induction false} LongerPath(f: File, path: seq<nat>, index: nat, n: Node)
    requires Checked(f) && index < f.numObjects && Stored(f, Entry(f, index), n) && AllLarger(f, path, Size(n)) && Size(n) > 0
    ensures index !in path && AllLarger(f, path + [index], Size(n) - 1)
  {
    hide Stored, Entry, Size;
    NotOnPath(f, index, n, path);
    StepDown(path, f.numObjects, index);
    LessLarge(f, path, Size(n), Size(n) - 1);
    assert HoldsLarger(f, index, Size(n) - 1);
  }

  lemma EntryIsOffset(f: File, index: nat)
    requires Checked(f) && index < f.numObjects && Entry(f, index) < f.offsetTable
    ensures OffsetOf(f, index) == Entry(f, index)
  {
    hide UintToHost, Number;
    InTable(f, index);
    NumberRead(f.data, f.offsetTable + index * f.offsetSize, f.offsetSize);
  }

  lemma RefIsRead(f: File, p: nat, j: nat)
    requires Checked(f) && RefStored(f, p, j)
    ensures RefAt(f, p, j) == Some(Ref(f, p, j)) && Ref(f, p, j) < f.numObjects
  {
    hide UintToHost, Number;
    ObjectsBounded(f);
    NumberRead(f.data, p + j * f.refSize, f.refSize);
  }

  lemma ObjectsBounded(f: File)
    requires Checked(f)
    ensures f.numObjects < 0x1_0000_0000
  {
    MulOrder(f.numObjects, 1, f.offsetSize);
  }

  /** The parser returns the tree that is stored at an object. */
  lemma {:induction false} ReadsAt(f: File, index: nat, n: Node, path: seq<nat>)
    requires Checked(f) && index < f.numObjects && Stored(f, Entry(f, index), n) && AllLarger(f, path, Size(n))
    ensures ParseAt(f, index, path) == Some(Parsed(n))
    decreases n, 1, 0
  {
    hide Entry, OffsetOf, ParseNode, ReadHeader, ReadLeaf, Parsed, Size, Number, Content, Marked, RefStored;
    var off := Entry(f, index);
    EntryIsOffset(f, index);
    SomeSize(n);
    LongerPath(f, path, index, n);
    StepDown(path, f.numObjects, index);
    NodeReads(f, off, n, path + [index]);
  }

  lemma SomeSize(n: Node)
    ensures Size(n) > 0 && (n.Container() ==> Size(n) == 1 + SizeAll(n.items))
  {
  }

  lemma {:induction false} NodeReads(f: File, off: nat, n: Node, path: seq<nat>)
    requires Checked(f) && Stored(f, off, n) && Size(n) > 0 && AllLarger(f, path, Size(n) - 1)
    ensures ParseNode(f, off, path) == Some(Parsed(n))
    decreases n, 0, 1
  {
    hide Entry, ReadHeader, ReadLeaf, Size, Number, Content, Marked, RefStored, ParseArray, ParseDict, SizeAll, EraseAll, HoldsLarger;
    DepthBound(path, f.numObjects);
    SomeSize(n);
    if !n.Container() {
      LeafReads(f, off, n);
    } else if n.Array? {
      MarkRead(f, off, 0xA, |n.items|);
      ListFits(f, off, n);
      ArrayReads(f, off, n, 0, path);
      assert n.items[0..] == n.items;
    } else {
      MarkRead(f, off, 0xD, |n.items| / 2);
      ListFits(f, off, n);
      DictReads(f, off, n, 0, path);
      assert n.items[0..] == n.items;
    }
  }

  lemma ContainerShape(f: File, off: nat, n: Node)
    requires Checked(f) && Stored(f, off, n)
    ensures off < f.offsetTable && (n.Dict? ==> |n.items| % 2 == 0)
  {
  }

  /** The references leave room for as many bytes. */
  lemma {:induction false} ListFits(f: File, off: nat, n: Node)
    requires Checked(f) && Stored(f, off, n) && n.Container() && Content(f, off) <= f.offsetTable
    ensures Content(f, off) + (if n.Array? then |n.items| else |n.items| / 2) <= f.offsetTable
  {
    hide Entry, Number, Content, Marked, Stored;
    ContainerShape(f, off, n);
    if n.items != [] {
      var i := if n.Array? then |n.items| - 1 else |n.items| - 2;
      var j := if n.Array? then i else i / 2;
      LastStored(f, off, n, i, j);
      MulOrder(j + 1, 1, f.refSize);
      assert (j + 1) * f.refSize == j * f.refSize + f.refSize;
    }
  }

  lemma LastStored(f: File, off: nat, n: Node, i: nat, j: nat)
    requires Checked(f) && Stored(f, off, n) && n.Container() && i < |n.items|
    requires j == if n.Array? then i else PairPlace(|n.items| / 2, i)
    ensures RefStored(f, Content(f, off), j) && Stored(f, Entry(f, Ref(f, Content(f, off), j)), n.items[i])
    ensures n.Array? ==> !n.items[i].Key?
    ensures n.Dict? ==> |n.items| % 2 == 0 && (n.items[i].Key? <==> i % 2 == 0)
  {
    hide Entry, Number, Content, Marked, RefStored;
  }

  lemma {:induction false} ChildReads(f: File, off: nat, n: Node, i: nat, j: nat, path: seq<nat>)
    requires Checked(f) && Stored(f, off, n) && n.Container() && i < |n.items|
    requires j == if n.Array? then i else PairPlace(|n.items| / 2, i)
    requires AllLarger(f, path, SizeAll(n.items))
    ensures RefStored(f, Content(f, off), j) && RefAt(f, Content(f, off), j) == Some(Ref(f, Content(f, off), j))
    ensures ParseAt(f, Ref(f, Content(f, off), j), path) == Some(Parsed(n.items[i]))
    ensures n.Array? ==> !n.items[i].Key?
    ensures n.Dict? ==> |n.items| % 2 == 0 && (n.items[i].Key? <==> i % 2 == 0)
    decreases n, 0, 0, 0
  {
    hide Entry, Number, Content, Marked, RefStored, Stored, Size, SizeAll, Parsed, ParseAt, RefAt, HoldsLarger;
    ContainerShape(f, off, n);
    LastStored(f, off, n, i, j);
    RefIsRead(f, Content(f, off), j);
    SizeOfItem(n.items, i);
    LessLarge(f, path, SizeAll(n.items), Size(n.items[i]));
    ReadsAt(f, Ref(f, Content(f, off), j), n.items[i], path);
  }

  lemma {:induction false} ArrayReads(f: File, off: nat, n: Node, k: nat, path: seq<nat>)
    requires Checked(f) && Stored(f, off, n) && n.Array? && k <= |n.items| && AllLarger(f, path, SizeAll(n.items))
    ensures ParseArray(f, Content(f, off), |n.items|, k, path) == Some(EraseAll(n.items[k..]))
    decreases n, 0, 0, |n.items| - k + 1
  {
    hide Entry, Number, Content, Marked, RefStored, Stored, Size, SizeAll, ParseAt, RefAt, HoldsLarger, Erase;
    DepthBound(path, f.numObjects);
    if k < |n.items| {
      ChildReads(f, off, n, k, k, path);
      ArrayReads(f, off, n, k + 1, path);
      assert n.items[k..][1..] == n.items[k + 1..];
    }
  }

  lemma {:induction false} DictReads(f: File, off: nat, n: Node, k: nat, path: seq<nat>)
    requires Checked(f) && Stored(f, off, n) && n.Dict? && |n.items| % 2 == 0 && k <= |n.items| / 2 && AllLarger(f, path, SizeAll(n.items))
    ensures ParseDict(f, Content(f, off), |n.items| / 2, k, path) == Some(EraseAll(n.items[2 * k..]))
    decreases n, 0, 0, |n.items| - k + 1
  {
    hide Entry, Number, Content, Marked, RefStored, Stored, Size, SizeAll, ParseAt, RefAt, HoldsLarger, Erase, EraseAll;
    DepthBound(path, f.numObjects);
    var size, a, b := |n.items| / 2, 2 * k, 2 * k + 1;
    if k < size {
      assert PairPlace(size, a) == k && PairPlace(size, b) == k + size;
      ChildReads(f, off, n, a, k, path);
      ChildReads(f, off, n, b, k + size, path);
      DictReads(f, off, n, k + 1, path);
      ErasePair(n.items, a);
    } else {
      assert n.items[a..] == [];
      EmptyErased();
    }
  }

  lemma EmptyErased()
    ensures EraseAll([]) == []
  {
  }

  lemma ErasePair(items: seq<Node>, a: nat)
    requires a + 1 < |items|
    ensures EraseAll(items[a..]) == [Erase(items[a]), Erase(items[a + 1])] + EraseAll(items[a + 2..])
    ensures items[a].Key? ==> Erase(items[a]) == Key(items[a].text)
  {
    assert items[a..][1..] == items[a + 1..];
    assert items[a + 1..][1..] == items[a + 2..];
  }
}
