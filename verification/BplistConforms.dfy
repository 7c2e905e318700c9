/** Whole files: what the writer makes conforms to the published format, and what conforms is read. */
module BplistConforms {
  import opened Bytes
  import opened Arith
  import opened BigEndians
  import opened Options
  import opened Positional
  import opened Utf
  import opened UtfScalars
  import opened Plist
  import opened BplistFormat
  import opened BplistSerialize
  import opened BplistParser
  import opened BplistWriter
  import opened BplistRoundTrip
  import opened BplistStandard

  // ----- the frame of a file

  /** The file by its trailer, whose fields are at fixed places before the end. */
  ghost function Described(bin: seq<Byte>): File
    requires |bin| >= 40
  {
    var n := |bin|;
    File(bin, Number(bin, n - 24, 8), bin[n - 25], bin[n - 26], Number(bin, n - 8, 8))
  }

  /** A file of the published format that holds the tree. */
  ghost predicate Conforms(bin: seq<Byte>, root: Node)
  {
    && 40 <= |bin| < 0x1_0000_0000
    && (forall i :: 0 <= i < 8 ==> bin[i] == "bplist00"[i] as int)
    && var f := Described(bin);
       var top := Number(bin, |bin| - 16, 8);
       && Checked(f) && 8 <= f.offsetTable && top < f.numObjects
       && Stored(f, Entry(f, top), root)
  }

  lemma MagicIs(bin: seq<Byte>)
    requires |bin| >= 8
    ensures (forall i :: 0 <= i < 8 ==> bin[i] == "bplist00"[i] as int) <==> bin[..6] == MAGIC && bin[6..8] == VERSION
  {
    var text := "bplist00";
    assert text[0] == 'b' && text[1] == 'p' && text[2] == 'l' && text[3] == 'i' && text[4] == 's' && text[5] == 't' && text[6] == '0' && text[7] == '0';
    if forall i :: 0 <= i < 8 ==> bin[i] == text[i] as int {
      assert bin[0] == text[0] as int && bin[1] == text[1] as int && bin[2] == text[2] as int && bin[3] == text[3] as int;
      assert bin[4] == text[4] as int && bin[5] == text[5] as int && bin[6] == text[6] as int && bin[7] == text[7] as int;
    }
    if bin[..6] == MAGIC && bin[6..8] == VERSION {
      assert forall i :: 0 <= i < 6 ==> bin[i] == bin[..6][i];
      assert bin[6] == bin[6..8][0] && bin[7] == bin[6..8][1];
    }
  }

  lemma {:induction false} TrailerRead(bin: seq<Byte>)
    requires 40 <= |bin| < 0x1_0000_0000 && bin[..6] == MAGIC && bin[6..8] == VERSION
    requires Checked(Described(bin)) && 8 <= Described(bin).offsetTable
    requires Number(bin, |bin| - 16, 8) < Described(bin).numObjects
    ensures ReadTrailer(bin) == Some((Described(bin), Number(bin, |bin| - 16, 8)))
  {
    hide Number, MAGIC, VERSION, FromBigEndian;
    var end, f := |bin| - 32, Described(bin);
    NumberIs(bin, end + 8, 8);
    NumberIs(bin, end + 16, 8);
    NumberIs(bin, end + 24, 8);
    MulOrder(f.numObjects, 1, f.offsetSize);
  }

  /** Every file that conforms is read as the tree it holds, whoever wrote it. */
  lemma {:induction false} ConformingRead(bin: seq<Byte>, root: Node)
    requires Conforms(bin, root)
    ensures FromBin(bin) == Some(Parsed(root))
  {
    hide Stored, Entry, Number, ReadTrailer, ParseAt, Parsed, Size, Checked, MAGIC, VERSION;
    MagicIs(bin);
    TrailerRead(bin);
    ReadsAt(Described(bin), Number(bin, |bin| - 16, 8), root, []);
  }

  // ----- what is written is stored

  lemma {:induction false} NumberAt(data: seq<Byte>, p: nat, v: nat, n: nat)
    requires At(data, p, BigEndian(v, n)) && v < Pow(256, n)
    ensures Number(data, p, n) == v
  {
    hide Pow, BigEndian, FromBigEndian;
    NumberIs(data, p, n);
    BigEndianBack(v, n);
  }

  lemma {:induction false} IntStored(data: seq<Byte>, p: nat, v: nat)
    requires v < WORD64 && At(data, p, IntBytes(v))
    ensures Width(data[p]) == IntSize(v) && Number(data, p + 1, IntSize(v)) == v
  {
    hide Pow, BigEndian, Number;
    var n := IntSize(v);
    AtSplit(data, p, [UINT + Log2(n)], BigEndian(v, n));
    AtFirst(data, p, [UINT + Log2(n)]);
    NeededBytesEnough(v);
    PowMonotonic(256, NeededBytes(v), n);
    NumberAt(data, p + 1, v, n);
  }

  lemma {:induction false} HeaderStored(f: File, off: nat, kind: nat, size: nat, rest: seq<Byte>)
    requires Checked(f) && kind in {0x4, 0x5, 0x6, 0xA, 0xD} && size < WORD64
    requires 16 * kind in {DATA, STRING, UNICODE, ARRAY, DICT}
    requires At(f.data, off, HeaderBytes(16 * kind, size) + rest) && off + |HeaderBytes(16 * kind, size) + rest| <= f.offsetTable
    ensures off < f.offsetTable && Marked(f, off, kind, size)
    ensures Content(f, off) == off + |HeaderBytes(16 * kind, size)| && At(f.data, Content(f, off), rest)
  {
    hide IntBytes, IntSize, Number, Width;
    var mark := 16 * kind;
    AtSplit(f.data, off, HeaderBytes(mark, size), rest);
    if size < 15 {
      AtFirst(f.data, off, [mark + size]);
    } else {
      AtSplit(f.data, off, [mark + 15], IntBytes(size));
      AtFirst(f.data, off, [mark + 15]);
      IntStored(f.data, off + 1, size);
      IntLength(size);
    }
  }

  /** The writer takes a text for ASCII if it is, or if its length does not fit a 32-bit `int`. */
  lemma RawIffAscii(t: seq<Byte>)
    requires |t| < 0x1_0000_0000
    ensures Ascii(t) <==> |t| >= 0x8000_0000 || forall i :: 0 <= i < |t| ==> t[i] < 0x80
  {
  }

  /** Texts of less than 2 GiB. */
  ghost predicate ShortTexts(root: Node)
  {
    forall n :: n in Nodes(root) && (n.Str? || n.Key?) ==> |n.text| < 0x8000_0000
  }

  lemma {:induction false} TextIsStored(f: File, off: nat, t: seq<Byte>)
    requires Checked(f) && Text(t) && |t| < 0x8000_0000
    requires At(f.data, off, TextBytes(t)) && off + |TextBytes(t)| <= f.offsetTable
    ensures off < f.offsetTable && TextStored(f, off, t)
  {
    hide HeaderBytes, UnitBytes, AllUtf8, AllUtf16, Utf8ToUtf16, WellFormed, UnitsStored;
    RawIffAscii(t);
    if Ascii(t) {
      HeaderStored(f, off, 0x5, |t|, t);
      assert AsciiStored(f, off, t);
    } else {
      WellFormedIffScalars(t);
      var cs :| AllUtf8(cs) == t;
      TextWritten(cs);
      var units := AllUtf16(cs);
      HeaderStored(f, off, 0x6, |units|, UnitBytes(units));
      UnitsAreStored(f, Content(f, off), units);
      NoText();
      assert Utf16Stored(f, off, t, cs);
    }
  }

  lemma NoText()
    ensures AllUtf8([]) == []
  {
  }

  lemma {:induction false} UnitsAreStored(f: File, p: nat, units: seq<Unit>)
    requires Checked(f) && At(f.data, p, UnitBytes(units)) && p + |UnitBytes(units)| <= f.offsetTable
    ensures UnitsStored(f, p, units)
  {
    UnitsBack(f.data, p, units);
    forall i | 0 <= i < |units|
      ensures Number(f.data, p + 2 * i, 2) == units[i]
    {
      PairNumber(f.data, p + 2 * i);
      assert ReadUnits(f.data, p, |units|)[i] == units[i];
    }
  }

  lemma {:induction false} NumberStored(f: File, off: nat, n: Node)
    requires Checked(f) && Storable(n) && (n.Uint? || n.Uid?)
    requires At(f.data, off, Encoded(n, [], f.refSize)) && off + |Encoded(n, [], f.refSize)| <= f.offsetTable
    ensures Stored(f, off, n)
  {
    hide Pow, BigEndian, Number, IntSize;
    PowersOf256();
    match n
    case Uint(v, wide) =>
      if wide {
        WideStored(f, off, v);
      } else {
        IntStored(f.data, off, v);
        IntLength(v);
      }
    case Uid(v) => UidStored(f, off, v);
  }

  lemma {:induction false} UidStored(f: File, off: nat, v: nat)
    requires Checked(f) && v < 0x1_0000_0000 && At(f.data, off, UidBytes(v)) && off + |UidBytes(v)| <= f.offsetTable
    ensures Stored(f, off, Uid(v))
  {
    hide Pow, BigEndian, Number;
    var n := IntSize(v);
    AtSplit(f.data, off, [UID + (n - 1)], BigEndian(v, n));
    AtFirst(f.data, off, [UID + (n - 1)]);
    NeededBytesEnough(v);
    PowMonotonic(256, NeededBytes(v), n);
    NumberAt(f.data, off + 1, v, n);
  }

  lemma {:induction false} WideStored(f: File, off: nat, v: nat)
    requires Checked(f) && v < WORD64 && At(f.data, off, WideBytes(v)) && off + |WideBytes(v)| <= f.offsetTable
    ensures Stored(f, off, Uint(v, true))
  {
    hide Pow, BigEndian, FromBigEndian, Number;
    PowersOf256();
    var zeros, low := seq<Byte>(8, _ => 0), BigEndian(v, 8);
    AtSplit(f.data, off, [UINT + 4], zeros + low);
    AtFirst(f.data, off, [UINT + 4]);
    NumberIs(f.data, off + 1, 16);
    FromSplit(zeros, low);
    ZeroBytes();
    BigEndianBack(v, 8);
  }

  lemma ZeroBytes()
    ensures FromBigEndian(seq<Byte>(8, _ => 0)) == 0
  {
    ZerosAre(8);
  }

  lemma {:induction false} ZerosAre(n: nat)
    ensures FromBigEndian(seq<Byte>(n, _ => 0)) == 0
  {
    if n > 0 {
      ZerosAre(n - 1);
      assert seq<Byte>(n, _ => 0)[..n - 1] == seq<Byte>(n - 1, _ => 0);
    }
  }

  lemma {:induction false} LeafStored(f: File, off: nat, n: Node)
    requires Checked(f) && Storable(n) && !n.Container()
    requires n.Str? || n.Key? ==> |n.text| < 0x8000_0000
    requires At(f.data, off, Encoded(n, [], f.refSize)) && off + |Encoded(n, [], f.refSize)| <= f.offsetTable
    ensures off < f.offsetTable && Stored(f, off, n)
  {
    hide TextBytes, HeaderBytes, TextStored, Number;
    LeafNotEmpty(n, f.refSize);
    match n
    case Bool(b) => AtFirst(f.data, off, [if b then 9 else 8]);
    case Str(t) => TextIsStored(f, off, t);
    case Key(t) => TextIsStored(f, off, t);
    case Data(_, bytes) => HeaderStored(f, off, 0x4, |bytes|, bytes);
    case _ => NumberStored(f, off, n);
  }

  // ----- equal trees are stored alike

  lemma {:induction false} EraseAllAt(items: seq<Node>, i: nat)
    requires i < |items|
    ensures EraseAll(items)[i] == Erase(items[i])
  {
    if i > 0 {
      EraseAllAt(items[1..], i - 1);
    }
  }

  lemma {:induction false} SameStored(f: File, off: nat, a: Node, b: Node)
    requires Checked(f) && Stored(f, off, a) && Parsed(a) == Parsed(b)
    ensures Stored(f, off, b)
    decreases a
  {
    hide Entry, Number, Marked, RefStored, TextStored, BytesStored, Content, EraseAll;
    if a.Container() {
      forall i | 0 <= i < |a.items|
        ensures (a.items[i].Key? <==> b.items[i].Key?) && forall o :: Stored(f, o, a.items[i]) ==> Stored(f, o, b.items[i])
      {
        EraseAllAt(a.items, i);
        EraseAllAt(b.items, i);
        forall o | Stored(f, o, a.items[i])
          ensures Stored(f, o, b.items[i])
        {
          SameStored(f, o, a.items[i], b.items[i]);
        }
      }
    }
  }

  // ----- the written file

  /** A reference in a list of references. */
  lemma {:induction false} RefIsStored(f: File, p: nat, refs: seq<nat>, k: nat)
    requires Checked(f) && f.refSize <= 8 && f.numObjects < Pow(256, f.refSize)
    requires Listed(f, p, refs) && k < |refs| && refs[k] < f.numObjects
    ensures RefStored(f, p, k) && Ref(f, p, k) == refs[k]
  {
    hide At, BigEndian, Pow, Number;
    RefBytesAt(refs, f.refSize, k);
    AtInside(f.data, p, RefBytes(refs, f.refSize), k * f.refSize, BigEndian(refs[k], f.refSize));
    NumberAt(f.data, p + k * f.refSize, refs[k], f.refSize);
    MulOrder(f.refSize, k + 1, |refs|);
    assert (k + 1) * f.refSize == k * f.refSize + f.refSize;
  }

  lemma OffsetIsEntry(f: File, index: nat)
    requires Checked(f) && index < f.numObjects && f.offsetSize <= 8
    ensures OffsetOf(f, index) == Entry(f, index)
  {
    hide UintToHost, Number;
    InTable(f, index);
    NumberRead(f.data, f.offsetTable + index * f.offsetSize, f.offsetSize);
  }

  lemma {:induction false} ObjectStored(f: File, r: Refs, hash: Node -> nat, root: Node, j: nat)
    requires HoldsAll(f, r, hash) && Numbering(r, hash, root) && j < f.numObjects && f.offsetSize <= 8 && ShortTexts(root)
    ensures Stored(f, Entry(f, j), r.objects[j])
    decreases Size(r.objects[j]), 1, 0
  {
    hide OffsetOf, Entry, Encoded, Numbering, Pow, At, Size, Storable, Stored, NumbersOf, AllNumbered, Erase, EraseAll;
    OffsetIsEntry(f, j);
    var n, off := r.objects[j], Entry(f, j);
    assert Holds(f, r, hash, j);
    assert Writable(r, hash, n);
    InRoot(r, hash, root, j);
    if !n.Container() {
      LeafImage(r, hash, f.refSize, n);
      LeafStored(f, off, n);
    } else {
      ChildRefs(f, r, hash, root, n);
      ContainerSize(n);
      ContainerStored(f, r, hash, root, off, n, NumbersOf(r.table, hash, n.Children()));
    }
  }

  lemma {:induction false} ContainerStored(f: File, r: Refs, hash: Node -> nat, root: Node, off: nat, n: Node, refs: seq<nat>)
    requires HoldsAll(f, r, hash) && Numbering(r, hash, root) && n.Container() && Storable(n) && f.offsetSize <= 8 && ShortTexts(root)
    requires RefsTo(f, r, refs, n.items) && off < f.offsetTable
    requires At(f.data, off, Encoded(n, refs, f.refSize)) && off + |Encoded(n, refs, f.refSize)| <= f.offsetTable
    ensures Stored(f, off, n)
    decreases SizeAll(n.items), 4, 0
  {
    hide At, SizeAll, Size, Numbering, Pow, Listed, RefTo, Holds, Closed, KeysFirst, Marked, Content, Encoded, ItemStored, Stored;
    ContainerList(f, off, n, refs);
    forall i | 0 <= i < |n.items|
      ensures ItemStored(f, off, n, i)
    {
      ItemIsStored(f, r, hash, root, off, n, refs, i);
    }
    ItemsMake(f, off, n);
  }

  /** The reference to an item is where it belongs, and the item is stored where it leads. */
  ghost predicate ItemStored(f: File, off: nat, n: Node, i: nat)
    requires Checked(f) && off < f.offsetTable && n.Container() && i < |n.items|
  {
    var k := if n.Array? then i else PairPlace(|n.items| / 2, i);
    RefStored(f, Content(f, off), k) && Stored(f, Entry(f, Ref(f, Content(f, off), k)), n.items[i])
  }

  lemma ItemsMake(f: File, off: nat, n: Node)
    requires Checked(f) && off < f.offsetTable && n.Container() && Storable(n)
    requires Marked(f, off, if n.Array? then 0xA else 0xD, if n.Array? then |n.items| else |n.items| / 2)
    requires forall i :: 0 <= i < |n.items| ==> ItemStored(f, off, n, i)
    ensures Stored(f, off, n)
  {
    hide Marked, Content, Entry, RefStored, PairPlace;
    if n.Array? {
      forall i | 0 <= i < |n.items|
        ensures RefStored(f, Content(f, off), i) && Stored(f, Entry(f, Ref(f, Content(f, off), i)), n.items[i])
      {
        assert ItemStored(f, off, n, i);
      }
    } else {
      forall i | 0 <= i < |n.items|
        ensures var k := PairPlace(|n.items| / 2, i);
                RefStored(f, Content(f, off), k) && Stored(f, Entry(f, Ref(f, Content(f, off), k)), n.items[i])
      {
        assert ItemStored(f, off, n, i);
      }
    }
  }

  lemma {:induction false} ItemIsStored(f: File, r: Refs, hash: Node -> nat, root: Node, off: nat, n: Node, refs: seq<nat>, i: nat)
    requires HoldsAll(f, r, hash) && Numbering(r, hash, root) && n.Container() && Storable(n) && f.offsetSize <= 8 && ShortTexts(root)
    requires RefsTo(f, r, refs, n.items) && off < f.offsetTable && i < |n.items|
    requires Listed(f, Content(f, off), if n.Array? then refs else KeysFirst(refs))
    ensures ItemStored(f, off, n, i)
    decreases SizeAll(n.items), 3, 0
  {
    hide SizeAll, Size, Numbering, Pow, Listed, RefTo, RefsTo, Holds, Closed, KeysFirst, Content, Stored, Entry, Number;
    var k := if n.Array? then i else PairPlace(|n.items| / 2, i);
    RefToBound(f, r, refs, n.items, i);
    RefsCount(f, r, refs, n.items);
    ListPlace(n, refs, i);
    RefIsStored(f, Content(f, off), if n.Array? then refs else KeysFirst(refs), k);
    ChildStored(f, r, hash, root, n.items, refs, i);
  }

  lemma RefsCount(f: File, r: Refs, refs: seq<nat>, items: seq<Node>)
    requires RefsTo(f, r, refs, items)
    ensures |refs| == |items|
  {
  }

  lemma RefToBound(f: File, r: Refs, refs: seq<nat>, items: seq<Node>, i: nat)
    requires RefsTo(f, r, refs, items) && i < |items|
    ensures refs[i] < f.numObjects && refs[i] < |r.objects|
    ensures Parsed(r.objects[refs[i]]) == Parsed(items[i]) && Size(r.objects[refs[i]]) == Size(items[i])
  {
    assert RefTo(f, r, refs[i], items[i]);
  }

  lemma ListPlace(n: Node, refs: seq<nat>, i: nat)
    requires n.Container() && |refs| == |n.items| && i < |refs| && (n.Dict? ==> |refs| % 2 == 0)
    ensures var list := if n.Array? then refs else KeysFirst(refs);
            var k := if n.Array? then i else PairPlace(|n.items| / 2, i);
            k < |list| && list[k] == refs[i]
  {
    hide KeysFirst;
    if n.Dict? {
      KeysFirstAt(refs, i / 2);
    }
  }

  lemma {:induction false} ContainerList(f: File, off: nat, n: Node, refs: seq<nat>)
    requires Checked(f) && n.Container() && Storable(n) && |refs| == |n.items| && off < f.offsetTable
    requires At(f.data, off, Encoded(n, refs, f.refSize)) && off + |Encoded(n, refs, f.refSize)| <= f.offsetTable
    ensures Marked(f, off, if n.Array? then 0xA else 0xD, if n.Array? then |n.items| else |n.items| / 2)
    ensures Listed(f, Content(f, off), if n.Array? then refs else KeysFirst(refs))
  {
    hide HeaderBytes, Number, At;
    MulOrder(|refs|, 1, f.refSize);
    if n.Array? {
      HeaderStored(f, off, 0xA, |n.items|, RefBytes(refs, f.refSize));
    } else {
      RefsConcat(EverySecond(refs, 0), EverySecond(refs, 1), f.refSize);
      HeaderStored(f, off, 0xD, |n.items| / 2, RefBytes(KeysFirst(refs), f.refSize));
    }
  }

  lemma {:induction false} ChildStored(f: File, r: Refs, hash: Node -> nat, root: Node, items: seq<Node>, refs: seq<nat>, i: nat)
    requires HoldsAll(f, r, hash) && Numbering(r, hash, root) && RefsTo(f, r, refs, items) && i < |items|
    requires f.offsetSize <= 8 && ShortTexts(root)
    ensures refs[i] < f.numObjects && Stored(f, Entry(f, refs[i]), items[i])
    decreases SizeAll(items), 2, 0
  {
    hide Numbering, Holds, Parsed, Size, SizeAll, Stored, Entry, Pow;
    RefToBound(f, r, refs, items, i);
    SizeOfItem(items, i);
    ObjectStored(f, r, hash, root, refs[i]);
    SameStored(f, Entry(f, refs[i]), r.objects[refs[i]], items[i]);
  }

  lemma {:induction false} TrailerStored(f: File)
    requires 0 < f.numObjects < WORD64 && f.offsetTable < WORD64 && 0 < f.offsetSize <= 8 && 0 < f.refSize <= 8
    requires |f.data| == f.offsetTable + f.numObjects * f.offsetSize + 32 < 0x1_0000_0000 && 8 <= f.offsetTable
    requires At(f.data, |f.data| - 32, TrailerBytes(f.offsetSize, f.refSize, f.numObjects, f.offsetTable))
    ensures Described(f.data) == f && Number(f.data, |f.data| - 16, 8) == 0
  {
    hide Pow, BigEndian, Number, At;
    PowersOf256();
    var d, end := f.data, |f.data| - 32;
    var head: seq<Byte> := [0, 0, 0, 0, 0, 0, f.offsetSize, f.refSize];
    var n8, r8, t8 := BigEndian(f.numObjects, 8), BigEndian(0, 8), BigEndian(f.offsetTable, 8);
    AtSplit(d, end, head, n8 + (r8 + t8));
    TwoSizes(d, end, f.offsetSize, f.refSize);
    AtSplit(d, end + 8, n8, r8 + t8);
    AtSplit(d, end + 16, r8, t8);
    NumberAt(d, end + 8, f.numObjects, 8);
    NumberAt(d, end + 16, 0, 8);
    NumberAt(d, end + 24, f.offsetTable, 8);
  }

  lemma TwoSizes(d: seq<Byte>, p: nat, offsetSize: Byte, refSize: Byte)
    requires At(d, p, [0, 0, 0, 0, 0, 0, offsetSize, refSize])
    ensures p + 8 <= |d| && d[p + 6] == offsetSize && d[p + 7] == refSize
  {
    assert d[p + 6] == d[p..p + 8][6] && d[p + 7] == d[p..p + 8][7];
  }

  /** What the writer makes of a tree conforms to the published format. */
  lemma {:induction false} WrittenConforms(root: Node, hash: Node -> nat)
    requires Storable(root) && Distinct(root) && ShortTexts(root)
    requires |ToBin(root, hash)| < 0x1_0000_0000
    ensures Conforms(ToBin(root, hash), root)
  {
    hide Serialized, Layout, ReadTrailer, ParseAt, Erase, Storable, Distinct, NumberOf, Same, Image, Number,
      Joined, OffsetBytes, TrailerBytes, Closed, OffsetOf, Pow, At, Checked, ShortTexts, Stored, Entry, MAGIC, VERSION;
    TreeClosed(root, hash);
    TreeNumbered(root, hash);
    var r := Serialized(NoRefs(), hash, root);
    var images := Images(r, hash, NeededBytes(|r.objects|));
    var f := FileOf(images);
    LayoutParts(images);
    ImagesSolid(r, hash, f.refSize);
    JoinedGrows(images, 0, f.numObjects);
    TrailerFields(f);
    TrailerStored(f);
    forall k | 0 <= k < |r.objects|
      ensures Holds(f, r, hash, k)
    {
      LayoutHolds(images, k);
    }
    NeededBytesEnough(f.numObjects);
    ObjectStored(f, r, hash, root, 0);
    MagicLength();
    MagicStored(f.data);
  }

  lemma MagicStored(bin: seq<Byte>)
    requires At(bin, 0, MAGIC + VERSION)
    ensures |bin| >= 8 && forall i :: 0 <= i < 8 ==> bin[i] == "bplist00"[i] as int
  {
    MagicLength();
    AtSplit(bin, 0, MAGIC, VERSION);
    MagicIs(bin);
  }
}
