/** Parsing a written property list gives the tree back. */
module BplistRoundTrip {
  import opened Bytes
  import opened BigEndians
  import opened Options
  import opened Arith
  import opened Positional
  import opened Plist
  import opened BplistFormat
  import opened BplistSerialize
  import opened BplistParser
  import opened BplistWriter

  // ----- finding the parts of a file

  lemma {:induction false} AtWithin(pre: seq<Byte>, data: seq<Byte>, post: seq<Byte>, p: nat, s: seq<Byte>)
    requires At(data, p, s)
    ensures At(pre + (data + post), |pre| + p, s)
  {
    var whole := pre + (data + post);
    assert whole[|pre| + p..|pre| + p + |s|] == data[p..p + |s|];
  }

  lemma {:induction false} AtInside(data: seq<Byte>, q: nat, s: seq<Byte>, p: nat, t: seq<Byte>)
    requires At(data, q, s) && At(s, p, t)
    ensures At(data, q + p, t)
  {
    var u := data[q..q + |s|];
    forall i | 0 <= i < |t|
      ensures data[q + p + i] == t[i]
    {
      assert s[p..p + |t|][i] == s[p + i];
      assert u[p + i] == data[q + (p + i)];
    }
  }

  lemma {:induction false} AtAfter(a: seq<Byte>, b: seq<Byte>)
    ensures At(a + b, |a|, b)
  {
  }

  lemma {:induction false} AtLonger(data: seq<Byte>, post: seq<Byte>, p: nat, s: seq<Byte>)
    requires At(data, p, s)
    ensures At(data + post, p, s)
  {
    assert (data + post)[p..p + |s|] == data[p..p + |s|];
  }

  lemma {:induction false} ImageAt(images: seq<seq<Byte>>, n: nat, k: nat)
    requires k < n <= |images|
    ensures At(Joined(images, n), |Joined(images, k)|, images[k])
  {
    hide At;
    if k == n - 1 {
      AtAfter(Joined(images, n - 1), images[n - 1]);
    } else {
      ImageAt(images, n - 1, k);
      AtLonger(Joined(images, n - 1), images[n - 1], |Joined(images, k)|, images[k]);
    }
  }

  lemma {:induction false} OffsetAt(images: seq<seq<Byte>>, offsetSize: nat, n: nat, k: nat)
    requires k < n <= |images|
    ensures At(OffsetBytes(images, offsetSize, n), k * offsetSize, BigEndian(StartOf(images, k), offsetSize))
  {
    hide StartOf, At, BigEndian;
    var before, last := OffsetBytes(images, offsetSize, n - 1), BigEndian(StartOf(images, n - 1), offsetSize);
    if k == n - 1 {
      AtAfter(before, last);
    } else {
      OffsetAt(images, offsetSize, n - 1, k);
      AtLonger(before, last, k * offsetSize, BigEndian(StartOf(images, k), offsetSize));
    }
  }

  lemma {:induction false} RefBytesAt(refs: seq<nat>, refSize: nat, k: nat)
    requires k < |refs|
    ensures At(RefBytes(refs, refSize), k * refSize, BigEndian(refs[k], refSize))
  {
    hide At, BigEndian;
    if k == 0 {
      AtStart(BigEndian(refs[0], refSize), RefBytes(refs[1..], refSize));
    } else {
      RefBytesAt(refs[1..], refSize, k - 1);
      AtWithin(BigEndian(refs[0], refSize), RefBytes(refs[1..], refSize), [], (k - 1) * refSize, BigEndian(refs[k], refSize));
      assert RefBytes(refs[1..], refSize) + [] == RefBytes(refs[1..], refSize);
      assert refSize + (k - 1) * refSize == k * refSize;
    }
  }

  lemma AtStart(a: seq<Byte>, b: seq<Byte>)
    ensures At(a + b, 0, a)
  {
    assert (a + b)[0..|a|] == a;
  }

  lemma {:induction false} RefsConcat(a: seq<nat>, b: seq<nat>, refSize: nat)
    ensures RefBytes(a + b, refSize) == RefBytes(a, refSize) + RefBytes(b, refSize)
  {
    hide BigEndian;
    if a == [] {
      assert a + b == b;
    } else {
      RefsConcat(a[1..], b, refSize);
      assert (a + b)[1..] == a[1..] + b;
      ConcatAssociative(BigEndian(a[0], refSize), RefBytes(a[1..], refSize), RefBytes(b, refSize));
    }
  }

  lemma ConcatAssociative(a: seq<Byte>, b: seq<Byte>, c: seq<Byte>)
    ensures (a + b) + c == a + (b + c)
  {
  }

  // ----- a file that holds a numbered tree

  /** Object k of the numbering is where the offset table says. */
  ghost predicate Holds(f: File, r: Refs, hash: Node -> nat, k: nat)
    requires Checked(f) && Closed(r, hash) && k < |r.objects| == f.numObjects
  {
    var off := OffsetOf(f, k);
    var image := Images(r, hash, f.refSize)[k];
    off < f.offsetTable && At(f.data, off, image) && off + |image| <= f.offsetTable
  }

  ghost predicate HoldsAll(f: File, r: Refs, hash: Node -> nat)
  {
    && Checked(f) && Closed(r, hash) && |r.objects| == f.numObjects
    && f.refSize <= 8 && f.numObjects < Pow(256, f.refSize)
    && forall k :: 0 <= k < |r.objects| ==> Holds(f, r, hash, k)
  }

  /** The numbering of a tree: each child of an object has the number of an object equal to it. */
  ghost predicate Numbering(r: Refs, hash: Node -> nat, root: Node)
  {
    && Closed(r, hash) && Distinct(root) && Storable(root) && Within(r, root)
    && forall n :: n in Nodes(root) ==> Shares(r, hash, n)
  }

  ghost predicate RefsTo(f: File, r: Refs, refs: seq<nat>, items: seq<Node>)
  {
    |refs| == |items| && forall i :: 0 <= i < |refs| ==> RefTo(f, r, refs[i], items[i])
  }

  /** The object with this number equals the node in everything but addresses. */
  ghost predicate RefTo(f: File, r: Refs, ref: nat, n: Node)
  {
    && ref < f.numObjects && ref < |r.objects|
    && Parsed(r.objects[ref]) == Parsed(n) && Size(r.objects[ref]) == Size(n)
  }

  lemma {:induction false} ChildRefs(f: File, r: Refs, hash: Node -> nat, root: Node, n: Node)
    requires HoldsAll(f, r, hash) && Numbering(r, hash, root) && n in Nodes(root) && Writable(r, hash, n)
    ensures RefsTo(f, r, NumbersOf(r.table, hash, n.Children()), n.Children())
  {
    hide Same, Parsed, NumberOf, Storable, Distinct, Closed, Holds, RefTo, Size;
    var items := n.Children();
    forall i | 0 <= i < |items|
      ensures RefTo(f, r, NumberOf(r.table, hash, items[i]).value, items[i])
    {
      ChildNode(root, n, i);
      ChildRef(f, r, hash, root, items[i]);
    }
  }

  lemma {:induction false} ChildRef(f: File, r: Refs, hash: Node -> nat, root: Node, n: Node)
    requires HoldsAll(f, r, hash) && Numbering(r, hash, root) && n in Nodes(root)
    ensures NumberOf(r.table, hash, n).Some? && RefTo(f, r, NumberOf(r.table, hash, n).value, n)
  {
    hide Same, Parsed, NumberOf, Storable, Distinct, Closed, Holds, Size, Nodes;
    assert Shares(r, hash, n);
    var m := r.objects[NumberOf(r.table, hash, n).value];
    assert m in Nodes(root);
    SameErases(root, m, n);
    SameParses(m, n);
  }

  lemma SameParses(a: Node, b: Node)
    requires Same(a, b) && Erase(a) == Erase(b)
    ensures Parsed(a) == Parsed(b)
  {
  }

  /** A list of references in the file. */
  ghost predicate Listed(f: File, p: nat, refs: seq<nat>)
  {
    At(f.data, p, RefBytes(refs, f.refSize)) && p + |RefBytes(refs, f.refSize)| <= f.offsetTable
  }

  lemma {:induction false} RefBack(f: File, p: nat, refs: seq<nat>, k: nat)
    requires Checked(f) && f.refSize <= 8 && f.numObjects < Pow(256, f.refSize)
    requires Listed(f, p, refs) && k < |refs| && refs[k] < f.numObjects
    ensures RefAt(f, p, k) == Some(refs[k])
  {
    hide At, BigEndian, Pow, UintToHost;
    RefBytesAt(refs, f.refSize, k);
    AtInside(f.data, p, RefBytes(refs, f.refSize), k * f.refSize, BigEndian(refs[k], f.refSize));
    ReadBigEndian(f.data, p + k * f.refSize, refs[k], f.refSize);
    MulOrder(f.refSize, k + 1, |refs|);
    assert (k + 1) * f.refSize == k * f.refSize + f.refSize;
  }

  /** The path holds only objects larger than `size`. */
  ghost predicate Above(f: File, r: Refs, path: seq<nat>, size: nat)
  {
    && PathOk(path, f.numObjects) && |r.objects| == f.numObjects
    && forall i :: 0 <= i < |path| ==> Size(r.objects[path[i]]) > size
  }

  /** Each object is read back as the tree below it: an object on the path is larger, so it does not
      come up again. */
  lemma {:induction false} ObjectBack(f: File, r: Refs, hash: Node -> nat, root: Node, j: nat, path: seq<nat>)
    requires HoldsAll(f, r, hash) && Numbering(r, hash, root) && j < f.numObjects
    requires Above(f, r, path, Size(r.objects[j]))
    ensures ParseAt(f, j, path) == Some(Parsed(r.objects[j]))
    decreases Size(r.objects[j]), 1, 0
  {
    hide OffsetOf, ParseNode, ReadHeader, ReadLeaf, Encoded, UintToHost, Numbering, Pow, At, Size, Parsed, Storable, Closed;
    assert Holds(f, r, hash, j);
    assert j !in path;
    StepDown(path, f.numObjects, j);
    NodeBack(f, r, hash, root, j, path + [j]);
  }

  lemma {:induction false} NodeBack(f: File, r: Refs, hash: Node -> nat, root: Node, j: nat, path: seq<nat>)
    requires HoldsAll(f, r, hash) && Numbering(r, hash, root) && j < f.numObjects && OffsetOf(f, j) < f.offsetTable
    requires Above(f, r, path, Size(r.objects[j]) - 1)
    ensures ParseNode(f, OffsetOf(f, j), path) == Some(Parsed(r.objects[j]))
    decreases Size(r.objects[j]), 0, 0
  {
    hide OffsetOf, ReadHeader, ReadLeaf, HeaderBytes, UintToHost, At, Size, Encoded, Numbering,
      NumberOf, NumbersOf, ParseArray, ParseDict, AllNumbered, Pow, Storable, Erase, EraseAll;
    var n, off := r.objects[j], OffsetOf(f, j);
    assert Holds(f, r, hash, j);
    assert Writable(r, hash, n);
    InRoot(r, hash, root, j);
    if !n.Container() {
      LeafImage(r, hash, f.refSize, n);
      LeafNode(f, off, n, path);
    } else {
      ChildRefs(f, r, hash, root, n);
      var refs := NumbersOf(r.table, hash, n.Children());
      ContainerSize(n);
      if n.Array? {
        ArrayNode(f, r, hash, root, off, n, refs, path);
      } else {
        DictNode(f, r, hash, root, off, n, refs, path);
      }
    }
  }

  lemma {:induction false} LeafNode(f: File, off: nat, n: Node, path: seq<nat>)
    requires Checked(f) && PathOk(path, f.numObjects) && off < f.offsetTable && Storable(n) && !n.Container()
    requires At(f.data, off, Encoded(n, [], f.refSize)) && off + |Encoded(n, [], f.refSize)| <= f.offsetTable
    ensures ParseNode(f, off, path) == Some(Parsed(n))
  {
    hide ReadHeader, ReadLeaf, At, Encoded, Parsed;
    DepthBound(path, f.numObjects);
    LeafBack(f, off, n);
  }

  lemma {:induction false} ArrayNode(f: File, r: Refs, hash: Node -> nat, root: Node, off: nat, n: Node, refs: seq<nat>, path: seq<nat>)
    requires HoldsAll(f, r, hash) && Numbering(r, hash, root) && n.Array? && Storable(n)
    requires RefsTo(f, r, refs, n.items) && Above(f, r, path, SizeAll(n.items)) && off < f.offsetTable
    requires At(f.data, off, Encoded(n, refs, f.refSize)) && off + |Encoded(n, refs, f.refSize)| <= f.offsetTable
    ensures ParseNode(f, off, path) == Some(Parsed(n))
    decreases SizeAll(n.items), 4, 0
  {
    hide ReadHeader, HeaderBytes, At, SizeAll, Encoded, Numbering, ParseArray, Pow, Listed, RefTo, Holds, Closed, EraseAll;
    DepthBound(path, f.numObjects);
    ArrayHeader(f, off, n, refs);
    ArrayBack(f, r, hash, root, n.items, refs, off + |HeaderBytes(ARRAY, |n.items|)|, 0, path);
    assert n.items[0..] == n.items;
  }

  lemma {:induction false} DictNode(f: File, r: Refs, hash: Node -> nat, root: Node, off: nat, n: Node, refs: seq<nat>, path: seq<nat>)
    requires HoldsAll(f, r, hash) && Numbering(r, hash, root) && n.Dict? && Storable(n)
    requires RefsTo(f, r, refs, n.items) && Above(f, r, path, SizeAll(n.items)) && off < f.offsetTable
    requires At(f.data, off, Encoded(n, refs, f.refSize)) && off + |Encoded(n, refs, f.refSize)| <= f.offsetTable
    ensures ParseNode(f, off, path) == Some(Parsed(n))
    decreases SizeAll(n.items), 4, 0
  {
    hide ReadHeader, HeaderBytes, At, SizeAll, Encoded, Numbering, ParseDict, Pow, Listed, RefTo, Holds, Closed, EraseAll;
    DepthBound(path, f.numObjects);
    DictHeader(f, off, n, refs);
    DictBack(f, r, hash, root, n.items, refs, off + |HeaderBytes(DICT, |n.items| / 2)|, 0, path);
    assert n.items[0..] == n.items;
  }

  lemma InRoot(r: Refs, hash: Node -> nat, root: Node, j: nat)
    requires Numbering(r, hash, root) && j < |r.objects|
    ensures r.objects[j] in Nodes(root)
  {
  }

  lemma ContainerSize(n: Node)
    requires n.Container()
    ensures Size(n) == 1 + SizeAll(n.items)
  {
  }

  lemma LeafImage(r: Refs, hash: Node -> nat, refSize: nat, n: Node)
    requires Writable(r, hash, n) && !n.Container()
    ensures Image(r, hash, refSize, n) == Encoded(n, [], refSize)
  {
  }

  lemma {:induction false} ArrayHeader(f: File, off: nat, n: Node, refs: seq<nat>)
    requires Checked(f) && n.Array? && |refs| == |n.items|
    requires At(f.data, off, Encoded(n, refs, f.refSize)) && off + |Encoded(n, refs, f.refSize)| <= f.offsetTable
    requires off < f.offsetTable
    ensures var h := ReadHeader(f, off);
            && h == Some(Header(ARRAY, |n.items|, off + |HeaderBytes(ARRAY, |n.items|)|))
            && Listed(f, h.value.pobject, refs)
            && h.value.pobject + |n.items| <= f.offsetTable
  {
    hide ReadHeader, HeaderBytes;
    MulOrder(|refs|, 1, f.refSize);
    HeaderBack(f, off, ARRAY, |n.items|, RefBytes(refs, f.refSize));
  }

  /** The references of a dictionary: keys first. */
  function KeysFirst(refs: seq<nat>): (r: seq<nat>)
    requires |refs| % 2 == 0
    ensures |r| == |refs|
  {
    EverySecond(refs, 0) + EverySecond(refs, 1)
  }

  lemma {:induction false} DictHeader(f: File, off: nat, n: Node, refs: seq<nat>)
    requires Checked(f) && n.Dict? && |refs| == |n.items| && |refs| % 2 == 0
    requires At(f.data, off, Encoded(n, refs, f.refSize)) && off + |Encoded(n, refs, f.refSize)| <= f.offsetTable
    requires off < f.offsetTable
    ensures var h := ReadHeader(f, off);
            && h == Some(Header(DICT, |n.items| / 2, off + |HeaderBytes(DICT, |n.items| / 2)|))
            && Listed(f, h.value.pobject, KeysFirst(refs))
            && h.value.pobject + |n.items| / 2 <= f.offsetTable
  {
    hide ReadHeader, HeaderBytes;
    MulOrder(|refs|, 1, f.refSize);
    RefsConcat(EverySecond(refs, 0), EverySecond(refs, 1), f.refSize);
    HeaderBack(f, off, DICT, |n.items| / 2, RefBytes(KeysFirst(refs), f.refSize));
  }

  /** One child. */
  lemma {:induction false} ChildBack(f: File, r: Refs, hash: Node -> nat, root: Node, items: seq<Node>, refs: seq<nat>, k: nat, path: seq<nat>)
    requires HoldsAll(f, r, hash) && Numbering(r, hash, root) && RefsTo(f, r, refs, items) && k < |items|
    requires Above(f, r, path, SizeAll(items))
    ensures ParseAt(f, refs[k], path) == Some(Parsed(items[k]))
    decreases SizeAll(items), 2, 0
  {
    hide ParseAt, Numbering, Holds, Parsed, Size, SizeAll;
    assert RefTo(f, r, refs[k], items[k]);
    SizeOfItem(items, k);
    ObjectBack(f, r, hash, root, refs[k], path);
  }

  lemma {:induction false} ArrayBack(f: File, r: Refs, hash: Node -> nat, root: Node, items: seq<Node>, refs: seq<nat>, p: nat, k: nat, path: seq<nat>)
    requires HoldsAll(f, r, hash) && Numbering(r, hash, root) && RefsTo(f, r, refs, items) && k <= |items|
    requires forall i :: 0 <= i < |items| ==> !items[i].Key?
    requires Listed(f, p, refs) && Above(f, r, path, SizeAll(items))
    ensures ParseArray(f, p, |items|, k, path) == Some(EraseAll(items[k..]))
    decreases SizeAll(items), 3, |items| - k
  {
    hide ParseAt, Numbering, Holds, Size, SizeAll, RefAt, Listed, Erase, Pow;
    DepthBound(path, f.numObjects);
    if k < |items| {
      assert RefTo(f, r, refs[k], items[k]);
      RefBack(f, p, refs, k);
      ChildBack(f, r, hash, root, items, refs, k, path);
      ArrayBack(f, r, hash, root, items, refs, p, k + 1, path);
      assert items[k..][1..] == items[k + 1..];
    }
  }

  lemma {:induction false} DictBack(f: File, r: Refs, hash: Node -> nat, root: Node, items: seq<Node>, refs: seq<nat>, p: nat, k: nat, path: seq<nat>)
    requires HoldsAll(f, r, hash) && Numbering(r, hash, root) && RefsTo(f, r, refs, items) && |items| % 2 == 0 && k <= |items| / 2
    requires forall i :: 0 <= i < |items| ==> (items[i].Key? <==> i % 2 == 0)
    requires Listed(f, p, KeysFirst(refs)) && Above(f, r, path, SizeAll(items))
    ensures ParseDict(f, p, |items| / 2, k, path) == Some(EraseAll(items[2 * k..]))
    decreases SizeAll(items), 3, |items| - k
  {
    hide ParseAt, Numbering, Holds, Size, SizeAll, RefAt, Listed, Erase, EraseAll, Pow, KeysFirst, Closed;
    DepthBound(path, f.numObjects);
    var size := |items| / 2;
    if k < size {
      var a, b := 2 * k, 2 * k + 1;
      assert RefTo(f, r, refs[a], items[a]) && RefTo(f, r, refs[b], items[b]);
      KeysFirstAt(refs, k);
      RefBack(f, p, KeysFirst(refs), k);
      RefBack(f, p, KeysFirst(refs), size + k);
      ChildBack(f, r, hash, root, items, refs, a, path);
      ChildBack(f, r, hash, root, items, refs, b, path);
      DictBack(f, r, hash, root, items, refs, p, k + 1, path);
      EraseTwo(items, a);
    } else {
      assert items[2 * k..] == [];
      NothingErased();
    }
  }

  lemma NothingErased()
    ensures EraseAll([]) == []
  {
  }

  lemma KeysFirstAt(refs: seq<nat>, k: nat)
    requires |refs| % 2 == 0 && k < |refs| / 2
    ensures KeysFirst(refs)[k] == refs[2 * k] && KeysFirst(refs)[|refs| / 2 + k] == refs[2 * k + 1]
  {
  }

  lemma EraseTwo(items: seq<Node>, a: nat)
    requires a + 1 < |items|
    ensures EraseAll(items[a..]) == [Erase(items[a]), Erase(items[a + 1])] + EraseAll(items[a + 2..])
    ensures items[a].Key? ==> Erase(items[a]) == Key(items[a].text)
  {
    assert items[a..][1..] == items[a + 1..];
    assert items[a + 1..][1..] == items[a + 2..];
  }

  // ----- the whole file

  /** The file the images are laid out in, as the trailer describes it. */
  ghost function FileOf(images: seq<seq<Byte>>): File
  {
    var count := |images|;
    var offsetTable := StartOf(images, count);
    File(Layout(images), count, NeededBytes(count), NeededBytes(offsetTable), offsetTable)
  }

  lemma {:induction false} LayoutParts(images: seq<seq<Byte>>)
    ensures var f := FileOf(images);
            && At(f.data, 0, MAGIC + VERSION)
            && At(f.data, 8, Joined(images, f.numObjects))
            && At(f.data, f.offsetTable, OffsetBytes(images, f.offsetSize, f.numObjects))
            && At(f.data, f.offsetTable + f.numObjects * f.offsetSize, TrailerBytes(f.offsetSize, f.refSize, f.numObjects, f.offsetTable))
            && |f.data| == f.offsetTable + f.numObjects * f.offsetSize + 32
            && 8 <= f.offsetTable
  {
    hide Joined, OffsetBytes, TrailerBytes, At, MAGIC, VERSION;
    MagicLength();
    var f := FileOf(images);
    var body := Joined(images, f.numObjects);
    var offsets := OffsetBytes(images, f.offsetSize, f.numObjects);
    var trailer := TrailerBytes(f.offsetSize, f.refSize, f.numObjects, f.offsetTable);
    AtWhole(f.data);
    AtSplit(f.data, 0, MAGIC + VERSION, body + (offsets + trailer));
    AtSplit(f.data, 8, body, offsets + trailer);
    AtSplit(f.data, 8 + |body|, offsets, trailer);
  }

  lemma AtWhole(data: seq<Byte>)
    ensures At(data, 0, data)
  {
  }

  lemma {:induction false} TrailerFields(f: File)
    requires 0 < f.numObjects < WORD64 && f.offsetTable < WORD64 && 0 < f.offsetSize <= 8 && 0 < f.refSize <= 8
    requires |f.data| == f.offsetTable + f.numObjects * f.offsetSize + 32 < 0x1_0000_0000 && 8 <= f.offsetTable
    requires At(f.data, 0, MAGIC + VERSION)
    requires At(f.data, |f.data| - 32, TrailerBytes(f.offsetSize, f.refSize, f.numObjects, f.offsetTable))
    ensures Checked(f) && ReadTrailer(f.data) == Some((f, 0))
  {
    hide Pow, BigEndian, FromBigEndian;
    PowersOf256();
    var d, end := f.data, |f.data| - 32;
    MulOrder(f.numObjects, 1, f.offsetSize);
    AtSplit(d, 0, MAGIC, VERSION);
    var head: seq<Byte> := [0, 0, 0, 0, 0, 0, f.offsetSize, f.refSize];
    var n8, r8, t8 := BigEndian(f.numObjects, 8), BigEndian(0, 8), BigEndian(f.offsetTable, 8);
    AtSplit(d, end, head, n8 + (r8 + t8));
    assert d[end + 6] == d[end..end + 8][6] && d[end + 7] == d[end..end + 8][7];
    AtSplit(d, end + 8, n8, r8 + t8);
    AtSplit(d, end + 16, r8, t8);
    BigEndianBack(f.numObjects, 8);
    BigEndianBack(0, 8);
    BigEndianBack(f.offsetTable, 8);
  }

  /** No object is empty. */
  ghost predicate Solid(images: seq<seq<Byte>>)
  {
    forall i :: 0 <= i < |images| ==> |images[i]| > 0
  }

  lemma {:induction false} JoinedGrows(images: seq<seq<Byte>>, k: nat, n: nat)
    requires Solid(images) && k <= n <= |images|
    ensures |Joined(images, k)| + (n - k) <= |Joined(images, n)|
  {
    if k < n {
      JoinedGrows(images, k, n - 1);
    }
  }

  lemma {:induction false} ImagesSolid(r: Refs, hash: Node -> nat, refSize: nat)
    requires Closed(r, hash)
    ensures Solid(Images(r, hash, refSize))
  {
    hide NumbersOf, NumberOf, Encoded, AllNumbered;
    forall i | 0 <= i < |r.objects|
      ensures |Images(r, hash, refSize)[i]| > 0
    {
      assert Writable(r, hash, r.objects[i]);
      EncodedNotEmpty(r.objects[i], NumbersOf(r.table, hash, r.objects[i].Children()), refSize);
    }
  }

  lemma {:induction false} EncodedNotEmpty(n: Node, refs: seq<nat>, refSize: nat)
    requires Storable(n) && |refs| == |n.Children()|
    ensures |Encoded(n, refs, refSize)| > 0
  {
    hide BigEndian, UnitBytes, RefBytes, EverySecond, Ascii;
  }

  /** Every object lies where its offset says. */
  lemma {:induction false} LayoutHolds(images: seq<seq<Byte>>, k: nat)
    requires k < |images| && Solid(images) && Checked(FileOf(images))
    ensures var f := FileOf(images);
            var off := OffsetOf(f, k);
            off < f.offsetTable && At(f.data, off, images[k]) && off + |images[k]| <= f.offsetTable
  {
    hide Joined, OffsetBytes, At, UintToHost, Layout, Pow, BigEndian;
    var f := FileOf(images);
    LayoutParts(images);
    var n, start := f.numObjects, StartOf(images, k);
    ImageAt(images, n, k);
    AtInside(f.data, 8, Joined(images, n), |Joined(images, k)|, images[k]);
    JoinedGrows(images, k + 1, n);
    JoinedSnoc(images, k);
    OffsetAt(images, f.offsetSize, n, k);
    AtInside(f.data, f.offsetTable, OffsetBytes(images, f.offsetSize, n), k * f.offsetSize, BigEndian(start, f.offsetSize));
    NeededBytesEnough(f.offsetTable);
    ReadBigEndian(f.data, f.offsetTable + k * f.offsetSize, start, f.offsetSize);
  }

  lemma JoinedSnoc(images: seq<seq<Byte>>, k: nat)
    requires k < |images|
    ensures |Joined(images, k + 1)| == |Joined(images, k)| + |images[k]|
  {
  }

  /** For every tree the format can hold, and however nodes hash, parsing what was written gives an
      equal tree, as long as the file is shorter than 4 GiB. */
  lemma {:induction false} BinaryRoundTrip(root: Node, hash: Node -> nat)
    requires Storable(root) && Distinct(root) && !root.Key?
    requires |ToBin(root, hash)| < 0x1_0000_0000
    ensures FromBin(ToBin(root, hash)) == Some(Erase(root))
  {
    hide Serialized, Layout, ReadTrailer, ParseAt, Erase, Storable, Distinct, NumberOf, Same, Image,
      Joined, OffsetBytes, TrailerBytes, Closed, OffsetOf, Pow, At, Checked;
    TreeClosed(root, hash);
    TreeNumbered(root, hash);
    var r := Serialized(NoRefs(), hash, root);
    var images := Images(r, hash, NeededBytes(|r.objects|));
    var f := FileOf(images);
    LayoutParts(images);
    ImagesSolid(r, hash, f.refSize);
    JoinedGrows(images, 0, f.numObjects);
    TrailerFields(f);
    forall k | 0 <= k < |r.objects|
      ensures Holds(f, r, hash, k)
    {
      LayoutHolds(images, k);
    }
    NeededBytesEnough(f.numObjects);
    ObjectBack(f, r, hash, root, 0, []);
  }
}
