/** Writing a binary property list: `plist_to_bin` and the layout of the file it makes. */
module BplistWriter {
  import opened Bytes
  import opened BigEndians
  import opened HashTables
  import opened Utf
  import opened Plist
  import opened BplistFormat
  import opened BplistSerialize
  import opened BplistParser

  // ----- the layout of the file

  predicate AllNumbered(table: Table, hash: Node -> nat, items: seq<Node>)
    requires |table| == BUCKETS
  {
    forall i :: 0 <= i < |items| ==> NumberOf(table, hash, items[i]).Some?
  }

  function NumbersOf(table: Table, hash: Node -> nat, items: seq<Node>): (refs: seq<nat>)
    requires |table| == BUCKETS && AllNumbered(table, hash, items)
    ensures |refs| == |items|
  {
    seq(|items|, i requires 0 <= i < |items| => NumberOf(table, hash, items[i]).value)
  }

  /** The children of the object have numbers, and a dictionary has as many values as keys. */
  predicate Writable(r: Refs, hash: Node -> nat, n: Node)
  {
    |r.table| == BUCKETS && AllNumbered(r.table, hash, n.Children()) && Storable(n)
  }

  predicate Closed(r: Refs, hash: Node -> nat)
  {
    forall i :: 0 <= i < |r.objects| ==> Writable(r, hash, r.objects[i])
  }

  function Image(r: Refs, hash: Node -> nat, refSize: nat, n: Node): seq<Byte>
    requires Writable(r, hash, n)
  {
    Encoded(n, NumbersOf(r.table, hash, n.Children()), refSize)
  }

  /** The objects as they are written, in order. */
  function Images(r: Refs, hash: Node -> nat, refSize: nat): (images: seq<seq<Byte>>)
    requires Closed(r, hash)
    ensures |images| == |r.objects|
    ensures forall i :: 0 <= i < |images| ==> images[i] == Image(r, hash, refSize, r.objects[i])
  {
    seq(|r.objects|, i requires 0 <= i < |r.objects| => Image(r, hash, refSize, r.objects[i]))
  }

  /** The first k images, one after the other. */
  function Joined(images: seq<seq<Byte>>, k: nat): seq<Byte>
    requires k <= |images|
  {
    if k == 0 then [] else Joined(images, k - 1) + images[k - 1]
  }

  function StartOf(images: seq<seq<Byte>>, k: nat): nat
    requires k <= |images|
  {
    8 + |Joined(images, k)|
  }

  /** The offsets of the first k objects. */
  function OffsetBytes(images: seq<seq<Byte>>, offsetSize: nat, k: nat): (s: seq<Byte>)
    requires k <= |images|
    ensures |s| == k * offsetSize
  {
    if k == 0 then []
    else OffsetBytes(images, offsetSize, k - 1) + BigEndian(StartOf(images, k - 1), offsetSize)
  }

  function TrailerBytes(offsetSize: Byte, refSize: Byte, numObjects: nat, offsetTable: nat): (s: seq<Byte>)
    ensures |s| == 32
  {
    [0, 0, 0, 0, 0, 0, offsetSize, refSize] + (BigEndian(numObjects, 8) + (BigEndian(0, 8) + BigEndian(offsetTable, 8)))
  }

  function Layout(images: seq<seq<Byte>>): seq<Byte>
  {
    var count := |images|;
    var offsetTable := StartOf(images, count);
    var offsetSize := NeededBytes(offsetTable);
    (MAGIC + VERSION) + (Joined(images, count)
      + (OffsetBytes(images, offsetSize, count) + TrailerBytes(offsetSize, NeededBytes(count), count, offsetTable)))
  }

  // ----- the writer

  class ByteArray {
    var data: seq<Byte>

    constructor ()
      ensures data == []
    {
      data := [];
    }

    method Append(buf: seq<Byte>)
      modifies this
      ensures data == old(data) + buf
    {
      data := data + buf;
    }

    method WriteInt(val: nat)
      modifies this
      ensures data == old(data) + IntBytes(val)
    {
      var size := NeededBytes(val);
      if size == 3 {
        size := size + 1;
      }
      Append([UINT + Log2(size)]);
      Append(BigEndian(val, size));
    }

    method WriteUint(val: nat)
      modifies this
      ensures data == old(data) + WideBytes(val)
    {
      Append([UINT + 4]);
      Append(seq(8, _ => 0));
      Append(BigEndian(val, 8));
    }

    method WriteMarker(mark: nat, size: nat)
      requires mark in {DATA, STRING, UNICODE, ARRAY, DICT}
      modifies this
      ensures data == old(data) + HeaderBytes(mark, size)
    {
      hide IntBytes;
      Append([mark + if size < 15 then size else 15]);
      if size >= 15 {
        WriteInt(size);
      }
    }

    method WriteRawData(mark: nat, val: seq<Byte>, size: nat)
      requires mark in {DATA, STRING, UNICODE} && |val| == if mark == UNICODE then 2 * size else size
      modifies this
      ensures data == old(data) + (HeaderBytes(mark, size) + val)
    {
      WriteMarker(mark, size);
      Append(val);
    }

    method WriteUnicode(val: seq<Byte>)
      modifies this
      ensures var units := Utf8ToUtf16(val, 0); data == old(data) + (HeaderBytes(UNICODE, |units|) + UnitBytes(units))
    {
      var unicodestr := WriteUtf16(val);
      WriteRawData(UNICODE, UnitBytes(unicodestr), |unicodestr|);
    }

    method WriteUid(val: nat)
      modifies this
      ensures data == old(data) + UidBytes(val)
    {
      var w := val % 0x1_0000_0000;
      var size := NeededBytes(w);
      if size == 3 {
        size := size + 1;
      }
      Append([UID + (size - 1)]);
      Append(BigEndian(w, size));
    }

    method WriteArray(node: Node, refTable: HashTable<Node, nat>, refSize: nat)
      requires node.Array? && refTable.Valid() && refTable.equal == Same
      requires AllNumbered(refTable.entries[..], refTable.hash, node.items)
      modifies this
      ensures data == old(data) + (HeaderBytes(ARRAY, |node.items|)
        + RefBytes(NumbersOf(refTable.entries[..], refTable.hash, node.items), refSize))
    {
      hide HeaderBytes, NumberOf, Find, RefBytes;
      var size := |node.items|;
      WriteMarker(ARRAY, size);
      ghost var refs := NumbersOf(refTable.entries[..], refTable.hash, node.items);
      ghost var start := data;
      var i := 0;
      assert refs[..0] == [];
      NoRefBytes(refSize);
      while i < size
        invariant i <= size && data == start + RefBytes(refs[..i], refSize)
      {
        var idx := refTable.Lookup(node.items[i]);
        LookupIsNumber(refTable, node.items[i]);
        Append(BigEndian(idx.value, refSize));
        RefsSnoc(refs[..i], refs[i], refSize);
        assert refs[..i] + [refs[i]] == refs[..i + 1];
        i := i + 1;
      }
      assert refs[..size] == refs;
    }

    method WriteDict(node: Node, refTable: HashTable<Node, nat>, refSize: nat)
      requires node.Dict? && refTable.Valid() && refTable.equal == Same && |node.items| % 2 == 0
      requires AllNumbered(refTable.entries[..], refTable.hash, node.items)
      modifies this
      ensures var refs := NumbersOf(refTable.entries[..], refTable.hash, node.items);
              data == old(data) + (HeaderBytes(DICT, |node.items| / 2)
                + (RefBytes(EverySecond(refs, 0), refSize) + RefBytes(EverySecond(refs, 1), refSize)))
    {
      hide HeaderBytes, NumberOf;
      var size := |node.items| / 2;
      WriteMarker(DICT, size);
      WriteEverySecond(node, 0, refTable, refSize);
      WriteEverySecond(node, 1, refTable, refSize);
    }

    /** One pass of `write_dict` over the children: the keys (k = 0) or the values (k = 1). */
    method WriteEverySecond(node: Node, k: nat, refTable: HashTable<Node, nat>, refSize: nat)
      requires node.Dict? && refTable.Valid() && refTable.equal == Same && |node.items| % 2 == 0 && k < 2
      requires AllNumbered(refTable.entries[..], refTable.hash, node.items)
      modifies this
      ensures data == old(data)
        + RefBytes(EverySecond(NumbersOf(refTable.entries[..], refTable.hash, node.items), k), refSize)
    {
      hide NumberOf, Find, RefBytes;
      var size := |node.items| / 2;
      ghost var refs := EverySecond(NumbersOf(refTable.entries[..], refTable.hash, node.items), k);
      var i := 0;
      assert refs[..0] == [];
      NoRefBytes(refSize);
      while i < size
        invariant i <= size && data == old(data) + RefBytes(refs[..i], refSize)
      {
        var idx := refTable.Lookup(node.items[2 * i + k]);
        LookupIsNumber(refTable, node.items[2 * i + k]);
        Append(BigEndian(idx.value, refSize));
        RefsSnoc(refs[..i], refs[i], refSize);
        assert refs[..i] + [refs[i]] == refs[..i + 1];
        i := i + 1;
      }
      assert refs[..size] == refs;
    }

    /** The cases of `plist_to_bin`; reals and dates are not part of this model. */
    method WriteObject(node: Node, refTable: HashTable<Node, nat>, refSize: nat)
      requires refTable.Valid() && refTable.equal == Same && Storable(node)
      requires AllNumbered(refTable.entries[..], refTable.hash, node.Children())
      modifies this
      ensures data == old(data)
        + Encoded(node, NumbersOf(refTable.entries[..], refTable.hash, node.Children()), refSize)
    {
      hide HeaderBytes, NumberOf, IntBytes, WideBytes, UidBytes, RefBytes, EverySecond;
      match node
      case Bool(b) => Append([if b then 9 else 8]);
      case Uint(v, wide) => if wide { WriteUint(v); } else { WriteInt(v); }
      case Uid(v) => WriteUid(v);
      case Str(t) => WriteText(t);
      case Key(t) => WriteText(t);
      case Data(_, bytes) => WriteRawData(DATA, bytes, |bytes|);
      case Array(_, items) => WriteArray(node, refTable, refSize);
      case Dict(_, items) => WriteDict(node, refTable, refSize);
    }

    method WriteText(t: seq<Byte>)
      modifies this
      ensures data == old(data) + TextBytes(t)
    {
      if Ascii(t) {
        WriteRawData(STRING, t, |t|);
      } else {
        WriteUnicode(t);
      }
    }
  }

  lemma NoRefBytes(refSize: nat)
    ensures RefBytes([], refSize) == []
  {
  }

  lemma {:induction false} RefsSnoc(refs: seq<nat>, ref: nat, refSize: nat)
    ensures RefBytes(refs + [ref], refSize) == RefBytes(refs, refSize) + BigEndian(ref, refSize)
  {
    if refs != [] {
      RefsSnoc(refs[1..], ref, refSize);
      assert (refs + [ref])[1..] == refs[1..] + [ref];
    } else {
      assert (refs + [ref])[1..] == [];
    }
  }

  /** The numbering of a storable tree can be written. */
  lemma {:induction false} TreeClosed(root: Node, hash: Node -> nat)
    requires Distinct(root) && Storable(root)
    ensures Closed(Serialized(NoRefs(), hash, root), hash)
  {
    hide Serialized, NumberOf, Same;
    var r := Serialized(NoRefs(), hash, root);
    TreeNumbered(root, hash);
    forall i | 0 <= i < |r.objects|
      ensures Writable(r, hash, r.objects[i])
    {
      var n := r.objects[i];
      StorableNode(root, n);
      forall k | 0 <= k < |n.Children()|
        ensures NumberOf(r.table, hash, n.Children()[k]).Some?
      {
        ChildNode(root, n, k);
      }
    }
  }

  function ToBin(root: Node, hash: Node -> nat): seq<Byte>
    requires Distinct(root) && Storable(root)
  {
    TreeClosed(root, hash);
    var r := Serialized(NoRefs(), hash, root);
    Layout(Images(r, hash, NeededBytes(|r.objects|)))
  }

  lemma {:induction false} ImageOf(r: Refs, hash: Node -> nat, refSize: nat, i: nat)
    requires Closed(r, hash) && i < |r.objects|
    ensures |r.table| == BUCKETS && AllNumbered(r.table, hash, r.objects[i].Children()) && Storable(r.objects[i])
    ensures Images(r, hash, refSize)[i] == Encoded(r.objects[i], NumbersOf(r.table, hash, r.objects[i].Children()), refSize)
  {
    hide Storable, Encoded, AllNumbered, NumbersOf;
    assert Writable(r, hash, r.objects[i]);
  }

  /** The first loop of `plist_to_bin` over the objects. */
  method WriteObjects(buff: ByteArray, ser: Serializer, refSize: nat) returns (offsets: seq<nat>)
    requires ser.Valid() && Closed(ser.State(), ser.refTable.hash) && |buff.data| == 8
    modifies buff
    ensures var images := Images(ser.State(), ser.refTable.hash, refSize);
            && buff.data == old(buff.data) + Joined(images, |images|)
            && |offsets| == |images|
            && forall k :: 0 <= k < |offsets| ==> offsets[k] == StartOf(images, k)
  {
    hide NumberOf, Encoded, Storable, NumbersOf, AllNumbered, Find, Closed, Images, Writable, Image;
    ghost var r, hash := ser.State(), ser.refTable.hash;
    ghost var images := Images(r, hash, refSize);
    offsets := [];
    var i := 0;
    while i < |ser.objects|
      invariant i == |offsets| <= |ser.objects| && ser.State() == r
      invariant buff.data == old(buff.data) + Joined(images, i)
      invariant forall k :: 0 <= k < i ==> offsets[k] == StartOf(images, k)
    {
      offsets := offsets + [|buff.data|];
      ImageOf(r, hash, refSize, i);
      ghost var before := buff.data;
      buff.WriteObject(ser.objects[i], ser.refTable, refSize);
      assert buff.data == before + images[i];
      i := i + 1;
    }
  }

  /** The loop that writes the offset table. */
  method WriteOffsets(buff: ByteArray, offsets: seq<nat>, offsetSize: nat, ghost images: seq<seq<Byte>>)
    requires |offsets| == |images|
    requires forall k :: 0 <= k < |offsets| ==> offsets[k] == StartOf(images, k)
    modifies buff
    ensures buff.data == old(buff.data) + OffsetBytes(images, offsetSize, |offsets|)
  {
    hide StartOf;
    var i := 0;
    while i < |offsets|
      invariant i <= |offsets|
      invariant buff.data == old(buff.data) + OffsetBytes(images, offsetSize, i)
    {
      buff.Append(BigEndian(offsets[i], offsetSize));
      i := i + 1;
    }
  }

  method PlistToBin(root: Node, hash: Node -> nat) returns (plistBin: seq<Byte>)
    requires Distinct(root) && Storable(root)
    ensures plistBin == ToBin(root, hash)
  {
    hide Serialized, MAGIC, VERSION, OffsetBytes, TrailerBytes, Storable, Distinct, Closed, Joined, Image;
    var ser := new Serializer(hash);
    ser.SerializePlist(root);
    TreeClosed(root, hash);
    var numObjects := |ser.objects|;
    var refSize := NeededBytes(numObjects);
    var buff := new ByteArray();
    MagicLength();
    buff.Append(MAGIC);
    buff.Append(VERSION);
    ghost var images := Images(ser.State(), hash, refSize);
    var offsets := WriteObjects(buff, ser, refSize);
    var offsetTable := |buff.data|;
    var offsetSize := NeededBytes(offsetTable);
    WriteOffsets(buff, offsets, offsetSize, images);
    buff.Append(TrailerBytes(offsetSize, refSize, numObjects, offsetTable));
    plistBin := buff.data;
    assert plistBin == (MAGIC + VERSION) + (Joined(images, numObjects)
      + (OffsetBytes(images, offsetSize, numObjects) + TrailerBytes(offsetSize, refSize, numObjects, offsetTable)));
  }

  lemma MagicLength()
    ensures |MAGIC| == 6 && |VERSION| == 2
  {
  }
}
