/** The recursive-descent parser of binary property lists, on arbitrary bytes. */
module BplistParser {
  import opened Bytes
  import opened BigEndians
  import opened Options
  import opened Plist
  import opened BplistFormat

  /** Object numbers on the way down from the root: distinct, and all of the file. */
  predicate PathOk(path: seq<nat>, n: nat)
  {
    (forall i :: 0 <= i < |path| ==> path[i] < n) && (forall i, j :: 0 <= i < j < |path| ==> path[i] != path[j])
  }

  ghost function Below(n: nat): (s: set<nat>)
    ensures |s| == n && forall x: nat :: x in s <==> x < n
  {
    if n == 0 then {} else Below(n - 1) + {n - 1}
  }

  ghost function Members(path: seq<nat>): set<nat>
  {
    set x | x in path
  }

  lemma {:induction false} MembersCount(path: seq<nat>)
    requires forall i, j :: 0 <= i < j < |path| ==> path[i] != path[j]
    ensures |Members(path)| == |path|
  {
    if path != [] {
      var k := |path| - 1;
      MembersCount(path[..k]);
      assert Members(path) == Members(path[..k]) + {path[k]};
    }
  }

  lemma {:induction false} SubsetCount<T>(a: set<T>, b: set<T>)
    requires a <= b
    ensures |a| <= |b|
  {
    if a != {} {
      var x :| x in a;
      SubsetCount(a - {x}, b - {x});
    }
  }

  /** Recursion is never deeper than the number of objects. */
  lemma {:induction false} DepthBound(path: seq<nat>, n: nat)
    requires PathOk(path, n)
    ensures |path| <= n
  {
    MembersCount(path);
    SubsetCount(Members(path), Below(n));
  }

  lemma {:induction false} StepDown(path: seq<nat>, n: nat, index: nat)
    requires PathOk(path, n) && index < n && index !in path
    ensures PathOk(path + [index], n) && |path| + 1 <= n
  {
    assert PathOk(path + [index], n);
    DepthBound(path + [index], n);
  }

  // ----- what the parser computes

  /** The offset the table gives for an object. */
  function OffsetOf(f: File, index: nat): nat
    requires Checked(f) && index < f.numObjects
  {
    InTable(f, index);
    UintToHost(f.data, f.offsetTable + index * f.offsetSize, f.offsetSize)
  }

  lemma InTable(f: File, index: nat)
    requires Checked(f) && index < f.numObjects
    ensures f.offsetTable + index * f.offsetSize + f.offsetSize <= |f.data|
  {
    assert (index + 1) * f.offsetSize <= f.numObjects * f.offsetSize;
  }

  /** The object with this number, below the objects of the path. */
  function ParseAt(f: File, index: nat, path: seq<nat>): Option<Node>
    requires Checked(f) && PathOk(path, f.numObjects)
    decreases f.numObjects - |path|, 0, 0
  {
    if index >= f.numObjects || OffsetOf(f, index) >= f.offsetTable || index in path then None
    else
      StepDown(path, f.numObjects, index);
      ParseNode(f, OffsetOf(f, index), path + [index])
  }

  function ParseNode(f: File, off: nat, path: seq<nat>): Option<Node>
    requires Checked(f) && PathOk(path, f.numObjects) && off < f.offsetTable
    decreases f.numObjects - |path|, 2, 0
  {
    DepthBound(path, f.numObjects);
    var h := ReadHeader(f, off);
    if h.None? then None
    else
      var Header(kind, size, p) := h.value;
      if kind == ARRAY || kind == SET then
        if p + size > f.offsetTable then None
        else
          var items := ParseArray(f, p, size, 0, path);
          if items.None? then None else Some(Array(0, items.value))
      else if kind == DICT then
        if p + size > f.offsetTable then None
        else
          var items := ParseDict(f, p, size, 0, path);
          if items.None? then None else Some(Dict(0, items.value))
      else
        ReadLeaf(f, h.value)
  }

  /** The reference at position j of a list of references, if it lies before the offset table and
      names an object. */
  function RefAt(f: File, p: nat, j: nat): Option<nat>
    requires Checked(f)
  {
    var q := p + j * f.refSize;
    if q + f.refSize > f.offsetTable then None
    else
      var index := UintToHost(f.data, q, f.refSize);
      if index >= f.numObjects then None else Some(index)
  }

  function ParseArray(f: File, p: nat, size: nat, j: nat, path: seq<nat>): Option<seq<Node>>
    requires Checked(f) && PathOk(path, f.numObjects) && j <= size
    decreases f.numObjects - |path|, 1, size - j
  {
    DepthBound(path, f.numObjects);
    if j == size then Some([])
    else
      var index := RefAt(f, p, j);
      if index.None? then None
      else
        var val := ParseAt(f, index.value, path);
        if val.None? then None
        else
          var rest := ParseArray(f, p, size, j + 1, path);
          if rest.None? then None else Some([val.value] + rest.value)
  }

  function ParseDict(f: File, p: nat, size: nat, j: nat, path: seq<nat>): Option<seq<Node>>
    requires Checked(f) && PathOk(path, f.numObjects) && j <= size
    decreases f.numObjects - |path|, 1, size - j
  {
    DepthBound(path, f.numObjects);
    if j == size then Some([])
    else
      var index1, index2 := RefAt(f, p, j), RefAt(f, p, j + size);
      if index1.None? || index2.None? then None
      else
        var key := ParseAt(f, index1.value, path);
        if key.None? || !key.value.Str? then None
        else
          var val := ParseAt(f, index2.value, path);
          if val.None? then None
          else
            var rest := ParseDict(f, p, size, j + 1, path);
            if rest.None? then None else Some([Key(key.value.text), val.value] + rest.value)
  }

  // ----- the parser itself

  function Attached(items: seq<Node>, rest: Option<seq<Node>>): Option<seq<Node>>
  {
    if rest.None? then None else Some(items + rest.value)
  }

  lemma AttachMore(items: seq<Node>, more: seq<Node>, rest: Option<seq<Node>>)
    ensures Attached(items, if rest.None? then None else Some(more + rest.value)) == Attached(items + more, rest)
  {
    if rest.Some? {
      assert items + (more + rest.value) == (items + more) + rest.value;
    }
  }

  lemma AttachNone(items: seq<Node>)
    ensures Attached([], Some(items)) == Some(items) == Attached(items, Some([]))
  {
    assert [] + items == items == items + [];
  }

  class BplistData {
    const f: File
    var level: nat
    var usedIndexes: seq<nat>

    constructor (f: File)
      requires Checked(f)
      ensures this.f == f && level == 0 && Valid()
    {
      this.f := f;
      level := 0;
      usedIndexes := [];
    }

    ghost predicate Valid()
      reads this
    {
      Checked(f) && level <= |usedIndexes| && PathOk(usedIndexes[..level], f.numObjects)
    }

    ghost function Path(): seq<nat>
      requires level <= |usedIndexes|
      reads this
    {
      usedIndexes[..level]
    }

    /** The ancestors of the object being parsed are exactly the first `level` used indexes, before and
        after; so the recursion ends on any input. */
    method ParseBinNodeAtIndex(nodeIndex: nat) returns (r: Option<Node>)
      requires Valid()
      modifies this
      ensures Valid() && level == old(level) && Path() == old(Path())
      ensures r == ParseAt(f, nodeIndex, old(Path()))
      decreases f.numObjects - level, 0
    {
      hide UintToHost, ReadHeader, ReadLeaf, RefAt;
      ghost var path := Path();
      if nodeIndex >= f.numObjects {
        return None;
      }
      var ptr := OffsetOf(f, nodeIndex);
      if ptr >= f.offsetTable {
        return None;
      }
      if |usedIndexes| < level + 1 {
        while |usedIndexes| < level + 1
          invariant level <= |usedIndexes| && Path() == path && level == old(level)
          invariant |usedIndexes| == level || (|usedIndexes| == level + 1 && usedIndexes[level] == nodeIndex)
        {
          usedIndexes := usedIndexes + [nodeIndex];
        }
      } else {
        usedIndexes := usedIndexes[level := nodeIndex];
      }
      assert Path() == path;
      if level > 0 {
        var i := level - 1;
        while i >= 0
          invariant -1 <= i < level && Path() == path && level == old(level) && level < |usedIndexes|
          invariant usedIndexes[level] == nodeIndex
          invariant forall k :: i < k < level ==> path[k] != nodeIndex
          decreases i
        {
          if usedIndexes[i] == usedIndexes[level] {
            assert path[i] == nodeIndex;
            return None;
          }
          assert path[i] == usedIndexes[i];
          i := i - 1;
        }
      }
      assert nodeIndex !in path;
      StepDown(path, f.numObjects, nodeIndex);
      level := level + 1;
      assert Path() == path + [nodeIndex];
      r := ParseBinNode(ptr);
      level := level - 1;
      assert Path() == (path + [nodeIndex])[..level];
    }

    method ParseBinNode(start: nat) returns (r: Option<Node>)
      requires Valid() && start < f.offsetTable
      modifies this
      ensures Valid() && level == old(level) && Path() == old(Path())
      ensures r == ParseNode(f, start, old(Path()))
      decreases f.numObjects - level, 2
    {
      hide UintToHost, ReadHeader, ReadLeaf, RefAt;
      DepthBound(Path(), f.numObjects);
      var h := ReadHeader(f, start);
      if h.None? {
        return None;
      }
      HeaderBound(f, start);
      var Header(kind, size, p) := h.value;
      if kind == ARRAY || kind == SET {
        if p + size > f.offsetTable {
          return None;
        }
        r := ParseArrayNode(p, size);
      } else if kind == DICT {
        if p + size > f.offsetTable {
          return None;
        }
        r := ParseDictNode(p, size);
      } else {
        r := ReadLeaf(f, h.value);
      }
    }

    method ParseArrayNode(p: nat, size: nat) returns (r: Option<Node>)
      requires Valid()
      modifies this
      ensures Valid() && level == old(level) && Path() == old(Path())
      ensures var items := ParseArray(f, p, size, 0, old(Path()));
              r == if items.None? then None else Some(Array(0, items.value))
      decreases f.numObjects - level, 1
    {
      hide UintToHost, RefAt, ParseAt, Attached;
      ghost var path := Path();
      DepthBound(path, f.numObjects);
      var items: seq<Node> := [];
      ghost var whole := ParseArray(f, p, size, 0, path);
      AttachWhole(whole);
      var j := 0;
      while j < size
        invariant 0 <= j <= size && Valid() && level == old(level) && Path() == path
        invariant whole == Attached(items, ParseArray(f, p, size, j, path))
      {
        var index := RefAt(f, p, j);
        if index.None? {
          AttachedNone(items);
          return None;
        }
        var val := ParseBinNodeAtIndex(index.value);
        if val.None? {
          AttachedNone(items);
          return None;
        }
        AttachMore(items, [val.value], ParseArray(f, p, size, j + 1, path));
        items := items + [val.value];
        j := j + 1;
      }
      AttachNone(items);
      r := Some(Array(0, items));
    }

    method ParseDictNode(p: nat, size: nat) returns (r: Option<Node>)
      requires Valid()
      modifies this
      ensures Valid() && level == old(level) && Path() == old(Path())
      ensures var items := ParseDict(f, p, size, 0, old(Path()));
              r == if items.None? then None else Some(Dict(0, items.value))
      decreases f.numObjects - level, 1
    {
      hide UintToHost, RefAt, ParseAt, Attached;
      ghost var path := Path();
      DepthBound(path, f.numObjects);
      var items: seq<Node> := [];
      ghost var whole := ParseDict(f, p, size, 0, path);
      AttachWhole(whole);
      var j := 0;
      while j < size
        invariant 0 <= j <= size && Valid() && level == old(level) && Path() == path
        invariant whole == Attached(items, ParseDict(f, p, size, j, path))
      {
        AttachedNone(items);
        var index1, index2 := RefAt(f, p, j), RefAt(f, p, j + size);
        if index1.None? || index2.None? {
          return None;
        }
        var key := ParseBinNodeAtIndex(index1.value);
        if key.None? || !key.value.Str? {
          return None;
        }
        var val := ParseBinNodeAtIndex(index2.value);
        if val.None? {
          return None;
        }
        AttachMore(items, [Key(key.value.text), val.value], ParseDict(f, p, size, j + 1, path));
        items := items + [Key(key.value.text), val.value];
        j := j + 1;
      }
      AttachNone(items);
      r := Some(Dict(0, items));
    }
  }

  lemma AttachedNone(items: seq<Node>)
    ensures Attached(items, None) == None
  {
  }

  lemma AttachWhole(whole: Option<seq<Node>>)
    ensures Attached([], whole) == whole
  {
    if whole.Some? {
      AttachNone(whole.value);
    }
  }

  // ----- the file around the objects

  const MAGIC: seq<Byte> := [0x62, 0x70, 0x6C, 0x69, 0x73, 0x74]  // "bplist"
  const VERSION: seq<Byte> := [0x30, 0x30]  // "00"

  /** The trailer fields, if the file passes the checks made before parsing. */
  function ReadTrailer(bin: seq<Byte>): Option<(File, nat)>
    requires |bin| < 0x1_0000_0000
    ensures ReadTrailer(bin).Some? ==> Checked(ReadTrailer(bin).value.0)
  {
    if |bin| < 40 || bin[..6] != MAGIC || bin[6..8] != VERSION then None
    else
      var end := |bin| - 32;
      var offsetSize, refSize := bin[end + 6], bin[end + 7];
      var numObjects := FromBigEndian(bin[end + 8..end + 16]);
      var rootObject := FromBigEndian(bin[end + 16..end + 24]);
      var offsetTable := FromBigEndian(bin[end + 24..end + 32]);
      if numObjects == 0 || offsetSize == 0 || refSize == 0 || rootObject >= numObjects then None
      else if offsetTable < 8 || offsetTable >= end || numObjects * offsetSize >= WORD64 then None
      else if offsetTable + numObjects * offsetSize > end then None
      else Some((File(bin, numObjects, refSize, offsetSize, offsetTable), rootObject))
  }

  function FromBin(bin: seq<Byte>): Option<Node>
    requires |bin| < 0x1_0000_0000
  {
    var t := ReadTrailer(bin);
    if t.None? then None else ParseAt(t.value.0, t.value.1, [])
  }

  method PlistFromBin(bin: seq<Byte>) returns (plist: Option<Node>)
    requires |bin| < 0x1_0000_0000
    ensures plist == FromBin(bin)
  {
    hide ReadTrailer, ParseAt;
    var t := ReadTrailer(bin);
    if t.None? {
      return None;
    }
    var bplist := new BplistData(t.value.0);
    assert bplist.Path() == [];
    plist := bplist.ParseBinNodeAtIndex(t.value.1);
  }
}
