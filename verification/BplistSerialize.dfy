/** Numbering the objects of a tree: equal nodes that meet in the hash table share one number. */
module BplistSerialize {
  import opened Options
  import opened HashTables
  import opened Plist

  type Table = seq<seq<Entry<Node, nat>>>

  /** The objects found so far and the table that maps nodes to their numbers. */
  datatype Refs = Refs(objects: seq<Node>, table: Table)

  function Slot(hash: Node -> nat, n: Node): (b: nat)
    ensures b < BUCKETS
  {
    hash(n) % BUCKETS
  }

  function NumberOf(table: Table, hash: Node -> nat, n: Node): Option<nat>
    requires |table| == BUCKETS
  {
    Find(table[Slot(hash, n)], n, Same)
  }

  function Numbered(r: Refs, hash: Node -> nat, n: Node): (s: Refs)
    requires |r.table| == BUCKETS
    ensures |s.table| == BUCKETS
  {
    var b := Slot(hash, n);
    Refs(r.objects + [n], r.table[b := Inserted(r.table[b], n, |r.objects|, Same)])
  }

  function Serialized(r: Refs, hash: Node -> nat, n: Node): (s: Refs)
    requires |r.table| == BUCKETS
    ensures |s.table| == BUCKETS
    decreases Size(n), 0
  {
    if NumberOf(r.table, hash, n).Some? then r
    else SerializedAll(Numbered(r, hash, n), hash, n.Children())
  }

  function SerializedAll(r: Refs, hash: Node -> nat, items: seq<Node>): (s: Refs)
    requires |r.table| == BUCKETS
    ensures |s.table| == BUCKETS
    decreases SizeAll(items), 1
  {
    if items == [] then r else SerializedAll(Serialized(r, hash, items[0]), hash, items[1..])
  }

  class Serializer {
    var objects: seq<Node>
    const refTable: HashTable<Node, nat>

    constructor (hash: Node -> nat)
      ensures fresh(refTable) && fresh(refTable.entries) && Valid()
      ensures refTable.hash == hash && State() == Refs([], seq(BUCKETS, _ => []))
    {
      objects := [];
      refTable := new HashTable(hash, Same);
      new;
      assert refTable.entries[..] == seq(BUCKETS, _ => []);
    }

    ghost predicate Valid()
    {
      refTable.Valid() && refTable.equal == Same
    }

    function State(): (r: Refs)
      reads this, refTable.entries
    {
      Refs(objects, refTable.entries[..])
    }

    method SerializePlist(node: Node)
      requires Valid()
      modifies this, refTable.entries
      ensures State() == Serialized(old(State()), refTable.hash, node)
      decreases node, 0
    {
      var currentIndex := |objects|;
      var val := refTable.Lookup(node);
      if val.Some? {
        return;
      }
      refTable.Insert(node, currentIndex);
      objects := objects + [node];
      assert State() == Numbered(old(State()), refTable.hash, node);
      var children := node.Children();
      var i := 0;
      while i < |children|
        invariant i <= |children|
        invariant SerializedAll(State(), refTable.hash, children[i..]) == Serialized(old(State()), refTable.hash, node)
      {
        SerializePlist(children[i]);
        assert children[i..][1..] == children[i + 1..];
        i := i + 1;
      }
    }
  }

  lemma LookupIsNumber(refTable: HashTable<Node, nat>, n: Node)
    requires refTable.Valid() && refTable.equal == Same
    ensures refTable.Get(n) == NumberOf(refTable.entries[..], refTable.hash, n)
  {
  }

  // ----- what the numbering guarantees

  /** Every entry of the table sits in its bucket and names the object it was made for. */
  ghost predicate Entered(r: Refs, hash: Node -> nat)
  {
    |r.table| == BUCKETS && forall b :: 0 <= b < BUCKETS ==> ChainEntered(r, hash, b, r.table[b])
  }

  ghost predicate ChainEntered(r: Refs, hash: Node -> nat, b: nat, chain: seq<Entry<Node, nat>>)
  {
    forall e :: 0 <= e < |chain| ==> EntryOk(r, hash, b, chain[e])
  }

  ghost predicate EntryOk(r: Refs, hash: Node -> nat, b: nat, e: Entry<Node, nat>)
  {
    Slot(hash, e.key) == b && e.value < |r.objects| && r.objects[e.value] == e.key
  }

  ghost predicate Within(r: Refs, root: Node)
  {
    forall i :: 0 <= i < |r.objects| ==> r.objects[i] in Nodes(root)
  }

  ghost predicate Known(r: Refs, hash: Node -> nat, n: Node)
    requires |r.table| == BUCKETS
  {
    NumberOf(r.table, hash, n).Some?
  }

  /** A known node has the number of an object that compares equal to it. */
  lemma {:induction false} NumberIsSame(r: Refs, hash: Node -> nat, n: Node)
    requires Entered(r, hash) && Known(r, hash, n)
    ensures var j := NumberOf(r.table, hash, n).value; j < |r.objects| && Same(r.objects[j], n)
  {
    FoundInChain(r, hash, Slot(hash, n), r.table[Slot(hash, n)], n);
  }

  lemma {:induction false} FoundInChain(r: Refs, hash: Node -> nat, b: nat, chain: seq<Entry<Node, nat>>, n: Node)
    requires ChainEntered(r, hash, b, chain) && Find(chain, n, Same).Some?
    ensures var j := Find(chain, n, Same).value; j < |r.objects| && Same(r.objects[j], n)
  {
    hide Same;
    assert EntryOk(r, hash, b, chain[0]);
    if !Same(chain[0].key, n) {
      FoundInChain(r, hash, b, chain[1..], n);
    }
  }

  /** Numbering one more node keeps the table in order, and every number given before. */
  lemma {:induction false} NumberedKeeps(r: Refs, hash: Node -> nat, n: Node)
    requires Entered(r, hash) && !Known(r, hash, n)
    ensures Entered(Numbered(r, hash, n), hash) && Known(Numbered(r, hash, n), hash, n)
    ensures forall m :: Known(r, hash, m) ==> NumberOf(Numbered(r, hash, n).table, hash, m) == NumberOf(r.table, hash, m)
  {
    hide Same;
    var s := Numbered(r, hash, n);
    var b := Slot(hash, n);
    SameReflexive(n);
    forall c | 0 <= c < BUCKETS
      ensures ChainEntered(s, hash, c, s.table[c])
    {
      assert ChainEntered(r, hash, c, r.table[c]);
      forall e | 0 <= e < |s.table[c]|
        ensures EntryOk(s, hash, c, s.table[c][e])
      {
        if c == b && e > 0 {
          assert s.table[c][e] == r.table[c][e - 1];
          assert EntryOk(r, hash, c, r.table[c][e - 1]);
        } else if c != b {
          assert EntryOk(r, hash, c, r.table[c][e]);
        }
      }
    }
    forall m | Known(r, hash, m)
      ensures NumberOf(s.table, hash, m) == NumberOf(r.table, hash, m)
    {
      if Slot(hash, m) == b && Same(n, m) {
        SameSymmetric(n, m);
        FindSame(r.table[b], n, m);
      }
    }
  }

  lemma SameReflexive(n: Node)
    ensures Same(n, n)
  {
  }

  /** Nodes that compare equal are found together. */
  lemma {:induction false} FindSame(chain: seq<Entry<Node, nat>>, n: Node, m: Node)
    requires Same(n, m)
    ensures Find(chain, n, Same) == Find(chain, m, Same)
  {
    hide Same;
    if chain != [] {
      var k := chain[0].key;
      SameSymmetric(n, m);
      if Same(k, n) {
        SameTransitive(k, n, m);
      } else if Same(k, m) {
        SameTransitive(k, m, n);
      }
      FindSame(chain[1..], n, m);
    }
  }

  /** The addresses of the containers among the objects. */
  ghost predicate Avoids(r: Refs, addrs: set<nat>)
  {
    forall i :: 0 <= i < |r.objects| && r.objects[i].Container() ==> r.objects[i].addr !in addrs
  }

  /** What serializing from r to s keeps and adds: nodes in `done` are known afterwards. */
  ghost predicate Advanced(r: Refs, s: Refs, hash: Node -> nat, root: Node, done: set<Node>, addrs: set<nat>)
  {
    && Entered(r, hash) && Entered(s, hash)
    && r.objects <= s.objects
    && (Within(r, root) ==> Within(s, root))
    && (forall m :: Known(r, hash, m) ==> NumberOf(s.table, hash, m) == NumberOf(r.table, hash, m))
    && (forall m :: m in done ==> Known(s, hash, m))
    && (forall k :: |r.objects| <= k < |s.objects| && s.objects[k].Container() ==> s.objects[k].addr in addrs)
  }

  lemma Sequenced(r: Refs, s: Refs, t: Refs, hash: Node -> nat, root: Node,
                  done1: set<Node>, done2: set<Node>, addrs1: set<nat>, addrs2: set<nat>)
    requires Advanced(r, s, hash, root, done1, addrs1) && Advanced(s, t, hash, root, done2, addrs2)
    ensures Advanced(r, t, hash, root, done1 + done2, addrs1 + addrs2)
  {
    hide NumberOf, Entered, Within;
    forall k | |r.objects| <= k < |t.objects| && t.objects[k].Container()
      ensures t.objects[k].addr in addrs1 + addrs2
    {
      if k < |s.objects| {
        assert t.objects[k] == s.objects[k];
      }
    }
  }

  lemma StillAvoids(r: Refs, s: Refs, hash: Node -> nat, root: Node, done: set<Node>, addrs: set<nat>, others: set<nat>)
    requires Advanced(r, s, hash, root, done, addrs) && Avoids(r, others) && addrs !! others
    ensures Avoids(s, others)
  {
    forall i | 0 <= i < |s.objects| && s.objects[i].Container()
      ensures s.objects[i].addr !in others
    {
      if i < |r.objects| {
        assert s.objects[i] == r.objects[i];
      }
    }
  }

  /** A container none of the objects shares an address with is new. */
  lemma {:induction false} FreshContainer(r: Refs, hash: Node -> nat, n: Node)
    requires Entered(r, hash) && n.Container() && Avoids(r, Addrs(n))
    ensures !Known(r, hash, n)
  {
    if Known(r, hash, n) {
      NumberIsSame(r, hash, n);
    }
  }

  /** After serializing a tree all its nodes are known, and earlier numbers still hold. */
  lemma {:induction false} SerializeAdvances(r: Refs, hash: Node -> nat, root: Node, n: Node)
    requires Entered(r, hash) && Distinct(n) && Nodes(n) <= Nodes(root) && Avoids(r, Addrs(n))
    ensures Advanced(r, Serialized(r, hash, n), hash, root, Nodes(n), Addrs(n))
    ensures !Known(r, hash, n) ==> r.objects + [n] <= Serialized(r, hash, n).objects
    decreases Size(n), 0
  {
    hide NumberOf, ChainEntered, Numbered, Within;
    if n.Container() {
      FreshContainer(r, hash, n);
    }
    if !Known(r, hash, n) {
      var s := Numbered(r, hash, n);
      NumberedAdvances(r, hash, root, n);
      var own := if n.Container() then {n.addr} else {};
      NumberedAvoids(r, hash, n);
      NodesOfChildren(n);
      SerializeAllAdvances(s, hash, root, n.Children());
      var t := SerializedAll(s, hash, n.Children());
      Sequenced(r, s, t, hash, root, {n}, NodesAll(n.Children()), own, AddrsAll(n.Children()));
      assert own + AddrsAll(n.Children()) == Addrs(n);
      assert {n} + NodesAll(n.Children()) == Nodes(n);
    }
  }

  lemma NodesOfChildren(n: Node)
    requires Distinct(n)
    ensures NodesAll(n.Children()) <= Nodes(n) && DistinctAll(n.Children())
    ensures AddrsAll(n.Children()) <= Addrs(n)
  {
  }

  lemma {:induction false} NumberedAdvances(r: Refs, hash: Node -> nat, root: Node, n: Node)
    requires Entered(r, hash) && n in Nodes(root) && !Known(r, hash, n)
    ensures Advanced(r, Numbered(r, hash, n), hash, root, {n}, if n.Container() then {n.addr} else {})
    ensures Numbered(r, hash, n).objects == r.objects + [n]
  {
    hide NumberOf, Entered;
    NumberedKeeps(r, hash, n);
  }

  lemma {:induction false} NumberedAvoids(r: Refs, hash: Node -> nat, n: Node)
    requires |r.table| == BUCKETS && Avoids(r, Addrs(n)) && Distinct(n)
    ensures Avoids(Numbered(r, hash, n), AddrsAll(n.Children()))
  {
    var s := Numbered(r, hash, n);
    forall i | 0 <= i < |s.objects| && s.objects[i].Container()
      ensures s.objects[i].addr !in AddrsAll(n.Children())
    {
      if i < |r.objects| {
        assert s.objects[i] == r.objects[i];
      }
    }
  }

  lemma {:induction false} SerializeAllAdvances(r: Refs, hash: Node -> nat, root: Node, items: seq<Node>)
    requires Entered(r, hash) && DistinctAll(items) && NodesAll(items) <= Nodes(root) && Avoids(r, AddrsAll(items))
    ensures Advanced(r, SerializedAll(r, hash, items), hash, root, NodesAll(items), AddrsAll(items))
    decreases SizeAll(items), 1
  {
    hide NumberOf, ChainEntered, Serialized, Within;
    if items != [] {
      var s := Serialized(r, hash, items[0]);
      SerializeAdvances(r, hash, root, items[0]);
      StillAvoids(r, s, hash, root, Nodes(items[0]), Addrs(items[0]), AddrsAll(items[1..]));
      SerializeAllAdvances(s, hash, root, items[1..]);
      var t := SerializedAll(s, hash, items[1..]);
      Sequenced(r, s, t, hash, root, Nodes(items[0]), NodesAll(items[1..]), Addrs(items[0]), AddrsAll(items[1..]));
    }
  }

  /** The node has the number of an object that compares equal to it. */
  ghost predicate Shares(r: Refs, hash: Node -> nat, n: Node)
  {
    && |r.table| == BUCKETS && NumberOf(r.table, hash, n).Some?
    && NumberOf(r.table, hash, n).value < |r.objects|
    && Same(r.objects[NumberOf(r.table, hash, n).value], n)
  }

  function NoRefs(): (r: Refs)
    ensures |r.table| == BUCKETS
  {
    Refs([], seq(BUCKETS, _ => []))
  }

  /** The numbering of a whole tree: the root is object 0, every object is a node of the tree, and every
      node of the tree has the number of an object that compares equal to it. */
  lemma {:induction false} TreeNumbered(root: Node, hash: Node -> nat)
    requires Distinct(root)
    ensures var r := Serialized(NoRefs(), hash, root);
            && |r.objects| > 0 && r.objects[0] == root && Within(r, root)
            && forall n :: n in Nodes(root) ==> Shares(r, hash, n)
  {
    hide Same, Serialized, Numbered;
    var r := Serialized(NoRefs(), hash, root);
    SerializeAdvances(NoRefs(), hash, root, root);
    assert !Known(NoRefs(), hash, root);
    assert [root] <= r.objects;
    forall n | n in Nodes(root)
      ensures Shares(r, hash, n)
    {
      assert Known(r, hash, n);
      NumberIsSame(r, hash, n);
    }
  }
}
