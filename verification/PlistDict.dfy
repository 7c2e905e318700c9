/** Dictionaries: a child list of keys and values, and above 500 children a hash index beside it. */
module PlistDicts {
  import opened Bytes
  import opened Options
  import opened HashTables
  import opened NodeLists

  type KeyText = seq<Byte>

  function SameText(a: KeyText, b: KeyText): bool
  {
    a == b
  }

  /** The children in turn: a key, then its value. */
  datatype Child<V> = KeyNode(text: KeyText) | ValueNode(item: V)

  predicate Alternating<V>(children: seq<Child<V>>)
  {
    |children| % 2 == 0 && forall i :: 0 <= i < |children| ==> (children[i].KeyNode? <==> i % 2 == 0)
  }

  predicate KeysDistinct<V>(children: seq<Child<V>>)
    requires Alternating(children)
  {
    forall i, j :: 0 <= i < j < |children| && i % 2 == 0 && j % 2 == 0 ==> children[i].text != children[j].text
  }

  /** The position of the first key that compares equal, or the number of children. */
  function Position<V>(children: seq<Child<V>>, key: KeyText): (p: nat)
    requires Alternating(children)
    ensures p <= |children| && p % 2 == 0
    ensures p < |children| ==> children[p].text == key
    ensures forall i :: 0 <= i < p && i % 2 == 0 ==> children[i].text != key
  {
    PositionFrom(children, key, 0)
  }

  function PositionFrom<V>(children: seq<Child<V>>, key: KeyText, k: nat): (p: nat)
    requires Alternating(children) && k <= |children| && k % 2 == 0
    ensures k <= p <= |children| && p % 2 == 0
    ensures p < |children| ==> children[p].text == key
    ensures forall i :: k <= i < p && i % 2 == 0 ==> children[i].text != key
    decreases |children| - k
  {
    if k == |children| || children[k].text == key then k
    else PositionFrom(children, key, k + 2)
  }

  /** What the linear scan finds. */
  function Linear<V>(children: seq<Child<V>>, key: KeyText): Option<V>
    requires Alternating(children)
  {
    var p := Position(children, key);
    if p == |children| then None else Some(children[p + 1].item)
  }

  /** With distinct keys there is only one place a key can be. */
  lemma {:induction false} PositionIs<V>(children: seq<Child<V>>, key: KeyText, p: nat)
    requires Alternating(children) && KeysDistinct(children) && p < |children| && p % 2 == 0 && children[p].text == key
    ensures Position(children, key) == p
  {
  }

  function WithItem<V>(children: seq<Child<V>>, key: KeyText, item: V): (r: seq<Child<V>>)
    requires Alternating(children)
  {
    var p := Position(children, key);
    if p == |children| then children + [KeyNode(key), ValueNode(item)] else children[p + 1 := ValueNode(item)]
  }

  function Without<V>(children: seq<Child<V>>, key: KeyText): (r: seq<Child<V>>)
    requires Alternating(children)
  {
    var p := Position(children, key);
    if p == |children| then children else children[..p] + children[p + 2..]
  }

  lemma {:induction false} NotThere<V>(children: seq<Child<V>>, key: KeyText)
    requires Alternating(children) && forall i :: 0 <= i < |children| && i % 2 == 0 ==> children[i].text != key
    ensures Linear(children, key) == None
  {
  }

  /** Setting an item: the dictionary keeps its shape, the key has the item, other keys keep theirs. */
  lemma {:induction false} WithItemFinds<V>(children: seq<Child<V>>, key: KeyText, item: V)
    requires Alternating(children) && KeysDistinct(children)
    ensures var r := WithItem(children, key, item);
            && Alternating(r) && KeysDistinct(r)
            && forall k :: Linear(r, k) == if k == key then Some(item) else Linear(children, k)
  {
    hide Position;
    var r, p := WithItem(children, key, item), Position(children, key);
    assert Alternating(r) && KeysDistinct(r);
    forall k
      ensures Linear(r, k) == if k == key then Some(item) else Linear(children, k)
    {
      var q := Position(children, k);
      if k == key {
        assert r[p].text == key;
        PositionIs(r, key, p);
      } else if q < |children| {
        assert r[q].text == k;
        PositionIs(r, k, q);
      } else {
        NotThere(r, k);
      }
    }
  }

  lemma {:induction false} WithoutFinds<V>(children: seq<Child<V>>, key: KeyText)
    requires Alternating(children) && KeysDistinct(children)
    ensures var r := Without(children, key);
            && Alternating(r) && KeysDistinct(r)
            && forall k :: Linear(r, k) == if k == key then None else Linear(children, k)
  {
    var r, p := Without(children, key), Position(children, key);
    if p < |children| {
      WithoutShape(children, key);
      forall k
        ensures Linear(r, k) == if k == key then None else Linear(children, k)
      {
        var q := Position(children, k);
        if k == key {
          NotThere(r, k);
        } else if q < |children| {
          var q' := if q < p then q else q - 2;
          assert r[q'] == children[q];
          PositionIs(r, k, q');
          assert r[q' + 1] == children[q + 1];
        } else {
          NotThere(r, k);
        }
      }
    }
  }

  /** The keys in order. */
  function KeysOf<V>(children: seq<Child<V>>): (keys: seq<KeyText>)
    requires Alternating(children)
  {
    seq(|children| / 2, i requires 0 <= i < |children| / 2 => children[2 * i].text)
  }

  /** A new key comes last; setting a key again leaves it where it is. */
  lemma {:induction false} WithItemOrder<V>(children: seq<Child<V>>, key: KeyText, item: V)
    requires Alternating(children)
    ensures Alternating(WithItem(children, key, item))
    ensures KeysOf(WithItem(children, key, item)) == KeysOf(children) + if Linear(children, key) == None then [key] else []
  {
    var r := WithItem(children, key, item);
    assert Alternating(r);
    var want := KeysOf(children) + if Linear(children, key) == None then [key] else [];
    assert |KeysOf(r)| == |want|;
    forall i | 0 <= i < |want|
      ensures KeysOf(r)[i] == want[i]
    {
    }
  }

  /** Removing a key leaves the others in their order. */
  lemma {:induction false} WithoutOrder<V>(children: seq<Child<V>>, before: seq<KeyText>, key: KeyText, after: seq<KeyText>)
    requires Alternating(children) && KeysOf(children) == before + [key] + after && key !in before
    ensures Alternating(Without(children, key)) && KeysOf(Without(children, key)) == before + after
  {
    var r, p := Without(children, key), Position(children, key);
    KeyAt(children, before, key, after);
    assert Alternating(r);
    assert |KeysOf(r)| == |before + after|;
    forall i | 0 <= i < |before + after|
      ensures KeysOf(r)[i] == (before + after)[i]
    {
      var j := if i < |before| then i else i + 1;
      assert KeysOf(children)[j] == (before + [key] + after)[j];
    }
  }

  lemma FirstPlace<V>(children: seq<Child<V>>, key: KeyText, n: nat)
    requires Alternating(children) && 2 * n < |children| && children[2 * n].text == key
    requires forall i :: 0 <= i < n ==> children[2 * i].text != key
    ensures Position(children, key) == 2 * n
  {
    var p := Position(children, key);
    assert p == 2 * (p / 2);
  }

  lemma {:induction false} KeyAt<V>(children: seq<Child<V>>, before: seq<KeyText>, key: KeyText, after: seq<KeyText>)
    requires Alternating(children) && KeysOf(children) == before + [key] + after && key !in before
    ensures Position(children, key) == 2 * |before| < |children|
  {
    assert KeysOf(children)[|before|] == key;
    assert children[2 * |before|].text == key;
    forall i | 0 <= i < |before|
      ensures children[2 * i].text != key
    {
      assert KeysOf(children)[i] == before[i];
    }
    FirstPlace(children, key, |before|);
  }

  lemma {:induction false} WithoutShape<V>(children: seq<Child<V>>, key: KeyText)
    requires Alternating(children) && KeysDistinct(children) && Position(children, key) < |children|
    ensures var r, p := Without(children, key), Position(children, key);
            && Alternating(r) && KeysDistinct(r) && |r| == |children| - 2
            && (forall i :: 0 <= i < |r| ==> r[i] == if i < p then children[i] else children[i + 2])
            && (forall i :: 0 <= i < |r| && i % 2 == 0 ==> r[i].text != key)
  {
    hide Position, KeysDistinct;
    var p := Position(children, key);
    assert children[p].text == key && p + 1 < |children|;
    TakenPair(children, p, Without(children, key));
  }

  /** The list without the pair at p. */
  lemma {:induction false} TakenPair<V>(children: seq<Child<V>>, p: nat, r: seq<Child<V>>)
    requires Alternating(children) && KeysDistinct(children) && p + 1 < |children| && p % 2 == 0
    requires r == children[..p] + children[p + 2..]
    ensures Alternating(r) && KeysDistinct(r) && |r| == |children| - 2
    ensures forall i :: 0 <= i < |r| ==> r[i] == if i < p then children[i] else children[i + 2]
    ensures forall i :: 0 <= i < |r| && i % 2 == 0 ==> r[i].text != children[p].text
  {
    assert Alternating(r);
    forall i | 0 <= i < |r| && i % 2 == 0
      ensures r[i].text != children[p].text
    {
      if i >= p {
        assert children[i + 2].text != children[p].text;
      }
    }
    forall i, j | 0 <= i < j < |r| && i % 2 == 0 && j % 2 == 0
      ensures r[i].text != r[j].text
    {
      var i', j' := if i < p then i else i + 2, if j < p then j else j + 2;
      assert children[i'].text != children[j'].text;
    }
  }

  // ----- the hash index

  ghost predicate ChainDistinct<V>(chain: seq<Entry<KeyText, V>>)
  {
    forall i, j :: 0 <= i < j < |chain| ==> chain[i].key != chain[j].key
  }

  lemma {:induction false} FindNone<V>(chain: seq<Entry<KeyText, V>>, key: KeyText)
    ensures Find(chain, key, SameText).None? <==> forall i :: 0 <= i < |chain| ==> chain[i].key != key
  {
    if chain != [] {
      FindNone(chain[1..], key);
      assert forall i :: 1 <= i < |chain| ==> chain[i] == chain[1..][i - 1];
    }
  }

  lemma {:induction false} ReplacedFinds<V>(chain: seq<Entry<KeyText, V>>, key: KeyText, value: V, k: KeyText)
    requires Find(chain, key, SameText).Some?
    ensures Find(Replaced(chain, key, value, SameText), k, SameText) == if k == key then Some(value) else Find(chain, k, SameText)
    ensures |Replaced(chain, key, value, SameText)| == |chain|
    ensures forall i :: 0 <= i < |chain| ==> Replaced(chain, key, value, SameText)[i].key == chain[i].key
  {
    if chain[0].key != key {
      ReplacedFinds(chain[1..], key, value, k);
      var r := Replaced(chain, key, value, SameText);
      assert r[1..] == Replaced(chain[1..], key, value, SameText);
      assert forall i :: 1 <= i < |chain| ==> r[i] == r[1..][i - 1] && chain[i] == chain[1..][i - 1];
    } else {
      assert Replaced(chain, key, value, SameText)[1..] == chain[1..];
    }
  }

  lemma {:induction false} InsertedFinds<V>(chain: seq<Entry<KeyText, V>>, key: KeyText, value: V, k: KeyText)
    requires ChainDistinct(chain)
    ensures ChainDistinct(Inserted(chain, key, value, SameText))
    ensures Find(Inserted(chain, key, value, SameText), k, SameText) == if k == key then Some(value) else Find(chain, k, SameText)
  {
    if Find(chain, key, SameText).Some? {
      ReplacedFinds(chain, key, value, k);
    } else {
      FindNone(chain, key);
      var r := Inserted(chain, key, value, SameText);
      assert r[1..] == chain;
    }
  }

  lemma {:induction false} RemovedFinds<V>(chain: seq<Entry<KeyText, V>>, key: KeyText, k: KeyText)
    requires ChainDistinct(chain)
    ensures ChainDistinct(Removed(chain, key, SameText))
    ensures forall i :: 0 <= i < |Removed(chain, key, SameText)| ==>
              exists j :: 0 <= j < |chain| && Removed(chain, key, SameText)[i] == chain[j]
    ensures Find(Removed(chain, key, SameText), k, SameText) == if k == key then None else Find(chain, k, SameText)
  {
    if chain != [] {
      var rest, r := chain[1..], Removed(chain, key, SameText);
      assert forall i :: 0 <= i < |rest| ==> rest[i] == chain[i + 1];
      if chain[0].key == key {
        FindNone(rest, key);
      } else {
        RemovedFinds(rest, key, k);
        var t := Removed(rest, key, SameText);
        assert r == [chain[0]] + t && r[1..] == t;
        forall i | 0 <= i < |t|
          ensures t[i].key != chain[0].key && exists j :: 0 <= j < |chain| && t[i] == chain[j]
        {
          var j :| 0 <= j < |rest| && t[i] == rest[j];
          assert chain[j + 1] == t[i];
        }
      }
    }
  }

  /** The chains answer for every key as the linear scan does. */
  ghost predicate Indexed<V>(chains: seq<seq<Entry<KeyText, V>>>, hash: KeyText -> nat, children: seq<Child<V>>)
    requires |chains| == BUCKETS && Alternating(children)
  {
    && (forall b :: 0 <= b < BUCKETS ==> ChainDistinct(chains[b]))
    && (forall k :: Find(chains[hash(k) % BUCKETS], k, SameText) == Linear(children, k))
  }

  /** Inserting into the index what was set in the list. */
  lemma {:induction false} IndexInserted<V>(chains: seq<seq<Entry<KeyText, V>>>, hash: KeyText -> nat,
                                            before: seq<Child<V>>, after: seq<Child<V>>, key: KeyText, item: V)
    requires |chains| == BUCKETS && Alternating(before) && Alternating(after) && Indexed(chains, hash, before)
    requires forall k :: Linear(after, k) == if k == key then Some(item) else Linear(before, k)
    ensures var b := hash(key) % BUCKETS; Indexed(chains[b := Inserted(chains[b], key, item, SameText)], hash, after)
  {
    hide Linear, ChainDistinct, Inserted, Find;
    var b := hash(key) % BUCKETS;
    var next := chains[b := Inserted(chains[b], key, item, SameText)];
    InsertedFinds(chains[b], key, item, key);
    forall k
      ensures Find(next[hash(k) % BUCKETS], k, SameText) == Linear(after, k)
    {
      InsertedFinds(chains[b], key, item, k);
      assert Find(chains[hash(k) % BUCKETS], k, SameText) == Linear(before, k);
    }
  }

  lemma {:induction false} IndexRemoved<V>(chains: seq<seq<Entry<KeyText, V>>>, hash: KeyText -> nat,
                                           before: seq<Child<V>>, after: seq<Child<V>>, key: KeyText)
    requires |chains| == BUCKETS && Alternating(before) && Alternating(after) && Indexed(chains, hash, before)
    requires forall k :: Linear(after, k) == if k == key then None else Linear(before, k)
    ensures var b := hash(key) % BUCKETS; Indexed(chains[b := Removed(chains[b], key, SameText)], hash, after)
  {
    hide Linear, ChainDistinct, Removed, Find;
    var b := hash(key) % BUCKETS;
    var next := chains[b := Removed(chains[b], key, SameText)];
    RemovedFinds(chains[b], key, key);
    forall k
      ensures Find(next[hash(k) % BUCKETS], k, SameText) == Linear(after, k)
    {
      RemovedFinds(chains[b], key, k);
      assert Find(chains[hash(k) % BUCKETS], k, SameText) == Linear(before, k);
    }
  }

  // ----- the children as a linked list

  /** Every other node is a key and the next one its value. */
  ghost function ChildAt(chain: seq<Link>, i: nat): Child<Link>
    requires i + 1 < |chain|
  {
    if i % 2 == 0 then KeyNode(chain[i + 1].text) else ValueNode(chain[i + 1])
  }

  /** The children that are linked behind the first element of the chain, the list itself. */
  ghost function ChildrenOf(chain: seq<Link>): (children: seq<Child<Link>>)
    requires |chain| > 0
    ensures |children| == |chain| - 1
    ensures forall i :: 0 <= i < |children| ==> children[i] == ChildAt(chain, i)
    ensures |chain| % 2 == 1 ==> Alternating(children)
  {
    seq(|chain| - 1, i requires 0 <= i < |chain| - 1 => ChildAt(chain, i))
  }

  class PlistDict {
    const list: NodeList
    var hashtable: HashTable?<KeyText, Link>
    const hash: KeyText -> nat

    constructor (hash: KeyText -> nat)
      ensures Valid() && fresh(Repr()) && Children() == [] && hashtable == null && this.hash == hash
    {
      this.hash := hash;
      list := new NodeList();
      hashtable := null;
      new;
    }

    ghost function Nodes(): set<object>
      reads list
    {
      set l | l in list.chain
    }

    ghost function Repr(): set<object>
      reads this, list
    {
      {list} + Nodes() + if hashtable == null then {} else {hashtable.entries}
    }

    ghost function Children(): seq<Child<Link>>
      requires list.chain != []
      reads list
    {
      ChildrenOf(list.chain)
    }

    /** Keys and values alternate in a well linked list, and the index, once there is one, answers as the
        list does. */
    ghost predicate Valid()
      reads this, Repr()
    {
      && list.Valid() && list.count % 2 == 0 && KeysDistinct(Children())
      && (hashtable != null ==>
           hashtable.Valid() && hashtable.equal == SameText && hashtable.hash == hash
           && Indexed(hashtable.entries[..], hash, Children()))
    }

    method GetItem(key: KeyText) returns (ret: Option<Link>)
      requires Valid()
      ensures ret == Linear(Children(), key)
    {
      hide Linear, Find, Indexed, KeysDistinct;
      if hashtable != null {
        ret := hashtable.Lookup(key);
        IndexAnswers(hashtable.entries[..], hash, Children(), key);
      } else {
        ghost var k := 0;
        var current := list.head.next;
        while current != null
          invariant k <= list.count && k % 2 == 0 && current == if k < list.count then list.chain[k + 1] else null
          invariant PositionFrom(Children(), key, k) == Position(Children(), key)
          decreases list.count - k
        {
          TwoLinks(list.chain, k);
          if current.text == key {
            FoundItem(Children(), key, k);
            return Some(current.next);
          }
          current := current.next.next;
          k := k + 2;
        }
        NoItem(Children(), key);
        ret := None;
      }
    }

    /** A new item for a key; above 500 children the index is made, and from then on it is kept. */
    method SetItem(key: KeyText, item: Link)
      requires Valid() && item !in list.chain
      modifies this`hashtable, Repr(), item
      ensures Valid() && fresh(Repr() - old(Repr()) - {item})
      ensures Children() == WithItem(old(Children()), key, item)
      ensures hashtable != null <==> old(hashtable) != null || |Children()| > 500
    {
      hide Linear, Indexed, KeysDistinct, Alternating, WithItem, Inserted, Linked;
      ghost var before := Children();
      WithItemFinds(before, key, item);
      var oldItem := GetItem(key);
      if oldItem.Some? {
        ReplaceItem(key, oldItem.value, item);
      } else {
        AppendItem(key, item);
      }
      var keyNode := item.prev;
      if hashtable != null {
        IndexInserted(hashtable.entries[..], hash, before, Children(), key, item);
        hashtable.Insert(keyNode.text, item);
      } else if list.count > 500 {
        var ht := BuildIndex();
        hashtable := ht;
      }
    }

    /** The new item goes where the old one was, which is never the first place. */
    method ReplaceItem(key: KeyText, oldItem: Link, item: Link)
      requires list.Valid() && list.count % 2 == 0 && item !in list.chain && Linear(Children(), key) == Some(oldItem)
      modifies list, Nodes(), item
      ensures list.Valid() && list.count % 2 == 0 && Children() == WithItem(old(Children()), key, item)
      ensures item.prev != null && item.prev.text == key && Nodes() <= old(Nodes()) + {item}
    {
      hide Linear, Alternating, WithItem, Linked;
      ghost var chain := list.chain;
      ItemPlace(chain, key);
      var idx := list.Remove(oldItem);
      ItemReplaced(chain, key, idx, item, chain[..idx + 1] + [item] + chain[idx + 2..]);
      list.Insert(idx, item);
      assert list.chain == chain[..idx + 1] + [item] + chain[idx + 2..];
      PrevOf(list.chain, idx + 1);
    }

    method AppendItem(key: KeyText, item: Link)
      requires list.Valid() && list.count % 2 == 0 && item !in list.chain && Linear(Children(), key) == None
      modifies list, Nodes(), item
      ensures list.Valid() && list.count % 2 == 0 && Children() == WithItem(old(Children()), key, item)
      ensures item.prev != null && item.prev.text == key && fresh(Nodes() - old(Nodes()) - {item})
    {
      hide Linear, Alternating, WithItem, Linked;
      ghost var chain := list.chain;
      var keyNode := new Link(key);
      list.Add(keyNode);
      list.Add(item);
      ItemAppended(chain, key, keyNode, item, list.chain);
      PrevOf(list.chain, |chain| + 1);
    }

    /** The index over all entries there are so far. */
    method BuildIndex() returns (ht: HashTable<KeyText, Link>)
      requires list.Valid() && list.count % 2 == 0 && KeysDistinct(Children())
      ensures fresh(ht) && fresh(ht.entries) && ht.Valid() && ht.equal == SameText && ht.hash == hash
      ensures Indexed(ht.entries[..], hash, Children())
    {
      hide Linear, Indexed, Inserted, KeysDistinct;
      ht := new HashTable(hash, SameText);
      ghost var children, k := Children(), 0;
      var current := list.head.next;
      NothingIndexed(ht.entries[..], hash, children);
      while current != null
        invariant k <= list.count && k % 2 == 0 && current == if k < list.count then list.chain[k + 1] else null
        invariant fresh(ht) && fresh(ht.entries) && ht.Valid() && ht.equal == SameText && ht.hash == hash
        invariant Alternating(children[..k]) && Indexed(ht.entries[..], hash, children[..k])
        decreases list.count - k
      {
        TwoLinks(list.chain, k);
        ghost var before, after := children[..k], children[..k + 2];
        OneMorePair(children, k, before, after, current.text, current.next);
        IndexInserted(ht.entries[..], hash, before, after, current.text, current.next);
        ht.Insert(current.text, current.next);
        current := current.next.next;
        k := k + 2;
      }
      assert children[..k] == children;
    }

    method RemoveItem(key: KeyText)
      requires Valid()
      modifies Repr()
      ensures Valid() && Repr() <= old(Repr())
      ensures Children() == Without(old(Children()), key)
    {
      hide Linear, Indexed, KeysDistinct, Alternating, Without, Removed, Linked;
      ghost var before := Children();
      WithoutFinds(before, key);
      var oldItem := GetItem(key);
      if oldItem.Some? {
        ItemPlace(list.chain, key);
        var keyNode := oldItem.value.prev;
        if hashtable != null {
          IndexRemoved(hashtable.entries[..], hash, before, Without(before, key), key);
          hashtable.Remove(keyNode.text);
        }
        RemovePair(key, keyNode, oldItem.value);
      } else {
        NothingTaken(before, key);
      }
    }

    method RemovePair(key: KeyText, keyNode: Link, oldItem: Link)
      requires list.Valid() && list.count % 2 == 0 && Linear(Children(), key) == Some(oldItem) && oldItem.prev == keyNode
      modifies list, Nodes()
      ensures list.Valid() && list.count % 2 == 0 && Nodes() <= old(Nodes())
      ensures Children() == Without(old(Children()), key)
    {
      hide Linear, Alternating, Without, Linked, AllDistinct;
      ghost var chain := list.chain;
      ItemPlace(chain, key);
      var k := list.Remove(keyNode);
      var idx := list.Remove(oldItem);
      ItemTaken(chain, key, k, idx, list.chain);
    }
  }

  /** From a key, the links to its value and to the next key. */
  lemma TwoLinks(chain: seq<Link>, k: nat)
    requires Linked(chain) && |chain| % 2 == 1 && k + 1 < |chain| && k % 2 == 0
    ensures k + 2 < |chain| && chain[k + 1].next == chain[k + 2]
    ensures chain[k + 2].next == if k + 3 < |chain| then chain[k + 3] else null
    ensures ChildrenOf(chain)[k] == KeyNode(chain[k + 1].text) && ChildrenOf(chain)[k + 1] == ValueNode(chain[k + 2])
  {
  }

  lemma PrevOf(chain: seq<Link>, i: nat)
    requires Linked(chain) && 0 < i < |chain|
    ensures chain[i].prev == chain[i - 1]
  {
  }

  lemma FoundItem<V>(children: seq<Child<V>>, key: KeyText, k: nat)
    requires Alternating(children) && k < |children| && k % 2 == 0
    requires PositionFrom(children, key, k) == Position(children, key) && children[k].text == key
    ensures k + 1 < |children| && Linear(children, key) == Some(children[k + 1].item)
  {
  }

  lemma NoItem<V>(children: seq<Child<V>>, key: KeyText)
    requires Alternating(children) && Position(children, key) == |children|
    ensures Linear(children, key) == None
  {
  }

  lemma IndexAnswers<V>(chains: seq<seq<Entry<KeyText, V>>>, hash: KeyText -> nat, children: seq<Child<V>>, key: KeyText)
    requires |chains| == BUCKETS && Alternating(children) && Indexed(chains, hash, children)
    ensures Find(chains[hash(key) % BUCKETS], key, SameText) == Linear(children, key)
  {
  }

  /** An item that is found is linked behind its key. */
  lemma ItemPlace(chain: seq<Link>, key: KeyText)
    requires |chain| % 2 == 1 && Linked(chain) && AllDistinct(chain) && Linear(ChildrenOf(chain), key).Some?
    ensures var p := Position(ChildrenOf(chain), key);
            && p + 2 < |chain| && Linear(ChildrenOf(chain), key).value == chain[p + 2]
            && chain[p + 2].prev == chain[p + 1] && chain[p + 1].text == key && chain[p + 1] != chain[0] && chain[p + 2] != chain[0]
  {
  }

  /** The new item takes the place of the old one. */
  lemma ItemReplaced(chain: seq<Link>, key: KeyText, idx: nat, item: Link, r: seq<Link>)
    requires |chain| % 2 == 1 && AllDistinct(chain) && Linear(ChildrenOf(chain), key).Some?
    requires idx + 1 < |chain| && chain[idx + 1] == Linear(ChildrenOf(chain), key).value
    requires r == chain[..idx + 1] + [item] + chain[idx + 2..]
    ensures ChildrenOf(r) == WithItem(ChildrenOf(chain), key, item)
    ensures idx > 0 && r[idx + 1] == item && r[idx].text == key
  {
  }

  lemma ItemAppended(chain: seq<Link>, key: KeyText, keyNode: Link, item: Link, r: seq<Link>)
    requires |chain| % 2 == 1 && Linear(ChildrenOf(chain), key).None? && keyNode.text == key
    requires r == chain + [keyNode] + [item]
    ensures ChildrenOf(r) == WithItem(ChildrenOf(chain), key, item)
  {
  }

  /** The list without the key and its item. */
  lemma ItemTaken(chain: seq<Link>, key: KeyText, k: nat, idx: nat, r: seq<Link>)
    requires |chain| % 2 == 1 && AllDistinct(chain) && Linear(ChildrenOf(chain), key).Some?
    requires k + 1 < |chain| && chain[k + 1] == chain[Position(ChildrenOf(chain), key) + 1]
    requires var s := chain[..k + 1] + chain[k + 2..];
             idx + 1 < |s| && s[idx + 1] == Linear(ChildrenOf(chain), key).value && r == s[..idx + 1] + s[idx + 2..]
    ensures |r| == |chain| - 2 && ChildrenOf(r) == Without(ChildrenOf(chain), key)
  {
    hide Alternating;
    var p, s := Position(ChildrenOf(chain), key), chain[..k + 1] + chain[k + 2..];
    assert k == p;
    TakenOut(chain, k + 1, s);
    assert s[p + 1] == chain[p + 2];
    assert idx == p;
    PairTaken(chain, p, r);
  }

  lemma PairTaken(chain: seq<Link>, p: nat, r: seq<Link>)
    requires p + 2 < |chain| && p % 2 == 0 && r == (chain[..p + 1] + chain[p + 2..])[..p + 1] + (chain[..p + 1] + chain[p + 2..])[p + 2..]
    ensures |r| == |chain| - 2 && ChildrenOf(r) == ChildrenOf(chain)[..p] + ChildrenOf(chain)[p + 2..]
  {
    assert r == chain[..p + 1] + chain[p + 3..];
    var c, d := ChildrenOf(r), ChildrenOf(chain)[..p] + ChildrenOf(chain)[p + 2..];
    forall i | 0 <= i < |c|
      ensures c[i] == d[i]
    {
      assert c[i] == ChildAt(r, i);
      assert ChildAt(r, i) == if i < p then ChildAt(chain, i) else ChildAt(chain, i + 2);
    }
  }

  lemma NothingTaken<V>(children: seq<Child<V>>, key: KeyText)
    requires Alternating(children) && Linear(children, key).None?
    ensures Without(children, key) == children
  {
  }

  /** Tables start with nothing in them. */
  lemma NothingIndexed<V>(chains: seq<seq<Entry<KeyText, V>>>, hash: KeyText -> nat, children: seq<Child<V>>)
    requires |chains| == BUCKETS && forall b :: 0 <= b < BUCKETS ==> chains[b] == []
    ensures Alternating(children[..0]) && Indexed(chains, hash, children[..0])
  {
  }

  /** The list up to one more pair. */
  lemma {:induction false} OneMorePair<V>(children: seq<Child<V>>, k: nat, before: seq<Child<V>>, after: seq<Child<V>>, key: KeyText, item: V)
    requires Alternating(children) && KeysDistinct(children) && k + 1 < |children| && k % 2 == 0
    requires before == children[..k] && after == children[..k + 2] && children[k] == KeyNode(key) && children[k + 1] == ValueNode(item)
    ensures Alternating(before) && Alternating(after)
    ensures forall t :: Linear(after, t) == if t == key then Some(item) else Linear(before, t)
  {
    assert Alternating(before) && KeysDistinct(before);
    NewKey(children, k);
    WithItemFinds(before, key, item);
    assert after == before + [KeyNode(key), ValueNode(item)];
  }

  lemma NewKey<V>(children: seq<Child<V>>, k: nat)
    requires Alternating(children) && KeysDistinct(children) && k < |children| && k % 2 == 0 && Alternating(children[..k])
    ensures Position(children[..k], children[k].text) == k
  {
    var before := children[..k];
    forall p | 0 <= p < k && p % 2 == 0
      ensures before[p].text != children[k].text
    {
    }
  }
}
