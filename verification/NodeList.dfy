/** The intrusive list of child nodes, whose own first two fields serve as those of an element. */
module NodeLists {
  import opened Bytes

  /** What nodes and lists begin with, and the text of a node that is a key.  In a list, `next` is the
      first element and `prev` the last. */
  class Link {
    var next: Link?
    var prev: Link?
    const text: seq<Byte>

    constructor (text: seq<Byte>)
      ensures next == null && prev == null && this.text == text
    {
      next, prev := null, null;
      this.text := text;
    }
  }

  /** No link occurs twice. */
  ghost predicate AllDistinct(chain: seq<Link>)
  {
    forall i, j :: 0 <= i < j < |chain| ==> chain[i] != chain[j]
  }

  ghost predicate Linked(chain: seq<Link>)
    reads chain
  {
    && (forall i :: 0 <= i < |chain| - 1 ==> chain[i].next == chain[i + 1])
    && (|chain| > 0 ==> chain[|chain| - 1].next == null)
    && (forall i :: 0 < i < |chain| ==> chain[i].prev == chain[i - 1])
    && (|chain| > 0 ==> chain[0].prev == chain[|chain| - 1])
  }

  class NodeList {
    const head: Link
    var count: nat
    /** The list itself and its elements in order. */
    ghost var chain: seq<Link>

    /** `list_init`: an empty list is its own last element. */
    constructor ()
      ensures Valid() && fresh(head) && chain == [head] && count == 0
    {
      head := new Link([]);
      count := 0;
      new;
      head.prev := head;
      chain := [head];
    }

    /** Following `next` from the first element, following `prev` from the last, and the count describe
        one sequence. */
    ghost predicate Valid()
      reads this, chain
    {
      && |chain| == count + 1 && chain[0] == head
      && AllDistinct(chain) && Linked(chain)
    }

    method Add(node: Link)
      requires Valid() && node !in chain
      modifies this, chain, node
      ensures Valid() && chain == old(chain) + [node]
    {
      var last := head.prev;
      node.next := null;
      node.prev := last;
      if last != null {
        last.next := node;
      }
      head.prev := node;
      count := count + 1;
      chain := chain + [node];
    }

    /** An element put before the first one of a list that is not empty gets no `prev`, so that the
        list is no longer valid; everywhere else it is. */
    method Insert(nodeIndex: nat, node: Link)
      requires Valid() && node !in chain
      modifies this, chain, node
      ensures var k := if nodeIndex < old(count) then nodeIndex + 1 else old(count) + 1;
              chain == old(chain[..k]) + [node] + old(chain[k..])
      ensures Valid() <==> nodeIndex > 0 || old(count) == 0
    {
      if nodeIndex >= count {
        Add(node);
        assert chain == old(chain[..count + 1]) + [node] + old(chain[count + 1..]);
        return;
      }
      ghost var before := chain;
      var cur, pos, prev: Link? := head.next, 0, null;
      while pos < nodeIndex
        invariant pos <= nodeIndex < count && Valid() && chain == before && cur == chain[pos + 1]
        invariant prev == if pos == 0 then null else chain[pos]
        invariant forall l: Link :: l.next == old(l.next) && l.prev == old(l.prev)
      {
        prev := cur;
        cur := cur.next;
        pos := pos + 1;
      }
      if prev != null {
        Splice(prev, node, nodeIndex);
      } else {
        PutFirst(node);
      }
    }

    /** Puts an element behind `prev`, which is not the last; so there is a next element. */
    method Splice(prev: Link, node: Link, ghost k: nat)
      requires Valid() && node !in chain && 0 < k < |chain| - 1 && chain[k] == prev
      modifies this, chain, node
      ensures Valid() && chain == old(chain[..k + 1]) + [node] + old(chain[k + 1..])
    {
      ghost var before := chain;
      assert chain[k].next == chain[k + 1];
      node.prev := prev;
      node.next := prev.next;
      prev.next := node;
      node.next.prev := node;
      count := count + 1;
      chain := before[..k + 1] + [node] + before[k + 1..];
      PutIn(before, k + 1, node, chain);
      forall i | 0 <= i < |chain| - 1
        ensures chain[i].next == chain[i + 1]
      {
        if i < k {
          assert old(before[i].next) == before[i + 1];
        } else if i > k + 1 {
          assert old(before[i - 1].next) == before[i];
        }
      }
      forall i | 0 < i < |chain|
        ensures chain[i].prev == chain[i - 1]
      {
        if i <= k {
          assert old(before[i].prev) == before[i - 1];
        } else if i > k + 2 {
          assert old(before[i - 1].prev) == before[i - 2];
        }
      }
    }

    /** Puts an element before the first. */
    method PutFirst(node: Link)
      requires Valid() && node !in chain && count > 0
      modifies this, chain, node
      ensures chain == old(chain[..1]) + [node] + old(chain[1..])
      ensures node.prev == null && !Valid()
    {
      ghost var before := chain;
      assert chain[0].next == chain[1];
      node.prev := null;
      node.next := head.next;
      head.next := node;
      node.next.prev := node;
      count := count + 1;
      chain := before[..1] + [node] + before[1..];
      assert chain[1] == node && before[0] == head;
      assert before[1] == old(head.next) by {
        assert old(before[0].next) == before[1];
      }
    }

    /** Takes an element out; returns where it was, or -1 if it is not in the list. */
    method Remove(node: Link) returns (index: int)
      requires Valid() && node != head
      modifies this, chain
      ensures Valid()
      ensures if node in old(chain) then
                0 <= index < old(count) && old(chain)[index + 1] == node && chain == old(chain[..index + 1]) + old(chain[index + 2..])
              else index == -1 && chain == old(chain)
    {
      if count == 0 {
        return -1;
      }
      ghost var before := chain;
      var nodeIndex, n := 0, head.next;
      while n != null
        invariant nodeIndex <= count && Valid() && chain == before && count == old(count)
        invariant n == if nodeIndex < count then chain[nodeIndex + 1] else null
        invariant forall i :: 0 <= i <= nodeIndex ==> chain[i] != node
        invariant forall l: Link :: l.next == old(l.next) && l.prev == old(l.prev)
        decreases count - nodeIndex
      {
        assert chain[nodeIndex + 1].next == if nodeIndex + 2 < |chain| then chain[nodeIndex + 2] else null;
        if node == n {
          Unlink(node, nodeIndex + 1);
          return nodeIndex;
        }
        n := n.next;
        nodeIndex := nodeIndex + 1;
      }
      return -1;
    }

    /** `node_child_position`: where an element is, or -1 if it is not in the list. */
    method IndexOf(node: Link) returns (index: int)
      requires Valid() && node != head
      ensures if node in chain then 0 <= index < count && chain[index + 1] == node else index == -1
    {
      var nodeIndex, n := 0, head.next;
      while n != null
        invariant nodeIndex <= count && n == if nodeIndex < count then chain[nodeIndex + 1] else null
        invariant forall i :: 0 <= i <= nodeIndex ==> chain[i] != node
        decreases count - nodeIndex
      {
        if n == node {
          return nodeIndex;
        }
        assert chain[nodeIndex + 1].next == if nodeIndex + 2 < |chain| then chain[nodeIndex + 2] else null;
        n := n.next;
        nodeIndex := nodeIndex + 1;
      }
      return -1;
    }

    /** In a valid list every element has a `prev`, be it the list itself. */
    method Unlink(node: Link, ghost k: nat)
      requires Valid() && 0 < k < |chain| && chain[k] == node
      modifies this, chain
      ensures Valid() && chain == old(chain[..k]) + old(chain[k + 1..])
    {
      ghost var before := chain;
      assert chain[k].prev == chain[k - 1];
      assert chain[k].next == if k + 1 < |chain| then chain[k + 1] else null;
      var newnode := node.next;
      node.prev.next := newnode;
      if newnode != null {
        newnode.prev := node.prev;
      } else {
        head.prev := node.prev;
      }
      count := count - 1;
      chain := before[..k] + before[k + 1..];
      TakenOut(before, k, chain);
      forall i | 0 <= i < |chain| - 1
        ensures chain[i].next == chain[i + 1]
      {
        if i < k - 1 {
          assert old(before[i].next) == before[i + 1];
        } else if i >= k {
          assert old(before[i + 1].next) == before[i + 2];
        }
      }
      forall i | 0 < i < |chain|
        ensures chain[i].prev == chain[i - 1]
      {
        if i < k {
          assert old(before[i].prev) == before[i - 1];
        } else if i > k {
          assert old(before[i + 1].prev) == before[i];
        }
      }
    }
  }

  lemma PutIn(before: seq<Link>, k: nat, node: Link, chain: seq<Link>)
    requires AllDistinct(before) && node !in before && k <= |before| && chain == before[..k] + [node] + before[k..]
    ensures AllDistinct(chain) && |chain| == |before| + 1 && chain[k] == node
    ensures forall i :: 0 <= i < k ==> chain[i] == before[i]
    ensures forall i :: k < i < |chain| ==> chain[i] == before[i - 1]
  {
  }

  lemma TakenOut(before: seq<Link>, k: nat, chain: seq<Link>)
    requires AllDistinct(before) && k < |before| && chain == before[..k] + before[k + 1..]
    ensures AllDistinct(chain) && |chain| == |before| - 1
    ensures forall i :: 0 <= i < k ==> chain[i] == before[i]
    ensures forall i :: k <= i < |chain| ==> chain[i] == before[i + 1]
  {
  }
}
