/** Property list trees and how two of their nodes compare. */
module Plist {
  import opened Bytes
  import opened Utf

  /**
   A node.  Data, arrays and dictionaries carry the address of the node object: data nodes hash by it,
   and containers compare by it.  The items of a dictionary are keys and values in turn.
   */
  datatype Node =
    | Bool(b: bool)
    | Uint(val: nat, wide: bool)
    | Uid(val: nat)
    | Real(bits: seq<Byte>)
    | Date(bits: seq<Byte>)
    | Str(text: seq<Byte>)
    | Key(text: seq<Byte>)
    | Data(addr: nat, bytes: seq<Byte>)
    | Array(addr: nat, items: seq<Node>)
    | Dict(addr: nat, items: seq<Node>)
  {
    predicate Container()
    {
      Array? || Dict?
    }

    function Children(): seq<Node>
    {
      if Container() then items else []
    }
  }

  /** `plist_data_compare`: by value, containers by identity. */
  predicate Same(a: Node, b: Node)
  {
    match (a, b)
    case (Data(_, x), Data(_, y)) => x == y
    case (Array(x, _), Array(y, _)) => x == y
    case (Dict(x, _), Dict(y, _)) => x == y
    case (_, _) => a == b
  }

  /** The tree without its addresses. */
  function Erase(n: Node): Node
  {
    match n
    case Data(_, bytes) => Data(0, bytes)
    case Array(_, items) => Array(0, EraseAll(items))
    case Dict(_, items) => Dict(0, EraseAll(items))
    case _ => n
  }

  function EraseAll(items: seq<Node>): (r: seq<Node>)
    ensures |r| == |items|
  {
    if items == [] then [] else [Erase(items[0])] + EraseAll(items[1..])
  }

  predicate Text(t: seq<Byte>)
  {
    WellFormed(t) && 0 !in t
  }

  /** Trees the binary format can hold: no reals or dates, 64-bit integers, 32-bit identifiers,
      well-formed text, and dictionaries that alternate keys and values. */
  predicate Storable(n: Node)
  {
    match n
    case Bool(_) => true
    case Uint(v, _) => v < 0x1_0000_0000_0000_0000
    case Uid(v) => v < 0x1_0000_0000
    case Real(_) => false
    case Date(_) => false
    case Str(t) => Text(t)
    case Key(t) => Text(t)
    case Data(_, _) => true
    case Array(_, items) => forall i :: 0 <= i < |items| ==> Storable(items[i]) && !items[i].Key?
    case Dict(_, items) => |items| % 2 == 0 && forall i :: 0 <= i < |items| ==> Storable(items[i]) && (items[i].Key? <==> i % 2 == 0)
  }

  /** Every node of the tree. */
  ghost function Nodes(n: Node): set<Node>
  {
    {n} + if n.Container() then NodesAll(n.items) else {}
  }

  ghost function NodesAll(items: seq<Node>): set<Node>
  {
    if items == [] then {} else Nodes(items[0]) + NodesAll(items[1..])
  }

  ghost function Addrs(n: Node): set<nat>
  {
    if n.Container() then {n.addr} + AddrsAll(n.items) else {}
  }

  ghost function AddrsAll(items: seq<Node>): set<nat>
  {
    if items == [] then {} else Addrs(items[0]) + AddrsAll(items[1..])
  }

  /** Containers are separate objects: no address occurs twice. */
  ghost predicate Distinct(n: Node)
  {
    n.Container() ==> n.addr !in AddrsAll(n.items) && DistinctAll(n.items)
  }

  ghost predicate DistinctAll(items: seq<Node>)
  {
    items == [] || (Distinct(items[0]) && Addrs(items[0]) !! AddrsAll(items[1..]) && DistinctAll(items[1..]))
  }

  ghost function Size(n: Node): nat
  {
    1 + if n.Container() then SizeAll(n.items) else 0
  }

  ghost function SizeAll(items: seq<Node>): nat
  {
    if items == [] then 0 else Size(items[0]) + SizeAll(items[1..])
  }

  lemma {:induction false} SizeOfItem(items: seq<Node>, i: nat)
    requires i < |items|
    ensures Size(items[i]) <= SizeAll(items)
  {
    if i > 0 {
      SizeOfItem(items[1..], i - 1);
    }
  }

  lemma {:induction false} ItemNodes(items: seq<Node>, i: nat)
    requires i < |items|
    ensures Nodes(items[i]) <= NodesAll(items)
  {
    if i > 0 {
      ItemNodes(items[1..], i - 1);
    }
  }

  lemma SameSymmetric(a: Node, b: Node)
    ensures Same(a, b) == Same(b, a)
  {
  }

  lemma SameTransitive(a: Node, b: Node, c: Node)
    requires Same(a, b) && Same(b, c)
    ensures Same(a, c)
  {
  }

  /** A child of a node of the tree is a node of the tree. */
  lemma {:induction false} ChildNode(root: Node, n: Node, i: nat)
    requires n in Nodes(root) && i < |n.Children()|
    ensures n.Children()[i] in Nodes(root)
    decreases root, 0
  {
    if n == root {
      ItemNodes(root.Children(), i);
    } else {
      ChildNodeAll(root.Children(), n, i);
    }
  }

  lemma {:induction false} ChildNodeAll(items: seq<Node>, n: Node, i: nat)
    requires n in NodesAll(items) && i < |n.Children()|
    ensures n.Children()[i] in NodesAll(items)
    decreases items, 1
  {
    if n in Nodes(items[0]) {
      ChildNode(items[0], n, i);
    } else {
      ChildNodeAll(items[1..], n, i);
    }
  }

  lemma {:induction false} AddrOfNode(root: Node, n: Node)
    requires n in Nodes(root) && n.Container()
    ensures n.addr in Addrs(root)
    decreases root, 0
  {
    if n != root {
      AddrOfNodeAll(root.Children(), n);
    }
  }

  lemma {:induction false} AddrOfNodeAll(items: seq<Node>, n: Node)
    requires n in NodesAll(items) && n.Container()
    ensures n.addr in AddrsAll(items)
    decreases items, 1
  {
    if n in Nodes(items[0]) {
      AddrOfNode(items[0], n);
    } else {
      AddrOfNodeAll(items[1..], n);
    }
  }

  /** Two containers of the tree with the same address are the same node. */
  lemma {:induction false} AddrIsIdentity(root: Node, a: Node, b: Node)
    requires Distinct(root) && a in Nodes(root) && b in Nodes(root)
    requires a.Container() && b.Container() && a.addr == b.addr
    ensures a == b
    decreases root, 0
  {
    if a == root {
      if b != root {
        AddrOfNodeAll(root.Children(), b);
      }
    } else if b == root {
      AddrOfNodeAll(root.Children(), a);
    } else {
      AddrIsIdentityAll(root.Children(), a, b);
    }
  }

  lemma {:induction false} AddrIsIdentityAll(items: seq<Node>, a: Node, b: Node)
    requires DistinctAll(items) && a in NodesAll(items) && b in NodesAll(items)
    requires a.Container() && b.Container() && a.addr == b.addr
    ensures a == b
    decreases items, 1
  {
    var head, tail := items[0], items[1..];
    if a in Nodes(head) {
      AddrOfNode(head, a);
      if b in Nodes(head) {
        AddrIsIdentity(head, a, b);
      } else {
        AddrOfNodeAll(tail, b);
      }
    } else {
      AddrOfNodeAll(tail, a);
      if b in Nodes(head) {
        AddrOfNode(head, b);
      } else {
        AddrIsIdentityAll(tail, a, b);
      }
    }
  }

  /** What two nodes of the tree that compare equal have in common: everything but addresses. */
  lemma {:induction false} SameErases(root: Node, a: Node, b: Node)
    requires Distinct(root) && a in Nodes(root) && b in Nodes(root) && Same(a, b)
    ensures Erase(a) == Erase(b) && Size(a) == Size(b)
    ensures a.Container() ==> a == b
  {
    if a.Container() {
      AddrIsIdentity(root, a, b);
    }
  }

  lemma {:induction false} StorableNode(root: Node, n: Node)
    requires Storable(root) && n in Nodes(root)
    ensures Storable(n)
    decreases root, 0
  {
    if n != root {
      StorableNodeAll(root.Children(), n);
    }
  }

  lemma {:induction false} StorableNodeAll(items: seq<Node>, n: Node)
    requires (forall i :: 0 <= i < |items| ==> Storable(items[i])) && n in NodesAll(items)
    ensures Storable(n)
    decreases items, 1
  {
    if n in Nodes(items[0]) {
      StorableNode(items[0], n);
    } else {
      StorableNodeAll(items[1..], n);
    }
  }
}
