/** The parse tree: a root without userdata and nodes that each carry one
    userdata value, a data-type slot and their children in creation order.
    Nodes live in an arena and refer to each other by index; the root is
    index 0 and is its own parent. */
module ParseTrees {
  import opened Results
  import opened Information

  datatype Node<T> = Node(parent: nat, children: seq<nat>, userdata: Option<T>, dataType: FundamentalType)

  const RootIndex: nat := 0

  /** The root node: its own parent, no userdata, data type NONE. */
  function RootNode<T>(): Node<T> {
    Node(RootIndex, [], None, NoneType)
  }

  /** Every node but the root has a parent created before it; the root is
      its own parent. */
  ghost predicate Rooted<T>(nodes: seq<Node<T>>) {
    |nodes| > 0 && nodes[0].parent == 0
    && forall n {:trigger nodes[n].parent} :: 0 < n < |nodes| ==> nodes[n].parent < n
  }

  /** The arena is a tree rooted at index 0: every other node has userdata
      and is listed among the children of a parent created before it, and
      every node's children were created after it, in increasing order. */
  ghost predicate Linked<T>(nodes: seq<Node<T>>) {
    Rooted(nodes) && nodes[0].userdata.None?
    && ListedByParent(nodes) && ChildrenAfter(nodes) && ChildrenIncreasing(nodes)
  }

  /** Every node but the root has userdata and is among its parent's
      children. */
  ghost predicate ListedByParent<T>(nodes: seq<Node<T>>)
    requires Rooted(nodes)
  {
    forall n {:trigger nodes[n].parent} :: 0 < n < |nodes| ==>
      nodes[n].userdata.Some? && n in nodes[nodes[n].parent].children
  }

  /** Every child was created after its parent and names it as parent. */
  ghost predicate ChildrenAfter<T>(nodes: seq<Node<T>>) {
    forall n, j :: 0 <= n < |nodes| && 0 <= j < |nodes[n].children| ==>
      n < nodes[n].children[j] < |nodes| && nodes[nodes[n].children[j]].parent == n
  }

  ghost predicate ChildrenIncreasing<T>(nodes: seq<Node<T>>) {
    forall n, j, k :: 0 <= n < |nodes| && 0 <= j < k < |nodes[n].children| ==>
      nodes[n].children[j] < nodes[n].children[k]
  }

  /** create_child on node n: a new last node, child of n, with the given
      userdata, data type NONE and no children. */
  function AddChild<T>(nodes: seq<Node<T>>, n: nat, data: T): (r: seq<Node<T>>)
    requires Rooted(nodes) && n < |nodes|
    ensures Rooted(r)
    ensures |r| == |nodes| + 1 && r[|nodes|] == Node(n, [], Some(data), NoneType)
    ensures r[n] == nodes[n].(children := nodes[n].children + [|nodes|])
    ensures forall m :: 0 <= m < |nodes| && m != n ==> r[m] == nodes[m]
  {
    var r := nodes[n := nodes[n].(children := nodes[n].children + [|nodes|])] + [Node(n, [], Some(data), NoneType)];
    assert forall m :: 0 <= m < |nodes| && m != n ==> r[m] == nodes[m];
    r
  }

  /** Adding a child keeps the arena a tree. */
  lemma AddChildLinked<T>(nodes: seq<Node<T>>, n: nat, data: T)
    requires Linked(nodes) && n < |nodes|
    ensures Linked(AddChild(nodes, n, data))
  {
    AddChildListed(nodes, n, data);
    AddChildAfter(nodes, n, data);
    AddChildIncreasing(nodes, n, data);
  }

  lemma AddChildListed<T>(nodes: seq<Node<T>>, n: nat, data: T)
    requires Rooted(nodes) && ListedByParent(nodes) && n < |nodes|
    ensures ListedByParent(AddChild(nodes, n, data))
  {
    var r := AddChild(nodes, n, data);
    forall m | 0 < m < |r|
      ensures r[m].userdata.Some? && m in r[r[m].parent].children
    {
      if m < |nodes| {
        assert m in nodes[nodes[m].parent].children;
      }
    }
  }

  lemma AddChildAfter<T>(nodes: seq<Node<T>>, n: nat, data: T)
    requires Rooted(nodes) && ChildrenAfter(nodes) && n < |nodes|
    ensures ChildrenAfter(AddChild(nodes, n, data))
  {
    var r := AddChild(nodes, n, data);
    forall m, j | 0 <= m < |r| && 0 <= j < |r[m].children|
      ensures m < r[m].children[j] < |r| && r[r[m].children[j]].parent == m
    {
      if m != n || j < |nodes[n].children| {
        assert r[m].children[j] == nodes[m].children[j];
      }
    }
  }

  lemma AddChildIncreasing<T>(nodes: seq<Node<T>>, n: nat, data: T)
    requires Rooted(nodes) && ChildrenAfter(nodes) && ChildrenIncreasing(nodes) && n < |nodes|
    ensures ChildrenIncreasing(AddChild(nodes, n, data))
  {
    var r := AddChild(nodes, n, data);
    forall m, j, k | 0 <= m < |r| && 0 <= j < k < |r[m].children|
      ensures r[m].children[j] < r[m].children[k]
    {
      if m == n && k == |nodes[n].children| {
        assert r[m].children[j] == nodes[m].children[j];
      } else {
        assert r[m].children[j] == nodes[m].children[j];
        assert r[m].children[k] == nodes[m].children[k];
      }
    }
  }

  /** The number of parent steps from node n up to the root. */
  ghost function Depth<T>(nodes: seq<Node<T>>, n: nat): nat
    requires Rooted(nodes) && n < |nodes|
    decreases n
  {
    if n == 0 then 0 else 1 + Depth(nodes, nodes[n].parent)
  }

  /** Adding a child leaves every depth as it was and puts the child one
      level below its parent. */
  lemma {:induction false} AddChildDepth<T>(nodes: seq<Node<T>>, n: nat, data: T, m: nat)
    requires Rooted(nodes) && n < |nodes| && m <= |nodes|
    ensures Depth(AddChild(nodes, n, data), m) == if m == |nodes| then Depth(nodes, n) + 1 else Depth(nodes, m)
    decreases m
  {
    var r := AddChild(nodes, n, data);
    if m == |nodes| {
      AddChildDepth(nodes, n, data, n);
    } else if m > 0 {
      AddChildDepth(nodes, n, data, nodes[m].parent);
    }
  }

  /** Node m is n or lies in the subtree below n. */
  ghost predicate Below<T>(nodes: seq<Node<T>>, m: nat, n: nat)
    requires Linked(nodes) && m < |nodes|
    decreases m
  {
    m == n || (m > 0 && Below(nodes, nodes[m].parent, n))
  }

  /** A subtree only holds nodes created after its root. */
  lemma {:induction false} BelowAfter<T>(nodes: seq<Node<T>>, m: nat, n: nat)
    requires Linked(nodes) && m < |nodes| && Below(nodes, m, n)
    ensures n <= m
    decreases m
  {
    if m != n {
      BelowAfter(nodes, nodes[m].parent, n);
    }
  }

  /** The subtree of a child lies inside the subtree of its parent. */
  lemma {:induction false} BelowChild<T>(nodes: seq<Node<T>>, m: nat, n: nat, j: nat)
    requires Linked(nodes) && m < |nodes| && n < |nodes| && j < |nodes[n].children|
    requires Below(nodes, m, nodes[n].children[j])
    ensures Below(nodes, m, n)
    decreases m
  {
    if m != nodes[n].children[j] {
      BelowChild(nodes, nodes[m].parent, n, j);
    }
  }

  /** The subtrees of two different children of one node are disjoint. */
  lemma SiblingsDisjoint<T>(nodes: seq<Node<T>>, m: nat, n: nat, j: nat, k: nat)
    requires Linked(nodes) && m < |nodes| && n < |nodes|
    requires j < |nodes[n].children| && k < |nodes[n].children| && j != k
    requires Below(nodes, m, nodes[n].children[j])
    ensures !Below(nodes, m, nodes[n].children[k])
  {
    var a, b := nodes[n].children[j], nodes[n].children[k];
    assert a != b by {
      if j < k {
        assert a < b;
      } else {
        assert b < a;
      }
    }
    if Below(nodes, m, b) {
      if a < b {
        SiblingNotBelow(nodes, m, n, a, b);
      } else {
        SiblingNotBelow(nodes, m, n, b, a);
      }
    }
  }

  /** Of two siblings, the one created later does not lie below the other,
      so no node lies below both. */
  lemma SiblingNotBelow<T>(nodes: seq<Node<T>>, m: nat, n: nat, a: nat, b: nat)
    requires Linked(nodes) && m < |nodes| && n < a < b < |nodes|
    requires nodes[b].parent == n
    ensures !(Below(nodes, m, a) && Below(nodes, m, b))
  {
    if Below(nodes, m, a) && Below(nodes, m, b) {
      BelowOrdered(nodes, m, a, b);
      BelowAfter(nodes, n, a);
      assert false;
    }
  }

  /** Two nested subtree roots: whichever was created later lies below the
      other. */
  lemma {:induction false} BelowOrdered<T>(nodes: seq<Node<T>>, m: nat, a: nat, b: nat)
    requires Linked(nodes) && m < |nodes| && a < b < |nodes|
    requires Below(nodes, m, a) && Below(nodes, m, b)
    ensures Below(nodes, b, a)
    decreases m
  {
    if m != b {
      if m == a {
        BelowAfter(nodes, m, b);
      } else {
        BelowOrdered(nodes, nodes[m].parent, a, b);
      }
    }
  }

  /** A parse tree and its node operations. */
  class ParseTree<T> {
    var nodes: seq<Node<T>>

    ghost predicate Valid()
      reads this
    {
      Linked(nodes)
    }

    /** A tree holding only its root. */
    constructor ()
      ensures Valid() && nodes == [RootNode()]
    {
      nodes := [RootNode()];
    }

    /** Appends a child with the given userdata under node n and returns it. */
    method CreateChild(n: nat, data: T) returns (c: nat)
      requires Valid() && n < |nodes|
      modifies this
      ensures Valid() && c == old(|nodes|) && nodes == AddChild(old(nodes), n, data)
    {
      c := |nodes|;
      AddChildLinked(nodes, n, data);
      nodes := AddChild(nodes, n, data);
    }

    /** Only the root is its own parent; every other node is among its
        parent's children. */
    function Parent(n: nat): (p: nat)
      reads this
      requires Valid() && n < |nodes|
      ensures p < |nodes| && (p == n <==> n == RootIndex)
      ensures n != RootIndex ==> n in nodes[p].children
    {
      nodes[n].parent
    }

    function ChildCount(n: nat): nat
      reads this
      requires Valid() && n < |nodes|
    {
      |nodes[n].children|
    }

    /** The i-th child in creation order: created after n, with parent n. */
    function Child(n: nat, i: nat): (c: nat)
      reads this
      requires Valid() && n < |nodes| && i < ChildCount(n)
      ensures n < c < |nodes| && Parent(c) == n
      ensures forall j :: 0 <= j < i ==> Child(n, j) < c
    {
      nodes[n].children[i]
    }

    /** Every node but the root carries userdata. */
    predicate HasUserdata(n: nat)
      reads this
      requires Valid() && n < |nodes|
      ensures HasUserdata(n) <==> n != RootIndex
    {
      nodes[n].userdata.Some?
    }

    function Userdata(n: nat): T
      reads this
      requires Valid() && n < |nodes| && HasUserdata(n)
    {
      nodes[n].userdata.value
    }

    function DataType(n: nat): FundamentalType
      reads this
      requires Valid() && n < |nodes|
    {
      nodes[n].dataType
    }

    /** Sets the data type of node n and nothing else. */
    method SetDataType(n: nat, t: FundamentalType)
      requires Valid() && n < |nodes|
      modifies this
      ensures Valid() && nodes == old(nodes)[n := old(nodes)[n].(dataType := t)]
      ensures DataType(n) == t
    {
      nodes := nodes[n := nodes[n].(dataType := t)];
      assert forall m :: 0 <= m < |nodes| ==>
        nodes[m].parent == old(nodes)[m].parent && nodes[m].children == old(nodes)[m].children
        && nodes[m].userdata == old(nodes)[m].userdata;
    }
  }
}
