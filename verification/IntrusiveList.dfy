/** The circular doubly linked list with a sentinel, whose nodes are embedded in other objects. */
module IntrusiveList {

  class ListNode {
    var next: ListNode?
    var prev: ListNode?
    /** The object this node is embedded in, the result of container_of; null for a sentinel. */
    var container: object?
    /** The list this node is linked into. */
    ghost var home: List?

    constructor ()
      ensures next == null && prev == null && container == null && home == null
    {
      next, prev, container, home := null, null, null, null;
    }
  }

  ghost predicate Distinct<T>(s: seq<T>)
  {
    forall i, j :: 0 <= i < j < |s| ==> s[i] != s[j]
  }

  /** The sequence s with the element at k taken out. */
  function Without<T>(s: seq<T>, k: nat): (r: seq<T>)
    requires k < |s|
    ensures |r| == |s| - 1
    ensures Distinct(s) ==> Distinct(r)
  {
    s[..k] + s[k + 1..]
  }

  /** The node at position i of a ring, where the sentinel stands at both ends. */
  ghost function Ring(root: ListNode, nodes: seq<ListNode>, i: int): ListNode
  {
    if 0 <= i < |nodes| then nodes[i] else root
  }

  /** The neighbours in the ring after taking k out: those at k close up, the others stay. */
  lemma RingWithout(root: ListNode, s: seq<ListNode>, k: nat, i: int)
    requires k < |s| && 0 <= i < |s| - 1
    ensures var r, j := Without(s, k), if i < k then i else i + 1;
            && r[i] == s[j] && j != k
            && Ring(root, r, i + 1) == Ring(root, s, if j == k - 1 then k + 1 else j + 1)
            && Ring(root, r, i - 1) == Ring(root, s, if j == k + 1 then k - 1 else j - 1)
  {
  }

  lemma RingEnds(root: ListNode, s: seq<ListNode>, k: nat)
    requires k < |s|
    ensures var r := Without(s, k);
            && Ring(root, r, 0) == Ring(root, s, if k == 0 then 1 else 0)
            && Ring(root, r, |r| - 1) == Ring(root, s, if k == |s| - 1 then k - 1 else |s| - 1)
  {
  }

  class List {
    const root: ListNode
    var size: nat
    /** The list's value: its nodes from head to tail. */
    ghost var nodes: seq<ListNode>

    ghost predicate Valid()
      reads this, root, nodes
    {
      && size == |nodes|
      && root.home == this && (forall i :: 0 <= i < |nodes| ==> nodes[i] != root)
      && root.next == Ring(root, nodes, 0) && root.prev == Ring(root, nodes, |nodes| - 1)
      && (forall i {:trigger nodes[i].home} :: 0 <= i < |nodes| ==> nodes[i].home == this)
      && (forall i {:trigger nodes[i].next} :: 0 <= i < |nodes| ==> nodes[i].next == Ring(root, nodes, i + 1))
      && (forall i {:trigger nodes[i].prev} :: 0 <= i < |nodes| ==> nodes[i].prev == Ring(root, nodes, i - 1))
      && Distinct(nodes)
    }

    constructor ()
      ensures Valid() && nodes == [] && fresh(root)
    {
      root := new ListNode();
      size, nodes := 0, [];
      new;
      root.next, root.prev, root.home := root, root, this;
    }

    /** __list_add */
    static method ListAdd(newNode: ListNode, prev: ListNode, next: ListNode)
      requires newNode != prev && newNode != next
      modifies newNode`next, newNode`prev, prev`next, next`prev
      ensures prev.next == newNode == next.prev
      ensures newNode.next == next && newNode.prev == prev
    {
      next.prev := newNode;
      newNode.next := next;
      newNode.prev := prev;
      prev.next := newNode;
    }

    method PushHead(newNode: ListNode)
      requires Valid() && newNode.home == null
      modifies this`size, this`nodes, root`next, root`prev, nodes`next, nodes`prev
      modifies newNode`next, newNode`prev, newNode`home
      ensures Valid() && nodes == [newNode] + old(nodes)
    {
      ListAdd(newNode, root, root.next);
      size := size + 1;
      newNode.home := this;
      nodes := [newNode] + nodes;
    }

    method PushTail(newNode: ListNode)
      requires Valid() && newNode.home == null
      modifies this`size, this`nodes, root`next, root`prev, nodes`next, nodes`prev
      modifies newNode`next, newNode`prev, newNode`home
      ensures Valid() && nodes == old(nodes) + [newNode]
    {
      ListAdd(newNode, root.prev, root);
      size := size + 1;
      newNode.home := this;
      nodes := nodes + [newNode];
    }

    /** Joins the neighbours of a node and clears its own links. */
    static method Bypass(node: ListNode)
      requires node.prev != null && node.next != null && node.prev != node && node.next != node
      modifies node`next, node`prev, node.prev`next, node.next`prev
      ensures old(node.prev).next == old(node.next) && old(node.next).prev == old(node.prev)
      ensures node.next == null && node.prev == null
    {
      node.prev.next := node.next;
      node.next.prev := node.prev;
      node.next := null;
      node.prev := null;
    }

    /** The links of list_remove_node for the node at position k: its neighbours close up. */
    method Unhook(node: ListNode, ghost k: nat)
      requires Valid() && k < |nodes| && nodes[k] == node
      modifies root`next, root`prev, nodes`next, nodes`prev
      ensures node.next == null && node.prev == null
      ensures root.next == Ring(root, nodes, if k == 0 then 1 else 0)
      ensures root.prev == Ring(root, nodes, if k == |nodes| - 1 then k - 1 else |nodes| - 1)
      ensures forall i {:trigger nodes[i].next} :: 0 <= i < |nodes| && i != k ==>
                nodes[i].next == Ring(root, nodes, if i == k - 1 then k + 1 else i + 1)
      ensures forall i {:trigger nodes[i].prev} :: 0 <= i < |nodes| && i != k ==>
                nodes[i].prev == Ring(root, nodes, if i == k + 1 then k - 1 else i - 1)
    {
      assert node.prev == Ring(root, nodes, k - 1) && node.next == Ring(root, nodes, k + 1);
      Bypass(node);
    }

    /** The update of list_remove_node for the node at position k. */
    method Detach(node: ListNode, ghost k: nat)
      requires Valid() && k < |nodes| && nodes[k] == node
      modifies this`size, this`nodes, root`next, root`prev, nodes`next, nodes`prev, node`home
      ensures Valid() && nodes == Without(old(nodes), k)
      ensures node.next == null && node.prev == null && node.home == null
    {
      ghost var was := nodes;
      Unhook(node, k);
      size := size - 1;
      node.home := null;
      nodes := Without(was, k);
      RingEnds(root, was, k);
      hide Without, Distinct, Ring;
      forall i {:trigger nodes[i].next} | 0 <= i < |nodes|
        ensures nodes[i].next == Ring(root, nodes, i + 1)
      {
        RingWithout(root, was, k, i);
      }
      forall i {:trigger nodes[i].prev} | 0 <= i < |nodes|
        ensures nodes[i].prev == Ring(root, nodes, i - 1)
      {
        RingWithout(root, was, k, i);
      }
      forall i {:trigger nodes[i].home} | 0 <= i < |nodes|
        ensures nodes[i].home == this && nodes[i] != root
      {
        RingWithout(root, was, k, i);
      }
    }

    /**
      Unlinks a node of this list.  The error results are those of the source: no node, the sentinel,
      an empty list.  The position k is known to the proof only.
     */
    method RemoveNode(node: ListNode?, ghost k: nat) returns (code: nat)
      requires Valid()
      requires node == null || node == root || nodes == [] || (k < |nodes| && nodes[k] == node)
      modifies this`size, this`nodes, root`next, root`prev, nodes`next, nodes`prev
      modifies (if node == null then {} else {node})`home
      ensures Valid()
      ensures code == if node == null || node == root || old(nodes) == [] then 1 else 0
      ensures code == 1 ==> nodes == old(nodes)
      ensures code == 0 ==>
                nodes == Without(old(nodes), k) &&
                node.next == null && node.prev == null && node.home == null
    {
      if node == null || node == root || size == 0 {
        return 1;
      }
      Detach(node, k);
      return 0;
    }

    /** NULL exactly when the list is empty. */
    method PopHead() returns (target: ListNode?)
      requires Valid()
      modifies this`size, this`nodes, root`next, root`prev, nodes`next, nodes`prev
      modifies (if nodes == [] then {} else {nodes[0]})`home
      ensures Valid()
      ensures old(nodes) == [] ==> target == null && nodes == []
      ensures old(nodes) != [] ==>
                target == old(nodes)[0] && nodes == old(nodes)[1..] &&
                target.next == null && target.prev == null && target.home == null
    {
      if size == 0 {
        return null;
      }
      target := root.next;
      var _ := RemoveNode(target, 0);
    }

    method PopTail() returns (target: ListNode?)
      requires Valid()
      modifies this`size, this`nodes, root`next, root`prev, nodes`next, nodes`prev
      modifies (if nodes == [] then {} else {nodes[|nodes| - 1]})`home
      ensures Valid()
      ensures old(nodes) == [] ==> target == null && nodes == []
      ensures old(nodes) != [] ==>
                target == old(nodes)[|old(nodes)| - 1] && nodes == old(nodes)[..|old(nodes)| - 1] &&
                target.next == null && target.prev == null && target.home == null
    {
      if size == 0 {
        return null;
      }
      target := root.prev;
      var _ := RemoveNode(target, |nodes| - 1);
    }

    /** The loop of list_free: every node ends up unlinked. */
    method Free()
      requires Valid()
      modifies this`size, this`nodes, root`next, root`prev, nodes`next, nodes`prev, nodes`home
      ensures Valid() && nodes == []
      ensures forall n :: n in old(nodes) ==> n.next == null && n.prev == null && n.home == null
    {
      ghost var all := nodes;
      while size > 0
        invariant Valid()
        invariant forall i :: 0 <= i < |nodes| ==> nodes[i] in all
        invariant forall n :: n in all && n !in nodes ==> n.next == null && n.prev == null && n.home == null
        decreases size
      {
        ghost var was := nodes;
        var target := PopHead();
        assert forall i :: 0 <= i < |was| ==> was[i] == target || was[i] == nodes[i - 1];
      }
    }
  }

  /**
    Why a node must not be pushed twice: linking a node of one list into another makes the first
    list's ring lead into the second.
   */
  method LinkTwice() returns (a: List, b: List, node: ListNode)
    ensures a.nodes == [node] && a.root.next == node && node.next == b.root && a.root != b.root && b.root.prev == node
    ensures !a.Valid()
  {
    a := new List();
    b := new List();
    node := new ListNode();
    a.PushTail(node);
    List.ListAdd(node, b.root.prev, b.root);
  }
}
