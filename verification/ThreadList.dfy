/**
 * The thread lists of kern/thread/threadlist.c: doubly linked nodes embedded in the
 * threads, between two sentinel nodes that belong to the list itself.
 */
module ThreadList {

  class Node {
    var prev: Node?
    var next: Node?
    var self: Thread?

    constructor ()
      ensures prev == null && next == null && self == null
    {
      prev, next, self := null, null, null;
    }
  }

  class Thread {
    const listnode: Node

    constructor ()
      ensures fresh(listnode) && Detached()
    {
      var n := new Node();
      listnode := n;
      new;
      n.self := this;
    }

    /** On no list: what threadlistnode_init sets up and threadlistnode_cleanup demands. */
    ghost predicate Detached()
      reads listnode
    {
      listnode.prev == null && listnode.next == null && listnode.self == this
    }
  }

  /** Neighbours in ns point at each other. */
  ghost predicate Joined(ns: seq<Node>, i: nat)
    requires i + 1 < |ns|
    reads ns
  {
    ns[i].next == ns[i + 1] && ns[i + 1].prev == ns[i]
  }

  /** The i-th thread's node is the one after the i-th of ns. */
  ghost predicate Embedded(ns: seq<Node>, ts: seq<Thread>, i: nat)
    requires i < |ts| && i + 1 < |ns|
    reads ts[i].listnode
  {
    ns[i + 1] == ts[i].listnode && ts[i].listnode.self == ts[i]
  }

  ghost predicate Apart(ns: seq<Node>) {
    forall i, j :: 0 <= i < j < |ns| ==> ns[i] != ns[j]
  }

  lemma ApartInsert(ns: seq<Node>, k: nat, n: Node)
    requires Apart(ns) && k <= |ns| && n !in ns
    ensures Apart(ns[..k] + [n] + ns[k..])
  {
  }

  lemma ApartRemove(ns: seq<Node>, k: nat)
    requires Apart(ns) && k < |ns|
    ensures Apart(ns[..k] + ns[k + 1..])
  {
  }

  class List {
    const head: Node
    const tail: Node
    var count: nat
    ghost var nodes: seq<Node>
    ghost var threads: seq<Thread>

    /** The chain from head to tail, in both directions, runs through the nodes of `threads`. */
    ghost predicate Linked()
      reads this, nodes
    {
      && |nodes| == |threads| + 2 && nodes[0] == head && nodes[|nodes| - 1] == tail
      && head.prev == null && tail.next == null && head.self == null && tail.self == null
      && Apart(nodes)
      && (forall i :: 0 <= i < |threads| ==> nodes[i + 1] == threads[i].listnode && Embedded(nodes, threads, i))
      && (forall i :: 0 <= i < |nodes| - 1 ==> Joined(nodes, i))
    }

    ghost predicate Valid()
      reads this, nodes
    {
      Linked() && count == |threads|
    }

    constructor ()
      ensures Valid() && threads == [] && fresh(nodes)
    {
      var h := new Node();
      var t := new Node();
      head, tail, count, nodes, threads := h, t, 0, [h, t], [];
      new;
      head.next, tail.prev := tail, head;
      assert Joined(nodes, 0);
    }

    method IsEmpty() returns (r: bool)
      requires Valid()
      ensures r == (threads == [])
    {
      return count == 0;
    }

    // ----- internal: the count is left to the caller -----

    method InsertAfterNode(onlist: Node, t: Thread, ghost k: nat)
      requires Linked() && t.Detached() && k <= |threads| && onlist == nodes[k]
      modifies this`nodes, this`threads, nodes, t.listnode
      ensures Linked() && count == old(count)
      ensures threads == old(threads)[..k] + [t] + old(threads)[k..]
      ensures nodes == old(nodes)[..k + 1] + [t.listnode] + old(nodes)[k + 1..]
    {
      var addee := t.listnode;
      NotOnList(addee);
      ghost var was := nodes;
      assert Joined(nodes, k);
      ApartInsert(was, k + 1, addee);
      addee.prev := onlist;
      addee.next := onlist.next;
      addee.prev.next := addee;
      addee.next.prev := addee;
      nodes := nodes[..k + 1] + [addee] + nodes[k + 1..];
      threads := threads[..k] + [t] + threads[k..];
      forall i | 0 <= i < |nodes| - 1 ensures Joined(nodes, i) {
        if i < k { assert old(Joined(was, i)); } else if i > k + 1 { assert old(Joined(was, i - 1)); }
      }
      forall i | 0 <= i < |threads| ensures nodes[i + 1] == threads[i].listnode && Embedded(nodes, threads, i) {
        if i < k { assert old(Embedded(was, threads, i)); } else if i > k { assert old(Embedded(was, threads, i - 1)); }
      }
    }

    method InsertBeforeNode(t: Thread, onlist: Node, ghost k: nat)
      requires Linked() && t.Detached() && k <= |threads| && onlist == nodes[k + 1]
      modifies this`nodes, this`threads, nodes, t.listnode
      ensures Linked() && count == old(count)
      ensures threads == old(threads)[..k] + [t] + old(threads)[k..]
      ensures nodes == old(nodes)[..k + 1] + [t.listnode] + old(nodes)[k + 1..]
    {
      var addee := t.listnode;
      NotOnList(addee);
      ghost var was := nodes;
      assert Joined(nodes, k);
      ApartInsert(was, k + 1, addee);
      addee.prev := onlist.prev;
      addee.next := onlist;
      addee.prev.next := addee;
      addee.next.prev := addee;
      nodes := nodes[..k + 1] + [addee] + nodes[k + 1..];
      threads := threads[..k] + [t] + threads[k..];
      forall i | 0 <= i < |nodes| - 1 ensures Joined(nodes, i) {
        if i < k { assert old(Joined(was, i)); } else if i > k + 1 { assert old(Joined(was, i - 1)); }
      }
      forall i | 0 <= i < |threads| ensures nodes[i + 1] == threads[i].listnode && Embedded(nodes, threads, i) {
        if i < k { assert old(Embedded(was, threads, i)); } else if i > k { assert old(Embedded(was, threads, i - 1)); }
      }
    }

    method RemoveNode(tln: Node, ghost k: nat)
      requires Linked() && k < |threads| && tln == threads[k].listnode
      modifies this`nodes, this`threads, nodes
      ensures Linked() && count == old(count)
      ensures threads == old(threads)[..k] + old(threads)[k + 1..]
      ensures nodes == old(nodes)[..k + 1] + old(nodes)[k + 2..]
      ensures old(threads)[k].Detached()
    {
      ghost var was := nodes;
      assert tln == nodes[k + 1] && Joined(nodes, k) && Joined(nodes, k + 1);
      ApartRemove(was, k + 1);
      tln.prev.next := tln.next;
      tln.next.prev := tln.prev;
      tln.prev := null;
      tln.next := null;
      nodes := nodes[..k + 1] + nodes[k + 2..];
      threads := threads[..k] + threads[k + 1..];
      forall i | 0 <= i < |nodes| - 1 ensures Joined(nodes, i) {
        if i < k { assert old(Joined(was, i)); } else if i > k { assert old(Joined(was, i + 1)); }
      }
      forall i | 0 <= i < |threads| ensures nodes[i + 1] == threads[i].listnode && Embedded(nodes, threads, i) {
        if i < k { assert old(Embedded(was, threads, i)); } else { assert old(Embedded(was, threads, i + 1)); }
      }
    }

    lemma NotOnList(n: Node)
      requires Linked() && n.prev == null && n.next == null
      ensures n !in nodes
    {
      forall i | 0 <= i < |nodes| ensures nodes[i] != n {
        if i == 0 { assert Joined(nodes, 0); } else { assert Joined(nodes, i - 1); }
      }
    }

    // ----- public -----

    method AddHead(t: Thread)
      requires Valid() && t.Detached()
      modifies this, nodes, t.listnode
      ensures Valid() && threads == [t] + old(threads)
      ensures nodes == [head, t.listnode] + old(nodes)[1..]
    {
      InsertAfterNode(head, t, 0);
      count := count + 1;
    }

    method AddTail(t: Thread)
      requires Valid() && t.Detached()
      modifies this, nodes, t.listnode
      ensures Valid() && threads == old(threads) + [t]
      ensures nodes == old(nodes)[..|old(nodes)| - 1] + [t.listnode, tail]
    {
      InsertBeforeNode(t, tail, |threads|);
      count := count + 1;
    }

    /** The first thread, taken off the list; NULL from an empty list. */
    method RemHead() returns (r: Thread?)
      requires Valid()
      modifies this, nodes
      ensures Valid() && (r == null <==> old(threads) == [])
      ensures r == null ==> threads == [] && nodes == old(nodes)
      ensures r != null ==> r == old(threads)[0] && threads == old(threads)[1..] && r.Detached()
      ensures r != null ==> nodes == [head] + old(nodes)[2..]
    {
      var tln := head.next;
      assert Joined(nodes, 0) && (threads != [] ==> Joined(nodes, 1));
      if tln.next == null {
        return null;
      }
      assert tln == threads[0].listnode;
      RemoveNode(tln, 0);
      count := count - 1;
      r := tln.self;
    }

    /** The last thread, taken off the list; NULL from an empty list. */
    method RemTail() returns (r: Thread?)
      requires Valid()
      modifies this, nodes
      ensures Valid() && (r == null <==> old(threads) == [])
      ensures r == null ==> threads == [] && nodes == old(nodes)
      ensures r != null ==>
                r == old(threads)[|old(threads)| - 1] && threads == old(threads)[..|old(threads)| - 1] && r.Detached()
      ensures r != null ==> nodes == old(nodes)[..|old(nodes)| - 2] + [tail]
    {
      var tln := tail.prev;
      assert Joined(nodes, |nodes| - 2) && (threads != [] ==> Joined(nodes, |nodes| - 3));
      if tln.prev == null {
        return null;
      }
      assert tln == threads[|threads| - 1].listnode;
      RemoveNode(tln, |threads| - 1);
      count := count - 1;
      r := tln.self;
    }

    method InsertAfter(onlist: Thread, addee: Thread, ghost k: nat)
      requires Valid() && addee.Detached() && k < |threads| && threads[k] == onlist
      modifies this, nodes, addee.listnode
      ensures Valid() && threads == old(threads)[..k + 1] + [addee] + old(threads)[k + 1..]
    {
      assert onlist.listnode == nodes[k + 1];
      InsertAfterNode(onlist.listnode, addee, k + 1);
      count := count + 1;
    }

    method InsertBefore(addee: Thread, onlist: Thread, ghost k: nat)
      requires Valid() && addee.Detached() && k < |threads| && threads[k] == onlist
      modifies this, nodes, addee.listnode
      ensures Valid() && threads == old(threads)[..k] + [addee] + old(threads)[k..]
    {
      assert onlist.listnode == nodes[k + 1];
      InsertBeforeNode(addee, onlist.listnode, k);
      count := count + 1;
    }

    method Remove(t: Thread, ghost k: nat)
      requires Valid() && k < |threads| && threads[k] == t
      modifies this, nodes
      ensures Valid() && threads == old(threads)[..k] + old(threads)[k + 1..] && t.Detached()
    {
      RemoveNode(t.listnode, k);
      count := count - 1;
    }
  }
}
