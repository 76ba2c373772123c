/** Singly linked lists as the server keeps them: nodes with `next` pointers, changed in place. */
module Chains {
  class Node<T> {
    var data: T
    var next: Node?<T>

    constructor (data: T, next: Node?<T>)
      ensures this.data == data && this.next == next
    {
      this.data, this.next := data, next;
    }
  }

  ghost function NodeAt<T>(s: seq<Node<T>>, k: nat): Node?<T> {
    if k < |s| then s[k] else null
  }

  /** `s` is exactly the sequence of nodes met from `head` by following `next` until null;
      no node is met twice, so the list is acyclic. */
  ghost predicate Chain<T>(head: Node?<T>, s: seq<Node<T>>)
    reads s
  {
    && head == NodeAt(s, 0)
    && (forall i {:trigger s[i].next} :: 0 <= i < |s| ==> s[i].next == NodeAt(s, i + 1))
    && (forall i, j :: 0 <= i < j < |s| ==> s[i] != s[j])
  }

  /** The nodes hold these items, in order. */
  ghost predicate Holds<T>(s: seq<Node<T>>, d: seq<T>)
    reads s
  {
    |s| == |d| && forall i :: 0 <= i < |s| ==> s[i].data == d[i]
  }

  /** A new node in front. */
  method Prepend<T>(x: T, head: Node?<T>, ghost nodes: seq<Node<T>>, ghost items: seq<T>)
    returns (newHead: Node<T>, ghost all: seq<Node<T>>)
    requires Chain(head, nodes) && Holds(nodes, items)
    ensures Chain(newHead, all) && Holds(all, [x] + items) && all == [newHead] + nodes && fresh(newHead)
  {
    newHead := new Node(x, head);
    all := [newHead] + nodes;
  }

  function Reverse<T>(s: seq<T>): (r: seq<T>)
    ensures |r| == |s| && forall i :: 0 <= i < |s| ==> r[i] == s[|s| - 1 - i]
  {
    if s == [] then [] else Reverse(s[1..]) + [s[0]]
  }

  /** A list that only grows at its end, like the server list and the MIME type list. */
  class AppendList<T> {
    var head: Node?<T>
    ghost var nodes: seq<Node<T>>

    ghost predicate Valid()
      reads this, nodes
    {
      Chain(head, nodes)
    }

    constructor ()
      ensures Valid() && nodes == []
    {
      head, nodes := null, [];
    }

    /** Walk to the last node and hang `n` after it. */
    method Append(n: Node<T>)
      requires Valid() && n !in nodes
      modifies this, nodes`next, n`next
      ensures Valid() && nodes == old(nodes) + [n]
    {
      n.next := null;
      if head == null {
        head := n;
      } else {
        var s := head;
        ghost var k := 0;
        while s.next != null
          invariant 0 <= k < |nodes| && s == nodes[k]
          invariant Chain(head, nodes) && n.next == null
          decreases |nodes| - k
        {
          s := s.next;
          k := k + 1;
        }
        s.next := n;
      }
      nodes := nodes + [n];
    }
  }

  /** An append-only list and what it holds: the server list (setServerList), the MIME types (setMimeTypeList). */
  class ItemList<T> {
    const list: AppendList<T>
    ghost var items: seq<T>
    ghost var Repr: set<object>     // this, the list and its nodes

    ghost predicate Valid()
      reads this, Repr
      ensures Valid() ==> this in Repr
    {
      && this in Repr && list in Repr && (forall n :: n in list.nodes ==> n in Repr) && list.Valid()
      && Holds(list.nodes, items)
    }

    constructor ()
      ensures Valid() && fresh(Repr) && items == []
    {
      list := new AppendList();
      items := [];
      new;
      Repr := {this, list};
    }

    method Append(x: T)
      requires Valid()
      modifies Repr
      ensures Valid() && items == old(items) + [x] && fresh(Repr - old(Repr))
    {
      var n := new Node(x, null);
      list.Append(n);
      items, Repr := items + [x], Repr + {n};
    }
  }

  ghost function Elements<T>(s: seq<Node<T>>): (r: set<object>)
    ensures (forall n :: n in s ==> n in r) && forall n <- r :: n in s
  {
    set n | n in s
  }

  lemma MovedInReverse<T>(all: seq<Node<T>>, held: seq<T>, moved: seq<Node<T>>)
    requires |moved| + 1 == |all| == |held|
    requires forall i :: 0 <= i < |moved| ==> moved[i] == all[|moved| - 1 - i] && moved[i].data == held[|moved| - 1 - i]
    ensures moved == Reverse(all[..|all| - 1]) && Holds(moved, Reverse(held[..|held| - 1]))
  {
  }

  /** What f_server hands to a server: the default alone is copied; otherwise all but the default, which is last. */
  function Taken<T>(items: seq<T>): seq<T> {
    if |items| <= 1 then items else items[..|items| - 1]
  }

  /** One of the file-static lists a configuration is collected in. New nodes go in front;
      the last node is the default and never leaves. */
  class PendingList<T> {
    var head: Node<T>
    ghost const default: Node<T>     // the last node, for good
    ghost var nodes: seq<Node<T>>
    ghost var items: seq<T>          // what the nodes hold
    ghost var Repr: set<object>      // this list and the nodes on it

    ghost predicate Valid()
      reads this, Repr
      ensures Valid() ==> this in Repr && nodes != [] && |items| == |nodes| && nodes[|nodes| - 1] == default
    {
      && this in Repr && Repr == {this} + Elements(nodes)
      && Chain(head, nodes) && Holds(nodes, items) && nodes != [] && nodes[|nodes| - 1] == default
    }

    constructor (init: T)
      ensures Valid() && fresh(Repr) && items == [init]
    {
      var n := new Node(init, null);
      head, nodes, items, Repr, default := n, [n], [init], {this, n}, n;
    }

    method Push(x: T)
      requires Valid()
      modifies this
      ensures Valid() && fresh(Repr - old(Repr)) && items == [x] + old(items)
      ensures fresh(nodes[0]) && nodes == [nodes[0]] + old(nodes)
    {
      var n := new Node(x, head);
      head, nodes, items, Repr := n, [n] + nodes, [x] + items, Repr + {n};
    }

    method UpdateHead(x: T)
      requires Valid()
      modifies this`items, head`data
      ensures Valid() && items == [x] + old(items)[1..]
    {
      head.data := x;
      items := [x] + items[1..];
    }

    /** Walk to the last node, the default, and see whether it is also the first. */
    method HoldsOnlyDefault() returns (alone: bool)
      requires Valid()
      ensures alone <==> |items| == 1
    {
      var d := head;
      ghost var k := 0;
      while d.next != null
        invariant 0 <= k < |nodes| && d == nodes[k]
        decreases |nodes| - k
      {
        d := d.next;
        k := k + 1;
      }
      assert k == |nodes| - 1 && nodes[0] == head;
      alone := head == d;
    }

    /** The walk of dupName and dupPort: every node but the last. */
    method HasPending<K(==)>(key: T -> K, k: K) returns (found: bool)
      requires Valid()
      ensures found <==> exists i :: 0 <= i < |items| - 1 && key(items[i]) == k
    {
      var n: Node?<T> := head;
      ghost var j := 0;
      while n != null
        invariant 0 <= j < |nodes| && n == nodes[j]
        invariant forall i :: 0 <= i < j ==> key(nodes[i].data) != k
        decreases |nodes| - j
      {
        if n.next == null {
          return false;
        }
        if key(n.data) == k {
          assert key(items[j]) == k;
          return true;
        }
        n := n.next;
        j := j + 1;
      }
      assert false;
    }

    /** Take the first node off; it keeps its `next` for now. */
    method Detach() returns (n: Node<T>)
      requires Valid() && |nodes| > 1
      modifies this
      ensures Valid() && n == old(nodes)[0] && n.data == old(items)[0] && Repr == old(Repr) - {n} && n in old(Repr)
      ensures nodes == old(nodes)[1..] && items == old(items)[1..]
    {
      n := head;
      head := head.next;
      nodes, items, Repr := nodes[1..], items[1..], Repr - {n};
    }

    /** Whether more than the default is left. */
    predicate More()
      requires Valid()
      reads this, Repr
      ensures More() <==> |items| > 1
    {
      assert head.next == NodeAt(nodes, 1);
      head.next != null
    }

    method MoveFirst(acc: Node?<T>, ghost moved: seq<Node<T>>) returns (acc': Node<T>, ghost moved': seq<Node<T>>)
      requires Valid() && |nodes| > 1 && Chain(acc, moved) && forall n :: n in moved ==> n !in Repr
      modifies this, Repr
      ensures Valid() && Repr == old(Repr) - {acc'} && nodes == old(nodes)[1..] && items == old(items)[1..]
      ensures acc' == old(nodes)[0] && acc'.data == old(items)[0] && acc' in old(Repr)
      ensures moved' == [acc'] + moved && Chain(acc', moved') && forall n :: n in moved ==> n.data == old(n.data)
    {
      hide Valid;
      acc' := Detach();
      acc'.next := acc;
      moved' := [acc'] + moved;
    }

    /** The loop of f_server for names, index files and ports: each node in turn is put in front. */
    method MoveToFront() returns (acc: Node?<T>, ghost moved: seq<Node<T>>)
      requires Valid()
      modifies Repr
      ensures Valid() && nodes == old(nodes)[|old(nodes)| - 1..] && items == old(items)[|old(nodes)| - 1..]
      ensures Chain(acc, moved) && moved == Reverse(old(nodes)[..|old(nodes)| - 1])
      ensures Holds(moved, Reverse(old(items)[..|old(items)| - 1]))
      ensures Elements(moved) !! Repr && Elements(moved) <= old(Repr) && Repr <= old(Repr)
    {
      hide Valid;
      ghost var all, held := nodes, items;
      acc, moved := null, [];
      ghost var k := 0;
      while More()
        invariant Valid() && 0 <= k < |all| == |held| && nodes == all[k..] && items == held[k..] && Repr <= old(Repr)
        invariant |moved| == k
        invariant forall i :: 0 <= i < k ==> moved[i] == all[k - 1 - i] && moved[i].data == held[k - 1 - i]
        invariant Chain(acc, moved) && forall n :: n in moved ==> n in old(Repr) && n !in Repr
        decreases |nodes|
      {
        acc, moved := MoveFirst(acc, moved);
        k := k + 1;
      }
      MovedInReverse(all, held, moved);
    }

    method MoveOne(list: AppendList<T>)
      requires Valid() && |nodes| > 1 && list.Valid() && list !in Repr && forall n :: n in list.nodes ==> n !in Repr
      modifies this, list, list.nodes, Repr
      ensures Valid() && Repr == old(Repr) - {old(nodes)[0]} && nodes == old(nodes)[1..] && items == old(items)[1..]
      ensures list.Valid() && list.nodes == old(list.nodes) + [old(nodes)[0]]
      ensures old(nodes)[0].data == old(items)[0] && old(nodes)[0] in old(Repr)
          && forall n :: n in old(list.nodes) ==> n.data == old(n.data)
    {
      hide Valid; hide Chain;
      var n := Detach();
      list.Append(n);
    }

    /** The loop of f_server for locations: each node in turn is hung behind the last one moved. */
    method MoveToBack() returns (first: Node?<T>, ghost moved: seq<Node<T>>)
      requires Valid()
      modifies Repr
      ensures Valid() && nodes == old(nodes)[|old(nodes)| - 1..] && items == old(items)[|old(nodes)| - 1..]
      ensures Chain(first, moved) && moved == old(nodes)[..|old(nodes)| - 1]
      ensures Holds(moved, old(items)[..|old(items)| - 1])
      ensures Elements(moved) !! Repr && Elements(moved) <= old(Repr) && Repr <= old(Repr)
    {
      hide Valid;
      ghost var all, held := nodes, items;
      var list := new AppendList<T>();
      ghost var k := 0;
      while More()
        invariant Valid() && 0 <= k < |all| == |held| && nodes == all[k..] && items == held[k..] && Repr <= old(Repr)
        invariant list.nodes == all[..k] && forall i :: 0 <= i < k ==> all[i].data == held[i]
        invariant fresh(list) && list.Valid() && forall n :: n in list.nodes ==> n in old(Repr) && n !in Repr
        decreases |nodes|
      {
        MoveOne(list);
        k := k + 1;
      }
      first, moved := list.head, list.nodes;
    }

    method CopyDefault() returns (out: Node<T>, ghost moved: seq<Node<T>>)
      requires Valid() && |nodes| == 1
      modifies this`Repr
      ensures Valid() && Repr == {this, default}
      ensures Chain(out, moved) && Holds(moved, items) && |moved| == 1 && fresh(moved[0])
    {
      out := new Node(head.data, null);
      moved := [out];
      Repr := {this, head};
    }

    method TakeReversed() returns (out: Node<T>, ghost moved: seq<Node<T>>)
      requires Valid()
      modifies Repr
      ensures Valid() && nodes == [default] && Repr == {this, default} && items == [old(items)[|old(nodes)| - 1]]
      ensures Chain(out, moved) && Holds(moved, Reverse(Taken(old(items))))
      ensures if |old(nodes)| == 1 then |moved| == 1 && fresh(moved[0]) else moved == Reverse(Taken(old(nodes)))
      ensures Elements(moved) !! Repr && fresh(Elements(moved) - old(Repr)) && Repr <= old(Repr)
    {
      ghost var all := items;
      assert head.next == NodeAt(nodes, 1);
      if head.next == null {
        out, moved := CopyDefault();
      } else {
        out, moved := MoveToFront();
        assert Holds(moved, Reverse(Taken(all)));
      }
    }

    method TakeInOrder() returns (out: Node<T>, ghost moved: seq<Node<T>>)
      requires Valid()
      modifies Repr
      ensures Valid() && nodes == [default] && Repr == {this, default} && items == [old(items)[|old(nodes)| - 1]]
      ensures Chain(out, moved) && Holds(moved, Taken(old(items)))
      ensures if |old(nodes)| == 1 then |moved| == 1 && fresh(moved[0]) else moved == Taken(old(nodes))
      ensures Elements(moved) !! Repr && fresh(Elements(moved) - old(Repr)) && Repr <= old(Repr)
    {
      ghost var all := items;
      assert head.next == NodeAt(nodes, 1);
      if head.next == null {
        out, moved := CopyDefault();
      } else {
        out, moved := MoveToBack();
        assert Holds(moved, Taken(all));
      }
    }
  }

  /** A list that a server gets once it is complete. */
  class OwnList<T> {
    var head: Node?<T>
    ghost var nodes: seq<Node<T>>
    ghost var items: seq<T>
    ghost var Repr: set<object>

    ghost predicate Valid()
      reads this, Repr
      ensures Valid() ==> this in Repr
    {
      this in Repr && Repr == {this} + Elements(nodes) && Chain(head, nodes) && Holds(nodes, items)
    }

    constructor ()
      ensures Valid() && fresh(Repr) && Repr == {this} && nodes == []
    {
      head, nodes, items, Repr := null, [], [], {this};
    }

    /** The default is copied if there is nothing else, else all but the default moves here. */
    method FillReversed(list: PendingList<T>)
      requires Valid() && list.Valid() && Repr !! list.Repr
      modifies this, list.Repr
      ensures Valid() && list.Valid() && Repr !! list.Repr && list.Repr <= old(list.Repr)
      ensures fresh(Repr - {this} - old(list.Repr))
      ensures items == Reverse(Taken(old(list.items))) && list.items == [old(list.items)[|old(list.items)| - 1]]
      ensures list.nodes == [list.default]
      ensures |old(list.nodes)| > 1 ==> nodes == Reverse(Taken(old(list.nodes)))
    {
      hide PendingList.Valid; hide Chain; hide Holds; hide Elements; hide Reverse; hide Taken;
      ghost var given := Reverse(Taken(list.items));
      head, nodes := list.TakeReversed();
      items, Repr := given, {this} + Elements(nodes);
    }

    method FillInOrder(list: PendingList<T>)
      requires Valid() && list.Valid() && Repr !! list.Repr
      modifies this, list.Repr
      ensures Valid() && list.Valid() && Repr !! list.Repr && list.Repr <= old(list.Repr)
      ensures fresh(Repr - {this} - old(list.Repr))
      ensures items == Taken(old(list.items)) && list.items == [old(list.items)[|old(list.items)| - 1]]
      ensures list.nodes == [list.default]
      ensures |old(list.nodes)| > 1 ==> nodes == Taken(old(list.nodes))
    {
      hide PendingList.Valid; hide Chain; hide Holds; hide Elements; hide Reverse; hide Taken;
      ghost var given := Taken(list.items);
      head, nodes := list.TakeInOrder();
      items, Repr := given, {this} + Elements(nodes);
    }

    /** f_http: this list becomes the pending list itself. */
    method Share(list: PendingList<T>)
      requires Valid() && list.Valid()
      modifies this
      ensures Valid() && nodes == list.nodes && items == list.items && Repr <= {this} + list.Repr
    {
      head, nodes, items, Repr := list.head, list.nodes, list.items, {this} + Elements(list.nodes);
    }
  }
}
