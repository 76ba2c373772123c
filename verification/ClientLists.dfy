/** The list of client connections (serverState.c), keyed by file descriptor. */
module ClientLists {
  import opened Sequences
  import opened Chains

  function RemoveAt<T>(s: seq<T>, k: nat): (r: seq<T>)
    ensures k >= |s| ==> r == s
    ensures k < |s| ==> r == s[..k] + s[k + 1..]
  {
    if k < |s| then s[..k] + s[k + 1..] else s
  }

  lemma RemoveFromDistinct<T>(s: seq<T>, k: nat)
    requires k < |s| && forall i, j :: 0 <= i < j < |s| ==> s[i] != s[j]
    ensures forall x :: x in RemoveAt(s, k) <==> x in s && x != s[k]
    ensures forall i, j :: 0 <= i < j < |s| - 1 ==> RemoveAt(s, k)[i] != RemoveAt(s, k)[j]
  {
    var rest := RemoveAt(s, k);
    forall x | x in s && x != s[k] ensures x in rest {
      var i :| 0 <= i < |s| && s[i] == x;
      assert rest[if i < k then i else i - 1] == x;
    }
  }

  datatype Client = Client(fd: int, ip: string)

  function Fds(clients: seq<Client>): (fds: seq<int>)
    ensures |fds| == |clients| && forall i :: 0 <= i < |fds| ==> fds[i] == clients[i].fd
  {
    seq(|clients|, i requires 0 <= i < |clients| => clients[i].fd)
  }

  ghost predicate DistinctFds(clients: seq<Client>) {
    forall i, j :: 0 <= i < j < |clients| ==> clients[i].fd != clients[j].fd
  }

  /** The clients whose descriptor is not in `gone`, in order. */
  function Without(clients: seq<Client>, gone: set<int>): seq<Client> {
    if clients == [] then []
    else (if clients[0].fd in gone then [] else [clients[0]]) + Without(clients[1..], gone)
  }

  lemma {:induction false} WithoutNone(clients: seq<Client>, gone: set<int>)
    requires forall c :: c in clients ==> c.fd !in gone
    ensures Without(clients, gone) == clients
  {
    if clients != [] {
      assert clients[0] in clients;
      WithoutNone(clients[1..], gone);
    }
  }

  lemma {:induction false} WithoutAppend(a: seq<Client>, b: seq<Client>, gone: set<int>)
    ensures Without(a + b, gone) == Without(a, gone) + Without(b, gone)
  {
    if a == [] {
      assert a + b == b;
    } else {
      assert (a + b)[1..] == a[1..] + b;
      WithoutAppend(a[1..], b, gone);
    }
  }

  lemma {:induction false} WithoutTwice(clients: seq<Client>, x: set<int>, y: set<int>)
    ensures Without(Without(clients, x), y) == Without(clients, x + y)
  {
    if clients != [] {
      WithoutTwice(clients[1..], x, y);
      WithoutAppend(if clients[0].fd in x then [] else [clients[0]], Without(clients[1..], x), y);
    }
  }

  lemma {:induction false} WithoutMembers(clients: seq<Client>, gone: set<int>)
    ensures forall c :: c in Without(clients, gone) <==> c in clients && c.fd !in gone
  {
    if clients != [] {
      WithoutMembers(clients[1..], gone);
      assert clients == [clients[0]] + clients[1..];
    }
  }

  lemma RemoveAtTail<T>(s: seq<T>, k: nat)
    requires s != [] && k < |s|
    ensures RemoveAt(s, k + 1) == [s[0]] + RemoveAt(s[1..], k)
  {
    if k + 1 < |s| {
      assert s[1..][..k] == s[1..k + 1];
      assert s[..k + 1] == [s[0]] + s[1..k + 1];
      assert s[1..][k + 1..] == s[k + 2..];
    } else {
      assert s == [s[0]] + s[1..];
    }
  }

  lemma {:induction false} RemoveIsWithout(clients: seq<Client>, fd: int)
    requires DistinctFds(clients)
    ensures RemoveAt(clients, FirstWith(Fds(clients), fd)) == Without(clients, {fd})
  {
    if clients != [] {
      var rest := clients[1..];
      assert Fds(clients)[1..] == Fds(rest);
      if clients[0].fd == fd {
        WithoutNone(rest, {fd});
      } else {
        var k := FirstWith(Fds(rest), fd);
        assert FirstWith(Fds(clients), fd) == 1 + k;
        RemoveIsWithout(rest, fd);
        RemoveAtTail(clients, k);
      }
    }
  }

  class ClientList {
    var clients: Node?<Client>
    ghost var nodes: seq<Node<Client>>
    ghost var view: seq<Client>      // what the nodes hold
    ghost var Repr: set<object>      // the list and the nodes on it

    ghost predicate Valid()
      reads this, Repr
      ensures Valid() ==> this in Repr && |view| == |nodes|
    {
      this in Repr && Repr == {this} + Elements(nodes) && Chain(clients, nodes) && Holds(nodes, view)
    }

    constructor ()
      ensures Valid() && Repr == {this} && nodes == [] && view == []
    {
      clients, nodes, view, Repr := null, [], [], {this};
    }

    method SetClientConnection(client: Node<Client>)
      requires Valid() && client !in Repr
      modifies this, client`next
      ensures Valid() && nodes == [client] + old(nodes) && view == [client.data] + old(view)
      ensures Repr == old(Repr) + {client}
    {
      client.next := clients;
      clients := client;
      nodes, view, Repr := [client] + nodes, [client.data] + view, Repr + {client};
    }

    method GetClientConnection(fd: int) returns (c: Node?<Client>)
      requires Valid()
      ensures var k := FirstWith(Fds(view), fd);
        c == NodeAt(nodes, k) && (k < |view| ==> c.data == view[k])
    {
      c := clients;
      ghost var k := 0;
      while c != null
        invariant k <= |nodes| && c == NodeAt(nodes, k)
        invariant forall i :: 0 <= i < k ==> nodes[i].data.fd != fd
        decreases |nodes| - k
      {
        if c.data.fd == fd {
          break;
        }
        c := c.next;
        k := k + 1;
      }
      assert k < |nodes| ==> view[k].fd == fd;
    }

    method Splice(prev: Node?<Client>, c: Node<Client>, ghost k: nat)
      requires Valid() && k < |nodes| && c == nodes[k] && prev == if k == 0 then null else nodes[k - 1]
      modifies Repr
      ensures Valid() && Repr == old(Repr) - {c}
      ensures nodes == old(RemoveAt(nodes, k)) && view == old(RemoveAt(view, k))
    {
      if prev != null {
        prev.next := c.next;
      } else {
        clients := c.next;
      }
      nodes, view, Repr := nodes[..k] + nodes[k + 1..], view[..k] + view[k + 1..], Repr - {c};
    }

    method RemoveClientConnection(fd: int) returns (c: Node?<Client>)
      requires Valid()
      modifies Repr
      ensures Valid() && Repr <= old(Repr)
      ensures c == old(NodeAt(nodes, FirstWith(Fds(view), fd))) && (c != null ==> c !in Repr)
      ensures nodes == old(RemoveAt(nodes, FirstWith(Fds(view), fd)))
      ensures view == old(RemoveAt(view, FirstWith(Fds(view), fd)))
    {
      c := clients;
      var prev: Node?<Client> := null;
      ghost var k := 0;
      while c != null
        invariant k <= |nodes| && c == NodeAt(nodes, k) && prev == (if k == 0 then null else NodeAt(nodes, k - 1))
        invariant Valid() && nodes == old(nodes) && view == old(view) && Repr == old(Repr)
        invariant forall i :: 0 <= i < k ==> nodes[i].data.fd != fd
        decreases |nodes| - k
      {
        if c.data.fd == fd {
          Splice(prev, c, k);
          break;
        }
        prev := c;
        c := c.next;
        k := k + 1;
      }
    }
  }
}
