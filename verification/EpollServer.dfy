/** The plain server (server.c): one thread, handling the events of one epoll batch after another. */
module EpollServer {
  import opened Chains
  import opened Kernel
  import opened Sequences
  import opened ClientLists

  /** One entry of the array epoll_wait fills in. The last two fields are what the kernel will answer if
      this event leads to an accept, and to the epoll_ctl after it. */
  datatype Event = Event(fd: int, hangup: bool, readable: bool, peer: string, acceptFails: bool, addFails: bool)

  datatype Outcome = Running | Returned | Exited

  predicate EndsClient(e: Event, sockFd: int) {
    e.fd != sockFd && (e.hangup || e.readable)
  }

  predicate Accepts(e: Event, sockFd: int) {
    e.fd == sockFd && !e.hangup && e.readable
  }

  function EndedFds(events: seq<Event>, sockFd: int): set<int> {
    if events == [] then {}
    else
      var e := events[|events| - 1];
      EndedFds(events[..|events| - 1], sockFd) + if EndsClient(e, sockFd) then {e.fd} else {}
  }

  function Arrivals(events: seq<Event>, sockFd: int): nat {
    if events == [] then 0
    else Arrivals(events[..|events| - 1], sockFd) + if Accepts(events[|events| - 1], sockFd) then 1 else 0
  }

  /** What epoll_wait promises: only watched descriptors, each named at most once. */
  ghost predicate Batch(events: seq<Event>, watched: set<int>) {
    && (forall i :: 0 <= i < |events| ==> events[i].fd in watched)
    && (forall i, j :: 0 <= i < j < |events| ==> events[i].fd != events[j].fd)
  }

  /** The clients whose requests a batch processes, in event order. */
  ghost function Served(clients: seq<Client>, events: seq<Event>, sockFd: int): seq<Client> {
    if events == [] then []
    else
      var e := events[|events| - 1];
      var k := FirstWith(Fds(clients), e.fd);
      Served(clients, events[..|events| - 1], sockFd)
      + if e.fd != sockFd && !e.hangup && e.readable && k < |clients| then [clients[k]] else []
  }

  /** The watched descriptors are exactly the listening socket and the registered clients, all distinct. */
  ghost predicate Consistent(clients: seq<Client>, watched: set<int>, open: set<int>, sockFd: int) {
    && DistinctFds(clients)
    && watched <= open && sockFd in watched
    && (forall fd :: fd in Fds(clients) <==> fd in watched && fd != sockFd)
  }

  lemma DistinctClients(clients: seq<Client>, watched: set<int>, open: set<int>, sockFd: int)
    requires Consistent(clients, watched, open, sockFd)
    ensures DistinctFds(clients)
  {
  }

  lemma ConsistentAfterRemoval(clients: seq<Client>, watched: set<int>, open: set<int>, sockFd: int, fd: int)
    requires Consistent(clients, watched, open, sockFd) && fd != sockFd
    ensures Consistent(RemoveAt(clients, FirstWith(Fds(clients), fd)), watched - {fd}, open - {fd}, sockFd)
  {
    var k := FirstWith(Fds(clients), fd);
    var rest := RemoveAt(clients, k);
    if k < |clients| {
      RemoveFromDistinct(Fds(clients), k);
      assert Fds(rest) == RemoveAt(Fds(clients), k);
      forall i, j | 0 <= i < j < |rest| ensures rest[i].fd != rest[j].fd {
        assert Fds(rest)[i] != Fds(rest)[j];
      }
    }
  }

  lemma ConsistentAfterAdmission(clients: seq<Client>, watched: set<int>, open: set<int>, sockFd: int, c: Client)
    requires Consistent(clients, watched, open, sockFd) && c.fd !in open
    ensures Consistent([c] + clients, watched + {c.fd}, open + {c.fd}, sockFd)
  {
    assert Fds([c] + clients) == [c.fd] + Fds(clients);
    assert forall i :: 0 <= i < |clients| ==> clients[i].fd in Fds(clients);
  }

  /** Where a batch stands once the events `done` are handled and `todo` are not: who is registered, who was
      served, and that every event still to come names a descriptor that no connection accepted since uses. */
  ghost predicate Progress(before: seq<Client>, clients: seq<Client>, watched: set<int>, accepted: seq<Client>,
                           served: seq<Client>,
                           done: seq<Event>, todo: seq<Event>, sockFd: int)
  {
    && clients == accepted + Without(before, EndedFds(done, sockFd))
    && served == Served(before, done, sockFd)
    && |accepted| == Arrivals(done, sockFd)
    && (forall e :: e in todo ==> e.fd in watched)
    && (accepted != [] ==> forall e :: e in todo ==> e.fd != sockFd)
    && (forall e, c :: e in todo && c in accepted ==> c.fd != e.fd)
  }

  /** What one event does to the registered clients and the watched descriptors. */
  ghost predicate Effect(e: Event, sockFd: int, clients: seq<Client>, watched: set<int>, clients': seq<Client>,
                         watched': set<int>,
                         accepted: seq<Client>, served: seq<Client>)
  {
    if EndsClient(e, sockFd) then
      && accepted == [] && watched' == watched - {e.fd} && clients' == Without(clients, {e.fd})
      && e.fd in Fds(clients)
      && served == if e.hangup then [] else [clients[FirstWith(Fds(clients), e.fd)]]
    else if Accepts(e, sockFd) then
      && |accepted| == 1 && accepted[0].fd !in watched && served == []
      && clients' == accepted + clients && watched' == watched + {accepted[0].fd}
    else
      accepted == served == [] && clients' == clients && watched' == watched && !e.hangup
  }

  /** The record found for a pending event is the one its descriptor had when the batch arrived. */
  lemma SameConnection(before: seq<Client>, clients: seq<Client>, accepted: seq<Client>, gone: set<int>, fd: int)
    requires DistinctFds(before) && DistinctFds(clients) && clients == accepted + Without(before, gone)
    requires fd in Fds(clients) && forall c :: c in accepted ==> c.fd != fd
    ensures FirstWith(Fds(before), fd) < |before| && FirstWith(Fds(clients), fd) < |clients|
    ensures clients[FirstWith(Fds(clients), fd)] == before[FirstWith(Fds(before), fd)]
  {
    hide Without; hide FirstWith;
    var r := clients[FirstWith(Fds(clients), fd)];
    WithoutMembers(before, gone);
    assert r in clients && r in before;
    RecordWith(before, r);
  }

  /** The record with a descriptor is the first one with it. */
  lemma RecordWith(clients: seq<Client>, c: Client)
    requires DistinctFds(clients) && c in clients
    ensures FirstWith(Fds(clients), c.fd) < |clients| && clients[FirstWith(Fds(clients), c.fd)] == c
  {
    hide FirstWith;
    var k :| 0 <= k < |clients| && clients[k] == c;
    assert Fds(clients)[k] == c.fd;
  }

  lemma OneMore(before: seq<Client>, done: seq<Event>, e: Event, sockFd: int)
    ensures EndedFds(done + [e], sockFd) == EndedFds(done, sockFd) + if EndsClient(e, sockFd) then {e.fd} else {}
    ensures Arrivals(done + [e], sockFd) == Arrivals(done, sockFd) + if Accepts(e, sockFd) then 1 else 0
    ensures !(EndsClient(e, sockFd) && e.readable && !e.hangup) ==>
        Served(before, done + [e], sockFd) == Served(before, done, sockFd)
    ensures EndsClient(e, sockFd) && e.readable && !e.hangup && FirstWith(Fds(before), e.fd) < |before| ==>
      Served(before, done + [e], sockFd) == Served(before, done, sockFd) + [before[FirstWith(Fds(before), e.fd)]]
  {
    assert (done + [e])[..|done|] == done;
  }

  lemma EndStep(before: seq<Client>, clients: seq<Client>, accepted: seq<Client>, done: seq<Event>, e: Event,
                sockFd: int)
    requires DistinctFds(before) && DistinctFds(clients) && EndsClient(e, sockFd) && e.fd in Fds(clients)
    requires clients == accepted + Without(before, EndedFds(done, sockFd))
    requires forall c :: c in accepted ==> c.fd != e.fd
    ensures Without(clients, {e.fd}) == accepted + Without(before, EndedFds(done + [e], sockFd))
    ensures Served(before, done + [e], sockFd)
         == Served(before, done, sockFd) + if e.hangup then [] else [clients[FirstWith(Fds(clients), e.fd)]]
  {
    OneMore(before, done, e, sockFd);
    var gone := EndedFds(done, sockFd);
    SameConnection(before, clients, accepted, gone, e.fd);
    WithoutAppend(accepted, Without(before, gone), {e.fd});
    WithoutNone(accepted, {e.fd});
    WithoutTwice(before, gone, {e.fd});
  }

  lemma ListsStep(before: seq<Client>, clients: seq<Client>, watched: set<int>, accepted: seq<Client>,
                  served: seq<Client>,
                  done: seq<Event>, e: Event, sockFd: int, clients': seq<Client>, watched': set<int>, a: seq<Client>,
                      r: seq<Client>)
    requires DistinctFds(before) && DistinctFds(clients)
    requires e.fd == sockFd ==> accepted == []
    requires forall c :: c in accepted ==> c.fd != e.fd
    requires Progress(before, clients, watched, accepted, served, done, [], sockFd)
    requires Effect(e, sockFd, clients, watched, clients', watched', a, r)
    ensures Progress(before, clients', watched', accepted + a, served + r, done + [e], [], sockFd)
  {
    OneMore(before, done, e, sockFd);
    if EndsClient(e, sockFd) {
      EndStep(before, clients, accepted, done, e, sockFd);
      assert accepted + a == accepted;
      assert served + r == Served(before, done + [e], sockFd);
    } else {
      assert served + r == served;
      assert EndedFds(done + [e], sockFd) == EndedFds(done, sockFd);
      var rest := Without(before, EndedFds(done, sockFd));
      assert clients' == (accepted + a) + rest by {
        if Accepts(e, sockFd) {
          assert clients == rest && accepted + a == a;
        } else {
          assert accepted + a == accepted;
        }
      }
    }
  }

  lemma ProgressStep(before: seq<Client>, clients: seq<Client>, watched: set<int>, accepted: seq<Client>,
                     served: seq<Client>,
                     done: seq<Event>, todo: seq<Event>, sockFd: int,
                     clients': seq<Client>, watched': set<int>, a: seq<Client>, r: seq<Client>)
    requires DistinctFds(before) && DistinctFds(clients)
    requires todo != [] && forall e :: e in todo[1..] ==> e.fd != todo[0].fd
    requires Progress(before, clients, watched, accepted, served, done, todo, sockFd)
    requires Effect(todo[0], sockFd, clients, watched, clients', watched', a, r)
    ensures Progress(before, clients', watched', accepted + a, served + r, done + [todo[0]], todo[1..], sockFd)
  {
    hide Served; hide EndedFds; hide Arrivals; hide Without; hide FirstWith; hide DistinctFds;
    assert todo[0] in todo;
    ListsStep(before, clients, watched, accepted, served, done, todo[0], sockFd, clients', watched', a, r);
    assert forall x :: x in todo[1..] ==> x in todo;
  }

  /** Before the first event, and after the last. */
  lemma ProgressStart(before: seq<Client>, watched: set<int>, events: seq<Event>, sockFd: int)
    requires Batch(events, watched)
    ensures Progress(before, before, watched, [], [], events[..0], events[0..], sockFd)
  {
    WithoutNone(before, {});
  }

  lemma ProgressAll(before: seq<Client>, clients: seq<Client>, watched: set<int>, accepted: seq<Client>,
                    served: seq<Client>,
                    events: seq<Event>, i: nat, sockFd: int)
    requires i <= |events| && Progress(before, clients, watched, accepted, served, events[..i], events[i..], sockFd)
    ensures i < |events| ==> events[i].fd in watched
    ensures i == |events| ==> Progress(before, clients, watched, accepted, served, events, [], sockFd)
  {
    if i == |events| {
      assert events[..i] == events && events[i..] == [];
    } else {
      assert events[i] in events[i..];
    }
  }

  lemma BatchSplit(events: seq<Event>, i: nat, watched: set<int>)
    requires Batch(events, watched) && i < |events|
    ensures events[i..] != [] && events[i..][0] == events[i] && events[i..][1..] == events[i + 1..]
    ensures events[..i + 1] == events[..i] + [events[i]]
    ensures forall e :: e in events[i + 1..] ==> e in events[i..] && e.fd != events[i].fd
  {
  }

  // ---- From one batch to the next ----

  /** The clients whose descriptor is in `gone`, in order. */
  function Among(clients: seq<Client>, gone: set<int>): seq<Client> {
    if clients == [] then []
    else (if clients[0].fd in gone then [clients[0]] else []) + Among(clients[1..], gone)
  }

  lemma {:induction false} SplitByFds(clients: seq<Client>, gone: set<int>)
    ensures multiset(Without(clients, gone)) + multiset(Among(clients, gone)) == multiset(clients)
  {
    if clients != [] {
      SplitByFds(clients[1..], gone);
      assert clients == [clients[0]] + clients[1..];
    }
  }

  lemma {:induction false} AmongSame(clients: seq<Client>, gone: set<int>, fd: int)
    requires forall i :: 0 <= i < |clients| ==> clients[i].fd != fd
    ensures Among(clients, gone + {fd}) == Among(clients, gone)
  {
    if clients != [] { AmongSame(clients[1..], gone, fd); }
  }

  /** One more descriptor: the client that has it is among them too. */
  lemma {:induction false} AmongOneMore(clients: seq<Client>, gone: set<int>, k: nat)
    requires DistinctFds(clients) && k < |clients| && clients[k].fd !in gone
    ensures multiset(Among(clients, gone + {clients[k].fd})) == multiset(Among(clients, gone)) + multiset([clients[k]])
  {
    var c, rest := clients[0], clients[1..];
    if k == 0 {
      AmongSame(rest, gone, c.fd);
      assert Among(clients, gone + {c.fd}) == [c] + Among(rest, gone);
      assert Among(clients, gone) == Among(rest, gone);
    } else {
      AmongOneMore(rest, gone, k - 1);
      var more := gone + {clients[k].fd};
      assert c.fd in more <==> c.fd in gone;
      assert Among(clients, more) == (if c.fd in gone then [c] else []) + Among(rest, more);
    }
  }

  /** Each client that ends with a batch is served at most once in it. */
  lemma {:induction false} ServedOnce(clients: seq<Client>, events: seq<Event>, watched: set<int>, sockFd: int)
    requires DistinctFds(clients) && Batch(events, watched)
    ensures multiset(Served(clients, events, sockFd)) <= multiset(Among(clients, EndedFds(events, sockFd)))
  {
    if events != [] {
      hide Served; hide EndedFds; hide Among; hide DistinctFds; hide Batch;
      var es, e := events[..|events| - 1], events[|events| - 1];
      BatchPrefix(events, watched);
      ServedOnce(clients, es, watched, sockFd);
      ServedOneMore(clients, es, e, sockFd);
    } else {
      NoneServed(clients, sockFd);
    }
  }

  lemma BatchPrefix(events: seq<Event>, watched: set<int>)
    requires Batch(events, watched) && events != []
    ensures var es, e := events[..|events| - 1], events[|events| - 1];
      Batch(es, watched) && events == es + [e] && forall i :: 0 <= i < |es| ==> es[i].fd != e.fd
  {
  }

  lemma NoneServed(clients: seq<Client>, sockFd: int)
    ensures multiset(Served(clients, [], sockFd)) == multiset{}
  {
  }

  lemma ServedOneMore(clients: seq<Client>, es: seq<Event>, e: Event, sockFd: int)
    requires DistinctFds(clients) && forall i :: 0 <= i < |es| ==> es[i].fd != e.fd
    requires multiset(Served(clients, es, sockFd)) <= multiset(Among(clients, EndedFds(es, sockFd)))
    ensures multiset(Served(clients, es + [e], sockFd)) <= multiset(Among(clients, EndedFds(es + [e], sockFd)))
  {
    hide Served; hide EndedFds; hide Among; hide DistinctFds;
    OneMore(clients, es, e, sockFd);
    EndedWereNamed(es, sockFd);
    var k, gone := FirstWith(Fds(clients), e.fd), EndedFds(es, sockFd);
    assert gone + {} == gone;
    if EndsClient(e, sockFd) {
      if k < |clients| {
        assert clients[k].fd == e.fd && e.fd !in gone;
        AmongOneMore(clients, gone, k);
        var served := Served(clients, es, sockFd);
        assert multiset(served + [clients[k]]) == multiset(served) + multiset([clients[k]]);
      } else {
        assert forall i :: 0 <= i < |clients| ==> Fds(clients)[i] == clients[i].fd;
        AmongSame(clients, gone, e.fd);
        NotServed(clients, es, e, sockFd);
      }
    }
  }

  lemma NotServed(clients: seq<Client>, es: seq<Event>, e: Event, sockFd: int)
    requires FirstWith(Fds(clients), e.fd) == |clients|
    ensures Served(clients, es + [e], sockFd) == Served(clients, es, sockFd)
  {
    assert (es + [e])[..|es|] == es;
    assert Served(clients, es, sockFd) + [] == Served(clients, es, sockFd);
  }

  // ---- What a batch means, in terms of the kernel's flags ----

  /** Any watched descriptor may be named next, unless it has been named. */
  lemma BatchesGrow(events: seq<Event>, e: Event, watched: set<int>)
    ensures Batch([], watched)
    ensures Batch(events + [e], watched) <==>
            Batch(events, watched) && e.fd in watched && forall i :: 0 <= i < |events| ==> events[i].fd != e.fd
  {
    var all := events + [e];
    assert all[|events|] == e && forall i :: 0 <= i < |events| ==> all[i] == events[i];
  }

  /** An event says that the connection on this descriptor hung up or can be read. */
  ghost predicate Ends(events: seq<Event>, fd: int) {
    exists i :: 0 <= i < |events| && events[i].fd == fd && (events[i].hangup || events[i].readable)
  }

  /** Exactly then a client ends. */
  lemma {:induction false} EndedExactly(events: seq<Event>, sockFd: int, fd: int)
    ensures fd in EndedFds(events, sockFd) <==> fd != sockFd && Ends(events, fd)
  {
    if events != [] {
      var es, e := events[..|events| - 1], events[|events| - 1];
      EndedExactly(es, sockFd, fd);
      assert forall i :: 0 <= i < |es| ==> events[i] == es[i];
      if i :| 0 <= i < |es| && es[i].fd == fd && (es[i].hangup || es[i].readable) {
        assert events[i].fd == fd;
      }
    }
  }

  /** An event says that this descriptor can be read and has not hung up. */
  ghost predicate Asks(events: seq<Event>, fd: int) {
    exists i :: 0 <= i < |events| && events[i].fd == fd && events[i].readable && !events[i].hangup
  }

  lemma AsksAppend(es: seq<Event>, e: Event, fd: int)
    ensures Asks(es + [e], fd) <==> Asks(es, fd) || (e.fd == fd && e.readable && !e.hangup)
  {
    var all := es + [e];
    assert all[|es|] == e && forall i :: 0 <= i < |es| ==> all[i] == es[i];
    if i :| 0 <= i < |es| && es[i].fd == fd && es[i].readable && !es[i].hangup {
      assert all[i].fd == fd;
    }
  }

  /** A batch brings one connection if such an event names the listening socket, and otherwise none. */
  lemma {:induction false} ArrivesExactly(events: seq<Event>, sockFd: int, watched: set<int>)
    requires Batch(events, watched)
    ensures Arrivals(events, sockFd) == if Asks(events, sockFd) then 1 else 0
  {
    if events != [] {
      var es, e := events[..|events| - 1], events[|events| - 1];
      BatchPrefix(events, watched);
      ArrivesExactly(es, sockFd, watched);
      AsksAppend(es, e, sockFd);
    }
  }

  /** A client is served exactly if such an event names it. */
  lemma {:induction false} ServedExactly(clients: seq<Client>, events: seq<Event>, sockFd: int, c: Client)
    requires DistinctFds(clients)
    ensures c in Served(clients, events, sockFd) <==> c in clients && c.fd != sockFd && Asks(events, c.fd)
  {
    if events != [] {
      hide DistinctFds; hide FirstWith; hide Asks;
      var es, e := events[..|events| - 1], events[|events| - 1];
      ServedExactly(clients, es, sockFd, c);
      SplitLast(events);
      AsksAppend(es, e, c.fd);
      if c in clients { RecordWith(clients, c); }
      var k := FirstWith(Fds(clients), e.fd);
      assert k < |clients| ==> clients[k].fd == Fds(clients)[k] == e.fd;
    }
  }

  /** What a batch does to the books. */
  lemma RoundConserves(start: multiset<Client>, before: seq<Client>, accepted: seq<Client>, ended: seq<Client>,
                       a: seq<Client>,
                       gone: set<int>)
    requires multiset(before) + multiset(ended) == start + multiset(accepted)
    ensures multiset(a + Without(before, gone)) + multiset(ended + Among(before, gone))
        == start + multiset(accepted + a)
  {
    SplitByFds(before, gone);
    var w, m := Without(before, gone), Among(before, gone);
    assert multiset(a + w) == multiset(a) + multiset(w) && multiset(ended + m) == multiset(ended) + multiset(m);
    assert multiset(accepted + a) == multiset(accepted) + multiset(a);
    forall x: Client ensures multiset(a)[x] + multiset(w)[x] + multiset(ended)[x] + multiset(m)[x]
                          == start[x] + multiset(accepted)[x] + multiset(a)[x] {
      assert (multiset(w) + multiset(m))[x] == multiset(before)[x];
      assert (multiset(before) + multiset(ended))[x] == (start + multiset(accepted))[x];
    }
  }

  lemma {:induction false} EndedWereNamed(events: seq<Event>, sockFd: int)
    ensures forall fd :: fd in EndedFds(events, sockFd) ==> exists i :: 0 <= i < |events| && events[i].fd == fd
  {
    if events != [] {
      var es := events[..|events| - 1];
      EndedWereNamed(es, sockFd);
      forall fd | fd in EndedFds(events, sockFd) ensures exists i :: 0 <= i < |events| && events[i].fd == fd {
        if fd in EndedFds(es, sockFd) {
          var i :| 0 <= i < |es| && es[i].fd == fd;
          assert events[i].fd == fd;
        } else {
          assert events[|events| - 1].fd == fd;
        }
      }
    }
  }

  class Server {
    const sockFd: int
    const list: ClientList
    var open: set<int>       // descriptors open in this process
    var watched: set<int>    // descriptors in the epoll set

    ghost function Clients(): seq<Client>
      reads list
    {
      list.view
    }

    ghost predicate Valid()
      reads this, list, list.Repr
    {
      list.Valid() && this !in list.Repr && Consistent(list.view, watched, open, sockFd)
    }

    constructor (sockFd: int)
      ensures Valid() && fresh(list.Repr) && this.sockFd == sockFd && Clients() == []
    {
      this.sockFd, open, watched := sockFd, {sockFd}, {sockFd};
      list := new ClientList();
    }

    /** cleanup(): the record leaves the list before its descriptor is closed. */
    method Cleanup(fd: int)
      requires Valid()
      modifies this, list.Repr
      ensures list.Valid() && list.Repr <= old(list.Repr) && this !in list.Repr
      ensures Clients() == Without(old(Clients()), {fd})
      ensures open == old(open) - {fd} && watched == old(watched) - {fd}
      ensures fd != sockFd ==> Valid()
    {
      hide ClientList.Valid; hide Consistent; hide Without; hide FirstWith; hide RemoveAt; hide Fds;
      DistinctClients(Clients(), watched, open, sockFd);
      RemoveIsWithout(Clients(), fd);
      if fd != sockFd { ConsistentAfterRemoval(Clients(), watched, open, sockFd, fd); }
      var c := list.RemoveClientConnection(fd);
      open := open - {fd};
      watched := watched - {fd};      // closing a descriptor takes it out of the epoll set
    }

    /** A new connection: accept, queueClientConnection, and epoll_ctl. */
    method Admit(peer: string) returns (client: Client)
      requires Valid()
      modifies this, list
      ensures Valid() && fresh(list.Repr - old(list.Repr))
      ensures client.fd !in old(open) && client.ip == peer
      ensures Clients() == [client] + old(Clients())
      ensures watched == old(watched) + {client.fd} && open == old(open) + {client.fd}
    {
      hide ClientList.Valid; hide Consistent;
      var fd := FreshFd(open);
      client := Client(fd, peer);
      ConsistentAfterAdmission(Clients(), watched, open, sockFd, client);
      var n := new Node(client, null);
      list.SetClientConnection(n);
      open, watched := open + {fd}, watched + {fd};
    }

    /** A ready client: processInput, which may call getClient, then cleanup. */
    method Serve(fd: int) returns (served: Client)
      requires Valid() && fd in watched && fd != sockFd
      modifies this, list.Repr
      ensures Valid() && list.Repr <= old(list.Repr)
      ensures fd in Fds(old(Clients())) && served == old(Clients())[FirstWith(Fds(old(Clients())), fd)]
      ensures Clients() == Without(old(Clients()), {fd}) && watched == old(watched) - {fd}
    {
      hide ClientList.Valid; hide Without;
      var c := list.GetClientConnection(fd);
      served := c.data;
      Cleanup(fd);
    }

    /** The body of the event loop. */
    method HandleEvent(e: Event) returns (outcome: Outcome, accepted: seq<Client>, served: seq<Client>)
      requires Valid() && e.fd in watched
      modifies this, list.Repr
      ensures fresh(list.Repr - old(list.Repr))
      ensures if outcome.Running? then Valid() else e.fd == sockFd && sockFd !in open
      ensures outcome.Running? ==> Effect(e, sockFd, old(Clients()), old(watched), Clients(), watched, accepted, served)
    {
      hide ClientList.Valid; hide Without; hide FirstWith; hide DistinctFds;
      outcome, accepted, served := Running, [], [];
      if e.hangup {
        Cleanup(e.fd);
        if e.fd == sockFd {
          outcome := Exited;
        }
      } else if e.readable {
        if e.fd == sockFd {
          if e.acceptFails {
            Cleanup(sockFd);
            return Returned, [], [];
          }
          var c := Admit(e.peer);
          accepted := [c];
          if e.addFails {
            Cleanup(sockFd);
            return Exited, [], [];
          }
        } else {
          var c := Serve(e.fd);
          served := [c];
        }
      }
    }

    /** The loop over one batch of events. */
    method HandleBatch(events: seq<Event>) returns (outcome: Outcome, accepted: seq<Client>, served: seq<Client>)
      requires Valid() && Batch(events, watched)
      modifies this, list.Repr
      ensures fresh(list.Repr - old(list.Repr))
      ensures if outcome.Running? then Valid() else sockFd !in open
      ensures outcome.Running? ==> Clients() == accepted + Without(old(Clients()), EndedFds(events, sockFd))
      ensures outcome.Running? ==> served == Served(old(Clients()), events, sockFd)
      ensures outcome.Running? ==> |accepted| == Arrivals(events, sockFd)
    {
      hide ClientList.Valid; hide Consistent; hide Without; hide FirstWith; hide DistinctFds; hide Effect;
      hide Served; hide EndedFds; hide Arrivals;
      outcome, accepted, served := Running, [], [];
      ghost var before := Clients();
      DistinctClients(before, watched, open, sockFd);
      ProgressStart(before, watched, events, sockFd);
      var i := 0;
      while i < |events|
        invariant 0 <= i <= |events| && outcome.Running?
        invariant Valid() && fresh(list.Repr - old(list.Repr))
        invariant Progress(before, Clients(), watched, accepted, served, events[..i], events[i..], sockFd)
      {
        BatchSplit(events, i, old(watched));
        ProgressAll(before, Clients(), watched, accepted, served, events, i, sockFd);
        DistinctClients(Clients(), watched, open, sockFd);
        ghost var clients := Clients();
        ghost var w := watched;
        var o, a, r := HandleEvent(events[i]);
        if !o.Running? {
          return o, accepted, served;
        }
        ProgressStep(before, clients, w, accepted, served, events[..i], events[i..], sockFd, Clients(), watched, a, r);
        accepted, served := accepted + a, served + r;
        i := i + 1;
      }
      ProgressAll(before, Clients(), watched, accepted, served, events, i, sockFd);
    }

    /** The endless loop, after any number of batches. `kernel` is what epoll_wait returns in each round for the watched
        descriptors. Over the whole run nobody is lost or kept twice: who was registered at the start or accepted since
        is either registered now or has ended, and nobody is served more often than registered. */
    method HandleBatches(kernel: (nat, set<int>) -> seq<Event>, rounds: nat)
      returns (outcome: Outcome, accepted: seq<Client>, ghost ended: seq<Client>, served: seq<Client>)
      requires Valid() && forall k, w :: Batch(kernel(k, w), w)
      modifies this, list.Repr
      ensures fresh(list.Repr - old(list.Repr))
      ensures if outcome.Running? then Valid() else sockFd !in open
      ensures outcome.Running? ==>
          multiset(Clients()) + multiset(ended) == multiset(old(Clients())) + multiset(accepted)
      ensures outcome.Running? ==> multiset(served) <= multiset(ended)
    {
      hide Consistent; hide ClientList.Valid; hide Without; hide Among; hide Served; hide Batch; hide EndedFds;
      hide Arrivals;
      outcome, accepted, ended, served := Running, [], [], [];
      for k := 0 to rounds
        invariant outcome.Running? && Valid() && fresh(list.Repr - old(list.Repr))
        invariant multiset(Clients()) + multiset(ended) == multiset(old(Clients())) + multiset(accepted)
        invariant multiset(served) <= multiset(ended)
      {
        var events := kernel(k, watched);
        ghost var before := Clients();
        DistinctClients(before, watched, open, sockFd);
        ServedOnce(before, events, watched, sockFd);
        var o, a, r := HandleBatch(events);
        if !o.Running? {
          return o, accepted, ended, served;
        }
        RoundConserves(multiset(old(Clients())), before, accepted, ended, a, EndedFds(events, sockFd));
        accepted, ended, served := accepted + a, ended + Among(before, EndedFds(events, sockFd)), served + r;
      }
    }
  }
}
