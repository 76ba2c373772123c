/** From a configuration to running processes: the port checks and log files of parseConfig.c, and the process
    plan of ogws.c. A server is known by its position on the server list. */
module Startup {
  import opened Options
  import opened Sequences
  import opened Chains
  import opened Kernel
  import opened LoadBalancer
  import opened ConfigModel
  import opened ConfigMeaning
  import opened LocationResults

  // ---- Which servers there are ----

  /** popServer, if the default server is switched off: the first server leaves the list. */
  function CheckedServers(servers: seq<Server>, defaultServer: bool): seq<Server>
  {
    if defaultServer || servers == [] then servers else servers[1..]
  }

  /** The blocks whose servers are left. */
  function KeptBlocks(tree: seq<HttpDirective>, defaultServer: bool): seq<seq<Directive>> {
    if defaultServer || Blocks(tree) == [] then Blocks(tree) else Blocks(tree)[1..]
  }

  /** Whether the trailing server is left. */
  predicate TrailingKept(tree: seq<HttpDirective>, defaultServer: bool) {
    defaultServer || Blocks(tree) != []
  }

  /** The servers left are those of the blocks left, in order, and then the trailing one. */
  lemma KeptServers(tree: seq<HttpDirective>, defaultServer: bool)
    ensures var servers, blocks := CheckedServers(Run(tree).servers, defaultServer), KeptBlocks(tree, defaultServer);
      && |Run(tree).servers| == |Blocks(tree)| + 1
      && |servers| == |blocks| + (if TrailingKept(tree, defaultServer) then 1 else 0)
      && (forall j :: 0 <= j < |blocks| ==>
            var k := if defaultServer then j else j + 1;
            blocks[j] == Blocks(tree)[k] && servers[j] == Run(tree).servers[k])
      && (TrailingKept(tree, defaultServer) ==> servers[|blocks|] == TrailingServer(CarriedOf(tree)))
  {
    ConfigurationMeansItsDeclarations(tree);
  }

  // ---- Which processes to start ----

  datatype Proc = Proc(server: nat, port: int, tls: bool)

  function PortListings(ports: seq<Port>, server: nat): (r: seq<Proc>)
    ensures |r| == |ports|
  {
    seq(|ports|, i requires 0 <= i < |ports| => Proc(server, ports[i].num, ports[i].tls))
  }

  /** Every port of every server, in the order of the nested loops of startProcesses. */
  function Listings(servers: seq<Server>): seq<Proc> {
    if servers == [] then []
    else Listings(servers[..|servers| - 1]) + PortListings(Last(servers).ports, |servers| - 1)
  }

  predicate PortPlanned(procs: seq<Proc>, port: int) {
    exists i :: 0 <= i < |procs| && procs[i].port == port
  }

  function InFront(l: Proc, n: nat, procs: seq<Proc>): seq<Proc> {
    Repeat(l, n) + procs
  }

  function PlanOne(procs: seq<Proc>, l: Proc, workers: int): seq<Proc> {
    if PortPlanned(procs, l.port) then procs else InFront(l, if workers > 0 then workers else 0, procs)
  }

  /** The process list from its head: new entries go in front. */
  function Plan(listings: seq<Proc>, workers: int): seq<Proc> {
    if listings == [] then [] else PlanOne(Plan(listings[..|listings| - 1], workers), Last(listings), workers)
  }

  /** uniquePort. */
  method UniquePort(head: Node?<Proc>, ghost nodes: seq<Node<Proc>>, ghost items: seq<Proc>,
                    port: int) returns (unique: bool)
    requires Chain(head, nodes) && Holds(nodes, items)
    ensures unique <==> !PortPlanned(items, port)
  {
    var p := head;
    ghost var k := 0;
    while p != null
      invariant k <= |nodes| && p == NodeAt(nodes, k)
      invariant forall i :: 0 <= i < k ==> items[i].port != port
      decreases |nodes| - k
    {
      if p.data.port == port {
        assert items[k].port == port;
        return false;
      }
      p := p.next;
      k := k + 1;
    }
    return true;
  }

  lemma RepeatOneMore(l: Proc, i: nat, items: seq<Proc>)
    ensures [l] + InFront(l, i, items) == InFront(l, i + 1, items) && InFront(l, 0, items) == items
  {
    assert [l] + Repeat(l, i) == Repeat(l, i + 1);
  }

  /** One new entry per worker process. */
  method AddEntries(head: Node?<Proc>, ghost nodes: seq<Node<Proc>>, ghost items: seq<Proc>, l: Proc, workers: int,
                    pcount: nat)
    returns (head': Node?<Proc>, ghost nodes': seq<Node<Proc>>, pcount': nat)
    requires Chain(head, nodes) && Holds(nodes, items) && pcount == |items|
    ensures Chain(head', nodes') && Holds(nodes', InFront(l, if workers > 0 then workers else 0, items))
    ensures pcount' == |InFront(l, if workers > 0 then workers else 0, items)|
  {
    head', nodes', pcount' := head, nodes, pcount;
    ghost var all := items;
    HeldLength(nodes, items);
    RepeatOneMore(l, 0, items);
    hide Chain; hide Holds; hide InFront;
    var i := 0;
    while i < workers
      invariant 0 <= i && (i <= workers || i == 0)
      invariant Chain(head', nodes') && Holds(nodes', all) && pcount' == |all|
      invariant all == InFront(l, i, items)
    {
      head', nodes' := Prepend(l, head', nodes', all);
      pcount' := pcount' + 1;
      RepeatOneMore(l, i, items);
      all := [l] + all;
      i := i + 1;
    }
  }

  lemma PlanNext(earlier: seq<Server>, ports: seq<Port>, j: nat, workers: int)
    requires j < |ports|
    ensures Plan(Listings(earlier) + PortListings(ports[..j + 1], |earlier|), workers)
         == PlanOne(Plan(Listings(earlier) + PortListings(ports[..j], |earlier|), workers),
                    Proc(|earlier|, ports[j].num, ports[j].tls), workers)
  {
    var l := Proc(|earlier|, ports[j].num, ports[j].tls);
    assert PortListings(ports[..j + 1], |earlier|) == PortListings(ports[..j], |earlier|) + [l];
    var all, before := Listings(earlier) + PortListings(ports[..j + 1], |earlier|),
        Listings(earlier) + PortListings(ports[..j], |earlier|);
    assert all == before + [l] && all[..|all| - 1] == before;
  }

  /** The inner loop: the ports of one server. */
  method PlanServer(head: Node?<Proc>, ghost nodes: seq<Node<Proc>>, ghost earlier: seq<Server>, server: nat,
                    ports: seq<Port>,
                    workers: int, pcount: nat)
    returns (head': Node?<Proc>, ghost nodes': seq<Node<Proc>>, pcount': nat)
    requires server == |earlier| && Chain(head, nodes) && Holds(nodes, Plan(Listings(earlier), workers))
    requires pcount == |Plan(Listings(earlier), workers)|
    ensures Chain(head', nodes') && pcount' == |Plan(Listings(earlier) + PortListings(ports, server), workers)|
    ensures Holds(nodes', Plan(Listings(earlier) + PortListings(ports, server), workers))
  {
    hide Plan; hide Chain; hide Holds;
    head', nodes', pcount' := head, nodes, pcount;
    ghost var listed := Listings(earlier);
    assert listed + PortListings(ports[..0], server) == listed;
    for j := 0 to |ports|
      invariant Chain(head', nodes') && pcount' == |Plan(Listings(earlier) + PortListings(ports[..j], server), workers)|
      invariant Holds(nodes', Plan(Listings(earlier) + PortListings(ports[..j], server), workers))
    {
      ghost var items := Plan(Listings(earlier) + PortListings(ports[..j], server), workers);
      var unique := UniquePort(head', nodes', items, ports[j].num);
      if unique {
        head', nodes', pcount' := AddEntries(head', nodes', items, Proc(server, ports[j].num, ports[j].tls), workers,
            pcount');
      }
      PlanNext(earlier, ports, j, workers);
    }
    assert ports[..|ports|] == ports;
  }

  lemma HeldLength<T>(nodes: seq<Node<T>>, items: seq<T>)
    requires Holds(nodes, items)
    ensures |nodes| == |items|
  {
  }

  /** The fork loop: each child leaves it with the entry the cursor stands on, and the parent keeps the last one.
      None is the null dereference when nothing is planned. */
  method Fork(head: Node?<Proc>, ghost nodes: seq<Node<Proc>>, ghost items: seq<Proc>,
              pcount: nat) returns (running: Option<seq<Proc>>)
    requires Chain(head, nodes) && Holds(nodes, items) && pcount == |items|
    ensures running == if items == [] then None else Some(items)
  {
    if head == null {
      return None;
    }
    var p, left, started := head, pcount - 1, [];
    ghost var k := 0;
    while left != 0
      invariant 0 <= k < |nodes| && p == nodes[k] && left == |items| - 1 - k && started == items[..k]
      decreases left
    {
      started := started + [p.data];
      p := p.next;
      left := left - 1;
      k := k + 1;
    }
    assert items[..k] + [items[k]] == items;
    return Some(started + [p.data]);
  }

  /** startProcesses. */
  method StartProcesses(servers: seq<Server>, workers: int) returns (running: Option<seq<Proc>>)
    ensures running == if Plan(Listings(servers), workers) == [] then None else Some(Plan(Listings(servers), workers))
  {
    var head: Node?<Proc>, pcount: nat := null, 0;
    ghost var nodes: seq<Node<Proc>> := [];
    for i := 0 to |servers|
      invariant Chain(head, nodes) && pcount == |Plan(Listings(servers[..i]), workers)|
      invariant Holds(nodes, Plan(Listings(servers[..i]), workers))
    {
      assert servers[..i + 1][..i] == servers[..i] && Last(servers[..i + 1]) == servers[i];
      head, nodes, pcount := PlanServer(head, nodes, servers[..i], i, servers[i].ports, workers, pcount);
    }
    assert servers[..|servers|] == servers;
    running := Fork(head, nodes, Plan(Listings(servers), workers), pcount);
  }

  // ---- Who serves a port ----

  /** The position of the first port with this number, as configureContext and hasPort look for it. */
  function FindPort(ports: seq<Port>, num: int): (k: nat)
    ensures k <= |ports| && (k < |ports| ==> ports[k].num == num)
    ensures forall i :: 0 <= i < k ==> ports[i].num != num
  {
    FirstWith(Nums(ports), num)
  }

  /** The first server that lists the port; |servers| if none does. */
  function FirstServer(servers: seq<Server>, num: int): (k: nat)
    ensures k <= |servers| && (k < |servers| ==> HasPort(servers[k].ports, num))
    ensures forall i :: 0 <= i < k ==> !HasPort(servers[i].ports, num)
  {
    if servers == [] || HasPort(servers[0].ports, num) then 0 else 1 + FirstServer(servers[1..], num)
  }

  /** The server search of configureContext. */
  method ContextServer(servers: seq<Server>, num: int) returns (k: nat)
    ensures k == FirstServer(servers, num)
  {
    k := 0;
    while k < |servers|
      invariant k <= |servers| && forall i :: 0 <= i < k ==> !HasPort(servers[i].ports, num)
    {
      var j := 0;
      while j < |servers[k].ports|
        invariant j <= |servers[k].ports| && forall i :: 0 <= i < j ==> servers[k].ports[i].num != num
      {
        if servers[k].ports[j].num == num {
          return;
        }
        j := j + 1;
      }
      k := k + 1;
    }
  }

  function ServedBy(procs: seq<Proc>, port: int): nat {
    if procs == [] then 0 else ServedBy(procs[1..], port) + if procs[0].port == port then 1 else 0
  }

  lemma {:induction false} ServedByRepeat(l: Proc, n: nat, procs: seq<Proc>, port: int)
    ensures ServedBy(Repeat(l, n) + procs, port) == ServedBy(procs, port) + if l.port == port then n else 0
  {
    if n == 0 {
      assert Repeat(l, 0) + procs == procs;
    } else {
      assert (Repeat(l, n) + procs)[1..] == Repeat(l, n - 1) + procs;
      ServedByRepeat(l, n - 1, procs, port);
    }
  }

  function PortsOf(listings: seq<Proc>): (r: seq<int>)
    ensures |r| == |listings| && forall i :: 0 <= i < |r| ==> r[i] == listings[i].port
  {
    seq(|listings|, i requires 0 <= i < |listings| => listings[i].port)
  }

  /** The first listing of a port; |listings| if there is none. */
  function FirstListing(listings: seq<Proc>, port: int): (k: nat)
    ensures k <= |listings| && (k < |listings| ==> listings[k].port == port)
    ensures forall i :: 0 <= i < k ==> listings[i].port != port
  {
    FirstWith(PortsOf(listings), port)
  }

  lemma {:induction false} PlanServes(listings: seq<Proc>, workers: int, port: int)
    requires workers >= 1
    ensures PortPlanned(Plan(listings, workers), port) <==> PortPlanned(listings, port)
    ensures ServedBy(Plan(listings, workers), port) == if PortPlanned(listings, port) then workers else 0
  {
    if listings != [] {
      var n := |listings| - 1;
      var l, before := listings[n], Plan(listings[..n], workers);
      PlanServes(listings[..n], workers, port);
      PlannedAppend(listings[..n], l, port);
      assert listings[..n] + [l] == listings;
      if l.port != port {
        PlannedAfter(before, l, workers, port);
      } else if !PortPlanned(before, port) {
        assert (Repeat(l, workers) + before)[0].port == port;
      }
      ServedByRepeat(l, workers, before, port);
    }
  }

  lemma PlannedAppend(listings: seq<Proc>, l: Proc, port: int)
    ensures PortPlanned(listings + [l], port) <==> PortPlanned(listings, port) || l.port == port
  {
    if PortPlanned(listings, port) {
      var i :| 0 <= i < |listings| && listings[i].port == port;
      assert (listings + [l])[i].port == port;
    }
    if l.port == port {
      assert (listings + [l])[|listings|].port == port;
    }
  }

  lemma PlannedAfter(procs: seq<Proc>, l: Proc, workers: nat, port: int)
    requires l.port != port
    ensures PortPlanned(PlanOne(procs, l, workers), port) <==> PortPlanned(procs, port)
  {
    var all := Repeat(l, workers) + procs;
    if PortPlanned(procs, port) {
      var i :| 0 <= i < |procs| && procs[i].port == port;
      assert all[workers + i].port == port;
    }
    if PortPlanned(all, port) {
      var i :| 0 <= i < |all| && all[i].port == port;
      assert procs[i - workers].port == port;
    }
  }

  lemma {:induction false} PlanTakesFirst(listings: seq<Proc>, workers: int, p: Proc)
    requires workers >= 1 && p in Plan(listings, workers)
    ensures FirstListing(listings, p.port) < |listings| && listings[FirstListing(listings, p.port)] == p
  {
    var n := |listings| - 1;
    var l, before := listings[n], Plan(listings[..n], workers);
    if p in before {
      PlanTakesFirst(listings[..n], workers, p);
      FirstListingPrefix(listings, n, p.port);
    } else {
      PlanServes(listings[..n], workers, l.port);
      assert forall i :: 0 <= i < n ==> listings[i] == listings[..n][i];
    }
  }

  lemma FirstListingPrefix(listings: seq<Proc>, n: nat, port: int)
    requires n <= |listings| && FirstListing(listings[..n], port) < n
    ensures FirstListing(listings, port) == FirstListing(listings[..n], port)
  {
    var k := FirstListing(listings[..n], port);
    assert listings[..n][k] == listings[k];
    assert forall i :: 0 <= i < k ==> listings[..n][i] == listings[i];
  }

  /** Listings in terms of servers. */
  lemma {:induction false} FirstListingIsFirstServer(servers: seq<Server>, num: int)
    ensures var k, s := FirstListing(Listings(servers), num), FirstServer(servers, num);
      && (k < |Listings(servers)| <==> s < |servers|)
      && (s < |servers| ==> FindPort(servers[s].ports, num) < |servers[s].ports|)
      && (s < |servers| ==> Listings(servers)[k] == Proc(s, num, servers[s].ports[FindPort(servers[s].ports, num)].tls))
  {
    if servers != [] {
      var n := |servers| - 1;
      var earlier, ports := servers[..n], servers[n].ports;
      FirstListingIsFirstServer(earlier, num);
      ListingOfPair(Listings(earlier), ports, n, num);
      FirstServerPrefix(servers, num);
      assert HasPort(ports, num) <==> FindPort(ports, num) < |ports|;
    }
  }

  lemma FirstServerPrefix(servers: seq<Server>, num: int)
    requires servers != []
    ensures var n := |servers| - 1; var s := FirstServer(servers[..n], num);
      FirstServer(servers, num) == if s < n then s else if HasPort(servers[n].ports, num) then n else n + 1
  {
    var n := |servers| - 1;
    assert forall i :: 0 <= i < n ==> servers[..n][i] == servers[i];
  }

  lemma ListingOfPair(listings: seq<Proc>, ports: seq<Port>, server: nat, num: int)
    ensures var all := listings + PortListings(ports, server);
      var k, j := FirstListing(listings, num), FindPort(ports, num);
      && (k < |listings| ==> FirstListing(all, num) == k && all[k] == listings[k])
      && (k == |listings| && j < |ports| ==>
            FirstListing(all, num) == k + j && all[k + j] == Proc(server, num, ports[j].tls))
      && (k == |listings| && j == |ports| ==> FirstListing(all, num) == |all|)
  {
    var all := listings + PortListings(ports, server);
    var k, j := FirstListing(listings, num), FindPort(ports, num);
    assert forall i :: 0 <= i < |listings| ==> all[i] == listings[i];
    assert forall i :: |listings| <= i < |all| ==>
        all[i] == Proc(server, ports[i - |listings|].num, ports[i - |listings|].tls);
    FirstListingAt(all, if k < |listings| then k else k + j, num);
  }

  lemma FirstListingAt(listings: seq<Proc>, k: nat, port: int)
    requires k <= |listings| && (k < |listings| ==> listings[k].port == port)
    requires forall i :: 0 <= i < k ==> listings[i].port != port
    ensures FirstListing(listings, port) == k
  {
  }

  /** Every listed port is served by exactly as many processes as configured, no other port by any, and each of those
      processes has the first server that lists the port, with the TLS flag that server gives it. */
  lemma EveryPortServed(servers: seq<Server>, workers: int, num: int)
    requires workers >= 1
    ensures var procs, s := Plan(Listings(servers), workers), FirstServer(servers, num);
      && ServedBy(procs, num) == (if s < |servers| then workers else 0)
      && (s < |servers| ==> FindPort(servers[s].ports, num) < |servers[s].ports|)
      && (forall p :: p in procs && p.port == num ==>
            s < |servers| && p == Proc(s, num, servers[s].ports[FindPort(servers[s].ports, num)].tls))
  {
    var listings := Listings(servers);
    PlanServes(listings, workers, num);
    FirstListingIsFirstServer(servers, num);
    assert PortPlanned(listings, num) <==> FirstListing(listings, num) < |listings|;
    forall p | p in Plan(listings, workers) && p.port == num
      ensures FirstListing(listings, num) < |listings| && listings[FirstListing(listings, num)] == p
    {
      PlanTakesFirst(listings, workers, p);
    }
  }

  lemma FirstServerExists(servers: seq<Server>, num: int)
    ensures FirstServer(servers, num) < |servers| <==> exists k :: 0 <= k < |servers| && HasPort(servers[k].ports, num)
  {
    if FirstServer(servers, num) < |servers| {
      assert HasPort(servers[FirstServer(servers, num)].ports, num);
    }
  }

  lemma BlockListsPort(tree: seq<HttpDirective>, k: nat, num: int)
    requires k < |Blocks(tree)|
    ensures k < |Run(tree).servers|
    ensures HasPort(Run(tree).servers[k].ports, num) <==>
      var nums := OptionNums(OptionsIn(Blocks(tree)[k])); if nums == [] then num == 8080 else num in nums
  {
    ConfigurationMeansItsDeclarations(tree);
    PortNumbersOfBlock(tree, k);
    var s, nums := Run(tree).servers[k], OptionNums(OptionsIn(Blocks(tree)[k]));
    assert s.ports == Meaning(tree)[k].ports;
    FirstNumsNone(nums);
    FirstNumsMembers(nums, num);
    HasPortMeansNumber(s.ports, num);
  }

  /** From the configuration to the processes: a port is served, by as many processes as configured, exactly when some
      block whose server is left declares it, or it is the default port and the trailing server is left. */
  lemma DeclaredPortsAreServed(tree: seq<HttpDirective>, workers: int, num: int, defaultServer: bool)
    requires workers >= 1
    ensures var blocks, servers := KeptBlocks(tree, defaultServer), CheckedServers(Run(tree).servers, defaultServer);
      var declared := exists k :: 0 <= k < |blocks| && num in OptionNums(OptionsIn(blocks[k]));
      ServedBy(Plan(Listings(servers), workers), num)
      == if declared || (num == 8080 && TrailingKept(tree, defaultServer)) then workers else 0
  {
    var blocks, servers := KeptBlocks(tree, defaultServer), CheckedServers(Run(tree).servers, defaultServer);
    KeptServers(tree, defaultServer);
    DefaultPortNumber(tree);
    EveryPortServed(servers, workers, num);
    FirstServerExists(servers, num);
    hide HasPort; hide Plan; hide Listings; hide ServedBy;
    if TrailingKept(tree, defaultServer) { LastListsDefault(servers[|blocks|], CarriedOf(tree).port, num); }
    forall k | 0 <= k < |blocks|
      ensures HasPort(servers[k].ports, num) ==> num in OptionNums(OptionsIn(blocks[k])) || num == 8080
      ensures num in OptionNums(OptionsIn(blocks[k])) ==> HasPort(servers[k].ports, num)
    {
      BlockListsPort(tree, if defaultServer then k else k + 1, num);
    }
  }

  lemma LastListsDefault(s: Server, default: Port, num: int)
    requires s.ports == [default]
    ensures HasPort(s.ports, num) <==> num == default.num
  {
    assert s.ports[0] == default;
  }

  // ---- One TLS flag per port ----

  ghost predicate SameFlag(a: seq<Port>, b: seq<Port>) {
    forall i, j :: 0 <= i < |a| && 0 <= j < |b| && a[i].num == b[j].num ==> a[i].tls == b[j].tls
  }

  /** No port number carries two TLS flags anywhere on the list. */
  ghost predicate OneFlagPerPort(servers: seq<Server>) {
    forall s, t :: 0 <= s < |servers| && 0 <= t < |servers| ==> SameFlag(servers[s].ports, servers[t].ports)
  }

  /** checkPorts. */
  method CheckPorts(servers: seq<Server>, port: Port) returns (ok: bool)
    ensures ok <==> forall t :: 0 <= t < |servers| ==> SameFlag([port], servers[t].ports)
  {
    for s := 0 to |servers|
      invariant forall t :: 0 <= t < s ==> SameFlag([port], servers[t].ports)
    {
      for i := 0 to |servers[s].ports|
        invariant forall j :: 0 <= j < i && servers[s].ports[j].num == port.num ==> servers[s].ports[j].tls == port.tls
      {
        if servers[s].ports[i].num == port.num && servers[s].ports[i].tls != port.tls {
          assert !SameFlag([port], servers[s].ports) by {
            assert [port][0].num == servers[s].ports[i].num;
          }
          return false;
        }
      }
    }
    return true;
  }

  /** portOk; its outer loop repeats the same check once per server on the list. */
  method PortOk(servers: seq<Server>, ports: seq<Port>) returns (ok: bool)
    requires servers != []
    ensures ok <==> forall t :: 0 <= t < |servers| ==> SameFlag(ports, servers[t].ports)
  {
    for s := 0 to |servers|
      invariant s > 0 ==> forall t :: 0 <= t < |servers| ==> SameFlag(ports, servers[t].ports)
    {
      for i := 0 to |ports|
        invariant forall j, t :: 0 <= j < i && 0 <= t < |servers| ==> SameFlag([ports[j]], servers[t].ports)
      {
        ok := CheckPorts(servers, ports[i]);
        if !ok {
          ghost var t :| 0 <= t < |servers| && !SameFlag([ports[i]], servers[t].ports);
          assert !SameFlag(ports, servers[t].ports);
          return;
        }
      }
      forall t | 0 <= t < |servers| ensures SameFlag(ports, servers[t].ports) {
        assert forall j :: 0 <= j < |ports| ==> SameFlag([ports[j]], servers[t].ports);
        forall i, j | 0 <= i < |ports| && 0 <= j < |servers[t].ports| && ports[i].num == servers[t].ports[j].num
          ensures ports[i].tls == servers[t].ports[j].tls
        {
          assert [ports[i]][0].num == servers[t].ports[j].num;
        }
      }
    }
    return true;
  }

  /** What checkServers asks of a server beside its ports. */
  predicate ServerOk(s: Server, readable: string -> bool) {
    (forall l :: l in s.locations ==> LocationOk(l, readable)) && s.names != [] && s.indexFiles != []
  }

  ghost predicate ChecksPass(servers: seq<Server>, readable: string -> bool) {
    OneFlagPerPort(servers) && forall s :: s in servers ==> ServerOk(s, readable)
  }

  /** checkServers. `readable` says which document roots access() finds; the log checks always pass, since there are
      default logs, and the certificate checks depend on a flag that is never set. */
  method CheckServers(servers: seq<Server>, defaultServer: bool, readable: string -> bool) returns (ok: bool)
    ensures ok <==> ChecksPass(CheckedServers(servers, defaultServer), readable)
  {
    var list := CheckedServers(servers, defaultServer);
    for i := 0 to |list|
      invariant forall r, t :: 0 <= r < i && 0 <= t < |list| ==> SameFlag(list[r].ports, list[t].ports)
      invariant forall s :: s in list[..i] ==> ServerOk(s, readable)
    {
      var s := list[i];
      assert s in list;
      ok := PortOk(list, s.ports);
      if !ok {
        return;
      }
      ok := CheckDocRoots(s.locations, readable);
      if !ok || s.names == [] || s.indexFiles == [] {
        return false;
      }
    }
    return true;
  }

  /** After the checks, the flag a process was started with is the flag of every server on its port. */
  lemma FlagsAgree(servers: seq<Server>, workers: int, p: Proc, s: nat, i: nat)
    requires OneFlagPerPort(servers) && workers >= 1 && p in Plan(Listings(servers), workers)
    requires s < |servers| && i < |servers[s].ports| && servers[s].ports[i].num == p.port
    ensures servers[s].ports[i].tls == p.tls
  {
    EveryPortServed(servers, workers, p.port);
    assert SameFlag(servers[p.server].ports, servers[s].ports);
  }

  /** Switching the default server off is meant to leave the declared servers; f_http puts the default last, so
      popServer takes the first declared server away if there is one. What is left is what was meant only if that makes
      no difference: no server is declared, or all are like the default. */
  lemma PopRemovesTheDefault(tree: seq<HttpDirective>)
    ensures var left, last := CheckedServers(Run(tree).servers, false), TrailingServer(CarriedOf(tree));
      && left == (if Meaning(tree) == [] then [] else Meaning(tree)[1..] + [last])
      && (left == Meaning(tree) <==> forall s :: s in Meaning(tree) ==> s == last)
  {
    ConfigurationMeansItsDeclarations(tree);
    if Meaning(tree) != [] { ShiftedIsSame(Meaning(tree), TrailingServer(CarriedOf(tree))); }
  }

  lemma ShiftedIsSame<T>(s: seq<T>, x: T)
    requires s != []
    ensures s[1..] + [x] == s <==> forall y :: y in s ==> y == x
  {
    if s[1..] + [x] == s {
      forall i | 0 <= i < |s| ensures s[i] == x {
        SameToTheEnd(s, x, i);
      }
    }
    if forall y :: y in s ==> y == x {
      forall i | 0 <= i < |s| ensures (s[1..] + [x])[i] == s[i] {
        assert s[i] in s && (i + 1 < |s| ==> s[i + 1] in s);
      }
    }
  }

  lemma {:induction false} SameToTheEnd<T>(s: seq<T>, x: T, i: nat)
    requires i < |s| && s[1..] + [x] == s
    ensures s[i] == x
    decreases |s| - i
  {
    assert (s[1..] + [x])[i] == s[i];
    if i + 1 < |s| { SameToTheEnd(s, x, i + 1); }
  }

  // ---- Log files ----

  datatype Log = Log(path: string, fd: int)

  /** pathAlreadyOpened. */
  method PathAlreadyOpened(path: string, head: Node?<Log>, ghost nodes: seq<Node<Log>>,
                           ghost items: seq<Log>) returns (fd: int)
    requires Chain(head, nodes) && Holds(nodes, items)
    ensures fd == -1 ==> forall i :: 0 <= i < |items| && items[i].path == path ==> items[i].fd == -1
    ensures fd != -1 ==> exists i :: 0 <= i < |items| && items[i].path == path && items[i].fd == fd
  {
    var log := head;
    ghost var k := 0;
    while log != null
      invariant k <= |nodes| && log == NodeAt(nodes, k)
      invariant forall i :: 0 <= i < k && items[i].path == path ==> items[i].fd == -1
      decreases |nodes| - k
    {
      if log.data.path == path && log.data.fd != -1 {
        assert items[k].path == path && items[k].fd == log.data.fd;
        return log.data.fd;
      }
      log := log.next;
      k := k + 1;
    }
    return -1;
  }

  /** The first k logs are open, two of them through the same descriptor exactly when they have the same path;
      `asked` are the paths passed to open so far. */
  ghost predicate LogsShared(items: seq<Log>, k: nat, open: set<int>, asked: seq<string>) {
    && k <= |items|
    && (forall i :: 0 <= i < k ==> items[i].fd in open && items[i].fd != -1)
    && (forall i, j :: 0 <= i < k && 0 <= j < k ==> (items[i].fd == items[j].fd <==> items[i].path == items[j].path))
    && (forall i :: k <= i < |items| ==> items[i].fd == -1)
    && (forall i, j :: 0 <= i < j < |asked| ==> asked[i] != asked[j])
    && (forall p :: p in asked <==> exists i :: 0 <= i < k && items[i].path == p)
  }

  lemma ShareKnown(items: seq<Log>, k: nat, open: set<int>, asked: seq<string>, fd: int, m: nat)
    requires LogsShared(items, k, open, asked) && k < |items|
    requires m < |items| && items[m].path == items[k].path && items[m].fd == fd && fd != -1
    ensures LogsShared(items[k := items[k].(fd := fd)], k + 1, open, asked)
  {
    var after := items[k := items[k].(fd := fd)];
    assert m < k;
    forall p ensures p in asked <==> exists i :: 0 <= i < k + 1 && after[i].path == p {
      if exists i :: 0 <= i < k + 1 && after[i].path == p {
        var i :| 0 <= i < k + 1 && after[i].path == p;
        assert items[if i == k then m else i].path == p;
      }
      if p in asked {
        var i :| 0 <= i < k && items[i].path == p;
        assert after[i].path == p;
      }
    }
  }

  lemma ShareFresh(items: seq<Log>, k: nat, open: set<int>, asked: seq<string>, fd: int)
    requires LogsShared(items, k, open, asked) && k < |items|
    requires fd !in open && fd != -1
    requires forall i :: 0 <= i < |items| && items[i].path == items[k].path ==> items[i].fd == -1
    ensures LogsShared(items[k := items[k].(fd := fd)], k + 1, open + {fd}, asked + [items[k].path])
  {
    var after := items[k := items[k].(fd := fd)];
    assert items[k].path !in asked;
    forall p ensures p in asked + [items[k].path] <==> exists i :: 0 <= i < k + 1 && after[i].path == p {
      if exists i :: 0 <= i < k + 1 && after[i].path == p {
        var i :| 0 <= i < k + 1 && after[i].path == p;
        assert i < k ==> items[i].path == p;
      }
      if p in asked {
        var i :| 0 <= i < k && items[i].path == p;
        assert after[i].path == p;
      }
      if p == items[k].path {
        assert after[k].path == p;
      }
    }
  }

  /** The body of the loop. */
  method OpenLog(log: Node<Log>, ghost k: nat, head: Node?<Log>, ghost nodes: seq<Node<Log>>, ghost items: seq<Log>,
                 inUse: set<int>, asked: seq<string>, cannotOpen: string -> bool)
    returns (ok: bool, inUse': set<int>, asked': seq<string>, ghost items': seq<Log>)
    requires Chain(head, nodes) && Holds(nodes, items) && k < |nodes| && log == nodes[k]
    requires LogsShared(items, k, inUse, asked) && forall i :: 0 <= i < k ==> !cannotOpen(items[i].path)
    modifies log`data
    ensures |items'| == |items| && forall i :: 0 <= i < |items| ==> items'[i].path == items[i].path
    ensures ok <==> !cannotOpen(items[k].path)
    ensures Chain(head, nodes)
    ensures ok ==> Holds(nodes, items') && LogsShared(items', k + 1, inUse', asked')
  {
    var fd := PathAlreadyOpened(log.data.path, head, nodes, items);
    inUse', asked', items' := inUse, asked, items;
    if fd == -1 {
      if cannotOpen(log.data.path) {
        return false, inUse, asked, items;
      }
      fd := FreshFd(inUse);
      ShareFresh(items, k, inUse, asked, fd);
      inUse', asked' := inUse + {fd}, asked + [log.data.path];
    } else {
      ghost var m :| 0 <= m < |items| && items[m].path == log.data.path && items[m].fd == fd;
      ShareKnown(items, k, inUse, asked, fd, m);
      assert !cannotOpen(items[m].path);
    }
    hide LogsShared;
    log.data := log.data.(fd := fd);
    items' := items[k := items[k].(fd := fd)];
    ok := true;
  }

  lemma FirstIs<T>(head: Node?<T>, nodes: seq<Node<T>>)
    requires Chain(head, nodes)
    ensures head == NodeAt(nodes, 0)
  {
  }

  lemma NextIs<T>(head: Node?<T>, nodes: seq<Node<T>>, k: nat)
    requires Chain(head, nodes) && k < |nodes|
    ensures nodes[k].next == NodeAt(nodes, k + 1)
  {
  }

  lemma NoLogsYet(items: seq<Log>, open: set<int>)
    requires forall i :: 0 <= i < |items| ==> items[i].fd == -1
    ensures LogsShared(items, 0, open, [])
  {
  }

  /** openLogFiles on one of the two lists. `cannotOpen` says for which paths open fails. */
  method OpenLogFiles(head: Node?<Log>, ghost nodes: seq<Node<Log>>, ghost items: seq<Log>, open: set<int>,
                      cannotOpen: string -> bool)
    returns (ok: bool, asked: seq<string>, ghost result: seq<Log>, ghost openAfter: set<int>)
    requires Chain(head, nodes) && Holds(nodes, items) && forall i :: 0 <= i < |items| ==> items[i].fd == -1
    modifies nodes`data
    ensures Chain(head, nodes) && |result| == |items|
        && forall i :: 0 <= i < |items| ==> result[i].path == items[i].path
    ensures ok ==> Holds(nodes, result)
    ensures ok ==> forall i :: 0 <= i < |result| ==> result[i].fd in openAfter && result[i].fd != -1
    ensures ok ==> forall i, j :: 0 <= i < |result| && 0 <= j < |result| ==>
                     (result[i].fd == result[j].fd <==> result[i].path == result[j].path)
    ensures ok ==> forall i, j :: 0 <= i < j < |asked| ==> asked[i] != asked[j]
    ensures ok ==> forall p :: p in asked <==> exists i :: 0 <= i < |result| && result[i].path == p
    ensures ok <==> forall i :: 0 <= i < |items| ==> !cannotOpen(items[i].path)
  {
    NoLogsYet(items, open);
    HeldLength(nodes, items);
    FirstIs(head, nodes);
    hide LogsShared; hide Chain; hide Holds;
    var log, inUse := head, open;
    asked, result := [], items;
    ghost var k := 0;
    while log != null
      invariant k <= |nodes| && log == NodeAt(nodes, k) && Chain(head, nodes)
      invariant Holds(nodes, result) && |result| == |items|
          && forall i :: 0 <= i < |items| ==> result[i].path == items[i].path
      invariant LogsShared(result, k, inUse, asked)
      invariant forall i :: 0 <= i < k ==> !cannotOpen(items[i].path)
      decreases |nodes| - k
    {
      ok, inUse, asked, result := OpenLog(log, k, head, nodes, result, inUse, asked, cannotOpen);
      if !ok {
        return false, asked, result, inUse;
      }
      NextIs(head, nodes, k);
      log := log.next;
      k := k + 1;
    }
    AllShared(result, k, inUse, asked);
    return true, asked, result, inUse;
  }

  lemma AllShared(items: seq<Log>, k: nat, open: set<int>, asked: seq<string>)
    requires LogsShared(items, k, open, asked) && k == |items|
    ensures forall i :: 0 <= i < |items| ==> items[i].fd in open && items[i].fd != -1
    ensures forall i, j :: 0 <= i < |items| && 0 <= j < |items| ==>
              (items[i].fd == items[j].fd <==> items[i].path == items[j].path)
    ensures forall i, j :: 0 <= i < j < |asked| ==> asked[i] != asked[j]
    ensures forall p :: p in asked <==> exists i :: 0 <= i < |items| && items[i].path == p
  {
  }
}
