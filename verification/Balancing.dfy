/** Which configurations the program starts with, and whose requests then reach the load balancer. */
module Balancing {
  import opened Options
  import opened Sequences
  import opened LoadBalancer
  import opened ConfigModel
  import opened ConfigLocations
  import opened ConfigMeaning
  import opened LocationResults
  import opened Startup

  // ---- Starting ----

  /** The configuration is read without a fault and accepted. Without the default server it never is: popServer frees
      log entries that openLogFiles then walks. */
  ghost predicate Starts(tree: seq<HttpDirective>, defaultServer: bool, readable: string -> bool) {
    && !Run(tree).fault && !Run(tree).nameFault && defaultServer
    && ChecksPass(CheckedServers(Run(tree).servers, defaultServer), readable)
  }

  /** The ports of the k-th block. */
  function PortsOfBlock(tree: seq<HttpDirective>, k: nat): seq<Port>
    requires k < |Blocks(tree)|
  {
    var p := PortsAfter(OptionsIn(Blocks(tree)[k]), CarriedOf(UpTo(tree, k)).port);
    OrDefault(p.declared, p.default)
  }

  /** No two blocks, nor a block and the default port, give a port number two TLS flags. */
  ghost predicate PortsAgree(tree: seq<HttpDirective>) {
    && (forall j, k :: 0 <= j < |Blocks(tree)| && 0 <= k < |Blocks(tree)| ==>
          SameFlag(PortsOfBlock(tree, j), PortsOfBlock(tree, k)))
    && (forall k :: 0 <= k < |Blocks(tree)| ==> SameFlag(PortsOfBlock(tree, k), [CarriedOf(tree).port]))
  }

  /** A location with the ProxyPass flag needs the address of a host, any other a readable root. */
  predicate LocationAccepted(ws: seq<Write>, groups: seq<string>, readable: string -> bool) {
    if (HasAdding(ws) && IsHostPass(Making(ws), groups)) || LaterPass(ws, false) then HasHostPass(ws, groups)
    else readable(RootOf(ws, DEFAULT_LOCATION.root))
  }

  ghost predicate Accepted(tree: seq<HttpDirective>, readable: string -> bool) {
    && PortsAgree(tree) && readable(DEFAULT_LOCATION.root)
    && forall k :: 0 <= k < |Blocks(tree)| ==>
         LocationAccepted(WritesIn(Blocks(tree)[k]), CarriedOf(UpTo(tree, k)).groups, readable)
  }

  /** What the writes of a block, over a default that is plain but for its match and expires, lead to. */
  lemma LocationOkMeans(ws: seq<Write>, base: Location, groups: seq<string>, readable: string -> bool)
    requires base.flags == {DocRoot} && base.passTo == None && base.root == DEFAULT_LOCATION.root
    ensures LocationOk(LocationOf(ws, base, groups), readable) <==> LocationAccepted(ws, groups, readable)
  {
    hide FlagsOf; hide PassToOf;
    FlagsMean(ws, base.flags, groups);
    PassToMeans(ws, groups);
  }

  /** The servers, with what the checks look at. */
  lemma ServerOfBlock(tree: seq<HttpDirective>, k: nat, readable: string -> bool)
    requires k < |Blocks(tree)|
    ensures k < |Run(tree).servers| && Run(tree).servers[k].ports == PortsOfBlock(tree, k)
    ensures ServerOk(Run(tree).servers[k], readable) <==>
            LocationAccepted(WritesIn(Blocks(tree)[k]), CarriedOf(UpTo(tree, k)).groups, readable)
  {
    hide LocationOf; hide LocationOk; hide LocationAccepted; hide FirstNames;
    ConfigurationMeansItsDeclarations(tree);
    MeaningOfBlock(tree, k);
    var c, ws := CarriedOf(UpTo(tree, k)), WritesIn(Blocks(tree)[k]);
    CarriedIsPlain(UpTo(tree, k));
    LocationOkMeans(ws, c.location, c.groups, readable);
    var s := Run(tree).servers[k];
    assert s.locations == [LocationOf(ws, c.location, c.groups)] && s.locations[0] in s.locations;
  }

  lemma ServerBehind(tree: seq<HttpDirective>, readable: string -> bool)
    ensures var n := |Blocks(tree)|;
      && |Run(tree).servers| == n + 1 && Run(tree).servers[n].ports == [CarriedOf(tree).port]
      && (ServerOk(Run(tree).servers[n], readable) <==> readable(DEFAULT_LOCATION.root))
  {
    ConfigurationMeansItsDeclarations(tree);
    CarriedIsPlain(tree);
    var s := Run(tree).servers[|Blocks(tree)|];
    assert s.locations[0] in s.locations;
  }

  /** The program starts exactly with the default server, when nothing is freed that must not be, no port number has two
      TLS flags, and every block's location, and the default one, has what its flags need. */
  lemma StartsExactly(tree: seq<HttpDirective>, defaultServer: bool, readable: string -> bool)
    ensures Starts(tree, defaultServer, readable) <==>
            !CarriedOf(tree).fault && !CarriedOf(tree).nameFault && defaultServer && Accepted(tree, readable)
  {
    hide ServerOk; hide LocationAccepted; hide SameFlag; hide PortsOfBlock;
    ConfigurationMeansItsDeclarations(tree);
    var servers, n := Run(tree).servers, |Blocks(tree)|;
    ServerBehind(tree, readable);
    forall k | 0 <= k < n
      ensures servers[k].ports == PortsOfBlock(tree, k)
      ensures ServerOk(servers[k], readable) <==>
              LocationAccepted(WritesIn(Blocks(tree)[k]), CarriedOf(UpTo(tree, k)).groups, readable)
    {
      ServerOfBlock(tree, k, readable);
    }
    if Accepted(tree, readable) { AllPortsAgree(tree, servers); }
    if ChecksPass(servers, readable) {
      forall k | 0 <= k < n ensures ServerOk(servers[k], readable) {
        assert servers[k] in servers;
      }
      assert servers[n] in servers;
    }
  }

  lemma AllPortsAgree(tree: seq<HttpDirective>, servers: seq<Server>)
    requires PortsAgree(tree) && |servers| == |Blocks(tree)| + 1
    requires forall k :: 0 <= k < |Blocks(tree)| ==> servers[k].ports == PortsOfBlock(tree, k)
    requires servers[|Blocks(tree)|].ports == [CarriedOf(tree).port]
    ensures OneFlagPerPort(servers)
  {
    hide PortsOfBlock;
    var n := |Blocks(tree)|;
    forall s, t | 0 <= s < |servers| && 0 <= t < |servers| ensures SameFlag(servers[s].ports, servers[t].ports) {
      if s < n && t < n {
        assert SameFlag(PortsOfBlock(tree, s), PortsOfBlock(tree, t));
      } else if s < n || t < n {
        assert SameFlag(PortsOfBlock(tree, if s < n then s else t), [CarriedOf(tree).port]);
      }
    }
  }

  // ---- Reaching the load balancer ----

  /** The upstream lines read up to the end of the first block with this name: what that group's nodes are made of. */
  function LinesFor(tree: seq<HttpDirective>, name: string): seq<Upstream> {
    if tree == [] then []
    else if name in CarriedOf(tree[..|tree| - 1]).groups then LinesFor(tree[..|tree| - 1], name)
    else LinesIn(tree)
  }

  function LinesIn(tree: seq<HttpDirective>): seq<Upstream> {
    if tree == [] then []
    else LinesIn(tree[..|tree| - 1]) + if Last(tree).UpstreamBlock? then Last(tree).lines else []
  }

  /** For each group, the lines read up to the end of its block. */
  function LinesOfGroups(tree: seq<HttpDirective>): seq<seq<Upstream>> {
    if tree == [] then []
    else LinesOfGroups(tree[..|tree| - 1]) + if Last(tree).UpstreamBlock? then [LinesIn(tree)] else []
  }

  /** The upstream part of reading a configuration: the groups come in the order of their blocks, each with the lines of
      every block so far. */
  method BuildUpstreams(tree: seq<HttpDirective>) returns (table: UpstreamTable)
    ensures table.Valid() && table.lines == LinesIn(tree) && table.groupLines == LinesOfGroups(tree)
    ensures |table.groups.nodes| == |CarriedOf(tree).groups|
    ensures forall g :: 0 <= g < |table.groups.nodes| ==> table.groups.nodes[g].data.name == CarriedOf(tree).groups[g]
  {
    hide UpstreamTable.Valid; hide AfterBlock; hide LinesIn; hide LinesOfGroups; hide CarriedOf;
    NothingRead();
    table := new UpstreamTable();
    for i := 0 to |tree|
      invariant table.Valid() && fresh(table) && fresh(table.groups) && fresh(table.groups.nodes)
      invariant table.lines == LinesIn(tree[..i]) && table.groupLines == LinesOfGroups(tree[..i])
      invariant |table.groups.nodes| == |CarriedOf(tree[..i]).groups|
      invariant forall g :: 0 <= g < |table.groups.nodes| ==>
                  table.groups.nodes[g].data.name == CarriedOf(tree[..i]).groups[g]
    {
      OneMoreEntry(tree[..i], tree[i]);
      assert tree[..i + 1] == tree[..i] + [tree[i]];
      if tree[i].UpstreamBlock? {
        table.AddBlock(tree[i].name, tree[i].lines);
      }
    }
    assert tree[..|tree|] == tree;
  }

  lemma NothingRead()
    ensures LinesIn([]) == [] && LinesOfGroups([]) == [] && CarriedOf([]).groups == []
  {
  }

  lemma OneMoreEntry(earlier: seq<HttpDirective>, d: HttpDirective)
    ensures var all := earlier + [d];
      && LinesIn(all) == (if d.UpstreamBlock? then LinesIn(earlier) + d.lines else LinesIn(earlier))
      && LinesOfGroups(all)
          == (if d.UpstreamBlock? then LinesOfGroups(earlier) + [LinesIn(all)] else LinesOfGroups(earlier))
      && CarriedOf(all).groups
         == (if d.UpstreamBlock? then CarriedOf(earlier).groups + [d.name] else CarriedOf(earlier).groups)
  {
    assert (earlier + [d])[..|earlier|] == earlier;
  }

  /** A group is found by the first block with its name. */
  lemma {:induction false} LinesForIsFirst(tree: seq<HttpDirective>, g: nat)
    requires g < |CarriedOf(tree).groups| && CarriedOf(tree).groups[g] !in CarriedOf(tree).groups[..g]
    ensures g < |LinesOfGroups(tree)| && LinesFor(tree, CarriedOf(tree).groups[g]) == LinesOfGroups(tree)[g]
  {
    GroupsHaveLines(tree);
    var earlier, name := tree[..|tree| - 1], CarriedOf(tree).groups[g];
    var groups := CarriedOf(earlier).groups;
    GroupsHaveLines(earlier);
    if g < |groups| {
      assert CarriedOf(tree).groups[..g] == groups[..g];
      LinesForIsFirst(earlier, g);
    } else {
      assert CarriedOf(tree).groups[..g] == groups;
    }
  }

  lemma {:induction false} GroupsHaveLines(tree: seq<HttpDirective>)
    ensures |LinesOfGroups(tree)| == |CarriedOf(tree).groups|
  {
    if tree != [] { GroupsHaveLines(tree[..|tree| - 1]); }
  }

  /** The program starts, and a request that gets as far as the choice of a handler for this server's location goes to
      one that picks a server from the location's group, which is still there and has a node. */
  ghost predicate ReachesBalancer(tree: seq<HttpDirective>, k: nat, defaultServer: bool, readable: string -> bool) {
    && Starts(tree, defaultServer, readable)
    && k < |Run(tree).servers| && |Run(tree).servers[k].locations| == 1
    && var l := Run(tree).servers[k].locations[0];
       && (Dispatch(l) == ProxyHandler || Dispatch(l) == FastCgiHandler)
       && UpstreamGroup in l.flags && l.group.Some? && l.group.value !in Run(tree).freed
       && Expand(LinesFor(tree, l.group.value)) != []
  }

  /** The requests for a server's location reach the balancer exactly when the program starts with the configuration,
      the write that makes the location is a pass to a group, a pass comes later, nothing sets try_files, and the last
      group has not been freed and has a line that is not a backup. So a single proxy_pass to a group is not balanced,
      nor two, nor one behind a `root`. */
  lemma LocationIsBalanced(tree: seq<HttpDirective>, k: nat, defaultServer: bool, readable: string -> bool)
    requires k < |Blocks(tree)|
    ensures var ws, groups := WritesIn(Blocks(tree)[k]), CarriedOf(UpTo(tree, k)).groups;
      ReachesBalancer(tree, k, defaultServer, readable) <==>
      && !CarriedOf(tree).fault && !CarriedOf(tree).nameFault && defaultServer && Accepted(tree, readable)
      && HasAdding(ws) && IsGroupPass(Making(ws), groups) && !HasTry(ws)
          && (LaterPass(ws, false) || LaterPass(ws, true))
      && (GroupOf(ws, None, groups).Some? ==>
            var g := GroupOf(ws, None, groups).value;
            g !in CarriedOf(tree).freed && exists i :: 0 <= i < |LinesFor(tree, g)| && LinesFor(tree, g)[i].weight > 0)
  {
    hide FlagsOf; hide GroupOf; hide PassToOf; hide Starts; hide Accepted;
    var c, ws := CarriedOf(UpTo(tree, k)), WritesIn(Blocks(tree)[k]);
    ConfigurationMeansItsDeclarations(tree);
    StartsExactly(tree, defaultServer, readable);
    LocationOfServer(tree, k);
    CarriedIsPlain(UpTo(tree, k));
    FlagsMean(ws, {DocRoot}, c.groups);
    if HasAdding(ws) && IsGroupPass(Making(ws), c.groups) {
      GroupMeans(ws, c.groups);
      ExpandEmpty(LinesFor(tree, GroupOf(ws, None, c.groups).value));
    }
  }
}
