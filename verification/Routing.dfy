/** Which server and which location answer a request (processInput.c and getDocRoot.c). */
module Routing {
  import opened Options
  import opened Sequences
  import opened Chains
  import opened ConfigModel
  import opened ConfigMeaning
  import opened Startup
  import opened Text

  datatype Target = Chosen(server: nat) | NoServer | Fault

  /** A request goes to a server by exact name and by port; a wildcard name only matches itself. */
  predicate Serves(s: Server, name: string, port: int) {
    HasName(s.names, name) && HasPort(s.ports, port)
  }

  /** hasPort. */
  method PortListed(ports: seq<Port>, port: int) returns (found: bool)
    ensures found <==> HasPort(ports, port)
  {
    for i := 0 to |ports|
      invariant forall j :: 0 <= j < i ==> ports[j].num != port
    {
      if ports[i].num == port {
        return true;
      }
    }
    return false;
  }

  /** The first server that takes the name and port; |servers| if none does. */
  function FirstServing(servers: seq<Server>, name: string, port: int): (k: nat)
    ensures k <= |servers| && (k < |servers| ==> Serves(servers[k], name, port))
    ensures forall j :: 0 <= j < k ==> !Serves(servers[j], name, port)
  {
    if servers == [] || Serves(servers[0], name, port) then 0 else 1 + FirstServing(servers[1..], name, port)
  }

  lemma FirstServingIs(servers: seq<Server>, name: string, port: int, k: nat)
    requires k <= |servers| && (k < |servers| ==> Serves(servers[k], name, port))
    requires forall j :: 0 <= j < k ==> !Serves(servers[j], name, port)
    ensures FirstServing(servers, name, port) == k
  {
  }

  /** What a Host header asks for; without a port, the first port of the first server. */
  function HostName(host: string): string {
    host[..IndexOf(host, ':')]
  }

  function PortOf(host: string, default: int): int {
    if IndexOf(host, ':') < |host| then Atoi(host[IndexOf(host, ':') + 1..]) else default
  }

  /** A Host header with a port, and one without. */
  lemma HostParts(name: string, port: nat, more: string, default: int)
    requires ':' !in name && (more == [] || !('0' <= more[0] <= '9'))
    ensures HostName(name + ":" + (Decimal(port) + more)) == name
        && PortOf(name + ":" + (Decimal(port) + more), default) == port
    ensures HostName(name) == name && PortOf(name, default) == default
  {
    hide Atoi;
    var behind := Decimal(port) + more;
    FirstAfter(name, ':', behind);
    IndexOfIs(name, ':', |name|);
    var host := name + [':'] + behind;
    assert host[..|name|] == name && host[|name| + 1..] == behind;
    AtoiReads([], port, more);
    AppendNone(behind);
  }

  /** The first server that takes the name and port; otherwise the head of the list, or none if defaults are off. */
  function Answer(servers: seq<Server>, name: string, port: int, defaultServer: bool): Target {
    var k := FirstServing(servers, name, port);
    if k < |servers| then Chosen(k) else if defaultServer then Chosen(0) else NoServer
  }

  /** getServerForHost. Fault is the null dereference that an empty list leads to. */
  method ServerForHost(servers: seq<Server>, host: string, defaultServer: bool) returns (t: Target)
    ensures t.Fault? <==> servers == [] || servers[0].ports == []
    ensures !t.Fault? ==>
      t == Answer(servers, HostName(host), PortOf(host, servers[0].ports[0].num), defaultServer)
  {
    if servers == [] || servers[0].ports == [] {
      return Fault;
    }
    var colon := IndexOf(host, ':');
    var port := servers[0].ports[0].num;
    if colon < |host| {
      port := Atoi(host[colon + 1..]);
    }
    var name := host[..colon];
    for k := 0 to |servers|
      invariant forall j :: 0 <= j < k ==> !Serves(servers[j], name, port)
    {
      for i := 0 to |servers[k].names|
        invariant (exists j :: 0 <= j < i && servers[k].names[j].name == name) ==> !HasPort(servers[k].ports, port)
      {
        if servers[k].names[i].name == name {
          var listed := PortListed(servers[k].ports, port);
          if listed {
            FirstServingIs(servers, name, port, k);
            return Chosen(k);
          }
        }
      }
    }
    FirstServingIs(servers, name, port, |servers|);
    t := if defaultServer then Chosen(0) else NoServer;
  }

  // ---- In terms of the configuration ----

  /** What a server block declares about names and ports, with the defaults for a block that declares none. */
  predicate Declares(body: seq<Directive>, name: string, port: int) {
    && (if NamesIn(body) == [] then name == "*" else HasName(NamesIn(body), name))
    && (if OptionNums(OptionsIn(body)) == [] then port == 8080 else port in OptionNums(OptionsIn(body)))
  }

  lemma {:induction false} NamesOfBlock(tree: seq<HttpDirective>, k: nat)
    requires k < |Blocks(tree)|
    ensures Meaning(tree)[k].names == OrDefault(FirstNames(NamesIn(Blocks(tree)[k])), DEFAULT_NAME)
  {
    if k < |Blocks(tree[..|tree| - 1])| {
      NamesOfBlock(tree[..|tree| - 1], k);
    }
  }

  lemma {:induction false} FirstNamesNone(ns: seq<ServerName>)
    ensures FirstNames(ns) == [] <==> ns == []
  {
    if ns != [] {
      var es := ns[..|ns| - 1];
      FirstNamesNone(es);
      if es == [] { assert !HasName(es, Last(ns).name); }
    }
  }

  lemma HasNameOfOne(n: ServerName, name: string)
    ensures HasName([n], name) <==> n.name == name
  {
    assert [n][0] == n;
  }

  /** The k-th server takes a request exactly when the k-th block declares its name and port. */
  lemma ServesWhatIsDeclared(tree: seq<HttpDirective>, k: nat, name: string, port: int)
    requires k < |Blocks(tree)|
    ensures k < |Run(tree).servers|
    ensures Serves(Run(tree).servers[k], name, port) <==> Declares(Blocks(tree)[k], name, port)
  {
    ConfigurationMeansItsDeclarations(tree);
    NamesOfBlock(tree, k);
    PortNumbersOfBlock(tree, k);
    var s, names, nums := Run(tree).servers[k], NamesIn(Blocks(tree)[k]), OptionNums(OptionsIn(Blocks(tree)[k]));
    assert s.names == Meaning(tree)[k].names && s.ports == Meaning(tree)[k].ports;
    FirstNamesNone(names);
    FirstNumsNone(nums);
    FirstNamesHas(names, name);
    FirstNumsMembers(nums, port);
    HasPortMeansNumber(s.ports, port);
    HasNameOfOne(DEFAULT_NAME, name);
  }

  /** The first block that declares the name and port; |blocks| if none does. */
  function FirstDeclaring(blocks: seq<seq<Directive>>, name: string, port: int): (k: nat)
    ensures k <= |blocks|
  {
    if blocks == [] || Declares(blocks[0], name, port) then 0 else 1 + FirstDeclaring(blocks[1..], name, port)
  }

  lemma {:induction false} FirstDeclaringFirst(blocks: seq<seq<Directive>>, name: string, port: int)
    ensures var k := FirstDeclaring(blocks, name, port);
      && (k < |blocks| ==> Declares(blocks[k], name, port))
      && forall j :: 0 <= j < k ==> !Declares(blocks[j], name, port)
  {
    hide Declares;
    if blocks != [] && !Declares(blocks[0], name, port) {
      FirstDeclaringFirst(blocks[1..], name, port);
      assert forall j :: 1 <= j < |blocks| ==> blocks[j] == blocks[1..][j - 1];
    }
  }

  /** With or without the default server: a name and port are answered by the first block still on the list that
      declares them; if none does, by the trailing server for `*` and 8080; and otherwise by the head of the list, which
      is the first declared server if there is one, or by none if defaults are off. */
  lemma FirstDeclaringBlockAnswers(tree: seq<HttpDirective>, name: string, port: int, defaultServer: bool)
    ensures var blocks := KeptBlocks(tree, defaultServer);
      var servers, b := CheckedServers(Run(tree).servers, defaultServer), FirstDeclaring(blocks, name, port);
      && |servers| == |blocks| + (if TrailingKept(tree, defaultServer) then 1 else 0)
      && Answer(servers, name, port, defaultServer) ==
         if b < |blocks| then Chosen(b)
         else if TrailingKept(tree, defaultServer) && name == "*" && port == 8080 then
           Chosen(|blocks|)
         else if defaultServer then Chosen(0) else NoServer
  {
    var blocks, kept := KeptBlocks(tree, defaultServer), TrailingKept(tree, defaultServer);
    var servers, b := CheckedServers(Run(tree).servers, defaultServer), FirstDeclaring(blocks, name, port);
    KeptServers(tree, defaultServer);
    DefaultPortNumber(tree);
    FirstDeclaringFirst(blocks, name, port);
    hide Declares; hide Serves;
    forall j | 0 <= j < |blocks| ensures Serves(servers[j], name, port) <==> Declares(blocks[j], name, port) {
      ServesWhatIsDeclared(tree, if defaultServer then j else j + 1, name, port);
    }
    if kept { TrailingServes(servers[|blocks|], CarriedOf(tree).port, name, port); }
    var here := kept && name == "*" && port == 8080;
    FirstServingIs(servers, name, port, if b < |blocks| then b else if here then |blocks| else |servers|);
  }

  lemma TrailingServes(s: Server, default: Port, name: string, port: int)
    requires s.names == [DEFAULT_NAME] && s.ports == [default]
    ensures Serves(s, name, port) <==> name == DEFAULT_NAME.name && port == default.num
  {
    assert s.names[0] == DEFAULT_NAME && s.ports[0] == default;
  }

  // ---- Locations ----

  predicate LocationMatches(l: Location, path: string, regex: (string, string) -> bool) {
    match l.matchType
    case Regex => regex(l.pattern, path)
    case Prefix => l.pattern <= path
    case Equal => path == l.pattern
    case Unset => false
  }

  /** Which paths a location takes. */
  lemma MatchesExactly(l: Location, path: string, regex: (string, string) -> bool)
    ensures l.matchType == Prefix ==> (LocationMatches(l, path, regex) <==> exists more :: path == l.pattern + more)
    ensures l.matchType == Equal ==> (LocationMatches(l, path, regex) <==> path == l.pattern)
    ensures l.matchType == Regex ==> (LocationMatches(l, path, regex) <==> regex(l.pattern, path))
    ensures l.matchType == Unset ==> !LocationMatches(l, path, regex)
  {
    if l.matchType == Prefix && l.pattern <= path {
      assert path == l.pattern + path[|l.pattern|..];
    }
  }

  /** getDocRoot; `regex(pattern, path)` is whether the pattern compiles and matches. */
  method DocRoot(locations: seq<Location>, path: string, regex: (string, string) -> bool) returns (k: nat)
    ensures k <= |locations| && (k < |locations| ==> LocationMatches(locations[k], path, regex))
    ensures forall j :: 0 <= j < k ==> !LocationMatches(locations[j], path, regex)
  {
    k := 0;
    while k < |locations|
      invariant k <= |locations| && forall j :: 0 <= j < k ==> !LocationMatches(locations[j], path, regex)
    {
      var loc := locations[k];
      if loc.matchType == Regex && regex(loc.pattern, path) {
        return;
      } else if loc.matchType == Prefix && |loc.pattern| <= |path| && path[..|loc.pattern|] == loc.pattern {
        return;
      } else if loc.matchType == Equal && |path| == |loc.pattern| && path == loc.pattern {
        return;
      }
      k := k + 1;
    }
  }
}
