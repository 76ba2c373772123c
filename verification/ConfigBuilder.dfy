/** The configuration builder of parseConfig.c on its linked lists: every action keeps the lists well formed
    and apart, and does to their contents what ConfigModel says. */
module ConfigBuilder {
  import opened Options
  import opened Sequences
  import opened Chains
  import opened LoadBalancer
  import M = ConfigModel

  datatype Nodes = ListNodes(names: seq<Node<M.ServerName>>, indexFiles: seq<Node<string>>, ports: seq<Node<M.Port>>,
      locations: seq<Node<M.Location>>)

  /** f_server moves every node but the default, if there are others. */
  ghost predicate Moved(pending: Nodes, server: Nodes) {
    && (|pending.names| > 1 ==> server.names == Reverse(Taken(pending.names)))
    && (|pending.indexFiles| > 1 ==> server.indexFiles == Reverse(Taken(pending.indexFiles)))
    && (|pending.ports| > 1 ==> server.ports == Reverse(Taken(pending.ports)))
    && (|pending.locations| > 1 ==> server.locations == Taken(pending.locations))
  }

  /** A `_server` with its own lists. */
  class Server {
    const names: OwnList<M.ServerName>
    const indexFiles: OwnList<string>
    const ports: OwnList<M.Port>
    const locations: OwnList<M.Location>
    var autoIndex: bool
    var certFile: Option<string>
    var keyFile: Option<string>
    ghost var Repr: set<object>      // the server and the nodes on its lists
    ghost var view: M.Server         // what it holds

    ghost predicate Valid()
      reads this, Repr
      ensures Valid() ==> this in Repr && names in Repr && indexFiles in Repr && ports in Repr && locations in Repr
    {
      && this in Repr && names in Repr && indexFiles in Repr && ports in Repr && locations in Repr
      && names.Repr <= Repr && indexFiles.Repr <= Repr && ports.Repr <= Repr && locations.Repr <= Repr
      && Lists() && Repr == {this} + names.Repr + indexFiles.Repr + ports.Repr + locations.Repr
      && view == M.Server(names.items, indexFiles.items, ports.items, locations.items, autoIndex, certFile, keyFile)
    }

    ghost predicate Lists()
      reads this, names, names.Repr, indexFiles, indexFiles.Repr, ports, ports.Repr, locations, locations.Repr
    {
      && names.Valid() && indexFiles.Valid() && ports.Valid() && locations.Valid()
      && names.Repr !! indexFiles.Repr !! ports.Repr !! locations.Repr !! {this}
    }

    ghost function Owned(): set<object>
      reads this, names, indexFiles, ports, locations
    {
      {this} + names.Repr + indexFiles.Repr + ports.Repr + locations.Repr
    }

    ghost function Items(): M.Server
      reads this, names, indexFiles, ports, locations
    {
      M.Server(names.items, indexFiles.items, ports.items, locations.items, autoIndex, certFile, keyFile)
    }

    ghost function Nodes(): Nodes
      reads names, indexFiles, ports, locations
    {
      ListNodes(names.nodes, indexFiles.nodes, ports.nodes, locations.nodes)
    }

    constructor ()
      ensures Owned() == {this, names, indexFiles, ports, locations} && Lists()
      ensures fresh(Owned())
    {
      hide OwnList.Valid;
      var n := new OwnList();
      var f := new OwnList();
      var p := new OwnList();
      var l := new OwnList();
      names, indexFiles, ports, locations := n, f, p, l;
      autoIndex, certFile, keyFile := false, None, None;
    }

    lemma SharedListsApart(n: set<object>, f: set<object>, p: set<object>, l: set<object>)
      requires n !! f !! p !! l !! {this, names, indexFiles, ports, locations}
      requires names.Valid() && names.Repr <= {names} + n
      requires indexFiles.Valid() && indexFiles.Repr <= {indexFiles} + f
      requires ports.Valid() && ports.Repr <= {ports} + p
      requires locations.Valid() && locations.Repr <= {locations} + l
      ensures Lists() && Owned() <= {this, names, indexFiles, ports, locations} + n + f + p + l
    {
      hide OwnList.Valid;
    }

    method ShareNames(n: PendingList<M.ServerName>, f: PendingList<string>)
      requires names.Valid() && indexFiles.Valid() && n.Valid() && f.Valid()
      requires names !in indexFiles.Repr + n.Repr + f.Repr && indexFiles !in names.Repr + n.Repr + f.Repr
      modifies names, indexFiles
      ensures names.Valid() && names.nodes == n.nodes && names.items == n.items && names.Repr <= {names} + n.Repr
      ensures indexFiles.Valid() && indexFiles.nodes == f.nodes && indexFiles.items == f.items
      ensures indexFiles.Repr <= {indexFiles} + f.Repr
    {
      hide PendingList.Valid; hide OwnList.Valid;
      names.Share(n);
      indexFiles.Share(f);
    }

    method SharePorts(p: PendingList<M.Port>, l: PendingList<M.Location>)
      requires ports.Valid() && locations.Valid() && p.Valid() && l.Valid()
      requires ports !in locations.Repr + p.Repr + l.Repr && locations !in ports.Repr + p.Repr + l.Repr
      modifies ports, locations
      ensures ports.Valid() && ports.nodes == p.nodes && ports.items == p.items && ports.Repr <= {ports} + p.Repr
      ensures locations.Valid() && locations.nodes == l.nodes && locations.items == l.items
      ensures locations.Repr <= {locations} + l.Repr
    {
      hide PendingList.Valid; hide OwnList.Valid;
      ports.Share(p);
      locations.Share(l);
    }

    /** The list blocks of f_http: this server shares its nodes with the pending lists. */
    method ShareLists(n: PendingList<M.ServerName>, f: PendingList<string>, p: PendingList<M.Port>,
                      l: PendingList<M.Location>)
      requires Lists() && Owned() == {this, names, indexFiles, ports, locations}
      requires n.Valid() && f.Valid() && p.Valid() && l.Valid()
      requires n.Repr !! f.Repr !! p.Repr !! l.Repr !! {this, names, indexFiles, ports, locations}
      modifies names, indexFiles, ports, locations
      ensures Lists() && Nodes() == ListNodes(n.nodes, f.nodes, p.nodes, l.nodes)
      ensures Items() == M.Server(n.items, f.items, p.items, l.items, old(autoIndex), old(certFile), old(keyFile))
      ensures Owned() <= old(Owned()) + n.Repr + f.Repr + p.Repr + l.Repr
    {
      hide PendingList.Valid; hide OwnList.Valid;
      ShareNames(n, f);
      SharePorts(p, l);
      hide Lists;
      SharedListsApart(n.Repr, f.Repr, p.Repr, l.Repr);
    }

    /** The last part of f_server: now it is known what the server owns and holds. */
    method Finish(autoIndex: bool, certFile: Option<string>, keyFile: Option<string>)
      requires Lists()
      modifies this
      ensures Valid() && Repr == old(Owned()) && Nodes() == old(Nodes())
      ensures view == old(Items()).(autoIndex := autoIndex, certFile := certFile, keyFile := keyFile)
    {
      hide OwnList.Valid;
      this.autoIndex, this.certFile, this.keyFile := autoIndex, certFile, keyFile;
      Repr, view := Owned(), Items();
    }
  }

  /** What the servers built so far own: disjoint sets of nodes, with known contents. */
  class Ownership {
    ghost var servers: seq<Server>
    ghost var views: seq<M.Server>
    ghost var parts: seq<set<object>>    // each server and the nodes on its lists
    ghost var Repr: set<object>

    ghost predicate Valid()
      reads this, Repr
      ensures Valid() ==> this in Repr
    {
      && this in Repr && |servers| == |views| == |parts|
      && (forall i :: 0 <= i < |servers| ==> servers[i] in parts[i] && parts[i] <= Repr && this !in parts[i])
      && (forall i :: 0 <= i < |servers| ==>
            servers[i].Repr == parts[i] && servers[i].view == views[i] && servers[i].Valid())
      && (forall i, j :: 0 <= i < j < |parts| ==> parts[i] !! parts[j])
    }

    constructor ()
      ensures Valid() && fresh(Repr) && servers == [] && views == []
    {
      servers, views, parts, Repr := [], [], [], {this};
    }

    ghost method Adopt(s: Server)
      requires Valid() && s.Valid() && s.Repr !! Repr
      modifies this
      ensures Valid() && servers == old(servers) + [s] && views == old(views) + [s.view]
      ensures parts == old(parts) + [s.Repr]
      ensures Repr == old(Repr) + s.Repr
    {
      hide Server.Valid;
      servers, views, parts, Repr := servers + [s], views + [s.view], parts + [s.Repr], Repr + s.Repr;
    }
  }

  class Builder {
    const names: PendingList<M.ServerName>
    const indexFiles: PendingList<string>
    const ports: PendingList<M.Port>
    const locations: PendingList<M.Location>
    const servers: ItemList<Server>
    const owned: Ownership
    var protocol: M.Protocol
    var autoIndex: bool
    var certFile: Option<string>
    var keyFile: Option<string>
    var groups: seq<string>
    ghost var freed: set<string>     // groups whose node has been freed
    ghost var fault: bool
    ghost var nameFault: bool

    /** The pending lists are acyclic and end in their defaults, the built servers' lists hold what they should,
        and no node is on two lists. */
    ghost predicate Valid()
      reads this, names, names.Repr, indexFiles, indexFiles.Repr, ports, ports.Repr, locations, locations.Repr
      reads servers, servers.Repr, owned, owned.Repr
      ensures Valid() ==> M.Proper(View()) && owned in owned.Repr
    {
      && names.Valid() && indexFiles.Valid() && ports.Valid() && locations.Valid() && servers.Valid() && owned.Valid()
      && names.Repr !! indexFiles.Repr !! ports.Repr !! locations.Repr !! servers.Repr !! owned.Repr !! {this}
      && servers.items == owned.servers
    }

    ghost function View(): M.State
      reads this, names, indexFiles, ports, locations, owned
    {
      M.State(names.items, indexFiles.items, ports.items, locations.items, protocol, autoIndex, certFile, keyFile,
          groups, freed, fault, nameFault, owned.views)
    }

    constructor (names: PendingList<M.ServerName>, indexFiles: PendingList<string>, ports: PendingList<M.Port>,
                 locations: PendingList<M.Location>, servers: ItemList<Server>, owned: Ownership)
      requires names.Valid() && indexFiles.Valid() && ports.Valid() && locations.Valid() && servers.Valid()
      requires owned.Valid()
      requires names.Repr !! indexFiles.Repr !! ports.Repr !! locations.Repr !! servers.Repr !! owned.Repr
      requires servers.items == owned.servers
      ensures Valid() && Footprint()
          == {this} + names.Repr + indexFiles.Repr + ports.Repr + locations.Repr + servers.Repr + owned.Repr
      ensures View() == M.State(names.items, indexFiles.items, ports.items, locations.items, M.NoProtocol, false,
          None, None, [], {}, false, false,
                               owned.views)
    {
      hide PendingList.Valid; hide ItemList.Valid; hide Ownership.Valid;
      this.names, this.indexFiles, this.ports, this.locations := names, indexFiles, ports, locations;
      this.servers, this.owned := servers, owned;
      protocol, autoIndex, certFile, keyFile, groups := M.NoProtocol, false, None, None, [];
      freed, fault, nameFault := {}, false, false;
    }

    /** The defaults that parseConfig sets up before it calls the parser. */
    static method Defaults() returns (names: PendingList<M.ServerName>, indexFiles: PendingList<string>,
        ports: PendingList<M.Port>,
                                      locations: PendingList<M.Location>)
      ensures fresh(names.Repr) && fresh(indexFiles.Repr) && fresh(ports.Repr) && fresh(locations.Repr)
      ensures names.Valid() && indexFiles.Valid() && ports.Valid() && locations.Valid()
      ensures names.Repr !! indexFiles.Repr !! ports.Repr !! locations.Repr
      ensures names.items == [M.DEFAULT_NAME] && indexFiles.items == [M.DEFAULT_INDEX]
      ensures ports.items == [M.DEFAULT_PORT] && locations.items == [M.DEFAULT_LOCATION]
    {
      hide PendingList.Valid;
      names := new PendingList(M.DEFAULT_NAME);
      indexFiles := new PendingList(M.DEFAULT_INDEX);
      ports := new PendingList(M.DEFAULT_PORT);
      locations := new PendingList(M.DEFAULT_LOCATION);
    }

    static method Start() returns (b: Builder)
      ensures b.Valid() && fresh(b.Footprint()) && b.View() == M.Initial()
    {
      hide Builder.Valid; hide Builder.View; hide Builder.Footprint; hide PendingList.Valid; hide ItemList.Valid;
      hide Ownership.Valid;
      var names, indexFiles, ports, locations := Defaults();
      var servers := new ItemList();
      var owned := new Ownership();
      b := new Builder(names, indexFiles, ports, locations, servers, owned);
    }

    /** Everything an action may change. */
    ghost function Footprint(): set<object>
      reads this, names, indexFiles, ports, locations, servers, owned
    {
      {this} + names.Repr + indexFiles.Repr + ports.Repr + locations.Repr + servers.Repr + owned.Repr
    }

    ghost function Nodes(): Nodes
      reads names, indexFiles, ports, locations
    {
      ListNodes(names.nodes, indexFiles.nodes, ports.nodes, locations.nodes)
    }

    /** f_server_name. */
    method AddName(n: M.ServerName)
      requires Valid()
      modifies Footprint()
      ensures Valid() && View() == M.AddName(old(View()), n) && fresh(Footprint() - old(Footprint()))
    {
      hide PendingList.Valid; hide ItemList.Valid; hide Ownership.Valid;
      var dup := names.HasPending((x: M.ServerName) => x.name, n.name);
      if !dup {
        names.Push(n);
      }
    }

    /** f_listen for `*`. */
    method AddWildcard()
      requires Valid()
      modifies Footprint()
      ensures Valid() && View() == M.AddWildcard(old(View())) && fresh(Footprint() - old(Footprint()))
    {
      hide Valid; hide View; hide M.HasName;
      ghost var s := View();
      AddName(M.DEFAULT_NAME);
      Note(s.freed, s.fault, s.nameFault || M.HasName(s.names[..|s.names| - 1], M.DEFAULT_NAME.name));
    }

    /** f_listen's port. */
    method AddPort(num: int)
      requires Valid()
      modifies Footprint()
      ensures Valid() && View() == M.AddPort(old(View()), num) && fresh(Footprint() - old(Footprint()))
    {
      hide PendingList.Valid; hide ItemList.Valid; hide Ownership.Valid;
      if num > 0 {
        var dup := ports.HasPending((p: M.Port) => p.num, num);
        if !dup {
          ports.Push(M.Port(num, false));
        }
      }
    }

    /** f_tls. */
    method MarkTls()
      requires Valid()
      modifies Footprint()
      ensures Valid() && View() == M.MarkTls(old(View())) && Footprint() == old(Footprint())
    {
      hide ItemList.Valid; hide Ownership.Valid;
      ports.UpdateHead(ports.head.data.(tls := true));
    }

    /** f_indexFile. */
    method AddIndex(file: string)
      requires Valid()
      modifies Footprint()
      ensures Valid() && View() == M.AddIndex(old(View()), file) && fresh(Footprint() - old(Footprint()))
    {
      hide PendingList.Valid; hide ItemList.Valid; hide Ownership.Valid;
      indexFiles.Push(file);
    }

    /** f_expires, f_location: the head is changed in place. */
    method SetHeadLocation(l: M.Location)
      requires Valid()
      modifies Footprint()
      ensures Valid() && View() == M.SetHeadLocation(old(View()), l) && Footprint() == old(Footprint())
    {
      hide ItemList.Valid; hide Ownership.Valid;
      locations.UpdateHead(l);
    }

    /** The two branches of f_root, f_try_files, proxyPassToHost and proxyPassToUpstreamGroup. */
    method ChangeLocation(pending: M.Location, copied: M.Location)
      requires Valid()
      modifies Footprint()
      ensures Valid() && View() == M.ChangeLocation(old(View()), pending, copied)
      ensures fresh(Footprint() - old(Footprint()))
    {
      hide PendingList.Valid; hide ItemList.Valid; hide Ownership.Valid;
      var alone := locations.HoldsOnlyDefault();
      if alone {
        locations.Push(copied);
      } else {
        SetHeadLocation(pending);
      }
    }

    /** What is freed, and what goes wrong with it, on the way. */
    ghost method Note(freed: set<string>, fault: bool, nameFault: bool)
      requires Valid()
      modifies this`freed, this`fault, this`nameFault
      ensures Valid() && Footprint() == old(Footprint())
      ensures View() == old(View()).(freed := freed, fault := fault, nameFault := nameFault)
    {
      hide PendingList.Valid; hide ItemList.Valid; hide Ownership.Valid;
      this.freed, this.fault, this.nameFault := freed, fault, nameFault;
    }

    /** The head of the pending locations. */
    function HeadLocation(): (l: M.Location)
      requires Valid()
      reads this, names, names.Repr, indexFiles, indexFiles.Repr, ports, ports.Repr, locations, locations.Repr
      reads servers, servers.Repr, owned, owned.Repr
      ensures l == View().locations[0]
    {
      locations.head.data
    }

    /** f_root. */
    method SetRoot(path: string)
      requires Valid()
      modifies Footprint()
      ensures Valid() && View() == M.SetRoot(old(View()), path) && fresh(Footprint() - old(Footprint()))
    {
      hide Valid; hide View;
      ghost var s := View();
      var l := HeadLocation();
      var l' := l.(flags := l.flags + {M.DocRoot}, root := path, ownRoot := true);
      ChangeLocation(l', l');
      Note(s.freed, s.fault || (|s.locations| > 1 && !l.ownRoot), s.nameFault);
    }

    /** f_try_files. */
    method SetTry(targets: seq<string>)
      requires Valid()
      modifies Footprint()
      ensures Valid() && View() == M.SetTry(old(View()), targets) && fresh(Footprint() - old(Footprint()))
    {
      hide Valid; hide View;
      var l := HeadLocation();
      var l' := l.(flags := l.flags + {M.TryFiles}, matchType := M.Unset, tryTargets := targets);
      ChangeLocation(l', l');
    }

    /** isUpstreamGroup. */
    method IsGroup(host: string) returns (found: bool)
      requires Valid()
      ensures found <==> host in View().groups
    {
      hide Valid;
      for i := 0 to |groups|
        invariant host !in groups[..i]
      {
        if groups[i] == host {
          return true;
        }
      }
      return false;
    }

    /** proxyPassToUpstreamGroup. */
    method PassToGroup(host: string, port: int, fastCgi: bool)
      requires Valid() && host in View().groups
      modifies Footprint()
      ensures Valid() && View() == M.PassTo(old(View()), host, port, fastCgi) && fresh(Footprint() - old(Footprint()))
    {
      hide Valid; hide View; hide M.Meets;
      ghost var s := View();
      var l, flag := HeadLocation(), if fastCgi then M.FastCgi else M.ProxyPass;
      ghost var frees := |s.locations| > 1 && l.group.Some?;
      ChangeLocation(l.(group := Some(host), flags := l.flags + {flag}),
                     l.(group := Some(host), flags := l.flags + {M.UpstreamGroup}));
      ghost var t := M.PassTo(s, host, port, fastCgi);
      Note(t.freed, t.fault, s.nameFault);
    }

    /** proxyPassToHost. */
    method PassToHost(host: string, port: int, fastCgi: bool)
      requires Valid() && host !in View().groups
      modifies Footprint()
      ensures Valid() && View() == M.PassTo(old(View()), host, port, fastCgi) && fresh(Footprint() - old(Footprint()))
    {
      hide Valid; hide View; hide M.Meets;
      ghost var s := View();
      var l, flag := HeadLocation(), if fastCgi then M.FastCgi else M.ProxyPass;
      ChangeLocation(l.(passTo := Some((host, port)), flags := l.flags + {flag}),
                     l.(passTo := Some((host, port)), flags := l.flags + {M.ProxyPass}));
      Note(s.freed, s.fault || M.Meets(s.groups, s.freed, host), s.nameFault);
    }

    /** f_proxy_pass and f_fastcgi_pass. */
    method PassTo(host: string, port: int, fastCgi: bool)
      requires Valid()
      modifies Footprint()
      ensures Valid() && View() == M.PassTo(old(View()), host, port, fastCgi) && fresh(Footprint() - old(Footprint()))
    {
      hide Valid; hide View; hide M.PassTo;
      var group := IsGroup(host);
      if group {
        PassToGroup(host, port, fastCgi);
      } else {
        PassToHost(host, port, fastCgi);
      }
    }

    /** f_protocol. */
    method SetProtocol(p: M.Protocol)
      requires Valid()
      modifies this
      ensures Valid() && View() == old(View()).(protocol := p) && Footprint() == old(Footprint())
    {
      hide PendingList.Valid; hide ItemList.Valid; hide Ownership.Valid;
      protocol := p;
    }

    /** f_autoindex. */
    method SetAutoIndex(on: bool)
      requires Valid()
      modifies this
      ensures Valid() && View() == old(View()).(autoIndex := on) && Footprint() == old(Footprint())
    {
      hide PendingList.Valid; hide ItemList.Valid; hide Ownership.Valid;
      autoIndex := on;
    }

    /** f_ssl_certificate. */
    method SetCertificate(path: string)
      requires Valid()
      modifies this
      ensures Valid() && View() == M.SetCertificate(old(View()), path) && Footprint() == old(Footprint())
    {
      hide PendingList.Valid; hide ItemList.Valid; hide Ownership.Valid;
      if certFile.None? {
        certFile := Some(path);
      }
    }

    /** f_ssl_certificate_key. */
    method SetKey(path: string)
      requires Valid()
      modifies this
      ensures Valid() && View() == M.SetKey(old(View()), path) && Footprint() == old(Footprint())
    {
      hide PendingList.Valid; hide ItemList.Valid; hide Ownership.Valid;
      if keyFile.None? {
        keyFile := Some(path);
      }
    }

    /** The name of f_upstreams; its servers are LoadBalancer's. */
    method AddGroup(name: string)
      requires Valid()
      modifies this
      ensures Valid() && View() == M.AddGroup(old(View()), name) && Footprint() == old(Footprint())
    {
      hide PendingList.Valid; hide ItemList.Valid; hide Ownership.Valid;
      groups, fault := groups + [name], fault || freed != {};
    }

    /** f_expires. */
    method SetExpires(time: string)
      requires Valid()
      modifies Footprint()
      ensures Valid() && Footprint() == old(Footprint())
      ensures View() == M.SetHeadLocation(old(View()), old(View()).locations[0].(expires := M.Seconds(time)))
    {
      hide Valid; hide View;
      var l := HeadLocation();
      SetHeadLocation(l.(expires := M.Seconds(time)));
    }

    /** f_expires for `off`, which it frees. */
    method SetExpiresOff()
      requires Valid()
      modifies Footprint()
      ensures Valid() && Footprint() == old(Footprint())
      ensures View() == M.RunLocationDirective(old(View()), M.ExpiresOff)
    {
      hide Valid; hide View;
      ghost var s := View();
      var l := HeadLocation();
      SetHeadLocation(l.(expires := 0));
      Note(s.freed, true, s.nameFault);
    }

    /** f_location. */
    method EndLocation(matchType: M.MatchType, pattern: string)
      requires Valid()
      modifies Footprint()
      ensures Valid() && View() == M.EndLocation(old(View()), matchType, pattern) && Footprint() == old(Footprint())
    {
      hide Valid;
      var l := HeadLocation();
      SetHeadLocation(l.(matchType := matchType, pattern := pattern, protocol := protocol));
      SetProtocol(M.NoProtocol);
    }

    /** The list blocks of f_server. */
    method TakeNames(server: Server)
      requires Valid() && server.Lists() && server.Owned() !! Footprint()
      modifies Footprint(), server.Owned()
      ensures Valid() && server.Lists() && server.Owned() !! Footprint() && Footprint() <= old(Footprint())
      ensures forall o <- server.Owned() :: o in old(server.Owned()) || o in old(Footprint()) || fresh(o)
      ensures owned.servers == old(owned.servers)
      ensures server.Items() == old(server.Items()).(names := Reverse(Taken(old(View()).names)))
      ensures View() == old(View()).(names := [Last(old(View()).names)])
      ensures Nodes() == old(Nodes()).(names := [names.default])
      ensures server.Nodes() == old(server.Nodes()).(names := server.Nodes().names)
      ensures |old(Nodes()).names| > 1 ==> server.Nodes().names == Reverse(Taken(old(Nodes()).names))
    {
      hide PendingList.Valid; hide ItemList.Valid; hide Ownership.Valid; hide OwnList.Valid;
      hide Reverse; hide Taken; hide Elements;
      server.names.FillReversed(names);
    }

    method TakeIndexFiles(server: Server)
      requires Valid() && server.Lists() && server.Owned() !! Footprint()
      modifies Footprint(), server.Owned()
      ensures Valid() && server.Lists() && server.Owned() !! Footprint() && Footprint() <= old(Footprint())
      ensures forall o <- server.Owned() :: o in old(server.Owned()) || o in old(Footprint()) || fresh(o)
      ensures owned.servers == old(owned.servers)
      ensures server.Items() == old(server.Items()).(indexFiles := Reverse(Taken(old(View()).indexFiles)))
      ensures View() == old(View()).(indexFiles := [Last(old(View()).indexFiles)])
      ensures Nodes() == old(Nodes()).(indexFiles := [indexFiles.default])
      ensures server.Nodes() == old(server.Nodes()).(indexFiles := server.Nodes().indexFiles)
      ensures |old(Nodes()).indexFiles| > 1 ==> server.Nodes().indexFiles == Reverse(Taken(old(Nodes()).indexFiles))
    {
      hide PendingList.Valid; hide ItemList.Valid; hide Ownership.Valid; hide OwnList.Valid;
      hide Reverse; hide Taken; hide Elements;
      server.indexFiles.FillReversed(indexFiles);
    }

    method TakePorts(server: Server)
      requires Valid() && server.Lists() && server.Owned() !! Footprint()
      modifies Footprint(), server.Owned()
      ensures Valid() && server.Lists() && server.Owned() !! Footprint() && Footprint() <= old(Footprint())
      ensures forall o <- server.Owned() :: o in old(server.Owned()) || o in old(Footprint()) || fresh(o)
      ensures owned.servers == old(owned.servers)
      ensures server.Items() == old(server.Items()).(ports := Reverse(Taken(old(View()).ports)))
      ensures View() == old(View()).(ports := [Last(old(View()).ports)])
      ensures Nodes() == old(Nodes()).(ports := [ports.default])
      ensures server.Nodes() == old(server.Nodes()).(ports := server.Nodes().ports)
      ensures |old(Nodes()).ports| > 1 ==> server.Nodes().ports == Reverse(Taken(old(Nodes()).ports))
    {
      hide PendingList.Valid; hide ItemList.Valid; hide Ownership.Valid; hide OwnList.Valid;
      hide Reverse; hide Taken; hide Elements;
      server.ports.FillReversed(ports);
    }

    method TakeLocations(server: Server)
      requires Valid() && server.Lists() && server.Owned() !! Footprint()
      modifies Footprint(), server.Owned()
      ensures Valid() && server.Lists() && server.Owned() !! Footprint() && Footprint() <= old(Footprint())
      ensures forall o <- server.Owned() :: o in old(server.Owned()) || o in old(Footprint()) || fresh(o)
      ensures owned.servers == old(owned.servers)
      ensures server.Items() == old(server.Items()).(locations := Taken(old(View()).locations))
      ensures View() == old(View()).(locations := [Last(old(View()).locations)])
      ensures Nodes() == old(Nodes()).(locations := [locations.default])
      ensures server.Nodes() == old(server.Nodes()).(locations := server.Nodes().locations)
      ensures |old(Nodes()).locations| > 1 ==> server.Nodes().locations == Taken(old(Nodes()).locations)
    {
      hide PendingList.Valid; hide ItemList.Valid; hide Ownership.Valid; hide OwnList.Valid;
      hide Reverse; hide Taken; hide Elements;
      server.locations.FillInOrder(locations);
    }

    method TakeLists(server: Server)
      requires Valid() && server.Lists() && server.Owned() !! Footprint()
      modifies Footprint(), server.Owned()
      ensures Valid() && server.Lists() && server.Owned() !! Footprint() && Footprint() <= old(Footprint())
      ensures forall o <- server.Owned() :: o in old(server.Owned()) || o in old(Footprint()) || fresh(o)
      ensures owned.servers == old(owned.servers)
      ensures var s := old(View());
        && server.Items() == old(server.Items()).(names := Reverse(Taken(s.names)),
            indexFiles := Reverse(Taken(s.indexFiles)),
                                                  ports := Reverse(Taken(s.ports)), locations := Taken(s.locations))
        && View() == s.(names := [Last(s.names)], indexFiles := [Last(s.indexFiles)], ports := [Last(s.ports)],
                        locations := [Last(s.locations)])
      ensures Nodes() == ListNodes([names.default], [indexFiles.default], [ports.default], [locations.default])
      ensures Moved(old(Nodes()), server.Nodes())
    {
      hide Valid; hide View; hide Nodes; hide Server.Lists; hide Server.Valid; hide Server.Nodes; hide Server.Items;
      hide Reverse; hide Taken;
      TakeNames(server);
      TakeIndexFiles(server);
      TakePorts(server);
      TakeLocations(server);
    }

    method FinishServer(server: Server)
      requires Valid() && server.Lists() && server.Owned() !! Footprint()
      modifies server
      ensures Valid() && View() == old(View()) && Nodes() == old(Nodes()) && Footprint() == old(Footprint())
      ensures owned.servers == old(owned.servers)
      ensures server.Valid() && server.Repr == old(server.Owned()) && server.Repr !! Footprint()
      ensures server.Nodes() == old(server.Nodes())
      ensures server.view == old(server.Items()).(autoIndex := autoIndex, certFile := certFile, keyFile := keyFile)
    {
      hide Valid; hide Server.Lists; hide Server.Valid; hide Server.Items; hide Server.Nodes;
      server.Finish(autoIndex, certFile, keyFile);
    }

    method ResetVariables()
      requires Valid()
      modifies this`autoIndex, this`certFile, this`keyFile
      ensures Valid() && Nodes() == old(Nodes()) && Footprint() == old(Footprint())
      ensures owned.servers == old(owned.servers)
      ensures View() == old(View()).(autoIndex := false, certFile := None, keyFile := None)
    {
      hide PendingList.Valid; hide ItemList.Valid; hide Ownership.Valid;
      autoIndex, certFile, keyFile := false, None, None;
    }

    /** The last part of f_server: the variables outside the lists, which it resets. */
    method TakeVariables(server: Server)
      requires Valid() && server.Lists() && server.Owned() !! Footprint()
      modifies this`autoIndex, this`certFile, this`keyFile, server
      ensures Valid() && Nodes() == old(Nodes()) && Footprint() == old(Footprint())
      ensures owned.servers == old(owned.servers)
      ensures View() == old(View()).(autoIndex := false, certFile := None, keyFile := None)
      ensures server.Valid() && server.Repr == old(server.Owned()) && server.Repr !! Footprint()
      ensures server.Nodes() == old(server.Nodes())
      ensures var s := old(View());
        server.view == old(server.Items()).(autoIndex := s.autoIndex, certFile := s.certFile, keyFile := s.keyFile)
    {
      hide Valid; hide Server.Lists; hide Server.Valid; hide Server.Items; hide Server.Nodes; hide Server.Owned;
      FinishServer(server);
      ResetVariables();
    }

    /** setServerList. */
    method Register(server: Server)
      requires Valid() && server.Valid() && server.Repr !! Footprint()
      modifies Footprint()
      ensures Valid() && View() == old(View()).(servers := old(View()).servers + [server.view])
      ensures forall o <- Footprint() :: o in old(Footprint()) || o in server.Repr || fresh(o)
      ensures owned.servers == old(owned.servers) + [server] && Nodes() == old(Nodes())
      ensures server.Nodes() == old(server.Nodes())
    {
      hide PendingList.Valid; hide ItemList.Valid; hide Ownership.Valid; hide OwnList.Valid; hide Server.Valid;
      servers.Append(server);
      owned.Adopt(server);
    }

    method FillServer(server: Server)
      requires Valid() && server.Lists() && server.Owned() !! Footprint()
      modifies Footprint(), server.Owned()
      ensures Valid() && View() == M.EndServer(old(View())).(servers := old(View()).servers)
      ensures Footprint() <= old(Footprint())
      ensures server.Valid() && server.Repr !! Footprint() && server.view == Last(M.EndServer(old(View())).servers)
      ensures forall o <- server.Repr :: o in old(server.Owned()) || o in old(Footprint()) || fresh(o)
      ensures owned.servers == old(owned.servers)
      ensures Nodes() == ListNodes([names.default], [indexFiles.default], [ports.default], [locations.default])
      ensures Moved(old(Nodes()), server.Nodes())
    {
      hide Valid; hide View; hide Nodes; hide Moved; hide Server.Lists; hide Server.Valid; hide Server.Nodes;
      hide Server.Items;
      hide Reverse; hide Taken;
      TakeLists(server);
      TakeVariables(server);
    }

    /** A server without lists, as calloc gives it. */
    method NewServer() returns (server: Server)
      requires Valid()
      ensures Valid() && View() == old(View()) && Nodes() == old(Nodes()) && Footprint() == old(Footprint())
      ensures server.Lists() && fresh(server.Owned()) && server.Owned() !! Footprint()
      ensures server.Owned() == {server, server.names, server.indexFiles, server.ports, server.locations}
      ensures owned.servers == old(owned.servers)
    {
      hide Valid; hide Server.Lists;
      server := new Server();
    }

    /** f_server. */
    method EndServer() returns (server: Server)
      requires Valid()
      modifies Footprint()
      ensures Valid() && View() == M.EndServer(old(View())) && fresh(Footprint() - old(Footprint()))
      ensures owned.servers == old(owned.servers) + [server]
      ensures Nodes() == ListNodes([names.default], [indexFiles.default], [ports.default], [locations.default])
      ensures Moved(old(Nodes()), server.Nodes())
    {
      hide Valid; hide View; hide Nodes; hide Moved; hide Server.Lists; hide Server.Valid; hide Server.Nodes;
      hide Server.Items;
      hide Reverse; hide Taken; hide Footprint; hide Server.Owned;
      server := NewServer();
      FillServer(server);
      Register(server);
    }

    method ShareAll() returns (server: Server)
      requires Valid()
      ensures fresh(server) && server.Valid() && server.Repr !! owned.Repr && server.Repr !! servers.Repr
      ensures server.Nodes() == Nodes() && server.view == Last(M.EndHttp(View()).servers)
    {
      hide PendingList.Valid; hide ItemList.Valid; hide Ownership.Valid; hide OwnList.Valid; hide Server.Valid;
      hide Server.Lists;
      server := new Server();
      server.ShareLists(names, indexFiles, ports, locations);
      server.Finish(false, certFile, keyFile);
    }

    /** f_http. The configuration is now complete. */
    method EndHttp() returns (server: Server)
      requires Valid()
      modifies servers.Repr, owned
      ensures servers.Valid() && owned.Valid() && servers.items == owned.servers == old(owned.servers) + [server]
      ensures View() == M.EndHttp(old(View())) && server.Nodes() == Nodes() == old(Nodes())
    {
      hide PendingList.Valid; hide ItemList.Valid; hide Ownership.Valid; hide OwnList.Valid; hide Server.Valid;
      hide Server.Lists;
      server := ShareAll();
      servers.Append(server);
      owned.Adopt(server);
    }

    // ---- Running the actions in the order in which the grammar reduces ----

    /** server_names. */
    method RunNames(xs: seq<M.ServerName>)
      requires Valid()
      modifies Footprint()
      ensures Valid() && View() == M.RunNames(old(View()), xs) && fresh(Footprint() - old(Footprint()))
    {
      hide Valid; hide View; hide M.RunNames; hide M.AddName;
      M.NamesNext(View(), xs, 0);
      for i := 0 to |xs|
        invariant Valid() && View() == M.RunNames(old(View()), xs[..i]) && fresh(Footprint() - old(Footprint()))
      {
        AddName(xs[i]);
        M.NamesNext(old(View()), xs, i);
      }
    }

    /** listen_option. */
    method RunListen(o: M.ListenOption)
      requires Valid()
      modifies Footprint()
      ensures Valid() && View() == M.RunListen(old(View()), o) && fresh(Footprint() - old(Footprint()))
    {
      hide Valid; hide View; hide M.AddName; hide M.AddPort; hide M.MarkTls; hide M.AddWildcard;
      match o
      case Number(num) => AddPort(num);
      case Host(name) => AddName(M.ServerName(name, M.Exact));
      case HostPort(name, num) =>
        AddPort(num);
        AddName(M.ServerName(name, M.Exact));
      case Any => AddWildcard();
      case AnyPort(num) =>
        AddPort(num);
        AddWildcard();
      case Ssl => MarkTls();
      case OtherOption =>
    }

    /** listen_options. */
    method RunOptions(xs: seq<M.ListenOption>)
      requires Valid()
      modifies Footprint()
      ensures Valid() && View() == M.RunOptions(old(View()), xs) && fresh(Footprint() - old(Footprint()))
    {
      hide Valid; hide View; hide M.RunOptions; hide M.RunListen;
      M.OptionsNext(View(), xs, 0);
      for i := 0 to |xs|
        invariant Valid() && View() == M.RunOptions(old(View()), xs[..i]) && fresh(Footprint() - old(Footprint()))
      {
        RunListen(xs[i]);
        M.OptionsNext(old(View()), xs, i);
      }
    }

    /** index_files. */
    method RunIndex(xs: seq<string>)
      requires Valid()
      modifies Footprint()
      ensures Valid() && View() == M.RunIndex(old(View()), xs) && fresh(Footprint() - old(Footprint()))
    {
      hide Valid; hide View; hide M.RunIndex; hide M.AddIndex;
      M.IndexNext(View(), xs, 0);
      for i := 0 to |xs|
        invariant Valid() && View() == M.RunIndex(old(View()), xs[..i]) && fresh(Footprint() - old(Footprint()))
      {
        AddIndex(xs[i]);
        M.IndexNext(old(View()), xs, i);
      }
    }

    /** location_directive. */
    method RunLocationDirective(d: M.LocationDirective)
      requires Valid()
      modifies Footprint()
      ensures Valid() && View() == M.RunLocationDirective(old(View()), d) && fresh(Footprint() - old(Footprint()))
    {
      hide Valid; hide View; hide M.SetRoot; hide M.PassTo; hide M.SetTry; hide M.SetHeadLocation;
      match d
      case LocRoot(path) => SetRoot(path);
      case Pass(p, host, port, fastCgi) =>
        if p != M.NoProtocol {
          SetProtocol(p);
        }
        PassTo(host, port, fastCgi);
      case Try(targets) => SetTry(targets);
      case Expires(time) => SetExpires(time);
      case ExpiresOff => SetExpiresOff();
      case OtherLocation =>
    }

    /** location_directives. */
    method RunBody(xs: seq<M.LocationDirective>)
      requires Valid()
      modifies Footprint()
      ensures Valid() && View() == M.RunBody(old(View()), xs) && fresh(Footprint() - old(Footprint()))
    {
      hide Valid; hide View; hide M.RunBody; hide M.RunLocationDirective;
      M.BodyNext(View(), xs, 0);
      for i := 0 to |xs|
        invariant Valid() && View() == M.RunBody(old(View()), xs[..i]) && fresh(Footprint() - old(Footprint()))
      {
        RunLocationDirective(xs[i]);
        M.BodyNext(old(View()), xs, i);
      }
    }

    /** server_directive. */
    method RunDirective(d: M.Directive)
      requires Valid()
      modifies Footprint()
      ensures Valid() && View() == M.RunDirective(old(View()), d) && fresh(Footprint() - old(Footprint()))
    {
      hide Valid; hide View;
      hide M.RunNames; hide M.RunOptions; hide M.RunIndex; hide M.RunBody; hide M.SetRoot; hide M.EndLocation;
      hide M.SetCertificate; hide M.SetKey;
      match d
      case ServerNames(names) => RunNames(names);
      case Listen(options) => RunOptions(options);
      case Index(files) => RunIndex(files);
      case Root(path) => SetRoot(path);
      case LocationBlock(matchType, pattern, body) =>
        RunBody(body);
        EndLocation(matchType, pattern);
      case AutoIndex(on) => SetAutoIndex(on);
      case Certificate(path) => SetCertificate(path);
      case CertificateKey(path) => SetKey(path);
      case OtherDirective =>
    }

    /** server_directives. */
    method RunDirectives(xs: seq<M.Directive>)
      requires Valid()
      modifies Footprint()
      ensures Valid() && View() == M.RunDirectives(old(View()), xs) && fresh(Footprint() - old(Footprint()))
    {
      hide Valid; hide View; hide M.RunDirectives; hide M.RunDirective;
      M.DirectivesNext(View(), xs, 0);
      for i := 0 to |xs|
        invariant Valid() && View() == M.RunDirectives(old(View()), xs[..i]) && fresh(Footprint() - old(Footprint()))
      {
        RunDirective(xs[i]);
        M.DirectivesNext(old(View()), xs, i);
      }
    }

    /** http_directive. */
    method RunHttpDirective(d: M.HttpDirective)
      requires Valid()
      modifies Footprint()
      ensures Valid() && View() == M.RunHttpDirective(old(View()), d) && fresh(Footprint() - old(Footprint()))
    {
      hide Valid; hide View; hide M.RunDirectives; hide M.RunIndex; hide M.EndServer; hide M.SetCertificate;
      hide M.SetKey;
      match d
      case ServerBlock(body) =>
        RunDirectives(body);
        var _ := EndServer();
      case UpstreamBlock(name, lines) => AddGroup(name);
      case HttpIndex(files) => RunIndex(files);
      case HttpCertificate(path) => SetCertificate(path);
      case HttpCertificateKey(path) => SetKey(path);
      case OtherHttp =>
    }

    /** http_directives. */
    method RunHttp(xs: seq<M.HttpDirective>)
      requires Valid()
      modifies Footprint()
      ensures Valid() && View() == M.RunHttp(old(View()), xs) && fresh(Footprint() - old(Footprint()))
    {
      hide Valid; hide View; hide M.RunHttp; hide M.RunHttpDirective;
      M.HttpNext(View(), xs, 0);
      for i := 0 to |xs|
        invariant Valid() && View() == M.RunHttp(old(View()), xs[..i]) && fresh(Footprint() - old(Footprint()))
      {
        RunHttpDirective(xs[i]);
        M.HttpNext(old(View()), xs, i);
      }
    }
  }

  /** parseConfig: the server list that comes out holds what the tree declares, every list hangs together, and no node
      is on the lists of two servers. */
  method Build(tree: seq<M.HttpDirective>) returns (list: ItemList<Server>, ghost owned: Ownership)
    ensures list.Valid() && owned.Valid() && list.items == owned.servers
    ensures owned.views == M.Run(tree).servers
  {
    hide Builder.Valid;
    var b := Builder.Start();
    b.RunHttp(tree);
    var _ := b.EndHttp();
    list, owned := b.servers, b.owned;
  }
}
