/** What a configuration declares, stated without the builder's lists, and the proof that running the builder
    actions over a syntax tree yields exactly that. */
module ConfigMeaning {
  import opened Options
  import opened Sequences
  import opened Chains
  import opened LoadBalancer
  import opened ConfigModel
  import opened ConfigLocations

  // ---- Declarations of a server block, in source order ----

  function OptionName(o: ListenOption): seq<ServerName> {
    if o.Host? || o.HostPort? then [ServerName(o.name, Exact)]
    else if o.Any? || o.AnyPort? then [DEFAULT_NAME]
    else []
  }

  predicate GivesPort(o: ListenOption) {
    o.Number? || o.HostPort? || o.AnyPort?
  }

  function OptionNum(o: ListenOption): seq<int> {
    if GivesPort(o) && o.num > 0 then [o.num] else []
  }

  function OptionNames(os: seq<ListenOption>): seq<ServerName> {
    if os == [] then [] else OptionNames(os[..|os| - 1]) + OptionName(Last(os))
  }

  function OptionNums(os: seq<ListenOption>): seq<int> {
    if os == [] then [] else OptionNums(os[..|os| - 1]) + OptionNum(Last(os))
  }

  function NamesOf(d: Directive): seq<ServerName> {
    match d
    case ServerNames(names) => names
    case Listen(options) => OptionNames(options)
    case _ => []
  }

  function OptionsOf(d: Directive): seq<ListenOption> {
    if d.Listen? then d.options else []
  }

  function FilesOf(d: Directive): seq<string> {
    if d.Index? then d.files else []
  }

  function NamesIn(ds: seq<Directive>): seq<ServerName> {
    if ds == [] then [] else NamesIn(ds[..|ds| - 1]) + NamesOf(Last(ds))
  }

  function OptionsIn(ds: seq<Directive>): seq<ListenOption> {
    if ds == [] then [] else OptionsIn(ds[..|ds| - 1]) + OptionsOf(Last(ds))
  }

  function FilesIn(ds: seq<Directive>): seq<string> {
    if ds == [] then [] else FilesIn(ds[..|ds| - 1]) + FilesOf(Last(ds))
  }

  /** Keep a declaration unless an earlier one has the same name. */
  function FirstNames(ns: seq<ServerName>): seq<ServerName> {
    if ns == [] then []
    else FirstNames(ns[..|ns| - 1]) + if HasName(ns[..|ns| - 1], Last(ns).name) then [] else [Last(ns)]
  }

  function FirstNums(ns: seq<int>): seq<int> {
    if ns == [] then []
    else FirstNums(ns[..|ns| - 1]) + if Last(ns) in ns[..|ns| - 1] then [] else [Last(ns)]
  }

  function OrDefault<T>(s: seq<T>, default: T): seq<T> {
    if s == [] then [default] else s
  }

  /** Ports in declaration order, and the default port, which `ssl` marks while no port is declared. */
  datatype Ports = Ports(declared: seq<Port>, default: Port)

  function PortsAfter(os: seq<ListenOption>, default: Port): Ports {
    if os == [] then Ports([], default)
    else
      var p, o := PortsAfter(os[..|os| - 1], default), Last(os);
      if GivesPort(o) && o.num > 0 && !HasPort(p.declared, o.num) then
        p.(declared := p.declared + [Port(o.num, false)])
      else if o.Ssl? && p.declared == [] then p.(default := p.default.(tls := true))
      else if o.Ssl? then p.(declared := p.declared[|p.declared| - 1 := Last(p.declared).(tls := true)])
      else p
  }

  function AutoIndexIn(ds: seq<Directive>): bool {
    if ds == [] then false
    else if Last(ds).AutoIndex? then Last(ds).on
    else AutoIndexIn(ds[..|ds| - 1])
  }

  /** The first certificate wins, starting with one given before the block. */
  function CertificateIn(ds: seq<Directive>, carried: Option<string>): Option<string> {
    if ds == [] then carried
    else
      var c := CertificateIn(ds[..|ds| - 1], carried);
      if c == None && Last(ds).Certificate? then Some(Last(ds).path) else c
  }

  function KeyIn(ds: seq<Directive>, carried: Option<string>): Option<string> {
    if ds == [] then carried
    else
      var c := KeyIn(ds[..|ds| - 1], carried);
      if c == None && Last(ds).CertificateKey? then Some(Last(ds).path) else c
  }

  /** What a server block finds: `index` lines and certificates given since the last block, the default port and the
      default location with the marks of earlier blocks, and the groups named so far. */
  datatype Carried = Carried(files: seq<string>, port: Port, location: Location, groups: seq<string>,
                             freed: set<string>, fault: bool, nameFault: bool,
                             certFile: Option<string>, keyFile: Option<string>)

  const NOTHING_CARRIED := Carried([], DEFAULT_PORT, DEFAULT_LOCATION, [], {}, false, false, None, None)

  /** An `ssl` before any port of the block marks the default port, and writes before the first one that makes a
      location change the default location. */
  function AfterBlock(c: Carried, ds: seq<Directive>): Carried {
    var ws := WritesIn(ds);
    c.(files := [], port := PortsAfter(OptionsIn(ds), c.port).default,
        location := LocationOf(Leading(ws), c.location, c.groups),
       freed := c.freed + FreedBy(ws, c.location.group, c.groups),
       fault := c.fault || !SafeWrites(ws, c.location, c.groups, c.freed),
       nameFault := c.nameFault || !NamesSafe(ds), certFile := None, keyFile := None)
  }

  function CarriedOf(tree: seq<HttpDirective>): Carried {
    if tree == [] then NOTHING_CARRIED
    else
      var c := CarriedOf(tree[..|tree| - 1]);
      match Last(tree)
      case ServerBlock(body) => AfterBlock(c, body)
      case UpstreamBlock(name, _) => c.(groups := c.groups + [name], fault := c.fault || c.freed != {})
      case HttpIndex(files) => c.(files := c.files + files)
      case HttpCertificate(path) => c.(certFile := if c.certFile == None then Some(path) else c.certFile)
      case HttpCertificateKey(path) => c.(keyFile := if c.keyFile == None then Some(path) else c.keyFile)
      case OtherHttp => c
  }

  /** No `*` among the options when the names in front, or earlier options, have one. */
  predicate OptionsSafe(ns: seq<ServerName>, os: seq<ListenOption>) {
    os == [] ||
    (var es, o := os[..|os| - 1], Last(os);
     OptionsSafe(ns, es) && (o.Any? || o.AnyPort? ==> !HasName(ns + OptionNames(es), DEFAULT_NAME.name)))
  }

  /** The same for the directives of a block. */
  predicate NamesSafe(ds: seq<Directive>) {
    ds == [] ||
    (var es, d := ds[..|ds| - 1], Last(ds); NamesSafe(es) && (d.Listen? ==> OptionsSafe(NamesIn(es), d.options)))
  }

  /** The server a block declares. */
  function BlockMeaning(c: Carried, ds: seq<Directive>): Server {
    var p := PortsAfter(OptionsIn(ds), c.port);
    Server(OrDefault(FirstNames(NamesIn(ds)), DEFAULT_NAME), OrDefault(c.files + FilesIn(ds), DEFAULT_INDEX),
           OrDefault(p.declared, p.default), [LocationOf(WritesIn(ds), c.location, c.groups)],
           AutoIndexIn(ds), CertificateIn(ds, c.certFile), KeyIn(ds, c.keyFile))
  }

  /** One server per server block, in source order. */
  function Meaning(tree: seq<HttpDirective>): seq<Server> {
    if tree == [] then []
    else
      var earlier := tree[..|tree| - 1];
      Meaning(earlier) + if Last(tree).ServerBlock? then [BlockMeaning(CarriedOf(earlier), Last(tree).body)] else []
  }

  /** The default server behind them. */
  function TrailingServer(c: Carried): Server {
    Server([DEFAULT_NAME], Reverse(c.files) + [DEFAULT_INDEX], [c.port], [c.location], false, c.certFile, c.keyFile)
  }

  function Nums(ports: seq<Port>): (r: seq<int>)
    ensures |r| == |ports| && forall i :: 0 <= i < |r| ==> r[i] == ports[i].num
  {
    seq(|ports|, i requires 0 <= i < |ports| => ports[i].num)
  }

  // ---- The pending lists follow the declarations ----

  /** The declarations met so far in a server block, the default port it started with, and the servers before it. */
  datatype Seen = Seen(names: seq<ServerName>, options: seq<ListenOption>, files: seq<string>, default: Port,
                       nameFault: bool, servers: seq<Server>)

  ghost predicate Tracks(s: ProperState, c: Seen) {
    && s.names == Reverse(FirstNames(c.names)) + [DEFAULT_NAME]
    && s.ports == Reverse(PortsAfter(c.options, c.default).declared) + [PortsAfter(c.options, c.default).default]
    && s.indexFiles == Reverse(c.files) + [DEFAULT_INDEX]
    && s.nameFault == c.nameFault && s.servers == c.servers
  }

  lemma {:induction false} ReverseAppend<T>(s: seq<T>, x: T)
    ensures Reverse(s + [x]) == [x] + Reverse(s)
  {
    if s != [] {
      assert (s + [x])[1..] == s[1..] + [x];
      ReverseAppend(s[1..], x);
    }
  }

  lemma {:induction false} ReverseTwice<T>(s: seq<T>)
    ensures Reverse(Reverse(s)) == s
  {
    if s != [] {
      ReverseTwice(s[1..]);
      ReverseAppend(Reverse(s[1..]), s[0]);
    }
  }

  lemma HasNameAppend(ns: seq<ServerName>, n: ServerName, name: string)
    ensures HasName(ns + [n], name) <==> HasName(ns, name) || n.name == name
  {
    if n.name == name { assert (ns + [n])[|ns|].name == name; }
    if HasName(ns, name) {
      var i :| 0 <= i < |ns| && ns[i].name == name;
      assert (ns + [n])[i].name == name;
    }
  }

  lemma HasNameReverse(ns: seq<ServerName>, name: string)
    ensures HasName(Reverse(ns), name) <==> HasName(ns, name)
  {
    if HasName(ns, name) {
      var i :| 0 <= i < |ns| && ns[i].name == name;
      assert Reverse(ns)[|ns| - 1 - i].name == name;
    }
  }

  lemma {:induction false} FirstNamesHas(ns: seq<ServerName>, name: string)
    ensures HasName(FirstNames(ns), name) <==> HasName(ns, name)
  {
    if ns != [] {
      var es, n := ns[..|ns| - 1], Last(ns);
      FirstNamesHas(es, name);
      HasNameAppend(FirstNames(es), n, name);
      HasNameAppend(es, n, name);
      SplitLast(ns);
      AppendNone(FirstNames(es));
    }
  }

  /** A declaration that no earlier one has the name of. */
  ghost predicate FirstOfItsName(ns: seq<ServerName>, n: ServerName) {
    exists i :: 0 <= i < |ns| && ns[i] == n && forall j :: 0 <= j < i ==> ns[j].name != n.name
  }

  lemma FirstOfItsNameAppend(ns: seq<ServerName>, m: ServerName, n: ServerName)
    ensures FirstOfItsName(ns + [m], n) <==>
            FirstOfItsName(ns, n) || (n == m && forall j :: 0 <= j < |ns| ==> ns[j].name != n.name)
  {
    var all := ns + [m];
    assert all[|ns|] == m && forall j :: 0 <= j < |ns| ==> all[j] == ns[j];
    if FirstOfItsName(ns, n) {
      var i :| 0 <= i < |ns| && ns[i] == n && forall j :: 0 <= j < i ==> ns[j].name != n.name;
      assert all[i] == n;
    }
  }

  /** The names that are kept are the first of their name each, and no two of them are equal. */
  lemma {:induction false} FirstNamesAre(ns: seq<ServerName>, n: ServerName)
    ensures n in FirstNames(ns) <==> FirstOfItsName(ns, n)
  {
    if ns != [] {
      hide HasName; hide FirstOfItsName;
      var es, m := ns[..|ns| - 1], Last(ns);
      FirstNamesAre(es, n);
      FirstOfItsNameAppend(es, m, n);
      NoSuchName(es, m.name);
      SplitLast(ns);
      AppendNone(FirstNames(es));
    } else {
      assert !FirstOfItsName(ns, n);
    }
  }

  lemma NoSuchName(ns: seq<ServerName>, name: string)
    ensures HasName(ns, name) <==> !(forall j :: 0 <= j < |ns| ==> ns[j].name != name)
  {
  }

  lemma {:induction false} FirstNamesDiffer(ns: seq<ServerName>)
    ensures var f := FirstNames(ns); forall i, j :: 0 <= i < j < |f| ==> f[i].name != f[j].name
  {
    if ns != [] {
      var es, m := ns[..|ns| - 1], Last(ns);
      FirstNamesDiffer(es);
      FirstNamesHas(es, m.name);
      NoSuchName(FirstNames(es), m.name);
      hide HasName;
    }
  }

  lemma AddNameTracks(s: ProperState, c: Seen, n: ServerName)
    requires Tracks(s, c)
    ensures Tracks(AddName(s, n), c.(names := c.names + [n]))
  {
    var first := FirstNames(c.names);
    assert s.names[..|s.names| - 1] == Reverse(first);
    assert (c.names + [n])[..|c.names|] == c.names;
    HasNameReverse(first, n.name);
    FirstNamesHas(c.names, n.name);
    ReverseAppend(first, n);
    AppendNone(first);
    AppendAssoc([n], Reverse(first), [DEFAULT_NAME]);
  }

  lemma AddWildcardTracks(s: ProperState, c: Seen)
    requires Tracks(s, c)
    ensures Tracks(AddWildcard(s), c.(names := c.names + [DEFAULT_NAME],
                                      nameFault := c.nameFault || HasName(c.names, DEFAULT_NAME.name)))
  {
    var first := FirstNames(c.names);
    AddNameTracks(s, c, DEFAULT_NAME);
    assert s.names[..|s.names| - 1] == Reverse(first);
    HasNameReverse(first, DEFAULT_NAME.name);
    FirstNamesHas(c.names, DEFAULT_NAME.name);
  }

  lemma HasPortReverse(ps: seq<Port>, num: int)
    ensures HasPort(Reverse(ps), num) <==> HasPort(ps, num)
  {
    if HasPort(ps, num) {
      var i :| 0 <= i < |ps| && ps[i].num == num;
      assert Reverse(ps)[|ps| - 1 - i].num == num;
    }
  }

  lemma AddPortTracks(s: ProperState, c: Seen, o: ListenOption)
    requires Tracks(s, c) && GivesPort(o)
    ensures Tracks(AddPort(s, o.num), c.(options := c.options + [o]))
  {
    var p := PortsAfter(c.options, c.default);
    assert (c.options + [o])[..|c.options|] == c.options;
    assert s.ports[..|s.ports| - 1] == Reverse(p.declared);
    HasPortReverse(p.declared, o.num);
    ReverseAppend(p.declared, Port(o.num, false));
    AppendAssoc([Port(o.num, false)], Reverse(p.declared), [p.default]);
  }

  lemma ReverseUpdateLast<T>(s: seq<T>, x: T, default: T)
    requires s != []
    ensures Reverse(s[|s| - 1 := x]) + [default] == (Reverse(s) + [default])[0 := x]
  {
    var rest := s[..|s| - 1];
    SplitLast(s);
    ReverseAppend(rest, Last(s));
    ReverseAppend(rest, x);
    assert s[|s| - 1 := x] == rest + [x];
  }

  lemma MarkTlsTracks(s: ProperState, c: Seen)
    requires Tracks(s, c)
    ensures Tracks(MarkTls(s), c.(options := c.options + [Ssl]))
  {
    hide FirstNames; hide HasPort;
    var p := PortsAfter(c.options, c.default);
    assert (c.options + [Ssl])[..|c.options|] == c.options;
    if p.declared != [] {
      ReverseUpdateLast(p.declared, Last(p.declared).(tls := true), p.default);
      assert s.ports[0] == Last(p.declared);
    }
  }

  lemma OtherTracks(s: ProperState, c: Seen, o: ListenOption)
    requires Tracks(s, c) && !GivesPort(o) && !o.Ssl?
    ensures Tracks(s, c.(options := c.options + [o]))
  {
    assert (c.options + [o])[..|c.options|] == c.options;
  }

  /** The declarations with one more option. */
  function Listened(c: Seen, o: ListenOption): Seen {
    c.(names := c.names + OptionName(o), options := c.options + [o],
       nameFault := c.nameFault || ((o.Any? || o.AnyPort?) && HasName(c.names, DEFAULT_NAME.name)))
  }

  lemma ListenTracks(s: ProperState, c: Seen, o: ListenOption)
    requires Tracks(s, c)
    ensures Tracks(RunListen(s, o), Listened(c, o))
  {
    hide HasName; hide Tracks; hide AddName; hide AddPort; hide MarkTls; hide AddWildcard;
    AppendNone(c.names);
    var c' := c.(options := c.options + [o]);
    match o
    case Number(num) => AddPortTracks(s, c, o);
    case Host(name) =>
      OtherTracks(s, c, o);
      AddNameTracks(s, c', ServerName(name, Exact));
    case HostPort(name, num) =>
      AddPortTracks(s, c, o);
      AddNameTracks(AddPort(s, num), c', ServerName(name, Exact));
    case Any =>
      OtherTracks(s, c, o);
      AddWildcardTracks(s, c');
    case AnyPort(num) =>
      AddPortTracks(s, c, o);
      AddWildcardTracks(AddPort(s, num), c');
    case Ssl => MarkTlsTracks(s, c);
    case OtherOption => OtherTracks(s, c, o);
  }

  lemma {:induction false} OptionsTrack(s: ProperState, c: Seen, os: seq<ListenOption>)
    requires Tracks(s, c)
    ensures Tracks(RunOptions(s, os), c.(names := c.names + OptionNames(os), options := c.options + os,
                                         nameFault := c.nameFault || !OptionsSafe(c.names, os)))
  {
    AppendNone(c.names);
    AppendNone(c.options);
    if os != [] {
      hide Tracks; hide HasName;
      var es, o := os[..|os| - 1], Last(os);
      OptionsTrack(s, c, es);
      var before := c.(names := c.names + OptionNames(es), options := c.options + es,
                       nameFault := c.nameFault || !OptionsSafe(c.names, es));
      ListenTracks(RunOptions(s, es), before, o);
      AppendAssoc(c.names, OptionNames(es), OptionName(o));
      AppendAssoc(c.options, es, [o]);
      SplitLast(os);
    }
  }

  lemma {:induction false} NamesTrack(s: ProperState, c: Seen, ns: seq<ServerName>)
    requires Tracks(s, c)
    ensures Tracks(RunNames(s, ns), c.(names := c.names + ns))
  {
    AppendNone(c.names);
    if ns != [] {
      var es := ns[..|ns| - 1];
      NamesTrack(s, c, es);
      AddNameTracks(RunNames(s, es), c.(names := c.names + es), Last(ns));
      AppendAssoc(c.names, es, [Last(ns)]);
      SplitLast(ns);
    }
  }

  lemma {:induction false} FilesTrack(s: ProperState, c: Seen, fs: seq<string>)
    requires Tracks(s, c)
    ensures Tracks(RunIndex(s, fs), c.(files := c.files + fs))
    ensures RunIndex(s, fs).locations == s.locations
  {
    AppendNone(c.files);
    if fs != [] {
      var es := fs[..|fs| - 1];
      FilesTrack(s, c, es);
      ReverseAppend(c.files + es, Last(fs));
      AppendAssoc(c.files, es, [Last(fs)]);
      SplitLast(fs);
      AppendAssoc([Last(fs)], Reverse(c.files + es), [DEFAULT_INDEX]);
    }
  }

  /** The declarations with those of more directives. */
  function With(c: Seen, ns: seq<ServerName>, os: seq<ListenOption>, fs: seq<string>, safe: bool): Seen {
    c.(names := c.names + ns, options := c.options + os, files := c.files + fs, nameFault := c.nameFault || !safe)
  }

  lemma DirectiveTracks(s: ProperState, c: Seen, d: Directive)
    requires Tracks(s, c)
    ensures var safe := d.Listen? ==> OptionsSafe(c.names, d.options);
      Tracks(RunDirective(s, d), With(c, NamesOf(d), OptionsOf(d), FilesOf(d), safe))
  {
    AppendNone(c.names);
    AppendNone(c.options);
    AppendNone(c.files);
    hide RunNames; hide RunOptions; hide RunIndex; hide RunBody;
    hide FirstNames; hide PortsAfter; hide OptionsSafe;
    match d
    case ServerNames(ns) => NamesTrack(s, c, ns);
    case Listen(os) => OptionsTrack(s, c, os);
    case Index(fs) => FilesTrack(s, c, fs);
    case LocationBlock(_, _, body) => BodyAlone(s, body);
    case _ =>
  }

  lemma {:induction false} DirectivesTrack(s: ProperState, c: Seen, ds: seq<Directive>)
    requires Tracks(s, c) && c.names == []
    ensures Tracks(RunDirectives(s, ds), With(c, NamesIn(ds), OptionsIn(ds), FilesIn(ds), NamesSafe(ds)))
  {
    AppendNone(c.names);
    AppendNone(c.options);
    AppendNone(c.files);
    if ds != [] {
      hide Tracks; hide RunDirective; hide OptionsSafe;
      var es, d := ds[..|ds| - 1], Last(ds);
      DirectivesTrack(s, c, es);
      DirectiveTracks(RunDirectives(s, es), With(c, NamesIn(es), OptionsIn(es), FilesIn(es), NamesSafe(es)), d);
      AppendNone(NamesIn(es));
      AppendAssoc(c.names, NamesIn(es), NamesOf(d));
      AppendAssoc(c.options, OptionsIn(es), OptionsOf(d));
      AppendAssoc(c.files, FilesIn(es), FilesOf(d));
    }
  }

  /** The variables outside the lists. */
  ghost predicate Sets(s: ProperState, ds: seq<Directive>, certFile: Option<string>, keyFile: Option<string>) {
    s.autoIndex == AutoIndexIn(ds) && s.certFile == CertificateIn(ds, certFile) && s.keyFile == KeyIn(ds, keyFile)
  }

  lemma DirectiveSets(s: ProperState, d: Directive)
    ensures var t := RunDirective(s, d);
      && t.autoIndex == (if d.AutoIndex? then d.on else s.autoIndex)
      && t.certFile == (if s.certFile == None && d.Certificate? then Some(d.path) else s.certFile)
      && t.keyFile == (if s.keyFile == None && d.CertificateKey? then Some(d.path) else s.keyFile)
  {
    match d
    case ServerNames(ns) => NamesAlone(s, ns);
    case Listen(os) => OptionsAlone(s, os);
    case Index(fs) => IndexAlone(s, fs);
    case LocationBlock(_, _, body) => BodyAlone(s, body);
    case _ =>
  }

  lemma {:induction false} DirectivesSet(s: ProperState, ds: seq<Directive>, certFile: Option<string>,
                                         keyFile: Option<string>)
    requires Sets(s, [], certFile, keyFile)
    ensures Sets(RunDirectives(s, ds), ds, certFile, keyFile)
  {
    if ds != [] {
      hide RunDirective;
      DirectivesSet(s, ds[..|ds| - 1], certFile, keyFile);
      DirectiveSets(RunDirectives(s, ds[..|ds| - 1]), Last(ds));
    }
  }

  // ---- From the lists to the servers ----

  lemma TakenInOrder<T>(declared: seq<T>, default: T)
    ensures Reverse(Taken(Reverse(declared) + [default])) == OrDefault(declared, default)
    ensures Last(Reverse(declared) + [default]) == default
  {
    var all := Reverse(declared) + [default];
    assert all[..|declared|] == Reverse(declared);
    ReverseTwice(declared);
    if declared == [] {
      assert all == [default] && Reverse(all) == [default];
    }
  }

  lemma HasPortMeansNumber(ports: seq<Port>, num: int)
    ensures HasPort(ports, num) <==> num in Nums(ports)
  {
    if HasPort(ports, num) {
      var i :| 0 <= i < |ports| && ports[i].num == num;
      assert Nums(ports)[i] == num;
    }
  }

  lemma {:induction false} FirstNumsMembers(ns: seq<int>, num: int)
    ensures num in FirstNums(ns) <==> num in ns
  {
    if ns != [] {
      FirstNumsMembers(ns[..|ns| - 1], num);
      SplitLast(ns);
    }
  }

  lemma {:induction false} FirstNumsNone(ns: seq<int>)
    ensures FirstNums(ns) == [] <==> ns == []
  {
    if ns != [] { FirstNumsNone(ns[..|ns| - 1]); }
  }

  lemma PortNumbersStep(p: seq<Port>, nums: seq<int>, num: int)
    requires Nums(p) == FirstNums(nums)
    ensures HasPort(p, num) <==> num in nums
    ensures FirstNums(nums + [num]) == if HasPort(p, num) then Nums(p) else Nums(p + [Port(num, false)])
  {
    HasPortMeansNumber(p, num);
    FirstNumsMembers(nums, num);
    assert (nums + [num])[..|nums|] == nums;
    assert Nums(p + [Port(num, false)]) == Nums(p) + [num];
    AppendNone(FirstNums(nums));
  }

  lemma MarkedNumbers(p: seq<Port>)
    requires p != []
    ensures Nums(p[|p| - 1 := Last(p).(tls := true)]) == Nums(p)
  {
  }

  lemma PortsOfOneMore(es: seq<ListenOption>, o: ListenOption, p: seq<Port>, q: seq<Port>)
    requires Nums(p) == FirstNums(OptionNums(es))
    requires q == if GivesPort(o) && o.num > 0 && !HasPort(p, o.num) then p + [Port(o.num, false)]
                  else if o.Ssl? && p != [] then p[|p| - 1 := Last(p).(tls := true)] else p
    ensures Nums(q) == FirstNums(OptionNums(es + [o]))
  {
    hide HasPort; hide FirstNums; hide Nums;
    assert (es + [o])[..|es|] == es;
    AppendNone(OptionNums(es));
    if GivesPort(o) && o.num > 0 {
      PortNumbersStep(p, OptionNums(es), o.num);
    } else if o.Ssl? && p != [] {
      MarkedNumbers(p);
    }
  }

  lemma PortsAfterStep(es: seq<ListenOption>, o: ListenOption, default: Port)
    ensures var p, q := PortsAfter(es, default), PortsAfter(es + [o], default);
      && q.declared == (if GivesPort(o) && o.num > 0
          && !HasPort(p.declared, o.num) then p.declared + [Port(o.num, false)]
                        else if o.Ssl? && p.declared != [] then
                          p.declared[|p.declared| - 1 := Last(p.declared).(tls := true)]
                        else p.declared)
      && q.default.num == p.default.num
  {
    hide HasPort;
    var all := es + [o];
    assert all[..|all| - 1] == es && Last(all) == o && all != [];
  }

  lemma PortNumbersMore(es: seq<ListenOption>, o: ListenOption, default: Port)
    requires Nums(PortsAfter(es, default).declared) == FirstNums(OptionNums(es))
    ensures Nums(PortsAfter(es + [o], default).declared) == FirstNums(OptionNums(es + [o]))
    ensures PortsAfter(es + [o], default).default.num == PortsAfter(es, default).default.num
  {
    hide PortsAfter; hide HasPort; hide FirstNums; hide Nums; hide OptionNums;
    PortsAfterStep(es, o, default);
    PortsOfOneMore(es, o, PortsAfter(es, default).declared, PortsAfter(es + [o], default).declared);
  }

  /** The port numbers are the declared ones, first occurrences in source order; only the TLS flags depend on `ssl`. */
  lemma {:induction false} PortNumbers(os: seq<ListenOption>, default: Port)
    ensures Nums(PortsAfter(os, default).declared) == FirstNums(OptionNums(os))
    ensures PortsAfter(os, default).default.num == default.num
  {
    if os != [] {
      PortNumbers(os[..|os| - 1], default);
      PortNumbersMore(os[..|os| - 1], Last(os), default);
      SplitLast(os);
    }
  }

  /** What f_server builds from lists in a known state. */
  lemma EndServerMeans(u: ProperState, c: Seen)
    requires Tracks(u, c)
    ensures var t := EndServer(u); var p := PortsAfter(c.options, c.default);
      t.servers == c.servers
                 + [Server(OrDefault(FirstNames(c.names), DEFAULT_NAME), OrDefault(c.files, DEFAULT_INDEX),
                           OrDefault(p.declared, p.default), Taken(u.locations), u.autoIndex, u.certFile, u.keyFile)]
  {
    hide FirstNames; hide PortsAfter;
    var p := PortsAfter(c.options, c.default);
    TakenInOrder(FirstNames(c.names), DEFAULT_NAME);
    TakenInOrder(p.declared, p.default);
    TakenInOrder(c.files, DEFAULT_INDEX);
  }

  /** After f_server every pending list is just its default. */
  lemma EndServerResets(u: ProperState, c: Seen)
    requires Tracks(u, c)
    ensures var p := PortsAfter(c.options, c.default).default;
      Tracks(EndServer(u), Seen([], [], [], p, c.nameFault, EndServer(u).servers))
  {
    AppendNone([DEFAULT_NAME]);
    AppendNone([DEFAULT_INDEX]);
  }

  lemma NothingWritten(base: Location, groups: seq<string>)
    ensures LocationOf([], base, groups) == base && Leading([]) == [] && !HasAdding([])
  {
  }

  lemma {:induction false} ProtocolIsDone(ds: seq<Directive>)
    ensures PendingProtocol(WritesIn(ds)) == NoProtocol
  {
    if ds != [] {
      var es, d := ds[..|ds| - 1], Last(ds);
      ProtocolIsDone(es);
      if d.LocationBlock? {
        var all := WritesIn(es) + WritesOf(d);
        assert Last(all) == Closed(d.matchType, d.pattern);
      } else if d.Root? {
        assert (WritesIn(es) + WritesOf(d))[..|WritesIn(es)|] == WritesIn(es);
      } else {
        AppendNone(WritesIn(es));
      }
    }
  }

  function EntryOf(c: Carried): Entry {
    Entry(c.location, c.groups, c.freed, c.fault)
  }

  /** What f_server does to the pending locations. */
  lemma EndServerLocations(u: ProperState, ds: seq<Directive>, c: Carried)
    requires Follows(u, WritesIn(ds), EntryOf(c))
    ensures Taken(u.locations) == [LocationOf(WritesIn(ds), c.location, c.groups)]
    ensures Follows(EndServer(u), [], EntryOf(AfterBlock(c, ds)))
  {
    hide LocationOf; hide SafeWrites; hide FreedBy;
    var ws := WritesIn(ds);
    ProtocolIsDone(ds);
    NothingWritten(AfterBlock(c, ds).location, c.groups);
    NothingFreed(AfterBlock(c, ds).location, c.groups, AfterBlock(c, ds).freed);
    if HasAdding(ws) {
      assert Taken(u.locations) == [u.locations[0]];
    } else {
      assert Leading(ws) == ws;
    }
  }

  lemma NothingFreed(base: Location, groups: seq<string>, freed: set<string>)
    ensures FreedBy([], base.group, groups) == {} && SafeWrites([], base, groups, freed)
  {
  }

  // ---- Main results ----

  /** The state between two entries of the http block. */
  ghost predicate Between(s: ProperState, tree: seq<HttpDirective>) {
    var c := CarriedOf(tree);
    && Tracks(s, Seen([], [], c.files, c.port, c.nameFault, Meaning(tree)))
    && Follows(s, [], EntryOf(c))
    && Sets(s, [], c.certFile, c.keyFile)
  }

  lemma {:induction false} HttpBetween(tree: seq<HttpDirective>)
    ensures Between(RunHttp(Initial(), tree), tree)
  {
    if tree == [] {
      NothingBetween();
    } else {
      hide Between;
      var earlier, d := tree[..|tree| - 1], Last(tree);
      HttpBetween(earlier);
      var s := RunHttp(Initial(), earlier);
      assert tree == earlier + [d];
      match d
      case ServerBlock(body) => BlockBetween(s, earlier, body);
      case HttpIndex(files) => IndexBetween(s, earlier, files);
      case _ => OtherBetween(s, earlier, d);
    }
  }

  lemma NothingBetween()
    ensures Between(Initial(), [])
  {
    NothingWritten(DEFAULT_LOCATION, []);
    NothingFreed(DEFAULT_LOCATION, [], {});
    AppendNone([DEFAULT_NAME]);
    AppendNone([DEFAULT_INDEX]);
    AppendNone([DEFAULT_PORT]);
  }

  lemma CarriedNext(earlier: seq<HttpDirective>, d: HttpDirective)
    ensures (earlier + [d])[..|earlier|] == earlier && Last(earlier + [d]) == d
    ensures Meaning(earlier + [d]) == Meaning(earlier)
                                    + if d.ServerBlock? then [BlockMeaning(CarriedOf(earlier), d.body)] else []
  {
    assert (earlier + [d])[..|earlier|] == earlier;
  }

  lemma IndexBetween(s: ProperState, earlier: seq<HttpDirective>, files: seq<string>)
    requires Between(s, earlier)
    ensures Between(RunIndex(s, files), earlier + [HttpIndex(files)])
  {
    hide Follows; hide Tracks;
    var c := CarriedOf(earlier);
    CarriedNext(earlier, HttpIndex(files));
    AppendNone(Meaning(earlier));
    FilesTrack(s, Seen([], [], c.files, c.port, c.nameFault, Meaning(earlier)), files);
    IndexAlone(s, files);
    SameLocations(s, RunIndex(s, files), [], EntryOf(c));
  }

  lemma OtherBetween(s: ProperState, earlier: seq<HttpDirective>, d: HttpDirective)
    requires Between(s, earlier) && !d.ServerBlock? && !d.HttpIndex?
    ensures Between(RunHttpDirective(s, d), earlier + [d])
  {
    hide LocationOf; hide SafeWrites; hide FreedBy;
    var c, c' := CarriedOf(earlier), CarriedOf(earlier + [d]);
    CarriedNext(earlier, d);
    AppendNone(Meaning(earlier));
    NothingWritten(c.location, c.groups);
    NothingWritten(c'.location, c'.groups);
    NothingFreed(c.location, c.groups, c.freed);
    NothingFreed(c'.location, c'.groups, c'.freed);
  }

  /** One server block, from lists that hold only their defaults and what is carried into the block. */
  lemma BlockBetween(s: ProperState, earlier: seq<HttpDirective>, body: seq<Directive>)
    requires Between(s, earlier)
    ensures Between(EndServer(RunDirectives(s, body)), earlier + [ServerBlock(body)])
  {
    hide Tracks; hide Follows; hide LocationOf; hide PortsAfter; hide FirstNames;
    var c, u := CarriedOf(earlier), RunDirectives(s, body);
    var before := Seen([], [], c.files, c.port, c.nameFault, Meaning(earlier));
    var after := With(before, NamesIn(body), OptionsIn(body), FilesIn(body), NamesSafe(body));
    CarriedNext(earlier, ServerBlock(body));
    DirectivesTrack(s, before, body);
    DirectivesFollow(s, [], EntryOf(c), body);
    DirectivesSet(s, body, c.certFile, c.keyFile);
    AppendNone(NamesIn(body));
    AppendNone(OptionsIn(body));
    AppendNone(WritesIn(body));
    EndServerMeans(u, after);
    EndServerResets(u, after);
    EndServerLocations(u, body, c);
  }

  /** Running the builder over any configuration gives one server per server block, in source order, with everything the
      block declares or else the defaults, and a last server with the defaults and whatever is carried behind the last
      block; and it frees and faults as the writes say. */
  lemma ConfigurationMeansItsDeclarations(tree: seq<HttpDirective>)
    ensures Run(tree).servers == Meaning(tree) + [TrailingServer(CarriedOf(tree))]
    ensures Run(tree).fault == CarriedOf(tree).fault && Run(tree).nameFault == CarriedOf(tree).nameFault
    ensures Run(tree).freed == CarriedOf(tree).freed
  {
    HttpBetween(tree);
    var c := CarriedOf(tree);
    NothingWritten(c.location, c.groups);
    NothingFreed(c.location, c.groups, c.freed);
    AppendNone([DEFAULT_NAME]);
    AppendNone([c.port]);
    assert [] + [c.location] == [c.location];
  }

  /** Without any directive there is the default server, and an empty server block gives another one like it. */
  lemma NothingDeclared()
    ensures var s := Server([ServerName("*", Exact)], ["index.html"], [Port(8080, false)],
                            [Location({DocRoot}, Prefix, "/", "/var/www/ogws/html", false, Http, None, None, [], 0)],
                            false, None, None);
      Run([]).servers == [s] && Run([ServerBlock([])]).servers == [s, s]
  {
    ConfigurationMeansItsDeclarations([]);
    ConfigurationMeansItsDeclarations([ServerBlock([])]);
    var tree: seq<HttpDirective> := [ServerBlock([])];
    assert tree[..|tree| - 1] == [];
    assert Meaning(tree) == Meaning([]) + [BlockMeaning(CarriedOf([]), [])];
  }

  /** The k-th server's port numbers are its block's declared numbers, first occurrences in source order, or 8080. */
  lemma {:induction false} PortNumbersOfBlock(tree: seq<HttpDirective>, k: nat)
    requires k < |Blocks(tree)|
    ensures Nums(Meaning(tree)[k].ports)
        == OrDefault(FirstNums(OptionNums(OptionsIn(Blocks(tree)[k]))), 8080)
    ensures CarriedOf(tree).port.num == 8080
  {
    var earlier, d := tree[..|tree| - 1], Last(tree);
    DefaultPortNumber(earlier);
    DefaultPortNumber(tree);
    if k < |Blocks(earlier)| {
      PortNumbersOfBlock(earlier, k);
    } else {
      var p := PortsAfter(OptionsIn(d.body), CarriedOf(earlier).port);
      PortNumbers(OptionsIn(d.body), CarriedOf(earlier).port);
      assert Nums(OrDefault(p.declared, p.default)) == OrDefault(Nums(p.declared), 8080);
    }
  }

  lemma {:induction false} DefaultPortNumber(tree: seq<HttpDirective>)
    ensures CarriedOf(tree).port.num == 8080
  {
    if tree != [] {
      DefaultPortNumber(tree[..|tree| - 1]);
      if Last(tree).ServerBlock? { PortNumbers(OptionsIn(Last(tree).body), CarriedOf(tree[..|tree| - 1]).port); }
    }
  }

  function Blocks(tree: seq<HttpDirective>): (r: seq<seq<Directive>>)
    ensures |r| == |Meaning(tree)|
  {
    if tree == [] then [] else Blocks(tree[..|tree| - 1]) + if Last(tree).ServerBlock? then [Last(tree).body] else []
  }

  // ---- TLS flags ----

  /** The port most recently added by these options: where `ssl` puts its mark. */
  function Newest(os: seq<ListenOption>): Option<int> {
    if os == [] then None
    else
      var es, o := os[..|os| - 1], Last(os);
      if GivesPort(o) && o.num > 0 && o.num !in OptionNums(es) then Some(o.num) else Newest(es)
  }

  ghost predicate Marked(os: seq<ListenOption>, num: int) {
    exists j :: 0 <= j < |os| && os[j].Ssl? && Newest(os[..j]) == Some(num)
  }

  lemma MarkedAppend(es: seq<ListenOption>, o: ListenOption, num: int)
    ensures Marked(es + [o], num) <==> Marked(es, num) || (o.Ssl? && Newest(es) == Some(num))
  {
    var os := es + [o];
    assert os[..|es|] == es;
    assert forall j :: 0 <= j < |es| ==> os[j] == es[j] && os[..j] == es[..j];
    if Marked(es, num) {
      var j :| 0 <= j < |es| && es[j].Ssl? && Newest(es[..j]) == Some(num);
      assert os[j].Ssl? && Newest(os[..j]) == Some(num);
    }
    if o.Ssl? && Newest(es) == Some(num) {
      assert os[|es|].Ssl? && Newest(os[..|es|]) == Some(num);
    }
  }

  lemma {:induction false} NewestIsDeclared(os: seq<ListenOption>)
    ensures Newest(os).Some? ==> Newest(os).value in OptionNums(os)
    ensures forall num :: Marked(os, num) ==> num in OptionNums(os)
  {
    if os != [] {
      var es, o := os[..|os| - 1], Last(os);
      NewestIsDeclared(es);
      SplitLast(os);
      forall num | Marked(os, num) ensures num in OptionNums(os) {
        MarkedAppend(es, o, num);
      }
    }
  }

  lemma {:induction false} FirstNumsDistinct(ns: seq<int>)
    ensures forall i, j :: 0 <= i < j < |FirstNums(ns)| ==> FirstNums(ns)[i] != FirstNums(ns)[j]
  {
    if ns != [] {
      FirstNumsDistinct(ns[..|ns| - 1]);
      FirstNumsMembers(ns[..|ns| - 1], Last(ns));
    }
  }

  /** A declared port has TLS exactly when some `ssl` option came while it was the newest port. */
  lemma {:induction false} TlsFlagMeaning(os: seq<ListenOption>, default: Port)
    ensures var p := PortsAfter(os, default).declared;
      && (Newest(os) == if p == [] then None else Some(Last(p).num))
      && (forall i :: 0 <= i < |p| ==> (p[i].tls <==> Marked(os, p[i].num)))
  {
    if os != [] {
      var es, o := os[..|os| - 1], Last(os);
      TlsFlagMeaning(es, default);
      PortNumbers(es, default);
      FirstNumsDistinct(OptionNums(es));
      SplitLast(os);
      TlsFlagStep(es, o, PortsAfter(es, default).declared, PortsAfter(os, default).declared);
    }
  }

  lemma NewestStep(es: seq<ListenOption>, o: ListenOption, p: seq<Port>)
    requires Nums(p) == FirstNums(OptionNums(es))
    ensures GivesPort(o) ==> (HasPort(p, o.num) <==> o.num in OptionNums(es))
    ensures Newest(es + [o])
         == if GivesPort(o) && o.num > 0 && !HasPort(p, o.num) then Some(o.num) else Newest(es)
  {
    hide HasPort; hide FirstNums;
    assert (es + [o])[..|es|] == es;
    if GivesPort(o) {
      HasPortMeansNumber(p, o.num);
      FirstNumsMembers(OptionNums(es), o.num);
    }
  }

  lemma TlsFlagStep(es: seq<ListenOption>, o: ListenOption, p: seq<Port>, q: seq<Port>)
    requires Newest(es) == if p == [] then None else Some(Last(p).num)
    requires forall i :: 0 <= i < |p| ==> (p[i].tls <==> Marked(es, p[i].num))
    requires Nums(p) == FirstNums(OptionNums(es))
    requires forall i, j :: 0 <= i < j < |p| ==> Nums(p)[i] != Nums(p)[j]
    requires q == if GivesPort(o) && o.num > 0 && !HasPort(p, o.num) then p + [Port(o.num, false)]
                  else if o.Ssl? && p != [] then p[|p| - 1 := Last(p).(tls := true)] else p
    ensures Newest(es + [o]) == if q == [] then None else Some(Last(q).num)
    ensures forall i :: 0 <= i < |q| ==> (q[i].tls <==> Marked(es + [o], q[i].num))
  {
    hide Marked; hide FirstNums; hide HasPort; hide OptionNums;
    NewestStep(es, o, p);
    NewestIsDeclared(es);
    forall i | 0 <= i < |q| ensures q[i].tls <==> Marked(es + [o], q[i].num) {
      MarkedAppend(es, o, q[i].num);
      if i < |p| {
        assert q[i].num == p[i].num == Nums(p)[i];
      }
    }
  }
}
