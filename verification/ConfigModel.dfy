/** What a configuration file declares. The actions of parseConfig.c are given as functions on the contents of
    its lists, and run in the order in which the grammar (og_ws.y) reduces; the meaning of a configuration is
    given block by block, without those lists. */
module ConfigModel {
  import opened Options
  import opened Sequences
  import opened Chains
  import opened Text
  import opened LoadBalancer

  datatype NameKind = Exact | WildcardPrefix | WildcardSuffix
  datatype ServerName = ServerName(name: string, kind: NameKind)
  datatype Port = Port(num: int, tls: bool)

  datatype MatchType = Unset | Equal | Regex | Prefix
  datatype Protocol = NoProtocol | Http | Https | Http2
  datatype Flag = ProxyPass | DocRoot | TryFiles | UpstreamGroup | FastCgi
  /** `ownRoot` says that the root came from a directive; otherwise it is the default's string literal. */
  datatype Location = Location(flags: set<Flag>, matchType: MatchType, pattern: string, root: string, ownRoot: bool,
                               protocol: Protocol, passTo: Option<(string, int)>, group: Option<string>,
                               tryTargets: seq<string>, expires: int)

  datatype Server = Server(names: seq<ServerName>, indexFiles: seq<string>, ports: seq<Port>, locations: seq<Location>,
                           autoIndex: bool, certFile: Option<string>, keyFile: Option<string>)

  // ---- Syntax tree ----

  /** `*` and `*:80` stand apart from other names: the grammar passes them on as a string literal. */
  datatype ListenOption =
    | Number(num: int) | Host(name: string) | HostPort(name: string, num: int)
    | Any | AnyPort(num: int) | Ssl | OtherOption

  datatype LocationDirective =
    | LocRoot(path: string)
    | Pass(protocol: Protocol, host: string, port: int, fastCgi: bool)    // proxy_pass or fastcgi_pass
    | Try(targets: seq<string>)
    | Expires(time: string)
    | ExpiresOff                                                           // a string literal, too
    | OtherLocation

  datatype Directive =
    | ServerNames(names: seq<ServerName>)
    | Listen(options: seq<ListenOption>)
    | Index(files: seq<string>)
    | Root(path: string)
    | LocationBlock(matchType: MatchType, pattern: string, body: seq<LocationDirective>)
    | AutoIndex(on: bool)
    | Certificate(path: string)
    | CertificateKey(path: string)
    | OtherDirective

  datatype HttpDirective =
    | ServerBlock(body: seq<Directive>)
    | UpstreamBlock(name: string, lines: seq<Upstream>)
    | HttpIndex(files: seq<string>)
    | HttpCertificate(path: string)
    | HttpCertificateKey(path: string)
    | OtherHttp

  // ---- The builder's state and actions ----

  /** The pending lists from their heads, each ending in its default, and what has been built. `freed` are groups whose
      node has been freed while it is on the upstream list. A fault is a second free, a free of a string literal, or a
      use of a freed node; `nameFault` is the one that names can lead to. */
  datatype State = State(names: seq<ServerName>, indexFiles: seq<string>, ports: seq<Port>, locations: seq<Location>,
                         protocol: Protocol, autoIndex: bool, certFile: Option<string>, keyFile: Option<string>,
                         groups: seq<string>, freed: set<string>, fault: bool, nameFault: bool, servers: seq<Server>)

  const DEFAULT_NAME := ServerName("*", Exact)
  const DEFAULT_INDEX := "index.html"
  const DEFAULT_PORT := Port(8080, false)
  const DEFAULT_LOCATION := Location({DocRoot}, Prefix, "/", "/var/www/ogws/html", false, Http, None, None, [], 0)

  function Initial(): State {
    State([DEFAULT_NAME], [DEFAULT_INDEX], [DEFAULT_PORT], [DEFAULT_LOCATION], NoProtocol, false, None, None, [], {},
        false, false, [])
  }

  predicate Proper(s: State) {
    s.names != [] && s.indexFiles != [] && s.ports != [] && s.locations != []
  }

  type ProperState = s: State | Proper(s) witness Initial()

  /** dupName and dupPort look at every node but the last. */
  predicate HasName(names: seq<ServerName>, name: string) {
    exists i :: 0 <= i < |names| && names[i].name == name
  }

  predicate HasPort(ports: seq<Port>, num: int) {
    exists i :: 0 <= i < |ports| && ports[i].num == num
  }

  function AddName(s: ProperState, n: ServerName): ProperState {
    if HasName(s.names[..|s.names| - 1], n.name) then s else s.(names := [n] + s.names)
  }

  /** f_listen frees a name that is there already. */
  function AddWildcard(s: ProperState): ProperState {
    AddName(s, DEFAULT_NAME).(nameFault := s.nameFault || HasName(s.names[..|s.names| - 1], DEFAULT_NAME.name))
  }

  function AddPort(s: ProperState, num: int): ProperState {
    if num <= 0 || HasPort(s.ports[..|s.ports| - 1], num) then s else s.(ports := [Port(num, false)] + s.ports)
  }

  function MarkTls(s: ProperState): ProperState {
    s.(ports := s.ports[0 := s.ports[0].(tls := true)])
  }

  function AddIndex(s: ProperState, file: string): ProperState {
    s.(indexFiles := [file] + s.indexFiles)
  }

  /** f_root, f_try_files and the two halves of f_proxy_pass: the head location changes if it is not the default;
      otherwise a changed copy of the default is put in front. */
  function ChangeLocation(s: ProperState, pending: Location, copied: Location): ProperState {
    s.(locations := if |s.locations| > 1 then [pending] + s.locations[1..] else [copied] + s.locations)
  }

  /** The pending location's old root is freed. */
  function SetRoot(s: ProperState, path: string): ProperState {
    var l := s.locations[0];
    var l' := l.(flags := l.flags + {DocRoot}, root := path, ownRoot := true);
    ChangeLocation(s, l', l').(fault := s.fault || (|s.locations| > 1 && !l.ownRoot))
  }

  /** The walk of isUpstreamGroup, up to the first group with this name, comes over a freed node. */
  predicate Meets(groups: seq<string>, freed: set<string>, host: string) {
    exists i :: 0 <= i < |groups| && groups[i] in freed && host !in groups[..i]
  }

  /** The two branches set different flags; only a copy of the default gets the UpstreamGroup flag. A pending location's
      old group is freed before the new one, which may be the same, is used. */
  function PassTo(s: ProperState, host: string, port: int, fastCgi: bool): ProperState {
    var l, flag := s.locations[0], if fastCgi then FastCgi else ProxyPass;
    var met := s.fault || Meets(s.groups, s.freed, host);
    if host in s.groups then
      var l' := l.(group := Some(host));
      var frees := |s.locations| > 1 && l.group.Some?;
      ChangeLocation(s, l'.(flags := l.flags + {flag}), l'.(flags := l.flags + {UpstreamGroup})).(
        freed := if frees then s.freed + {l.group.value} else s.freed,
        fault := met || (frees && (l.group.value in s.freed || l.group.value == host)))
    else
      var l' := l.(passTo := Some((host, port)));
      ChangeLocation(s, l'.(flags := l.flags + {flag}), l'.(flags := l.flags + {ProxyPass})).(fault := met)
  }

  function SetTry(s: ProperState, targets: seq<string>): ProperState {
    var l := s.locations[0];
    var l' := l.(flags := l.flags + {TryFiles}, matchType := Unset, tryTargets := targets);
    ChangeLocation(s, l', l')
  }

  /** A time as f_expires reads it: `off`, seconds, or a number with a unit, of which only m and h are known. */
  function Seconds(time: string): int {
    if "off" <= time || time == [] then 0
    else if IsDigit(Last(time)) then Atoi(time)
    else Atoi(time[..|time| - 1]) * (if Last(time) == 'm' then 60 else if Last(time) == 'h' then 3600 else 1)
  }

  /** What the times mean. */
  lemma TimesMean(n: nat, unit: char, more: string)
    ensures Seconds(Decimal(n)) == n
    ensures Seconds(Decimal(n) + ['m']) == 60 * n && Seconds(Decimal(n) + ['h']) == 60 * 60 * n
    ensures unit != 'm' && unit != 'h' && !('0' <= unit <= '9') ==> Seconds(Decimal(n) + [unit]) == n
    ensures Seconds("off" + more) == 0
  {
    DigitsOfDecimal(n);
    AtoiReads([], n, []);
    var s := Decimal(n);
    assert [] + (s + []) == s;
    assert s[0] != 'o';
    TimeWithUnit(s, 'm', n);
    TimeWithUnit(s, 'h', n);
    if !('0' <= unit <= '9') { TimeWithUnit(s, unit, n); }
  }

  lemma TimeWithUnit(s: string, unit: char, n: nat)
    requires s != [] && s[0] != 'o' && Atoi(s) == n && !IsDigit(unit)
    ensures Seconds(s + [unit]) == n * if unit == 'm' then 60 else if unit == 'h' then 3600 else 1
  {
    var t := s + [unit];
    assert t[..|t| - 1] == s && t[0] == s[0];
  }

  /** f_expires and f_location change the head, even when it is the default. */
  function SetHeadLocation(s: ProperState, l: Location): ProperState {
    s.(locations := [l] + s.locations[1..])
  }

  function EndLocation(s: ProperState, matchType: MatchType, pattern: string): ProperState {
    SetHeadLocation(s, s.locations[0].(matchType := matchType, pattern := pattern,
        protocol := s.protocol)).(protocol := NoProtocol)
  }

  function SetCertificate(s: ProperState, path: string): ProperState {
    if s.certFile.Some? then s else s.(certFile := Some(path))
  }

  function SetKey(s: ProperState, path: string): ProperState {
    if s.keyFile.Some? then s else s.(keyFile := Some(path))
  }

  /** f_server. */
  function EndServer(s: ProperState): ProperState {
    var server := Server(Reverse(Taken(s.names)), Reverse(Taken(s.indexFiles)), Reverse(Taken(s.ports)),
        Taken(s.locations),
                         s.autoIndex, s.certFile, s.keyFile);
    s.(names := [Last(s.names)], indexFiles := [Last(s.indexFiles)], ports := [Last(s.ports)],
        locations := [Last(s.locations)],
       autoIndex := false, certFile := None, keyFile := None, servers := s.servers + [server])
  }

  /** f_http: one more server that gets the pending lists as they are. */
  function EndHttp(s: ProperState): ProperState {
    s.(servers := s.servers + [Server(s.names, s.indexFiles, s.ports, s.locations, false, s.certFile, s.keyFile)])
  }

  /** f_upstreams: the new group is hung behind the last one, after a walk over all of them. */
  function AddGroup(s: ProperState, name: string): ProperState {
    s.(groups := s.groups + [name], fault := s.fault || s.freed != {})
  }

  // ---- Running the actions over a syntax tree ----

  function RunNames(s: ProperState, names: seq<ServerName>): ProperState {
    if names == [] then s else AddName(RunNames(s, names[..|names| - 1]), Last(names))
  }

  function RunListen(s: ProperState, o: ListenOption): ProperState {
    match o
    case Number(num) => AddPort(s, num)
    case Host(name) => AddName(s, ServerName(name, Exact))
    case HostPort(name, num) => AddName(AddPort(s, num), ServerName(name, Exact))
    case Any => AddWildcard(s)
    case AnyPort(num) => AddWildcard(AddPort(s, num))
    case Ssl => MarkTls(s)
    case OtherOption => s
  }

  function RunOptions(s: ProperState, os: seq<ListenOption>): ProperState {
    if os == [] then s else RunListen(RunOptions(s, os[..|os| - 1]), Last(os))
  }

  function RunIndex(s: ProperState, files: seq<string>): ProperState {
    if files == [] then s else AddIndex(RunIndex(s, files[..|files| - 1]), Last(files))
  }

  function RunLocationDirective(s: ProperState, d: LocationDirective): ProperState {
    match d
    case LocRoot(path) => SetRoot(s, path)
    case Pass(protocol, host, port, fastCgi) =>
      PassTo(if protocol == NoProtocol then s else s.(protocol := protocol), host, port, fastCgi)
    case Try(targets) => SetTry(s, targets)
    case Expires(time) => SetHeadLocation(s, s.locations[0].(expires := Seconds(time)))
    case ExpiresOff => SetHeadLocation(s, s.locations[0].(expires := 0)).(fault := true)
    case OtherLocation => s
  }

  function RunBody(s: ProperState, ds: seq<LocationDirective>): ProperState {
    if ds == [] then s else RunLocationDirective(RunBody(s, ds[..|ds| - 1]), Last(ds))
  }

  function RunDirective(s: ProperState, d: Directive): ProperState {
    match d
    case ServerNames(names) => RunNames(s, names)
    case Listen(options) => RunOptions(s, options)
    case Index(files) => RunIndex(s, files)
    case Root(path) => SetRoot(s, path)
    case LocationBlock(matchType, pattern, body) => EndLocation(RunBody(s, body), matchType, pattern)
    case AutoIndex(on) => s.(autoIndex := on)
    case Certificate(path) => SetCertificate(s, path)
    case CertificateKey(path) => SetKey(s, path)
    case OtherDirective => s
  }

  function RunDirectives(s: ProperState, ds: seq<Directive>): ProperState {
    if ds == [] then s else RunDirective(RunDirectives(s, ds[..|ds| - 1]), Last(ds))
  }

  function RunHttpDirective(s: ProperState, d: HttpDirective): ProperState {
    match d
    case ServerBlock(body) => EndServer(RunDirectives(s, body))
    case UpstreamBlock(name, lines) => AddGroup(s, name)
    case HttpIndex(files) => RunIndex(s, files)
    case HttpCertificate(path) => SetCertificate(s, path)
    case HttpCertificateKey(path) => SetKey(s, path)
    case OtherHttp => s
  }

  function RunHttp(s: ProperState, ds: seq<HttpDirective>): ProperState {
    if ds == [] then s else RunHttpDirective(RunHttp(s, ds[..|ds| - 1]), Last(ds))
  }

  function Run(tree: seq<HttpDirective>): ProperState {
    EndHttp(RunHttp(Initial(), tree))
  }

  // ---- What the runs leave alone ----

  lemma {:induction false} NamesAlone(s: ProperState, names: seq<ServerName>)
    ensures RunNames(s, names) == s.(names := RunNames(s, names).names)
  {
    if names != [] {
      NamesAlone(s, names[..|names| - 1]);
    }
  }

  lemma {:induction false} OptionsAlone(s: ProperState, os: seq<ListenOption>)
    ensures var t := RunOptions(s, os); t == s.(names := t.names, ports := t.ports, nameFault := t.nameFault)
  {
    hide RunListen;
    if os != [] {
      OptionsAlone(s, os[..|os| - 1]);
      ListenAlone(RunOptions(s, os[..|os| - 1]), Last(os));
    }
  }

  lemma ListenAlone(s: ProperState, o: ListenOption)
    ensures var t := RunListen(s, o); t == s.(names := t.names, ports := t.ports, nameFault := t.nameFault)
  {
    hide HasName; hide HasPort;
    if o.AnyPort? { WildcardAlone(AddPort(s, o.num)); }
    if o.Any? { WildcardAlone(s); }
  }

  lemma WildcardAlone(s: ProperState)
    ensures var t := AddWildcard(s); t == s.(names := t.names, nameFault := t.nameFault)
  {
    hide HasName;
  }

  lemma {:induction false} IndexAlone(s: ProperState, files: seq<string>)
    ensures RunIndex(s, files) == s.(indexFiles := RunIndex(s, files).indexFiles)
  {
    if files != [] {
      IndexAlone(s, files[..|files| - 1]);
    }
  }

  lemma {:induction false} BodyAlone(s: ProperState, ds: seq<LocationDirective>)
    ensures var t := RunBody(s, ds);
      t == s.(locations := t.locations, protocol := t.protocol, freed := t.freed, fault := t.fault)
  {
    if ds != [] {
      BodyAlone(s, ds[..|ds| - 1]);
      LocationDirectiveAlone(RunBody(s, ds[..|ds| - 1]), Last(ds));
    }
  }

  lemma LocationDirectiveAlone(s: ProperState, d: LocationDirective)
    ensures var t := RunLocationDirective(s, d);
      t == s.(locations := t.locations, protocol := t.protocol, freed := t.freed, fault := t.fault)
  {
    hide Meets;
  }

  // ---- One more step of a run ----

  lemma NamesNext(s: ProperState, xs: seq<ServerName>, i: nat)
    requires i <= |xs|
    ensures RunNames(s, xs[..0]) == s && xs[..|xs|] == xs
    ensures i < |xs| ==> RunNames(s, xs[..i + 1]) == AddName(RunNames(s, xs[..i]), xs[i])
  {
    if i < |xs| { assert xs[..i + 1][..i] == xs[..i]; }
  }

  lemma OptionsNext(s: ProperState, xs: seq<ListenOption>, i: nat)
    requires i <= |xs|
    ensures RunOptions(s, xs[..0]) == s && xs[..|xs|] == xs
    ensures i < |xs| ==> RunOptions(s, xs[..i + 1]) == RunListen(RunOptions(s, xs[..i]), xs[i])
  {
    if i < |xs| { assert xs[..i + 1][..i] == xs[..i]; }
  }

  lemma IndexNext(s: ProperState, xs: seq<string>, i: nat)
    requires i <= |xs|
    ensures RunIndex(s, xs[..0]) == s && xs[..|xs|] == xs
    ensures i < |xs| ==> RunIndex(s, xs[..i + 1]) == AddIndex(RunIndex(s, xs[..i]), xs[i])
  {
    if i < |xs| { assert xs[..i + 1][..i] == xs[..i]; }
  }

  lemma BodyNext(s: ProperState, xs: seq<LocationDirective>, i: nat)
    requires i <= |xs|
    ensures RunBody(s, xs[..0]) == s && xs[..|xs|] == xs
    ensures i < |xs| ==> RunBody(s, xs[..i + 1]) == RunLocationDirective(RunBody(s, xs[..i]), xs[i])
  {
    if i < |xs| { assert xs[..i + 1][..i] == xs[..i]; }
  }

  lemma DirectivesNext(s: ProperState, xs: seq<Directive>, i: nat)
    requires i <= |xs|
    ensures RunDirectives(s, xs[..0]) == s && xs[..|xs|] == xs
    ensures i < |xs| ==> RunDirectives(s, xs[..i + 1]) == RunDirective(RunDirectives(s, xs[..i]), xs[i])
  {
    if i < |xs| { assert xs[..i + 1][..i] == xs[..i]; }
  }

  lemma HttpNext(s: ProperState, xs: seq<HttpDirective>, i: nat)
    requires i <= |xs|
    ensures RunHttp(s, xs[..0]) == s && xs[..|xs|] == xs
    ensures i < |xs| ==> RunHttp(s, xs[..i + 1]) == RunHttpDirective(RunHttp(s, xs[..i]), xs[i])
  {
    if i < |xs| { assert xs[..i + 1][..i] == xs[..i]; }
  }
}
