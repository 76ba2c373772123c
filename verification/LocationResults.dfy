/** What each server takes from its own block and what from earlier ones; for its one location: where its settings come
    from, which location block it answers for, and what its flags mean. */
module LocationResults {
  import opened Options
  import opened Sequences
  import opened ConfigModel
  import opened ConfigLocations
  import opened ConfigMeaning

  /** What is read before the k-th server block. */
  function UpTo(tree: seq<HttpDirective>, k: nat): seq<HttpDirective>
    requires k < |Blocks(tree)|
  {
    var earlier := tree[..|tree| - 1];
    if k < |Blocks(earlier)| then UpTo(earlier, k) else earlier
  }

  lemma {:induction false} MeaningOfBlock(tree: seq<HttpDirective>, k: nat)
    requires k < |Blocks(tree)|
    ensures Meaning(tree)[k] == BlockMeaning(CarriedOf(UpTo(tree, k)), Blocks(tree)[k])
  {
    if k < |Blocks(tree[..|tree| - 1])| {
      MeaningOfBlock(tree[..|tree| - 1], k);
    }
  }

  /** The k-th server has one location: all writes of its block, on top of the carried default. */
  lemma LocationOfServer(tree: seq<HttpDirective>, k: nat)
    requires k < |Blocks(tree)|
    ensures k < |Run(tree).servers|
    ensures var c := CarriedOf(UpTo(tree, k));
      Run(tree).servers[k].locations == [LocationOf(WritesIn(Blocks(tree)[k]), c.location, c.groups)]
  {
    ConfigurationMeansItsDeclarations(tree);
    MeaningOfBlock(tree, k);
  }

  // ---- The carried default ----

  /** The writes of all blocks that change the default. */
  function LeadingIn(tree: seq<HttpDirective>): seq<Write> {
    if tree == [] then []
    else LeadingIn(tree[..|tree| - 1]) + if Last(tree).ServerBlock? then Leading(WritesIn(Last(tree).body)) else []
  }

  lemma {:induction false} LeadingHasNoAdding(ws: seq<Write>)
    ensures !HasAdding(Leading(ws))
  {
    if HasAdding(ws) { LeadingHasNoAdding(ws[..|ws| - 1]); }
  }

  lemma NoAddingAppend(a: seq<Write>, b: seq<Write>)
    ensures HasAdding(a + b) <==> HasAdding(a) || HasAdding(b)
  {
    var all := a + b;
    assert forall i :: 0 <= i < |a| ==> all[i] == a[i];
    assert forall i :: 0 <= i < |b| ==> all[|a| + i] == b[i];
    if HasAdding(a) {
      var i :| 0 <= i < |a| && Adds(a[i]);
      assert Adds(all[i]);
    }
    if HasAdding(b) {
      var i :| 0 <= i < |b| && Adds(b[i]);
      assert Adds(all[|a| + i]);
    }
  }

  /** Writes that do not make a location only set expires, match, pattern, and protocol. */
  lemma {:induction false} ChangesOnly(ws: seq<Write>, base: Location, groups: seq<string>)
    requires !HasAdding(ws)
    ensures var l := LocationOf(ws, base, groups);
      l == base.(expires := l.expires, matchType := l.matchType, pattern := l.pattern, protocol := l.protocol)
    ensures LocationOf(ws, base, groups) == LocationOf(ws, base, [])
    ensures PendingProtocol(ws) == NoProtocol
  {
    if ws == [] {
      NothingWritten(base, groups);
      NothingWritten(base, []);
    } else {
      var es, w := ws[..|ws| - 1], Last(ws);
      SplitLast(ws);
      HasAddingAppend(es, w);
      ChangesOnly(es, base, groups);
      LocationAppend(es, w, base, groups);
      LocationAppend(es, w, base, []);
    }
  }

  lemma {:induction false} LocationOfConcat(a: seq<Write>, b: seq<Write>, base: Location)
    requires !HasAdding(a) && !HasAdding(b)
    ensures LocationOf(a + b, base, []) == LocationOf(b, LocationOf(a, base, []), [])
  {
    if b == [] {
      AppendNone(a);
      NothingWritten(LocationOf(a, base, []), []);
    } else {
      var es, w := b[..|b| - 1], Last(b);
      SplitLast(b);
      HasAddingAppend(es, w);
      NoAddingAppend(a, es);
      LocationOfConcat(a, es, base);
      AppendAssoc(a, es, [w]);
      LocationAppend(a + es, w, base, []);
      LocationAppend(es, w, LocationOf(a, base, []), []);
      ChangesOnly(a + es, base, []);
      ChangesOnly(es, base, []);
    }
  }

  /** The carried default is the original one after the leading writes of all blocks so far. */
  lemma {:induction false} CarriedLocation(tree: seq<HttpDirective>)
    ensures CarriedOf(tree).location == LocationOf(LeadingIn(tree), DEFAULT_LOCATION, []) && !HasAdding(LeadingIn(tree))
  {
    if tree == [] {
      NothingWritten(DEFAULT_LOCATION, []);
    } else {
      var earlier := tree[..|tree| - 1];
      CarriedLocation(earlier);
      if Last(tree).ServerBlock? {
        var c, ws := CarriedOf(earlier), Leading(WritesIn(Last(tree).body));
        LeadingHasNoAdding(WritesIn(Last(tree).body));
        ChangesOnly(ws, c.location, c.groups);
        LocationOfConcat(LeadingIn(earlier), ws, DEFAULT_LOCATION);
        NoAddingAppend(LeadingIn(earlier), ws);
      } else {
        AppendNone(LeadingIn(earlier));
      }
    }
  }

  lemma CarriedIsPlain(tree: seq<HttpDirective>)
    ensures var l := CarriedOf(tree).location;
      l == DEFAULT_LOCATION.(expires := l.expires, matchType := l.matchType, pattern := l.pattern,
          protocol := l.protocol)
  {
    CarriedLocation(tree);
    ChangesOnly(LeadingIn(tree), DEFAULT_LOCATION, []);
  }

  // ---- A server's own settings ----

  predicate SetsExpires(ws: seq<Write>) {
    exists i :: 0 <= i < |ws| && ws[i].Inner? && (ws[i].d.Expires? || ws[i].d.ExpiresOff?)
  }

  predicate SetsMatchType(ws: seq<Write>) {
    exists i :: 0 <= i < |ws| && (ws[i].Closed? || (ws[i].Inner? && ws[i].d.Try?))
  }

  predicate Closes(ws: seq<Write>) {
    exists i :: 0 <= i < |ws| && ws[i].Closed?
  }

  lemma SetsAppend(ws: seq<Write>, w: Write)
    ensures SetsExpires(ws + [w]) <==> SetsExpires(ws) || (w.Inner? && (w.d.Expires? || w.d.ExpiresOff?))
    ensures SetsMatchType(ws + [w]) <==> SetsMatchType(ws) || w.Closed? || (w.Inner? && w.d.Try?)
    ensures Closes(ws + [w]) <==> Closes(ws) || w.Closed?
  {
    var all := ws + [w];
    assert all[|ws|] == w;
    assert forall i :: 0 <= i < |ws| ==> all[i] == ws[i];
    if SetsExpires(ws) {
      var i :| 0 <= i < |ws| && ws[i].Inner? && (ws[i].d.Expires? || ws[i].d.ExpiresOff?);
      assert all[i].Inner? && (all[i].d.Expires? || all[i].d.ExpiresOff?);
    }
    if SetsMatchType(ws) {
      var i :| 0 <= i < |ws| && (ws[i].Closed? || (ws[i].Inner? && ws[i].d.Try?));
      assert all[i].Closed? || (all[i].Inner? && all[i].d.Try?);
    }
    if Closes(ws) {
      var i :| 0 <= i < |ws| && ws[i].Closed?;
      assert all[i].Closed?;
    }
  }

  /** A field that the block writes does not depend on the default; one that it does not write is the default's. */
  lemma {:induction false} FieldsFromDefault(ws: seq<Write>, expires: int, matchType: MatchType, pattern: string,
                                             protocol: Protocol,
                                             other: int, otherType: MatchType, otherPattern: string,
                                                 otherProtocol: Protocol)
    ensures if SetsExpires(ws) then ExpiresOf(ws, expires) == ExpiresOf(ws, other)
        else ExpiresOf(ws, expires) == expires
    ensures if SetsMatchType(ws) then MatchTypeOf(ws, matchType) == MatchTypeOf(ws, otherType)
            else MatchTypeOf(ws, matchType) == matchType
    ensures if Closes(ws) then PatternOf(ws, pattern) == PatternOf(ws, otherPattern)
        else PatternOf(ws, pattern) == pattern
    ensures if Closes(ws) then ProtocolOf(ws, protocol) == ProtocolOf(ws, otherProtocol)
        else ProtocolOf(ws, protocol) == protocol
  {
    if ws != [] {
      var es := ws[..|ws| - 1];
      FieldsFromDefault(es, expires, matchType, pattern, protocol, other, otherType, otherPattern, otherProtocol);
      SplitLast(ws);
      SetsAppend(es, Last(ws));
    }
  }

  /** A server's location is what its own block alone would give exactly when every setting that the carried default has
      changed is written by the block itself: an `expires`, or the match of a location block, that an earlier block gave
      before anything made it a location of its own, otherwise stays. */
  lemma OwnSettingsOnly(tree: seq<HttpDirective>, k: nat)
    requires k < |Blocks(tree)|
    ensures k < |Run(tree).servers|
    ensures var earlier, ws, d := LeadingIn(UpTo(tree, k)), WritesIn(Blocks(tree)[k]), DEFAULT_LOCATION;
      Run(tree).servers[k].locations == [LocationOf(ws, d, CarriedOf(UpTo(tree, k)).groups)] <==>
      && (SetsExpires(ws) || ExpiresOf(earlier, d.expires) == d.expires)
      && (SetsMatchType(ws) || MatchTypeOf(earlier, d.matchType) == d.matchType)
      && (Closes(ws) || (PatternOf(earlier, d.pattern) == d.pattern && ProtocolOf(earlier, d.protocol) == d.protocol))
  {
    var c, ws, d := CarriedOf(UpTo(tree, k)), WritesIn(Blocks(tree)[k]), DEFAULT_LOCATION;
    LocationOfServer(tree, k);
    CarriedLocation(UpTo(tree, k));
    CarriedIsPlain(UpTo(tree, k));
    var l := c.location;
    FieldsFromDefault(ws, l.expires, l.matchType, l.pattern, l.protocol, d.expires, d.matchType, d.pattern, d.protocol);
    FieldsFromDefault(ws, d.expires, d.matchType, d.pattern, d.protocol, l.expires, l.matchType, l.pattern, l.protocol);
  }

  /** The trailing server's location is the original default exactly when no block has changed it. */
  lemma TrailingLocation(tree: seq<HttpDirective>)
    ensures |Run(tree).servers| > 0
    ensures var ws, d := LeadingIn(tree), DEFAULT_LOCATION;
      Last(Run(tree).servers).locations == [d] <==>
      && ExpiresOf(ws, d.expires) == d.expires && MatchTypeOf(ws, d.matchType) == d.matchType
      && PatternOf(ws, d.pattern) == d.pattern && ProtocolOf(ws, d.protocol) == d.protocol
  {
    ConfigurationMeansItsDeclarations(tree);
    CarriedLocation(tree);
    CarriedIsPlain(tree);
  }

  // ---- A server's own ports ----

  /** An `ssl` in front of every port: it marks the default port. */
  predicate SslFirst(os: seq<ListenOption>) {
    exists j :: 0 <= j < |os| && os[j].Ssl? && OptionNums(os[..j]) == []
  }

  lemma SslFirstAppend(os: seq<ListenOption>, o: ListenOption)
    ensures SslFirst(os + [o]) <==> SslFirst(os) || (o.Ssl? && OptionNums(os) == [])
  {
    var all := os + [o];
    assert all[|os|] == o && all[..|os|] == os;
    assert forall j :: 0 <= j < |os| ==> all[j] == os[j] && all[..j] == os[..j];
    if SslFirst(os) {
      var j :| 0 <= j < |os| && os[j].Ssl? && OptionNums(os[..j]) == [];
      assert all[j].Ssl? && OptionNums(all[..j]) == [];
    }
  }

  /** The declared ports do not depend on the default port, which only gets a mark. */
  lemma {:induction false} DefaultPortMarked(os: seq<ListenOption>, default: Port, other: Port)
    ensures var p := PortsAfter(os, default);
      && p.declared == PortsAfter(os, other).declared && (p.declared == [] <==> OptionNums(os) == [])
      && p.default == default.(tls := default.tls || SslFirst(os))
  {
    if os != [] {
      var es, o := os[..|os| - 1], Last(os);
      DefaultPortMarked(es, default, other);
      SplitLast(os);
      SslFirstAppend(es, o);
      AppendNone(OptionNums(es));
      NoPorts(os, default);
    }
  }

  lemma NoPorts(os: seq<ListenOption>, default: Port)
    ensures PortsAfter(os, default).declared == [] <==> OptionNums(os) == []
  {
    PortNumbers(os, default);
    FirstNumsNone(OptionNums(os));
    assert Nums(PortsAfter(os, default).declared) == FirstNums(OptionNums(os));
  }

  predicate SslLeads(blocks: seq<seq<Directive>>) {
    exists k :: 0 <= k < |blocks| && SslFirst(OptionsIn(blocks[k]))
  }

  /** The default port has a TLS mark exactly when some block so far began its options with `ssl`. */
  lemma {:induction false} CarriedPort(tree: seq<HttpDirective>)
    ensures CarriedOf(tree).port == DEFAULT_PORT.(tls := SslLeads(Blocks(tree)))
  {
    if tree != [] {
      hide SslLeads; hide SslFirst; hide PortsAfter; hide LocationOf; hide FreedBy; hide SafeWrites; hide NamesSafe;
      hide WritesIn; hide Leading; hide OptionsIn;
      var earlier := tree[..|tree| - 1];
      CarriedPort(earlier);
      if Last(tree).ServerBlock? {
        DefaultPortMarked(OptionsIn(Last(tree).body), CarriedOf(earlier).port, DEFAULT_PORT);
        SslLeadsAppend(Blocks(earlier), Last(tree).body);
      } else {
        AppendNone(Blocks(earlier));
      }
    } else {
      assert Blocks(tree) == [];
    }
  }

  lemma SslLeadsAppend(blocks: seq<seq<Directive>>, body: seq<Directive>)
    ensures SslLeads(blocks + [body]) <==> SslLeads(blocks) || SslFirst(OptionsIn(body))
  {
    var all := blocks + [body];
    assert all[|blocks|] == body;
    assert forall k :: 0 <= k < |blocks| ==> all[k] == blocks[k];
    if SslLeads(blocks) {
      var k :| 0 <= k < |blocks| && SslFirst(OptionsIn(blocks[k]));
      assert SslFirst(OptionsIn(all[k]));
    }
  }

  lemma {:induction false} BlocksUpTo(tree: seq<HttpDirective>, k: nat)
    requires k < |Blocks(tree)|
    ensures Blocks(UpTo(tree, k)) == Blocks(tree)[..k]
  {
    var earlier := tree[..|tree| - 1];
    if k < |Blocks(earlier)| {
      BlocksUpTo(earlier, k);
      assert Blocks(tree)[..k] == Blocks(earlier)[..k];
    }
  }

  /** The ports a block would give on its own. */
  function OwnPorts(ds: seq<Directive>): seq<Port> {
    var p := PortsAfter(OptionsIn(ds), DEFAULT_PORT);
    OrDefault(p.declared, p.default)
  }

  /** A server's ports are those of its own block exactly when the block declares a port, or starts with `ssl` itself,
      or no earlier block did. */
  lemma OwnPortsOnly(tree: seq<HttpDirective>, k: nat)
    requires k < |Blocks(tree)|
    ensures k < |Run(tree).servers|
    ensures var os := OptionsIn(Blocks(tree)[k]);
      Run(tree).servers[k].ports == OwnPorts(Blocks(tree)[k]) <==>
      OptionNums(os) != [] || SslFirst(os) || !SslLeads(Blocks(tree)[..k])
  {
    hide PortsAfter; hide SslFirst; hide FirstNames; hide LocationOf;
    ConfigurationMeansItsDeclarations(tree);
    MeaningOfBlock(tree, k);
    var c, os := CarriedOf(UpTo(tree, k)), OptionsIn(Blocks(tree)[k]);
    CarriedPort(UpTo(tree, k));
    BlocksUpTo(tree, k);
    DefaultPortMarked(os, c.port, DEFAULT_PORT);
    DefaultPortMarked(os, DEFAULT_PORT, c.port);
  }

  /** The trailing server's port is the unmarked default exactly when no block started with `ssl`. */
  lemma TrailingPort(tree: seq<HttpDirective>)
    ensures |Run(tree).servers| > 0
    ensures Last(Run(tree).servers).ports == [DEFAULT_PORT] <==> !SslLeads(Blocks(tree))
  {
    ConfigurationMeansItsDeclarations(tree);
    CarriedPort(tree);
  }

  // ---- One location for all location blocks ----

  datatype Match = Match(matchType: MatchType, pattern: string)

  /** What the location blocks of a server block ask for, in source order. */
  function LocationBlocks(ds: seq<Directive>): seq<Match> {
    if ds == [] then []
    else
      var earlier, d := LocationBlocks(ds[..|ds| - 1]), Last(ds);
      earlier + if d.LocationBlock? then [Match(d.matchType, d.pattern)] else []
  }

  /** The last location block decides what the location matches. */
  lemma {:induction false} LastBlockWins(ds: seq<Directive>, matchType: MatchType, pattern: string)
    ensures Match(MatchTypeOf(WritesIn(ds), matchType), PatternOf(WritesIn(ds), pattern))
         == if LocationBlocks(ds) == [] then Match(matchType, pattern) else Last(LocationBlocks(ds))
  {
    if ds != [] {
      var es, d := ds[..|ds| - 1], Last(ds);
      LastBlockWins(es, matchType, pattern);
      AppendNone(LocationBlocks(es));
      MatchAppend(WritesIn(es), d, matchType, pattern);
    }
  }

  lemma MatchAppend(ws: seq<Write>, d: Directive, matchType: MatchType, pattern: string)
    ensures var all := ws + WritesOf(d);
      Match(MatchTypeOf(all, matchType), PatternOf(all, pattern))
      == if d.LocationBlock? then Match(d.matchType, d.pattern)
          else Match(MatchTypeOf(ws, matchType), PatternOf(ws, pattern))
  {
    AppendNone(ws);
    var all := ws + WritesOf(d);
    if d.LocationBlock? {
      assert Last(all) == Closed(d.matchType, d.pattern);
    } else if d.Root? {
      assert Last(all) == Inner(LocRoot(d.path)) && all[..|all| - 1] == ws;
    }
  }

  /** Some location of the server matches what this location block asks for. */
  predicate Answers(s: Server, m: Match) {
    exists i :: 0 <= i < |s.locations| && s.locations[i].matchType == m.matchType && s.locations[i].pattern == m.pattern
  }

  /** Every location block of a server block is meant to be answered. All of them write to one location, where a later
      match replaces an earlier one; so they all are exactly when they all ask for what the last one asks for. */
  lemma OneLocationPerServer(tree: seq<HttpDirective>, k: nat)
    requires k < |Blocks(tree)|
    ensures k < |Run(tree).servers| && |Run(tree).servers[k].locations| == 1
    ensures var ms := LocationBlocks(Blocks(tree)[k]);
      (forall m :: m in ms ==> Answers(Run(tree).servers[k], m)) <==> (forall m :: m in ms ==> m == Last(ms))
  {
    var c, ds := CarriedOf(UpTo(tree, k)), Blocks(tree)[k];
    LocationOfServer(tree, k);
    LastBlockWins(ds, c.location.matchType, c.location.pattern);
    var s, ms := Run(tree).servers[k], LocationBlocks(ds);
    forall m | m in ms ensures Answers(s, m) <==> m == Last(ms) {
      AnswersOne(s, m);
    }
  }

  lemma AnswersOne(s: Server, m: Match)
    requires |s.locations| == 1
    ensures Answers(s, m) <==> m == Match(s.locations[0].matchType, s.locations[0].pattern)
  {
    if m == Match(s.locations[0].matchType, s.locations[0].pattern) {
      assert s.locations[0].matchType == m.matchType;
    }
  }

  // ---- Flags, and what they lead to ----

  /** checkDocRoots for one location; `readable` says which roots access() finds. */
  predicate LocationOk(l: Location, readable: string -> bool) {
    if ProxyPass in l.flags then l.passTo.Some?
    else if DocRoot in l.flags then readable(l.root)
    else TryFiles in l.flags && l.tryTargets != []
  }

  /** checkDocRoots. */
  method CheckDocRoots(locations: seq<Location>, readable: string -> bool) returns (ok: bool)
    ensures ok <==> forall l :: l in locations ==> LocationOk(l, readable)
  {
    for i := 0 to |locations|
      invariant forall l :: l in locations[..i] ==> LocationOk(l, readable)
    {
      var l := locations[i];
      assert l in locations;
      if ProxyPass in l.flags {
        if l.passTo.None? {
          return false;
        }
      } else if DocRoot in l.flags {
        if !readable(l.root) {
          return false;
        }
      } else if TryFiles in l.flags {
        if l.tryTargets == [] {
          return false;
        }
      } else {
        return false;
      }
    }
    return true;
  }

  datatype Handler = TryFilesHandler | ProxyHandler | FastCgiHandler | FileHandler

  /** Where processInput sends a request for a location. */
  function Dispatch(l: Location): Handler {
    if TryFiles in l.flags then TryFilesHandler
    else if ProxyPass in l.flags then ProxyHandler
    else if FastCgi in l.flags then FastCgiHandler
    else FileHandler
  }

  /** The write that makes the location. */
  function Making(ws: seq<Write>): (w: Write)
    requires HasAdding(ws)
    ensures Adds(w)
  {
    HasAddingLast(ws);
    if HasAdding(ws[..|ws| - 1]) then Making(ws[..|ws| - 1]) else Last(ws)
  }

  lemma HasAddingLast(ws: seq<Write>)
    requires ws != []
    ensures HasAdding(ws) <==> HasAdding(ws[..|ws| - 1]) || Adds(Last(ws))
  {
    SplitLast(ws);
    HasAddingAppend(ws[..|ws| - 1], Last(ws));
  }

  predicate IsPass(w: Write, fastCgi: bool) {
    w.Inner? && w.d.Pass? && w.d.fastCgi == fastCgi
  }

  /** A proxy_pass (or fastcgi_pass) behind the write that makes the location. */
  predicate LaterPass(ws: seq<Write>, fastCgi: bool) {
    exists i :: 0 <= i < |ws| && IsPass(ws[i], fastCgi) && HasAdding(ws[..i])
  }

  predicate HasTry(ws: seq<Write>) {
    exists i :: 0 <= i < |ws| && ws[i].Inner? && ws[i].d.Try?
  }

  predicate HasHostPass(ws: seq<Write>, groups: seq<string>) {
    exists i :: 0 <= i < |ws| && IsHostPass(ws[i], groups)
  }

  lemma PassesAppend(ws: seq<Write>, w: Write, groups: seq<string>, fastCgi: bool)
    ensures LaterPass(ws + [w], fastCgi) <==> LaterPass(ws, fastCgi) || (IsPass(w, fastCgi) && HasAdding(ws))
    ensures HasTry(ws + [w]) <==> HasTry(ws) || (w.Inner? && w.d.Try?)
    ensures HasHostPass(ws + [w], groups) <==> HasHostPass(ws, groups) || IsHostPass(w, groups)
  {
    var all := ws + [w];
    assert all[|ws|] == w && all[..|ws|] == ws;
    assert forall i :: 0 <= i < |ws| ==> all[i] == ws[i] && all[..i] == ws[..i];
    if LaterPass(ws, fastCgi) {
      var i :| 0 <= i < |ws| && IsPass(ws[i], fastCgi) && HasAdding(ws[..i]);
      assert IsPass(all[i], fastCgi) && HasAdding(all[..i]);
    }
    if HasTry(ws) {
      var i :| 0 <= i < |ws| && ws[i].Inner? && ws[i].d.Try?;
      assert all[i].Inner? && all[i].d.Try?;
    }
    if HasHostPass(ws, groups) {
      var i :| 0 <= i < |ws| && IsHostPass(ws[i], groups);
      assert IsHostPass(all[i], groups);
    }
  }

  /** Which writes set which flag. */
  lemma {:induction false} FlagsMean(ws: seq<Write>, base: set<Flag>, groups: seq<string>)
    requires base == {DocRoot}
    ensures var flags := FlagsOf(ws, base, groups);
      && DocRoot in flags
      && (UpstreamGroup in flags <==> HasAdding(ws) && IsGroupPass(Making(ws), groups))
      && (ProxyPass in flags <==> (HasAdding(ws) && IsHostPass(Making(ws), groups)) || LaterPass(ws, false))
      && (FastCgi in flags <==> LaterPass(ws, true))
      && (TryFiles in flags <==> HasTry(ws))
  {
    if ws != [] {
      var es, w := ws[..|ws| - 1], Last(ws);
      FlagsMean(es, base, groups);
      SplitLast(ws);
      HasAddingLast(ws);
      PassesAppend(es, w, groups, true);
      PassesAppend(es, w, groups, false);
    }
  }

  lemma {:induction false} PassToMeans(ws: seq<Write>, groups: seq<string>)
    ensures PassToOf(ws, None, groups).Some? <==> HasHostPass(ws, groups)
  {
    if ws != [] {
      PassToMeans(ws[..|ws| - 1], groups);
      SplitLast(ws);
      PassesAppend(ws[..|ws| - 1], Last(ws), groups, true);
    }
  }

  lemma {:induction false} GroupMeans(ws: seq<Write>, groups: seq<string>)
    requires HasAdding(ws) && IsGroupPass(Making(ws), groups)
    ensures GroupOf(ws, None, groups).Some?
  {
    HasAddingLast(ws);
    if HasAdding(ws[..|ws| - 1]) { GroupMeans(ws[..|ws| - 1], groups); }
  }
}
