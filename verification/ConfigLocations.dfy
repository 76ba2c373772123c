/** What a server block writes to its location, field by field, without the builder's pending list; and when the builder
    frees something that it must not. */
module ConfigLocations {
  import opened Options
  import opened Sequences
  import opened ConfigModel

  // ---- The writes of a block ----

  /** A write is a directive of a location block, a `root` outside of one, or the end of a location block. */
  datatype Write = Inner(d: LocationDirective) | Closed(matchType: MatchType, pattern: string)

  function Inners(body: seq<LocationDirective>): seq<Write> {
    if body == [] then [] else Inners(body[..|body| - 1]) + [Inner(Last(body))]
  }

  function WritesOf(d: Directive): seq<Write> {
    match d
    case Root(path) => [Inner(LocRoot(path))]
    case LocationBlock(matchType, pattern, body) => Inners(body) + [Closed(matchType, pattern)]
    case _ => []
  }

  function WritesIn(ds: seq<Directive>): seq<Write> {
    if ds == [] then [] else WritesIn(ds[..|ds| - 1]) + WritesOf(Last(ds))
  }

  /** `root`, `proxy_pass`, `fastcgi_pass` and `try_files` make a location; `expires` and the end of a location block
      only change one. */
  predicate Adds(w: Write) {
    w.Inner? && (w.d.LocRoot? || w.d.Pass? || w.d.Try?)
  }

  predicate HasAdding(ws: seq<Write>) {
    exists i :: 0 <= i < |ws| && Adds(ws[i])
  }

  /** The writes before the first one that makes a location: they change the default. */
  function Leading(ws: seq<Write>): seq<Write> {
    if HasAdding(ws) then Leading(ws[..|ws| - 1]) else ws
  }

  // ---- The location after the writes: the last write to each field wins ----

  function MatchTypeOf(ws: seq<Write>, base: MatchType): MatchType {
    if ws == [] then base
    else match Last(ws)
      case Closed(matchType, _) => matchType
      case Inner(Try(_)) => Unset
      case _ => MatchTypeOf(ws[..|ws| - 1], base)
  }

  function PatternOf(ws: seq<Write>, base: string): string {
    if ws == [] then base
    else if Last(ws).Closed? then Last(ws).pattern
    else PatternOf(ws[..|ws| - 1], base)
  }

  function RootOf(ws: seq<Write>, base: string): string {
    if ws == [] then base
    else match Last(ws)
      case Inner(LocRoot(path)) => path
      case _ => RootOf(ws[..|ws| - 1], base)
  }

  predicate HasRoot(ws: seq<Write>) {
    exists i :: 0 <= i < |ws| && ws[i].Inner? && ws[i].d.LocRoot?
  }

  /** The protocol given since the last location block ended. */
  function PendingProtocol(ws: seq<Write>): Protocol {
    if ws == [] || Last(ws).Closed? then NoProtocol
    else if Last(ws).d.Pass? && Last(ws).d.protocol != NoProtocol then Last(ws).d.protocol
    else PendingProtocol(ws[..|ws| - 1])
  }

  function ProtocolOf(ws: seq<Write>, base: Protocol): Protocol {
    if ws == [] then base
    else if Last(ws).Closed? then PendingProtocol(ws[..|ws| - 1])
    else ProtocolOf(ws[..|ws| - 1], base)
  }

  predicate IsHostPass(w: Write, groups: seq<string>) {
    w.Inner? && w.d.Pass? && w.d.host !in groups
  }

  predicate IsGroupPass(w: Write, groups: seq<string>) {
    w.Inner? && w.d.Pass? && w.d.host in groups
  }

  function PassToOf(ws: seq<Write>, base: Option<(string, int)>, groups: seq<string>): Option<(string, int)> {
    if ws == [] then base
    else if IsHostPass(Last(ws), groups) then Some((Last(ws).d.host, Last(ws).d.port))
    else PassToOf(ws[..|ws| - 1], base, groups)
  }

  function GroupOf(ws: seq<Write>, base: Option<string>, groups: seq<string>): Option<string> {
    if ws == [] then base
    else if IsGroupPass(Last(ws), groups) then Some(Last(ws).d.host)
    else GroupOf(ws[..|ws| - 1], base, groups)
  }

  function TargetsOf(ws: seq<Write>, base: seq<string>): seq<string> {
    if ws == [] then base
    else match Last(ws)
      case Inner(Try(targets)) => targets
      case _ => TargetsOf(ws[..|ws| - 1], base)
  }

  function ExpiresOf(ws: seq<Write>, base: int): int {
    if ws == [] then base
    else match Last(ws)
      case Inner(Expires(time)) => Seconds(time)
      case Inner(ExpiresOff) => 0
      case _ => ExpiresOf(ws[..|ws| - 1], base)
  }

  /** The flag set by the write that makes the location, and by one that changes it. */
  function FirstFlag(w: Write, groups: seq<string>): Flag
    requires Adds(w)
  {
    if w.d.LocRoot? then DocRoot else if w.d.Try? then TryFiles else if w.d.host in groups then UpstreamGroup
        else ProxyPass
  }

  function LaterFlag(w: Write): Flag
    requires Adds(w)
  {
    if w.d.LocRoot? then DocRoot else if w.d.Try? then TryFiles else if w.d.fastCgi then FastCgi else ProxyPass
  }

  function FlagsOf(ws: seq<Write>, base: set<Flag>, groups: seq<string>): set<Flag> {
    if ws == [] then base
    else
      var earlier, w := ws[..|ws| - 1], Last(ws);
      FlagsOf(earlier, base, groups)
      + if !Adds(w) then {} else if HasAdding(earlier) then {LaterFlag(w)} else {FirstFlag(w, groups)}
  }

  function LocationOf(ws: seq<Write>, base: Location, groups: seq<string>): Location {
    Location(FlagsOf(ws, base.flags, groups), MatchTypeOf(ws, base.matchType), PatternOf(ws, base.pattern),
             RootOf(ws, base.root), base.ownRoot || HasRoot(ws), ProtocolOf(ws, base.protocol),
             PassToOf(ws, base.passTo, groups), GroupOf(ws, base.group, groups), TargetsOf(ws, base.tryTargets),
             ExpiresOf(ws, base.expires))
  }

  // ---- What is freed, and when that is wrong ----

  /** A second pass to a group frees the first one's group. */
  function FreedBy(ws: seq<Write>, base: Option<string>, groups: seq<string>): set<string> {
    if ws == [] then {}
    else
      var earlier := ws[..|ws| - 1];
      FreedBy(earlier, base, groups) + Replaced(earlier, Last(ws), base, groups)
  }

  /** The group whose node the write frees. */
  function Replaced(earlier: seq<Write>, w: Write, base: Option<string>, groups: seq<string>): set<string> {
    var given := GroupOf(earlier, base, groups);
    if IsGroupPass(w, groups) && HasAdding(earlier) && given.Some? then {given.value} else {}
  }

  /** There must be no `expires off`; a `root` must not replace the literal of a location made by something else; a pass
      must not look for its group among freed ones, nor free one again, nor free the one it is to use. */
  predicate SafeWrite(earlier: seq<Write>, w: Write, base: Location, groups: seq<string>, freed: set<string>) {
    && (w.Inner? && w.d.LocRoot? && HasAdding(earlier) ==> base.ownRoot || HasRoot(earlier))
    && (w.Inner? && w.d.Pass? ==>
          var gone := freed + FreedBy(earlier, base.group, groups);
          !Meets(groups, gone, w.d.host) && Replaced(earlier, w, base.group, groups) !! gone + {w.d.host})
    && !(w.Inner? && w.d.ExpiresOff?)
  }

  predicate SafeWrites(ws: seq<Write>, base: Location, groups: seq<string>, freed: set<string>) {
    forall j :: 0 <= j < |ws| ==> SafeWrite(ws[..j], ws[j], base, groups, freed)
  }

  // ---- The builder follows the writes ----

  /** What the builder has when a block starts. */
  datatype Entry = Entry(base: Location, groups: seq<string>, freed: set<string>, fault: bool)

  ghost predicate Follows(s: ProperState, ws: seq<Write>, e: Entry) {
    && s.locations == (if HasAdding(ws) then [LocationOf(ws, e.base, e.groups)] else [])
                    + [LocationOf(Leading(ws), e.base, e.groups)]
    && s.protocol == PendingProtocol(ws)
    && s.groups == e.groups
    && s.freed == e.freed + FreedBy(ws, e.base.group, e.groups)
    && (s.fault <==> e.fault || !SafeWrites(ws, e.base, e.groups, e.freed))
  }

  lemma HasAddingAppend(ws: seq<Write>, w: Write)
    ensures HasAdding(ws + [w]) <==> HasAdding(ws) || Adds(w)
    ensures HasRoot(ws + [w]) <==> HasRoot(ws) || (w.Inner? && w.d.LocRoot?)
  {
    var all := ws + [w];
    assert all[|ws|] == w;
    assert forall i :: 0 <= i < |ws| ==> all[i] == ws[i];
    if HasAdding(ws) {
      var i :| 0 <= i < |ws| && Adds(ws[i]);
      assert Adds(all[i]);
    }
    if HasRoot(ws) {
      var i :| 0 <= i < |ws| && ws[i].Inner? && ws[i].d.LocRoot?;
      assert all[i].Inner? && all[i].d.LocRoot?;
    }
  }

  lemma LeadingAppend(ws: seq<Write>, w: Write)
    ensures Leading(ws + [w]) == if HasAdding(ws) || Adds(w) then Leading(ws) else ws + [w]
  {
    HasAddingAppend(ws, w);
    assert (ws + [w])[..|ws|] == ws;
  }

  lemma SafeAppend(ws: seq<Write>, w: Write, base: Location, groups: seq<string>, freed: set<string>)
    ensures SafeWrites(ws + [w], base, groups, freed) <==>
            SafeWrites(ws, base, groups, freed) && SafeWrite(ws, w, base, groups, freed)
  {
    var all := ws + [w];
    assert all[..|ws|] == ws && all[|ws|] == w;
    assert forall j :: 0 <= j < |ws| ==> all[..j] == ws[..j] && all[j] == ws[j];
    if SafeWrites(all, base, groups, freed) {
      assert SafeWrite(all[..|ws|], all[|ws|], base, groups, freed);
      forall j | 0 <= j < |ws| ensures SafeWrite(ws[..j], ws[j], base, groups, freed) {
        assert SafeWrite(all[..j], all[j], base, groups, freed);
      }
    }
  }

  /** What one write does to the location. */
  function Apply(l: Location, w: Write, made: bool, protocol: Protocol, groups: seq<string>): Location {
    match w
    case Closed(matchType, pattern) => l.(matchType := matchType, pattern := pattern, protocol := protocol)
    case Inner(Expires(time)) => l.(expires := Seconds(time))
    case Inner(ExpiresOff) => l.(expires := 0)
    case Inner(OtherLocation) => l
    case Inner(LocRoot(path)) => l.(flags := l.flags + {DocRoot}, root := path, ownRoot := true)
    case Inner(Try(targets)) => l.(flags := l.flags + {TryFiles}, matchType := Unset, tryTargets := targets)
    case Inner(Pass(_, host, port, _)) =>
      var l' := l.(flags := l.flags + {if made then LaterFlag(w) else FirstFlag(w, groups)});
      if host in groups then l'.(group := Some(host)) else l'.(passTo := Some((host, port)))
  }

  lemma FlagsAppend(ws: seq<Write>, w: Write, base: set<Flag>, groups: seq<string>)
    ensures FlagsOf(ws + [w], base, groups)
         == FlagsOf(ws, base, groups)
            + if !Adds(w) then {} else if HasAdding(ws) then {LaterFlag(w)} else {FirstFlag(w, groups)}
  {
    hide HasAdding; hide Adds;
    var all := ws + [w];
    assert all[..|all| - 1] == ws && Last(all) == w && all != [];
  }

  lemma PassAppend(ws: seq<Write>, w: Write, base: Location, groups: seq<string>)
    ensures PassToOf(ws + [w], base.passTo, groups)
         == if IsHostPass(w, groups) then Some((w.d.host, w.d.port)) else PassToOf(ws, base.passTo, groups)
    ensures GroupOf(ws + [w], base.group, groups)
         == if IsGroupPass(w, groups) then Some(w.d.host) else GroupOf(ws, base.group, groups)
    ensures ProtocolOf(ws + [w], base.protocol)
         == if w.Closed? then PendingProtocol(ws) else ProtocolOf(ws, base.protocol)
  {
    var all := ws + [w];
    assert all[..|all| - 1] == ws && Last(all) == w && all != [];
  }

  lemma LocationAppend(ws: seq<Write>, w: Write, base: Location, groups: seq<string>)
    ensures LocationOf(ws + [w], base, groups)
         == Apply(LocationOf(ws, base, groups), w, HasAdding(ws), PendingProtocol(ws), groups)
  {
    hide HasAdding; hide HasRoot; hide FlagsOf; hide PassToOf; hide GroupOf; hide ProtocolOf; hide PendingProtocol;
    HasAddingAppend(ws, w);
    FlagsAppend(ws, w, base.flags, groups);
    PassAppend(ws, w, base, groups);
    var all := ws + [w];
    assert all[..|all| - 1] == ws && Last(all) == w && all != [];
  }

  /** The builder's action for a write. */
  function Act(s: ProperState, w: Write): ProperState {
    match w
    case Inner(d) => RunLocationDirective(s, d)
    case Closed(matchType, pattern) => EndLocation(s, matchType, pattern)
  }

  lemma ChangedLocations(s: ProperState, pending: Location, copied: Location)
    requires |s.locations| <= 2
    ensures ChangeLocation(s, pending, copied)
         == s.(locations := if |s.locations| == 2 then [pending] + s.locations[1..] else [copied] + s.locations)
  {
  }

  lemma ActOnLocations(s: ProperState, w: Write)
    requires |s.locations| <= 2
    ensures var l := Apply(s.locations[0], w, |s.locations| == 2, s.protocol, s.groups); var t := Act(s, w);
      && t.locations == (if Adds(w) && |s.locations| == 1 then [l] + s.locations else [l] + s.locations[1..])
      && t.groups == s.groups
  {
    hide ChangeLocation; hide Meets;
    var l := s.locations[0];
    if w.Inner? {
      match w.d
      case LocRoot(path) =>
        var l' := l.(flags := l.flags + {DocRoot}, root := path, ownRoot := true);
        ChangedLocations(s, l', l');
      case Try(targets) =>
        var l' := l.(flags := l.flags + {TryFiles}, matchType := Unset, tryTargets := targets);
        ChangedLocations(s, l', l');
      case Pass(protocol, host, port, fastCgi) =>
        PassOnLocations(if protocol == NoProtocol then s else s.(protocol := protocol), w);
      case _ =>
    }
  }

  lemma PassOnLocations(s: ProperState, w: Write)
    requires |s.locations| <= 2 && w.Inner? && w.d.Pass?
    ensures var l := Apply(s.locations[0], w, |s.locations| == 2, s.protocol, s.groups);
      var t := PassTo(s, w.d.host, w.d.port, w.d.fastCgi);
      && t.locations == (if |s.locations| == 1 then [l] + s.locations else [l] + s.locations[1..])
      && t.groups == s.groups && t.protocol == s.protocol
  {
    hide ChangeLocation; hide Meets;
    var l, flag := s.locations[0], if w.d.fastCgi then FastCgi else ProxyPass;
    if w.d.host in s.groups {
      var l' := l.(group := Some(w.d.host));
      ChangedLocations(s, l'.(flags := l.flags + {flag}), l'.(flags := l.flags + {UpstreamGroup}));
    } else {
      var l' := l.(passTo := Some((w.d.host, w.d.port)));
      ChangedLocations(s, l'.(flags := l.flags + {flag}), l'.(flags := l.flags + {ProxyPass}));
    }
  }

  /** What an action frees, and whether it faults, by the head location it meets. */
  lemma ActFrees(s: ProperState, w: Write)
    ensures var l, made, t := s.locations[0], |s.locations| > 1, Act(s, w);
      var gone := if IsGroupPass(w, s.groups) && made && l.group.Some? then {l.group.value} else {};
      && t.freed == s.freed + gone
      && t.fault == (s.fault || (w.Inner? && w.d.ExpiresOff?) || (w.Inner? && w.d.LocRoot? && made && !l.ownRoot)
                     || (w.Inner? && w.d.Pass?
                         && (Meets(s.groups, s.freed, w.d.host) || !(gone !! s.freed + {w.d.host}))))
  {
    hide Meets;
    if w.Inner? && w.d.Pass? {
      PassFrees(if w.d.protocol == NoProtocol then s else s.(protocol := w.d.protocol), w);
    }
  }

  lemma PassFrees(s: ProperState, w: Write)
    requires w.Inner? && w.d.Pass?
    ensures var l, made, t := s.locations[0], |s.locations| > 1, PassTo(s, w.d.host, w.d.port, w.d.fastCgi);
      var gone := if IsGroupPass(w, s.groups) && made && l.group.Some? then {l.group.value} else {};
      && t.freed == s.freed + gone
      && t.fault == (s.fault || Meets(s.groups, s.freed, w.d.host) || !(gone !! s.freed + {w.d.host}))
  {
    hide Meets;
  }

  lemma ActOnRest(s: ProperState, ws: seq<Write>, w: Write, e: Entry)
    requires Follows(s, ws, e)
    ensures var t := Act(s, w);
      && t.freed == e.freed + FreedBy(ws + [w], e.base.group, e.groups)
      && (t.fault <==> s.fault || !SafeWrite(ws, w, e.base, e.groups, e.freed))
  {
    hide Act; hide Meets; hide SafeWrites;
    ActFrees(s, w);
    assert (ws + [w])[..|ws|] == ws;
    if !HasAdding(ws) { assert Leading(ws) == ws; }
  }

  lemma PassKeepsProtocol(s: ProperState, d: LocationDirective)
    requires d.Pass?
    ensures PassTo(s, d.host, d.port, d.fastCgi).protocol == s.protocol
  {
    hide Meets;
  }

  lemma PendingAppend(ws: seq<Write>, w: Write)
    ensures PendingProtocol(ws + [w])
         == if w.Closed? then NoProtocol
            else if w.d.Pass? && w.d.protocol != NoProtocol then w.d.protocol
            else PendingProtocol(ws)
  {
    var all := ws + [w];
    assert all[..|all| - 1] == ws && Last(all) == w && all != [];
  }

  lemma ActOnProtocol(s: ProperState, ws: seq<Write>, w: Write)
    requires s.protocol == PendingProtocol(ws)
    ensures Act(s, w).protocol == PendingProtocol(ws + [w])
  {
    hide Meets; hide PassTo; hide Seconds; hide PendingProtocol;
    PendingAppend(ws, w);
    if w.Inner? && w.d.Pass? {
      PassKeepsProtocol(if w.d.protocol == NoProtocol then s else s.(protocol := w.d.protocol), w.d);
    }
  }

  lemma ActFollows(s: ProperState, ws: seq<Write>, w: Write, e: Entry)
    requires Follows(s, ws, e)
    ensures Follows(Act(s, w), ws + [w], e)
  {
    hide Act; hide Apply; hide LocationOf; hide SafeWrite; hide SafeWrites; hide FreedBy; hide PendingProtocol;
    hide HasAdding;
    ActOnLocations(s, w);
    ActOnRest(s, ws, w, e);
    ActOnProtocol(s, ws, w);
    SafeAppend(ws, w, e.base, e.groups, e.freed);
    HasAddingAppend(ws, w);
    LeadingAppend(ws, w);
    LocationAppend(ws, w, e.base, e.groups);
  }

  lemma {:induction false} BodyFollows(s: ProperState, ws: seq<Write>, e: Entry, body: seq<LocationDirective>)
    requires Follows(s, ws, e)
    ensures Follows(RunBody(s, body), ws + Inners(body), e)
  {
    if body == [] {
      AppendNone(ws);
    } else {
      hide Follows; hide RunLocationDirective;
      var bs := body[..|body| - 1];
      BodyFollows(s, ws, e, bs);
      ActFollows(RunBody(s, bs), ws + Inners(bs), Inner(Last(body)), e);
      AppendAssoc(ws, Inners(bs), [Inner(Last(body))]);
    }
  }

  lemma SameLocations(s: ProperState, t: ProperState, ws: seq<Write>, e: Entry)
    requires Follows(s, ws, e)
    requires t.locations == s.locations && t.protocol == s.protocol && t.groups == s.groups
    requires t.freed == s.freed && t.fault == s.fault
    ensures Follows(t, ws, e)
  {
  }

  lemma DirectiveFollows(s: ProperState, ws: seq<Write>, e: Entry, d: Directive)
    requires Follows(s, ws, e)
    ensures Follows(RunDirective(s, d), ws + WritesOf(d), e)
  {
    hide Follows; hide RunNames; hide RunOptions; hide RunIndex; hide RunBody; hide SetRoot; hide EndLocation;
    AppendNone(ws);
    match d
    case Root(path) => ActFollows(s, ws, Inner(LocRoot(path)), e);
    case LocationBlock(matchType, pattern, body) =>
      BodyFollows(s, ws, e, body);
      ActFollows(RunBody(s, body), ws + Inners(body), Closed(matchType, pattern), e);
      AppendAssoc(ws, Inners(body), [Closed(matchType, pattern)]);
    case ServerNames(names) =>
      NamesAlone(s, names);
      SameLocations(s, RunDirective(s, d), ws, e);
    case Listen(options) =>
      OptionsAlone(s, options);
      SameLocations(s, RunDirective(s, d), ws, e);
    case Index(files) =>
      IndexAlone(s, files);
      SameLocations(s, RunDirective(s, d), ws, e);
    case _ => SameLocations(s, RunDirective(s, d), ws, e);
  }

  lemma {:induction false} DirectivesFollow(s: ProperState, ws: seq<Write>, e: Entry, ds: seq<Directive>)
    requires Follows(s, ws, e)
    ensures Follows(RunDirectives(s, ds), ws + WritesIn(ds), e)
  {
    if ds == [] {
      AppendNone(ws);
    } else {
      hide Follows; hide RunDirective;
      var es := ds[..|ds| - 1];
      DirectivesFollow(s, ws, e, es);
      DirectiveFollows(RunDirectives(s, es), ws + WritesIn(es), e, Last(ds));
      AppendAssoc(ws, WritesIn(es), WritesOf(Last(ds)));
    }
  }
}
