/** The request parser (processInput.c), which cuts its input buffer into strings in place. */
module HttpRequest {
  import opened Options
  import opened Sequences
  import opened Text

  const BUFF_SIZE: nat := 4096
  const HOST: string := "Host: "

  datatype Fields = Fields(verb: string, path: string, query: Option<string>, protocol: string, host: string)

  /** TooLarge, NoData and BadData get an error response; Crash is a write through a null pointer, or a read past the
      buffer. */
  datatype Outcome = Parsed(fields: Fields) | TooLarge | NoData | BadData | Crash

  // ---- The parser as a function on the text ----

  /** The position of the first occurrence of `t`; |s| if there is none. */
  function Find(s: string, t: string): (k: nat)
    requires t != []
    ensures k <= |s|
  {
    if s == [] || t <= s then 0 else 1 + Find(s[1..], t)
  }

  lemma {:induction false} FindIs(s: string, t: string, k: nat)
    requires t != [] && k <= |s| && (k < |s| ==> t <= s[k..]) && forall i :: 0 <= i < k ==> !(t <= s[i..])
    ensures Find(s, t) == k
  {
    if k > 0 {
      assert s[0..] == s && s[1..][k - 1..] == s[k..];
      forall i | 0 <= i < k - 1 ensures !(t <= s[1..][i..]) {
        assert s[1..][i..] == s[i + 1..];
      }
      FindIs(s[1..], t, k - 1);
    } else if s != [] {
      assert s[0..] == s;
    }
  }

  lemma {:induction false} FindFirst(s: string, t: string)
    requires t != []
    ensures var k := Find(s, t); (k < |s| ==> t <= s[k..]) && forall i :: 0 <= i < k ==> !(t <= s[i..])
  {
    if s != [] && !(t <= s) {
      FindFirst(s[1..], t);
      var k := Find(s, t);
      assert s[1..][k - 1..] == s[k..];
      forall i | 0 <= i < k ensures !(t <= s[i..]) {
        if i > 0 { assert s[1..][i - 1..] == s[i..]; } else { assert s[0..] == s; }
      }
    } else if s != [] {
      assert s[0..] == s;
    }
  }

  datatype RequestLine = RequestLine(verb: string, target: string, protocol: string, rest: string) | NoSpace | NotALine

  function LineOf(s: string): RequestLine {
    var v := IndexOf(s, ' ');
    if v == |s| then NoSpace
    else
      var s1 := s[v + 1..];
      var t := IndexOf(s1, ' ');
      if t == |s1| then NotALine
      else
        var s2 := s1[t + 1..];
        var r := IndexOf(s2, '\r');
        if r == |s2| then NotALine else RequestLine(s[..v], s1[..t], s2[..r], s2[r + 1..])
  }

  function WithHost(l: RequestLine, value: string): Outcome
    requires l.RequestLine?
  {
    var e, q := IndexOf(value, '\r'), IndexOf(l.target, '?');
    if e == |value| then Crash
    else
      var query := if q + 1 < |l.target| then Some(l.target[q + 1..]) else None;
      Parsed(Fields(l.verb, l.target[..q], query, l.protocol, value[..e]))
  }

  /** The text after the first "Host: ". */
  function ValueIn(u: string): Option<string> {
    var k := Find(u, HOST);
    if k + 6 <= |u| then Some(u[k + 6..]) else None
  }

  /** The search starts one character behind the request line's '\r'. */
  function HostValue(rest: string): Option<string> {
    if rest == [] then None else ValueIn(rest[1..])
  }

  /** Where the host is read from, in a buffer with a string up to `end` of which `rest` follows the request line. If
      there is no "Host: ", that is the string that starts seven characters past the end. */
  function HostText(b: seq<char>, rest: string, end: nat): Option<string> {
    if HostValue(rest).Some? then HostValue(rest)
    else if end + 7 >= |b| then None
    else Some(b[end + 7..][..IndexOf(b[end + 7..], NUL)])
  }

  function ParseBuffer(b: seq<char>, end: nat): Outcome
    requires end <= |b|
  {
    var l := LineOf(Str(b, 0, end));
    if l.NoSpace? then BadData
    else if l.NotALine? then Crash
    else if HostText(b, l.rest, end).None? then Crash
    else WithHost(l, HostText(b, l.rest, end).value)
  }

  function ProcessBuffer(b: seq<char>, received: nat): Outcome {
    if received >= BUFF_SIZE then TooLarge else if received == 0 then NoData else ParseBuffer(b, IndexOf(b, NUL))
  }

  /** The same for a request's text, as long as it names a host. */
  function ParseText(s: string): Outcome {
    var l := LineOf(s);
    if l.NoSpace? then BadData
    else if l.NotALine? || HostValue(l.rest).None? then Crash
    else WithHost(l, HostValue(l.rest).value)
  }

  // ---- The parser in place ----

  /** The fields of a `_request` that the parser fills in. */
  class Request {
    var headers: Option<string>
    var verb: Option<string>
    var path: Option<string>
    var queryString: Option<string>
    var protocol: Option<string>
    var host: Option<string>

    constructor ()
      ensures path == None && queryString == None
    {
      headers, verb, path, queryString, protocol, host := None, None, None, None, None, None;
    }

    ghost predicate Holds(f: Fields)
      reads this
    {
      && verb == Some(f.verb) && path == Some(f.path) && queryString == f.query
      && protocol == Some(f.protocol) && host == Some(f.host)
    }

    /** The query string is cut off the path; a bare '?' is dropped. */
    method SplitQuery()
      requires path.Some?
      modifies this`path, this`queryString
      ensures var t := old(path).value; var q := IndexOf(t, '?');
        path == Some(t[..q]) && queryString == if q + 1 < |t| then Some(t[q + 1..]) else old(queryString)
    {
      var q := IndexOf(path.value, '?');
      if q < |path.value| {
        if |path.value[q + 1..]| != 0 {
          queryString := Some(path.value[q + 1..]);
        }
        path := Some(path.value[..q]);
      } else {
        assert path.value[..q] == path.value;
      }
    }

    /** processInput, up to the choice of a server. */
    method Process(a: array<char>, received: nat) returns (outcome: Outcome)
      requires a.Length == BUFF_SIZE && received <= BUFF_SIZE && forall i :: received <= i < BUFF_SIZE ==> a[i] == NUL
      modifies this, a
      ensures outcome == ProcessBuffer(old(a[..]), received)
      ensures outcome.Parsed? ==>
                var f, text := outcome.fields, old(a[..]);
                && headers == Some(text[..IndexOf(text, '\0')])
                && verb == Some(f.verb) && path == Some(f.path) && queryString == f.query
                && protocol == Some(f.protocol) && host == Some(f.host)
    {
      path, queryString := None, None;
      if received == BUFF_SIZE {
        return TooLarge;
      }
      if received == 0 {
        return NoData;
      }
      ghost var end := IndexOf(a[..], NUL);
      assert a[..][BUFF_SIZE - 1] == NUL;
      IndexOfFirst(a[..], NUL);
      var text := CopyString(a, 0, end);
      headers := Some(text);
      outcome := ParseLines(a, end);
    }

    /** The request line, and the host after it. */
    method ParseLines(a: array<char>, ghost end: nat) returns (outcome: Outcome)
      requires StringAt(a[..], 0, end) && a[a.Length - 1] == NUL && queryString == None
      modifies this`verb, this`path, this`queryString, this`protocol, this`host, a
      ensures outcome == ParseBuffer(old(a[..]), end)
      ensures outcome.Parsed? ==> Holds(outcome.fields)
    {
      hide Str; hide StringAt; hide SameButFor; hide HostText; hide LineOf;
      ghost var b := a[..];
      InBuffer(b, 0, end);
      var ok, l, p := TakeLine(a, end);
      if !ok {
        return if l.NoSpace? then BadData else Crash;
      }
      verb, path, protocol := Some(l.verb), Some(l.target), Some(l.protocol);
      SameHostText(a[..], b, Str(a[..], p, end), end);
      var word;
      ok, word := TakeHost(a, p, end);
      if !ok {
        return Crash;
      }
      host := Some(word);
      SplitQuery();
      outcome := Parsed(Fields(l.verb, path.value, queryString, l.protocol, word));
    }
  }

  /** Verb, target and protocol. */
  method TakeLine(a: array<char>, ghost end: nat) returns (ok: bool, l: RequestLine, next: nat)
    requires StringAt(a[..], 0, end)
    modifies a
    ensures var line := LineOf(Str(old(a[..]), 0, end));
      && (ok <==> line.RequestLine?)
      && (if ok then l.RequestLine? && l.(rest := line.rest) == line else l == line)
      && (ok ==> StringAt(a[..], next, end) && Str(a[..], next, end) == line.rest)
    ensures SameButFor(a[..], old(a[..]), 0, end)
  {
    hide Str; hide SameButFor; hide IndexOf; hide StringAt;
    ghost var b := a[..];
    InBuffer(b, 0, end);
    SameAtFirst(b, 0, end);
    var verb, target, protocol;
    ok, verb, next := TakeWord(a, 0, end, ' ');
    if !ok {
      return false, NoSpace, 0;
    }
    ghost var b1 := a[..];
    ok, target, next := TakeWord(a, next, end, ' ');
    SameStays(b, b1, a[..], 0, end, 0, end);
    if !ok {
      return false, NotALine, 0;
    }
    ghost var b2 := a[..];
    ok, protocol, next := TakeWord(a, next, end, '\r');
    SameStays(b, b2, a[..], 0, end, 0, end);
    if !ok {
      return false, NotALine, 0;
    }
    l := RequestLine(verb, target, protocol, []);
  }

  /** Up to the next `c`, which is overwritten. */
  method TakeWord(a: array<char>, p: nat, ghost end: nat, c: char) returns (ok: bool, word: string, next: nat)
    requires StringAt(a[..], p, end) && c != NUL
    modifies a
    ensures var s := Str(old(a[..]), p, end); var k := IndexOf(s, c);
      && (ok <==> k < |s|)
      && (ok ==> word == s[..k] && next == p + k + 1)
      && (ok ==> StringAt(a[..], next, end) && Str(a[..], next, end) == s[k + 1..])
    ensures SameButFor(a[..], old(a[..]), 0, end)
  {
    hide Str; hide SameButFor;
    SameAtFirst(a[..], 0, end);
    var q := Strchr(a, p, end, c);
    if q == None {
      return false, "", p;
    }
    ghost var before := a[..];
    Cut(a, p, q.value, end);
    SameStays(before, before, a[..], q.value, q.value + 1, 0, end);
    word := CopyString(a, p, q.value);
    return true, word, q.value + 1;
  }

  /** The host, wherever the search for it ends. */
  method TakeHost(a: array<char>, p: nat, ghost end: nat) returns (ok: bool, host: string)
    requires StringAt(a[..], p, end) && a[a.Length - 1] == NUL
    modifies a
    ensures var t := HostText(old(a[..]), Str(old(a[..]), p, end), end);
      && (ok <==> t.Some? && IndexOf(t.value, '\r') < |t.value|)
      && (ok ==> host == t.value[..IndexOf(t.value, '\r')])
  {
    hide Str; hide SameButFor; hide Find; hide HostText; hide HostSearch;
    var q := FindHost(a, p, end);
    HostString(a[..], p, end, q);
    if q + 6 >= a.Length {
      return false, "";
    }
    var next;
    ok, host, next := TakeWord(a, q + 6, if q <= end then end else q + 6 + IndexOf(a[..][q + 6..], NUL), '\r');
  }

  lemma SameHostText(now: seq<char>, before: seq<char>, rest: string, end: nat)
    requires SameButFor(now, before, 0, end) && end < |before|
    ensures |now| == |before| && HostText(now, rest, end) == HostText(before, rest, end)
    ensures now[|now| - 1] == before[|before| - 1]
  {
    if end + 7 < |before| {
      assert now[end + 7..] == before[end + 7..];
    }
  }

  lemma HostString(b: seq<char>, p: nat, end: nat, q: nat)
    requires StringAt(b, p, end) && b[|b| - 1] == NUL && q == HostSearch(b, p, end)
    ensures q + 6 >= |b| ==> HostText(b, Str(b, p, end), end) == None
    ensures q + 6 < |b| ==>
      var hostEnd := if q <= end then end else q + 6 + IndexOf(b[q + 6..], NUL);
      StringAt(b, q + 6, hostEnd) && HostText(b, Str(b, p, end), end) == Some(Str(b, q + 6, hostEnd))
  {
    hide Find; hide Str; hide HostText;
    if q <= end {
      HostIsThere(b, p, end, q);
    } else {
      HostIsNotThere(b, p, end);
      if q + 6 < |b| { PastEnd(b, q + 6); }
    }
  }

  lemma HostIsThere(b: seq<char>, p: nat, end: nat, q: nat)
    requires StringAt(b, p, end) && q == HostSearch(b, p, end) && q <= end
    ensures q + 6 <= end && StringAt(b, q + 6, end)
    ensures HostText(b, Str(b, p, end), end) == Some(Str(b, q + 6, end))
  {
    hide Find; hide Str;
    var rest := Str(b, p, end);
    FindFirst(rest[1..], HOST);
    assert |rest[1..][q - p - 1..]| >= |HOST|;
    assert rest[1..][q - p - 1 + 6..] == rest[q + 6 - p..];
    Tail(b, p, q + 6, end);
  }

  lemma HostIsNotThere(b: seq<char>, p: nat, end: nat)
    requires StringAt(b, p, end) && HostSearch(b, p, end) == end + 1
    ensures HostText(b, Str(b, p, end), end) == if end + 7 >= |b| then None
        else Some(b[end + 7..][..IndexOf(b[end + 7..], NUL)])
  {
    hide Find; hide Str;
  }

  lemma PastEnd(b: seq<char>, p: nat)
    requires p < |b| && b[|b| - 1] == NUL
    ensures var end := p + IndexOf(b[p..], NUL); StringAt(b, p, end) && Str(b, p, end) == b[p..][..end - p]
  {
    var s := b[p..];
    assert s[|s| - 1] == NUL;
    IndexOfFirst(s, NUL);
    forall i | p <= i < p + IndexOf(s, NUL) ensures b[i] != NUL {
      assert b[i] == s[i - p];
    }
  }

  /** strncmp with "Host: ". */
  method StartsWithHost(a: array<char>, p: nat, ghost end: nat) returns (yes: bool)
    requires StringAt(a[..], p, end)
    ensures yes <==> HOST <= Str(a[..], p, end)
  {
    yes := a[p] == 'H' && a[p + 1] == 'o' && a[p + 2] == 's' && a[p + 3] == 't' && a[p + 4] == ':' && a[p + 5] == ' ';
  }

  function HostSearch(b: seq<char>, p: nat, end: nat): nat
    requires p <= end <= |b|
  {
    var rest := Str(b, p, end);
    if rest != [] && Find(rest[1..], HOST) + 1 < |rest| then p + 1 + Find(rest[1..], HOST) else end + 1
  }

  /** The loop that looks for "Host: ", one character further on each time; it ends behind the NUL if there is none. */
  method FindHost(a: array<char>, p: nat, ghost end: nat) returns (q: nat)
    requires StringAt(a[..], p, end)
    ensures q == HostSearch(a[..], p, end)
  {
    ghost var s := Str(a[..], p, end);
    q := p;
    while a[q] != NUL
      invariant p <= q <= end && forall i :: 1 <= i <= q - p ==> !(HOST <= s[i..])
      decreases end - q
    {
      q := q + 1;
      Tail(a[..], p, q, end);
      var found := StartsWithHost(a, q, end);
      if found {
        FindInTail(s, q - p);
        return;
      }
    }
    FindInTail(s, end - p);
    q := q + 1;
  }

  lemma FindInTail(s: string, k: nat)
    requires k <= |s| && (k < |s| ==> k > 0 && HOST <= s[k..]) && forall i :: 1 <= i < k ==> !(HOST <= s[i..])
    ensures s != [] ==> Find(s[1..], HOST) == k - 1
  {
    if s != [] {
      forall i | 0 <= i < k - 1 ensures !(HOST <= s[1..][i..]) {
        assert s[1..][i..] == s[i + 1..];
      }
      assert k < |s| ==> s[1..][k - 1..] == s[k..];
      FindIs(s[1..], HOST, k - 1);
    }
  }

  // ---- Round trips ----

  lemma FirstWithin(a: string, b: string, c: char)
    requires c in a
    ensures IndexOf(a + b, c) == IndexOf(a, c) && (a + b)[..IndexOf(a, c)] == a[..IndexOf(a, c)]
  {
    IndexOfFirst(a, c);
    IndexOfIs(a + b, c, IndexOf(a, c));
  }

  /** A request line and what follows its '\r'. */
  function PrintLine(verb: string, target: string, protocol: string, rest: string): string {
    verb + ([' '] + (target + ([' '] + (protocol + (['\r'] + rest)))))
  }

  lemma SplitAtFirst(a: string, c: char, b: string)
    requires c !in a
    ensures var s := a + ([c] + b); IndexOf(s, c) == |a| < |s| && s[..|a|] == a && s[|a| + 1..] == b
  {
    IndexOfIs(a + ([c] + b), c, |a|);
  }

  lemma LineOfParts(s: string, s1: string, s2: string, l: RequestLine)
    requires l.RequestLine?
    requires IndexOf(s, ' ') == |l.verb| < |s| && s[..|l.verb|] == l.verb && s[|l.verb| + 1..] == s1
    requires IndexOf(s1, ' ') == |l.target| < |s1| && s1[..|l.target|] == l.target && s1[|l.target| + 1..] == s2
    requires IndexOf(s2, '\r') == |l.protocol| < |s2| && s2[..|l.protocol|] == l.protocol
    requires s2[|l.protocol| + 1..] == l.rest
    ensures LineOf(s) == l
  {
    hide IndexOf;
  }

  lemma LineOfPrinted(verb: string, target: string, protocol: string, rest: string)
    requires ' ' !in verb && ' ' !in target && '\r' !in protocol
    ensures LineOf(PrintLine(verb, target, protocol, rest)) == RequestLine(verb, target, protocol, rest)
  {
    hide LineOf; hide IndexOf;
    var s2 := protocol + (['\r'] + rest);
    var s1 := target + ([' '] + s2);
    SplitAtFirst(verb, ' ', s1);
    SplitAtFirst(target, ' ', s2);
    SplitAtFirst(protocol, '\r', rest);
    LineOfParts(verb + ([' '] + s1), s1, s2, RequestLine(verb, target, protocol, rest));
  }

  lemma SplitBack(s: string, c: char)
    requires IndexOf(s, c) < |s|
    ensures var k := IndexOf(s, c); s == s[..k] + ([c] + s[k + 1..]) && c !in s[..k]
  {
    hide IndexOf;
    IndexOfFirst(s, c);
    var k := IndexOf(s, c);
    assert s[k..] == [c] + s[k + 1..];
    assert s == s[..k] + s[k..];
  }

  /** A text with a request line is that line, printed, and the rest. */
  lemma LineOfInverse(s: string)
    requires LineOf(s).RequestLine?
    ensures var l := LineOf(s);
      s == PrintLine(l.verb, l.target, l.protocol, l.rest) && ' ' !in l.verb && ' ' !in l.target && '\r' !in l.protocol
  {
    hide IndexOf;
    var v := IndexOf(s, ' ');
    SplitBack(s, ' ');
    var s1 := s[v + 1..];
    SplitBack(s1, ' ');
    SplitBack(s1[IndexOf(s1, ' ') + 1..], '\r');
  }

  /** The target a parsed request was made from, but for a '?' with nothing behind it. */
  function Rebuilt(f: Fields): string {
    f.path + if f.query.Some? then ['?'] + f.query.value else []
  }

  lemma WithHostFields(l: RequestLine, host: string, after: string)
    requires l.RequestLine? && '\r' !in host
    ensures var r := WithHost(l, host + (['\r'] + after)); var n := |l.target|;
      && r.Parsed? && r.fields.verb == l.verb && r.fields.protocol == l.protocol && r.fields.host == host
      && Rebuilt(r.fields) == if IndexOf(l.target, '?') + 1 == n then l.target[..n - 1] else l.target
  {
    SplitAtFirst(host, '\r', after);
    var q := IndexOf(l.target, '?');
    IndexOfFirst(l.target, '?');
    if q + 1 < |l.target| {
      assert l.target == l.target[..q] + (['?'] + l.target[q + 1..]);
    }
  }

  /** A request with its request line, header text, a Host header, and anything after that. */
  function Print(verb: string, target: string, protocol: string, before: string, host: string, after: string): string {
    PrintLine(verb, target, protocol, ['\n'] + (before + ("Host: " + (host + (['\r'] + after)))))
  }

  /** A match that ends inside a text is there whatever comes behind it. */
  lemma FindPrefix(s: string, more: string, t: string)
    requires t != [] && Find(s, t) + |t| <= |s| && Find(s, t) < |s|
    ensures Find(s + more, t) == Find(s, t)
  {
    hide Find;
    var k := Find(s, t);
    FindFirst(s, t);
    assert (s + more)[k..][..|t|] == s[k..][..|t|];
    forall i | 0 <= i < k ensures !(t <= (s + more)[i..]) {
      assert (s + more)[i..][..|t|] == s[i..][..|t|];
    }
    FindIs(s + more, t, k);
  }

  /** The text behind the first `t`, up to a '\r', where `before`, `t`, `value` and '\r' stand in a row. */
  function Found(before: string, t: string, value: string): string
    requires t != []
  {
    var text, k := before + (t + (value + ['\r'])), Find(before + t, t) + |t|;
    if k <= |text| then text[k..][..IndexOf(text[k..], '\r')] else []
  }

  /** The text of the first "Host: " of a request, where `before` stands in front of the Host header. */
  function FoundHost(before: string, host: string): string {
    Found(before, "Host: ", host)
  }

  lemma FindEnds(before: string, t: string)
    requires t != []
    ensures Find(before + t, t) <= |before|
  {
    hide Find;
    var s := before + t;
    FindFirst(s, t);
    assert s[|before|..] == t && s[|before|..][..|t|] == t;
  }

  lemma CutAt(v: string, c: char, after: string)
    requires c in v
    ensures var e := IndexOf(v, c); e < |v| && c !in v[..e] && v + after == v[..e] + ([c] + (v[e + 1..] + after))
  {
    hide IndexOf;
    IndexOfFirst(v, c);
    SplitBack(v, c);
    var e := IndexOf(v, c);
    AppendAssoc(v[..e], [c] + v[e + 1..], after);
    AppendAssoc([c], v[e + 1..], after);
  }

  lemma EndsWith(a: string, c: char, k: nat)
    requires k <= |a|
    ensures c in (a + [c])[k..]
  {
    var s := (a + [c])[k..];
    assert s[|s| - 1] == c;
  }

  lemma FoundSplits(before: string, t: string, value: string, after: string)
    requires t != []
    ensures var text, k := before + (t + (value + ['\r'])), Find(before + t, t) + |t|;
      k <= |text| && '\r' !in Found(before, t, value)
      && exists more :: text[k..] + after == Found(before, t, value) + (['\r'] + more)
  {
    hide Find; hide IndexOf;
    FindEnds(before, t);
    var text, k := before + (t + (value + ['\r'])), Find(before + t, t) + |t|;
    AppendAssoc(t, value, ['\r']);
    AppendAssoc(before, t + value, ['\r']);
    EndsWith(before + (t + value), '\r', k);
    CutAt(text[k..], '\r', after);
  }

  /** What the search for the host finds. */
  lemma HostFound(before: string, host: string, after: string)
    ensures var value := HostValue(['\n'] + (before + (HOST + (host + (['\r'] + after)))));
      value.Some? && exists more :: value.value == FoundHost(before, host) + (['\r'] + more)
    ensures '\r' !in FoundHost(before, host)
  {
    hide Find; hide IndexOf; hide Found;
    FindEnds(before, HOST);
    FoundSplits(before, HOST, host, after);
    FoundIn(before, HOST, host, after, Find(before + HOST, HOST));
  }

  lemma FoundIn(before: string, t: string, host: string, after: string, k: nat)
    requires t != [] && k == Find(before + t, t) && k <= |before|
    ensures var rest, text := ['\n'] + (before + (t + (host + (['\r'] + after)))), before + (t + (host + ['\r']));
      Find(rest[1..], t) == k && k + |t| <= |text| && rest[1..][k + |t|..] == text[k + |t|..] + after
  {
    hide Find;
    var text := before + (t + (host + ['\r']));
    var all := before + (t + (host + (['\r'] + after)));
    AppendAssoc(host, ['\r'], after);
    AppendAssoc(t, host + ['\r'], after);
    AppendAssoc(before, t + (host + ['\r']), after);
    assert all == text + after;
    Behind(['\n'], all);
    AppendAssoc(before, t, host + ['\r']);
    AppendAssoc(before + t, host + ['\r'], after);
    FindPrefix(before + t, (host + ['\r']) + after, t);
  }

  lemma OwnFound(before: string, t: string, value: string)
    requires '\r' !in value && t != [] && Find(before + t, t) == |before|
    ensures Found(before, t, value) == value
  {
    hide Find; hide IndexOf;
    AppendAssoc(before, t, value + ['\r']);
    Behind(before + t, value + ['\r']);
    SplitAtFirst(value, '\r', []);
    AppendNone(['\r']);
  }

  /** "Host: " does not overlap itself. */
  lemma NoOverlap(before: string)
    ensures var k := Find(before + HOST, HOST); k == |before| || k + |HOST| <= |before|
  {
    hide Find;
    var s, k := before + HOST, Find(before + HOST, HOST);
    FindEnds(before, HOST);
    FindFirst(s, HOST);
    assert k < |s| && |s[k..]| >= |HOST|;
    forall i | k < i < k + 6 ensures s[i] != 'H' {
      assert s[i] == s[k..][i - k] == HOST[i - k];
    }
    assert s[|before|] == HOST[0];
  }

  lemma FoundInside(b: string, c: char, behind: string)
    requires c in b
    ensures (b + behind)[..IndexOf(b + behind, c)] == b[..IndexOf(b, c)]
  {
    FirstWithin(b, behind, c);
  }

  lemma FoundBehind(b: string, more: string, c: char)
    requires c !in b && c !in more
    ensures (b + (more + [c]))[..IndexOf(b + (more + [c]), c)] == b + more
  {
    hide IndexOf;
    AppendAssoc(b, more, [c]);
    AppendNone([c]);
    SplitAtFirst(b + more, c, []);
  }

  lemma FoundInFront(before: string, t: string, value: string, n: nat)
    requires t != [] && n == Find(before + t, t) + |t| <= |before| && '\r' !in value && '\r' !in t
    ensures Found(before, t, value) == value <==> HasValue(before[n..], value)
  {
    hide Find; hide IndexOf;
    var b, more := before[n..], t + value;
    AppendAssoc(t, value, ['\r']);
    BehindPart(before, more + ['\r'], n);
    IndexOfFirst(b, '\r');
    if '\r' in b { FoundInside(b, '\r', more + ['\r']); } else { FoundBehind(b, more, '\r'); }
  }

  lemma FoundFirst(before: string, t: string, value: string)
    requires '\r' !in value && '\r' !in t && t != []
    requires var k := Find(before + t, t); k == |before| || k + |t| <= |before|
    ensures var k := Find(before + t, t);
      Found(before, t, value) == value <==> k == |before| || HasValue(before[k + |t|..], value)
  {
    hide Find; hide Found; hide HasValue;
    var k := Find(before + t, t);
    assert k != |before| ==> (Found(before, t, value) == value <==> HasValue(before[k + |t|..], value)) by {
      if k != |before| { FoundInFront(before, t, value, k + |t|); }
    }
    if k == |before| { OwnFound(before, t, value); }
  }

  /** In terms of what stands in front of the Host header: its value is found exactly when no "Host: " stands there, or
      the first one is followed, before the next '\r' there, by the same value. */
  lemma FoundExactly(before: string, host: string)
    requires '\r' !in host
    ensures var k := Find(before + HOST, HOST);
      && (k == |before| || k + |HOST| <= |before|)
      && (FoundHost(before, host) == host <==> k == |before| || HasValue(before[k + |HOST|..], host))
  {
    NoOverlap(before);
    hide Find; hide Found; hide HasValue;
    FoundFirst(before, HOST, host);
  }

  /** Two spaces, and a '\r' behind them. */
  ghost predicate LineAt(s: string, v: nat, t: nat, r: nat) {
    v < t < r < |s| && s[v] == ' ' && s[t] == ' ' && s[r] == '\r'
  }

  lemma FirstBehind(s: string, c: char, from: nat, k: nat)
    requires from <= k < |s| && s[k] == c
    ensures from + IndexOf(s[from..], c) <= k && IndexOf(s[from..], c) < |s| - from
    ensures s[from + IndexOf(s[from..], c)] == c
  {
    IndexOfFirst(s[from..], c);
    assert s[from..][k - from] == c;
  }

  /** Where the parts of a request line are: no later than anything that looks like one. */
  lemma LineFound(s: string, v: nat, t: nat, r: nat)
    requires LineAt(s, v, t, r)
    ensures LineOf(s).RequestLine? && |s| - |LineOf(s).rest| - 1 <= r
  {
    hide IndexOf;
    assert s[0..] == s;
    FirstBehind(s, ' ', 0, v);
    var v' := IndexOf(s, ' ');
    FirstBehind(s, ' ', v' + 1, t);
    var t' := v' + 1 + IndexOf(s[v' + 1..], ' ');
    assert s[v' + 1..][t' - v'..] == s[t' + 1..];
    FirstBehind(s, '\r', t' + 1, r);
  }

  lemma LineIsAt(s: string) returns (v: nat, t: nat, r: nat)
    requires LineOf(s).RequestLine?
    ensures LineAt(s, v, t, r) && LineOf(s).rest == s[r + 1..]
  {
    hide LineOf;
    LineOfInverse(s);
    var l := LineOf(s);
    var s2 := l.protocol + (['\r'] + l.rest);
    var s1 := l.target + ([' '] + s2);
    assert s == l.verb + ([' '] + s1);
    v := |l.verb|;
    t := v + 1 + |l.target|;
    r := t + 1 + |l.protocol|;
    CharBehind(l.verb, ' ', s1);
    CharBehind(l.target, ' ', s2);
    CharBehind(l.protocol, '\r', l.rest);
    assert s[t] == s1[|l.target|] && s[r] == s2[|l.protocol|];
    TailOfTail(s, v + 1, |l.target| + 1);
    TailOfTail(s, t + 1, |l.protocol| + 1);
  }

  lemma CharBehind(a: string, c: char, b: string)
    ensures var s := a + ([c] + b); s[|a|] == c && s[|a| + 1..] == b
  {
  }

  lemma TailOfTail(s: string, m: nat, n: nat)
    requires m + n <= |s|
    ensures s[m..][n..] == s[m + n..]
  {
  }

  /** A "Host: ", and a '\r' behind it. */
  ghost predicate HostAt(s: string, h: nat, e: nat) {
    h + 6 <= e < |s| && s[h..h + 6] == "Host: " && s[e] == '\r'
  }

  lemma HostIsFound(s: string, from: nat, h: nat, e: nat)
    requires from <= h && HostAt(s, h, e)
    ensures ValueIn(s[from..]).Some? && '\r' in ValueIn(s[from..]).value
  {
    hide Find;
    var u := s[from..];
    assert u[h - from..][..6] == s[h..h + 6];
    var k := Find(u, HOST);
    FindFirst(u, HOST);
    assert k <= h - from;
    assert |u[k..]| >= 6;
    assert u[k + 6..][e - from - k - 6] == s[e];
  }

  lemma HostIsAt(s: string, from: nat) returns (h: nat, e: nat)
    requires from <= |s| && ValueIn(s[from..]).Some? && '\r' in ValueIn(s[from..]).value
    ensures from <= h && HostAt(s, h, e)
  {
    hide Find;
    var u := s[from..];
    var k := Find(u, HOST);
    FindFirst(u, HOST);
    h := from + k;
    assert s[h..h + 6] == u[k..][..6];
    var j :| 0 <= j < |u[k + 6..]| && u[k + 6..][j] == '\r';
    e := h + 6 + j;
  }

  lemma Parses(s: string, v: nat, t: nat, r: nat, h: nat, e: nat)
    requires LineAt(s, v, t, r) && HostAt(s, h, e) && r + 2 <= h
    ensures ParseText(s).Parsed?
  {
    hide Find; hide ValueIn; hide IndexOf; hide LineOf;
    LineFound(s, v, t, r);
    var _, _, r' := LineIsAt(s);
    assert LineOf(s).rest[1..] == s[r' + 2..];
    HostIsFound(s, r' + 2, h, e);
    IndexOfFirst(ValueIn(s[r' + 2..]).value, '\r');
    SpaceIsMissing(s);
  }

  lemma SpaceIsMissing(s: string)
    ensures LineOf(s).NoSpace? <==> ' ' !in s
  {
    IndexOfFirst(s, ' ');
  }

  lemma PartsOfParsed(s: string) returns (v: nat, t: nat, r: nat, h: nat, e: nat)
    requires ParseText(s).Parsed?
    ensures LineAt(s, v, t, r) && HostAt(s, h, e) && r + 2 <= h
  {
    hide Find; hide ValueIn; hide IndexOf; hide LineOf;
    v, t, r := LineIsAt(s);
    assert LineOf(s).rest[1..] == s[r + 2..];
    IndexOfFirst(ValueIn(s[r + 2..]).value, '\r');
    h, e := HostIsAt(s, r + 2);
  }

  /** Exactly the texts with two spaces, a '\r' behind them, a "Host: " at least one further character behind that, and
      another '\r' can be parsed; without a space a text is bad data, and any other one ends in a fault. */
  lemma ParsedExactly(s: string)
    ensures ParseText(s).Parsed? <==> exists v, t, r, h, e :: LineAt(s, v, t, r) && HostAt(s, h, e) && r + 2 <= h
    ensures ParseText(s).BadData? <==> ' ' !in s
    ensures ParseText(s).Parsed? || ParseText(s).BadData? || ParseText(s).Crash?
  {
    if v, t, r, h, e :| LineAt(s, v, t, r) && HostAt(s, h, e) && r + 2 <= h {
      Parses(s, v, t, r, h, e);
    }
    if ParseText(s).Parsed? {
      var v, t, r, h, e := PartsOfParsed(s);
    }
    SpaceIsMissing(s);
    hide HostValue; hide LineOf;
  }

  /** What the size and the text of a request lead to; text of 4096 characters or more is refused. */
  lemma OutcomeOfRequest(s: string)
    requires NUL !in s
    ensures var o := ProcessBuffer(Filled(s), if |s| < 4096 then |s| else 4096);
      && (o.TooLarge? <==> |s| >= 4096) && (o.NoData? <==> s == [])
      && (s != [] && |s| < 4096 ==> o == ParseText(s))
  {
    if s != [] && |s| < 4096 {
      BufferHoldsText(s);
      ParsedExactly(s);
    }
    hide ParseBuffer; hide ParseText;
  }

  /** The text up to a '\r' is this value. */
  predicate HasValue(b: string, value: string) {
    IndexOf(b, '\r') < |b| && b[..IndexOf(b, '\r')] == value
  }

  /** Parsing any printed request gives back its verb and protocol, its target but for a bare '?', and as its host the
      text of its first "Host: ", wherever that stands. So the Host header's value comes back exactly when there is no
      "Host: " in front of it, or the first one there has the same value. */
  lemma RequestRoundTrip(verb: string, target: string, protocol: string, before: string, host: string, after: string)
    requires ' ' !in verb && ' ' !in target && '\r' !in protocol && '\r' !in host
    ensures var r := ParseText(Print(verb, target, protocol, before, host, after)); var n := |target|;
      && r.Parsed? && r.fields.verb == verb && r.fields.protocol == protocol && r.fields.host == FoundHost(before, host)
      && Rebuilt(r.fields) == (if IndexOf(target, '?') + 1 == n then target[..n - 1] else target)
      && var k := Find(before + "Host: ", "Host: ");
         && (k == |before| || k + 6 <= |before|)
         && (r.fields.host == host <==> k == |before| || HasValue(before[k + 6..], host))
  {
    hide LineOf; hide HostValue; hide WithHost; hide Find; hide IndexOf; hide Found; hide Rebuilt;
    var rest := ['\n'] + (before + (HOST + (host + (['\r'] + after))));
    LineOfPrinted(verb, target, protocol, rest);
    HostFound(before, host, after);
    var found := FoundHost(before, host);
    var more :| HostValue(rest).value == found + (['\r'] + more);
    WithHostFields(RequestLine(verb, target, protocol, rest), found, more);
    FoundExactly(before, host);
  }

  const FORWARDED: string := "X-Forwarded-"

  lemma NoHostInForwarded()
    ensures Find(FORWARDED + HOST, HOST) == |FORWARDED|
  {
    var s := FORWARDED + HOST;
    assert s[|FORWARDED|..] == HOST;
    forall i | 0 <= i < |FORWARDED| ensures !(HOST <= s[i..]) {
      assert s[i..][0] == FORWARDED[i];
    }
    FindIs(s, HOST, |FORWARDED|);
  }

  /** The search is not tied to the start of a line: an X-Forwarded-Host header in front is taken for the
      Host header. */
  lemma ForwardedHostIsTaken(other: string, more: string, host: string)
    requires '\r' !in other
    ensures FoundHost("X-Forwarded-" + ("Host: " + (other + (['\r'] + more))), host) == other
  {
    hide IndexOf;
    var before := FORWARDED + (HOST + (other + (['\r'] + more)));
    var text := before + (HOST + (host + ['\r']));
    NoHostInForwarded();
    AppendAssoc(FORWARDED, HOST, other + (['\r'] + more));
    AppendAssoc(FORWARDED + HOST, other + (['\r'] + more), HOST);
    FindPrefix(FORWARDED + HOST, other + (['\r'] + more) + HOST, HOST);
    ForwardedValue(other, more, HOST + (host + ['\r']));
  }

  lemma ForwardedValue(other: string, more: string, tail: string)
    requires '\r' !in other
    ensures var text := FORWARDED + (HOST + (other + (['\r'] + more))) + tail; var k := |FORWARDED|;
      k + 6 <= |text| && text[k + 6..][..IndexOf(text[k + 6..], '\r')] == other
  {
    hide IndexOf;
    var k := |FORWARDED|;
    var text := FORWARDED + (HOST + (other + (['\r'] + more))) + tail;
    assert text[k + 6..] == other + (['\r'] + (more + tail));
    SplitAtFirst(other, '\r', more + tail);
  }

  /** The buffer after a request has been received: what fits of it, and NULs. */
  function Filled(s: string): (b: seq<char>)
    ensures |b| == BUFF_SIZE
  {
    if |s| >= BUFF_SIZE then s[..BUFF_SIZE] else s + seq(BUFF_SIZE - |s|, _ => NUL)
  }

  /** A request of fewer than 4096 characters, none of them NUL, is parsed as its text. */
  lemma BufferHoldsText(s: string)
    requires s != [] && |s| < 4096 && NUL !in s
    ensures ProcessBuffer(Filled(s), |s|) == ParseText(s)
  {
    hide LineOf; hide WithHost; hide HostValue;
    var b, end := Filled(s), |s|;
    IndexOfIs(b, NUL, end);
    assert Str(b, 0, end) == s;
    if end + 7 < |b| {
      assert b[end + 7] == NUL;
      IndexOfIs(b[end + 7..], NUL, 0);
      assert b[end + 7..][..0] == [];
      var l := LineOf(s);
      if l.RequestLine? { NoHostThere(l); }
    }
  }

  lemma NoHostThere(l: RequestLine)
    requires l.RequestLine?
    ensures WithHost(l, []) == Crash
  {
  }
}
