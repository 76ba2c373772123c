/** The reverse proxy (handleProxyPass.c): the request goes on with one more header line, the response comes back. */
module ProxyPass {
  import opened Options
  import opened Sequences
  import opened Text
  import opened HttpRequest

  const BLANK: string := "\r\n\r\n"
  const NEWLINE: string := "\r\n"

  // ---- Sending and receiving ----

  /** A stream socket. `chunks` is what the kernel decides: how much of the data one send takes. */
  class Socket {
    var sent: string
    var calls: nat
    const chunks: nat -> nat

    constructor (chunks: nat -> nat)
      ensures sent == []
    {
      this.chunks, sent, calls := chunks, [], 0;
    }

    /** send(): takes at least one character and at most all of them. */
    method Send(data: string) returns (n: nat)
      requires data != []
      modifies this
      ensures 1 <= n <= |data| && sent == old(sent) + data[..n]
    {
      n := if chunks(calls) < |data| then chunks(calls) + 1 else |data|;
      sent, calls := sent + data[..n], calls + 1;
    }

    /** The loop of sendData. */
    method SendData(data: string)
      modifies this
      ensures sent == old(sent) + data
    {
      var left := data;
      while left != []
        invariant |left| <= |data| && left == data[|data| - |left|..]
        invariant sent == old(sent) + data[..|data| - |left|]
        decreases |left|
      {
        var n := Send(left);
        ghost var k := |data| - |left|;
        assert data[..k] + left[..n] == data[..k + n];
        left := left[n..];
      }
    }
  }

  // ---- The request ----

  function XForwardedFor(ip: string): string {
    "X-Forwarded-For: " + ip
  }

  /** Where the header section ends; |s| if there is no blank line. */
  function BlankAt(s: string): (k: nat)
    ensures k <= |s|
  {
    Find(s, BLANK)
  }

  /** The header line a hop inserts. */
  function Inserted(ip: string): (line: string)
    ensures |line| >= 2 && line[0] == 'X'
  {
    XForwardedFor(ip) + NEWLINE
  }

  /** What a request becomes on its way through one proxy. */
  function Hop(s: string, ip: string): string {
    var i := BlankAt(s);
    if i == |s| then s
    else
      BlankIsThere(s);
      s[..i + 2] + Inserted(ip) + s[i + 2..]
  }

  /** inet_ntop's text for an IPv4 address has only these characters. */
  predicate Dotted(ip: string) {
    forall c :: c in ip ==> '0' <= c <= '9' || c == '.'
  }

  /** strstr. */
  method Strstr(a: array<char>, p: nat, ghost end: nat, t: string) returns (q: Option<nat>)
    requires StringAt(a[..], p, end) && t != [] && NUL !in t
    ensures var k := Find(Str(a[..], p, end), t); q == if p + k < end then Some(p + k) else None
  {
    ghost var s := Str(a[..], p, end);
    q := None;
    var i := p;
    while a[i] != NUL
      invariant p <= i <= end && forall j :: 0 <= j < i - p ==> !(t <= s[j..])
      decreases end - i
    {
      var here := StartsWith(a, i, end, t);
      Tail(a[..], p, i, end);
      if here {
        FindIs(s, t, i - p);
        return Some(i);
      }
      i := i + 1;
    }
    FindIs(s, t, end - p);
  }

  method StartsWith(a: array<char>, p: nat, ghost end: nat, t: string) returns (yes: bool)
    requires StringAt(a[..], p, end) && NUL !in t
    ensures yes <==> t <= Str(a[..], p, end)
  {
    var i := 0;
    while i < |t|
      invariant 0 <= i <= |t| && p + i <= end && t[..i] == Str(a[..], p, p + i)
    {
      if a[p + i] != t[i] {
        assert t[i] in t;
        return false;
      }
      i := i + 1;
    }
    return true;
  }

  /** handleProxyPass, towards the upstream server. */
  method ForwardRequest(headers: array<char>, ghost end: nat, ip: string, upstream: Socket)
    requires StringAt(headers[..], 0, end)
    modifies headers, upstream
    ensures upstream.sent == old(upstream.sent) + Hop(Str(old(headers[..]), 0, end), ip)
  {
    hide Str; hide SameButFor; hide Find; hide Hop; hide StringAt;
    InBuffer(headers[..], 0, end);
    ghost var s := Str(headers[..], 0, end);
    var r := Strstr(headers, 0, end, BLANK);
    if r == None {
      HopUnchanged(s, ip);
      var all := CopyString(headers, 0, end);
      upstream.SendData(all);
      return;
    }
    var i := r.value;
    BlankIsThere(s);
    HopParts(s, ip);
    Cut(headers, 0, i + 2, end);
    TailString(headers[..], i + 3, i + 4, end);
    assert s[i + 3..][1..] == s[i + 4..];
    var head := CopyString(headers, 0, i + 2);
    upstream.SendData(head);
    upstream.SendData(XForwardedFor(ip) + BLANK);
    var body := CopyString(headers, i + 4, end);
    if |body| != 0 {
      upstream.SendData(body);
    }
  }

  lemma TailString(b: seq<char>, p: nat, q: nat, end: nat)
    requires StringAt(b, p, end) && p <= q <= end
    ensures StringAt(b, q, end) && Str(b, q, end) == Str(b, p, end)[q - p..]
  {
  }

  lemma HopParts(s: string, ip: string)
    requires BlankAt(s) < |s|
    ensures var i := BlankAt(s); i + 4 <= |s| && Hop(s, ip) == s[..i + 2] + (XForwardedFor(ip) + BLANK) + s[i + 4..]
  {
    BlankIsThere(s);
    var i := BlankAt(s);
    assert s[i..i + 4][2..] == s[i + 2..i + 4];
    assert s[i + 2..] == s[i + 2..i + 4] + s[i + 4..];
    assert BLANK == NEWLINE + s[i + 2..i + 4];
    AppendAssoc(XForwardedFor(ip), NEWLINE, s[i + 2..i + 4]);
  }

  lemma HopUnchanged(s: string, ip: string)
    requires BlankAt(s) == |s|
    ensures Hop(s, ip) == s
  {
  }

  lemma BlankIsThere(s: string)
    requires Find(s, BLANK) < |s|
    ensures var i := Find(s, BLANK); i + 4 <= |s| && s[i..i + 4] == BLANK
  {
    hide Find;
    FindFirst(s, BLANK);
    var i := Find(s, BLANK);
    assert |s[i..]| >= 4 && s[i..][..4] == s[i..i + 4];
  }

  // ---- The response ----

  /** The status code is what stands between the first two spaces of the first piece. */
  predicate HasStatus(piece: string) {
    var t := piece[..IndexOf(piece, NUL)];
    var v := IndexOf(t, ' ');
    v < |t| && IndexOf(t[v + 1..], ' ') < |t| - v - 1
  }

  lemma BeforeNul(s: string, j: nat)
    requires j <= |s|
    ensures '\0' !in s[..j] <==> j <= IndexOf(s, '\0')
  {
    var z := IndexOf(s, '\0');
    IndexOfFirst(s, '\0');
    if z < j { assert s[..j][z] == '\0'; }
  }

  /** So a piece has a status exactly when two spaces come before its first NUL. */
  lemma StatusExactly(piece: string)
    ensures HasStatus(piece) <==>
            exists i, j :: 0 <= i < j < |piece| && piece[i] == ' ' && piece[j] == ' ' && '\0' !in piece[..j]
  {
    hide IndexOf;
    var z := IndexOf(piece, '\0');
    var t := piece[..z];
    var v := IndexOf(t, ' ');
    IndexOfFirst(t, ' ');
    if HasStatus(piece) {
      var w := IndexOf(t[v + 1..], ' ');
      IndexOfFirst(t[v + 1..], ' ');
      assert t[v + 1..][w] == piece[v + 1 + w];
      BeforeNul(piece, v + 1 + w);
    }
    if i, j :| 0 <= i < j < |piece| && piece[i] == ' ' && piece[j] == ' ' && '\0' !in piece[..j] {
      BeforeNul(piece, j);
      IndexOfFirst(piece, '\0');
      SecondIsBehind(t, v, i, j);
      IndexOfFirst(t[v + 1..], ' ');
    }
  }

  lemma SecondIsBehind(t: string, v: nat, i: nat, j: nat)
    requires i < j < |t| && t[i] == ' ' && t[j] == ' '
    requires v <= |t| && forall k :: 0 <= k < v ==> t[k] != ' '
    ensures v < |t| && ' ' in t[v + 1..]
  {
    assert t[v + 1..][j - v - 1] == ' ';
  }

  function Concat(pieces: seq<string>): string {
    if pieces == [] then [] else pieces[0] + Concat(pieces[1..])
  }

  /** The pieces up to the first one that does not fill the buffer. */
  function Relayed(pieces: seq<string>): seq<string> {
    if pieces == [] then [] else [pieces[0]] + if |pieces[0]| == BUFF_SIZE then Relayed(pieces[1..]) else []
  }

  /** What the client is sent of a response; without a status, only its first piece. */
  function SentBack(pieces: seq<string>): string {
    if pieces != [] && !HasStatus(pieces[0]) then pieces[0] else Concat(Relayed(pieces))
  }

  /** The do-while loop of handleProxyPass. `pieces` are the results of successive calls of recvData; after them it
      returns nothing. None is a write through a null pointer, for a response without a status. */
  method RelayResponse(pieces: seq<string>, client: Socket) returns (size: Option<nat>)
    requires forall i :: 0 <= i < |pieces| ==> 1 <= |pieces[i]| <= BUFF_SIZE
    modifies client
    ensures size.None? <==> pieces != [] && !HasStatus(pieces[0])
    ensures client.sent == old(client.sent) + SentBack(pieces)
    ensures size.Some? ==> size.value == |SentBack(pieces)|
  {
    hide HasStatus; hide Relayed; hide Concat;
    var i, bytes, total := 0, BUFF_SIZE, 0;
    assert pieces[0..] == pieces;
    ghost var done: string := [];
    while bytes == BUFF_SIZE
      invariant 0 <= i <= |pieces| && client.sent == old(client.sent) + done && total == |done|
      invariant Concat(Relayed(pieces)) == done + if bytes == BUFF_SIZE then Concat(Relayed(pieces[i..])) else []
      invariant if i > 0 then HasStatus(pieces[0]) else bytes == BUFF_SIZE
      decreases |pieces| - i, bytes
    {
      if i == |pieces| {
        RelayedNone();
        assert pieces[i..] == [];
        break;
      }
      bytes := |pieces[i]|;
      RelayedNext(pieces, i, done);
      client.SendData(pieces[i]);
      done, total := done + pieces[i], total + bytes;
      if i == 0 && !HasStatus(pieces[0]) {
        return None;
      }
      i := i + 1;
    }
    assert done + [] == done;
    size := Some(total);
  }

  lemma RelayedNext(pieces: seq<string>, i: nat, done: string)
    requires i < |pieces|
    ensures done + Concat(Relayed(pieces[i..]))
         == done + pieces[i] + if |pieces[i]| == BUFF_SIZE then Concat(Relayed(pieces[i + 1..])) else []
  {
    assert pieces[i..][1..] == pieces[i + 1..];
    assert Relayed(pieces[i..])[1..] == if |pieces[i]| == BUFF_SIZE then Relayed(pieces[i + 1..]) else [];
  }

  lemma RelayedNone()
    ensures Concat(Relayed([])) == []
  {
  }

  lemma {:induction false} AllRelayed(pieces: seq<string>)
    requires forall i :: 0 <= i < |pieces| ==> 1 <= |pieces[i]| <= BUFF_SIZE
    ensures Concat(Relayed(pieces)) == Concat(pieces)
        <==> forall i :: 0 <= i < |pieces| - 1 ==> |pieces[i]| == BUFF_SIZE
  {
    if |pieces| > 1 {
      var rest := pieces[1..];
      AllRelayed(rest);
      assert forall i :: 0 <= i < |rest| - 1 ==> rest[i] == pieces[i + 1];
      if |pieces[0]| == BUFF_SIZE {
        SamePrefix(pieces[0], Concat(Relayed(rest)), Concat(rest));
        assert forall i :: 1 <= i < |pieces| - 1 ==> pieces[i] == rest[i - 1];
      } else {
        assert |Concat(rest)| >= |rest[0]| >= 1;
        assert Concat(Relayed(pieces)) == pieces[0];
      }
    }
  }

  /** The client gets the whole response exactly when every piece but the last fills the buffer, and the first one, if
      it is not the only one, has a status. */
  lemma WholeResponseRelayed(pieces: seq<string>)
    requires forall i :: 0 <= i < |pieces| ==> 1 <= |pieces[i]| <= 4096
    ensures SentBack(pieces) == Concat(pieces) <==>
            && (forall i :: 0 <= i < |pieces| - 1 ==> |pieces[i]| == 4096)
            && (|pieces| <= 1 || HasStatus(pieces[0]))
  {
    hide HasStatus;
    AllRelayed(pieces);
    if |pieces| > 1 {
      assert |Concat(pieces[1..])| >= |pieces[1..][0]| >= 1;
    }
  }

  lemma SamePrefix(a: string, b: string, c: string)
    ensures a + b == a + c <==> b == c
  {
    assert (a + b)[|a|..] == b && (a + c)[|a|..] == c;
  }

  // ---- What a hop keeps ----

  lemma PrefixBroken(x: string, y: string, t: string)
    requires x != [] && x[|x| - 1] !in t
    ensures t <= x + y <==> t <= x
  {
    if |t| < |x| {
      assert (x + y)[..|t|] == x[..|t|];
    } else {
      assert t[|x| - 1] in t && (x + y)[|x| - 1] == x[|x| - 1];
    }
  }

  /** A match cannot lie across a character that is not in it. */
  lemma {:induction false} FindBroken(x: string, y: string, t: string)
    requires t != [] && (x == [] || x[|x| - 1] !in t)
    ensures Find(x + y, t) == if Find(x, t) < |x| then Find(x, t) else |x| + Find(y, t)
  {
    if x == [] {
      assert x + y == y;
    } else {
      assert (x + y)[1..] == x[1..] + y;
      PrefixBroken(x, y, t);
      FindBroken(x[1..], y, t);
    }
  }

  /** Text without a character of `t` has no match. */
  lemma {:induction false} FindNone(x: string, t: string)
    requires t != [] && t[0] !in x
    ensures Find(x, t) == |x|
  {
    if x != [] {
      FindNone(x[1..], t);
    }
  }

  lemma InsertedChars(ip: string)
    requires Dotted(ip)
    ensures var line := Inserted(ip);
      line[|line| - 1] == '\n' && 'H' !in line && ' ' in line && '\r' !in XForwardedFor(ip)
          && XForwardedFor(ip)[0] == 'X'
  {
    assert XForwardedFor(ip)[16] == ' ' && Inserted(ip)[16] == ' ';
  }

  lemma HopIs(s: string, ip: string)
    requires BlankAt(s) < |s|
    ensures var i := BlankAt(s); i + 4 <= |s| && Hop(s, ip) == s[..i + 2] + Inserted(ip) + s[i + 2..]
  {
    BlankIsThere(s);
  }

  /** A text without a line end, made a line and inserted at the end of the header section, moves the blank line. */
  lemma BlankMoves(s: string, i: nat, x: string)
    requires i == Find(s, BLANK) < |s| && x != [] && x[0] == 'X' && '\r' !in x && i + 4 <= |s|
    ensures var h := s[..i + 2] + (x + NEWLINE) + s[i + 2..];
      Find(h, BLANK) == i + |x| + 2 < |h|
  {
    hide Find;
    BlankIsThere(s);
    FindFirst(s, BLANK);
    var h, k := s[..i + 2] + (x + NEWLINE) + s[i + 2..], i + |x| + 2;
    var behind := NEWLINE + s[i + 2..];
    assert h == (s[..i + 2] + x) + behind;
    Behind(s[..i + 2] + x, behind);
    assert s[i + 2..][..2] == s[i..i + 4][2..];
    assert BLANK == behind[..4];
    assert s[i] == s[i..i + 4][0] && s[i + 1] == s[i..i + 4][1];
    forall j | 0 <= j < k ensures !(BLANK <= h[j..]) {
      NoBlankBefore(s, h, i, x, j);
    }
    FindIs(h, BLANK, k);
  }

  /** The blank line moves behind the inserted line. */
  lemma HopBlank(s: string, ip: string)
    requires BlankAt(s) < |s| && Dotted(ip)
    ensures var i := BlankAt(s);
      && i + 4 <= |s| && Hop(s, ip) == s[..i + 2] + Inserted(ip) + s[i + 2..]
      && BlankAt(Hop(s, ip)) == i + |Inserted(ip)| < |Hop(s, ip)|
  {
    hide Find; hide Hop;
    HopIs(s, ip);
    InsertedChars(ip);
    BlankMoves(s, BlankAt(s), XForwardedFor(ip));
  }

  lemma NoBlankBefore(s: string, h: string, i: nat, x: string, j: nat)
    requires i + 4 <= |s| && i + 4 + |x| <= |h| && h[..i + 2] == s[..i + 2] && h[i + 2..i + 2 + |x|] == x
    requires x != [] && x[0] == 'X' && '\r' !in x && j < i + 2 + |x|
    requires forall m :: 0 <= m < i ==> !(BLANK <= s[m..])
    requires s[i] == '\r' && s[i + 1] == '\n'
    ensures !(BLANK <= h[j..])
  {
    if j >= i + 2 {
      assert h[j] == h[i + 2..i + 2 + |x|][j - (i + 2)];
      CharDiffers(h, j, 0);
    } else if j + 4 <= i + 2 {
      assert h[j..][..4] == h[..i + 2][j..j + 4] && s[j..][..4] == s[..i + 2][j..j + 4];
    } else {
      assert h[i + 2] == h[i + 2..i + 2 + |x|][0];
      CharDiffers(h, j, i + 2 - j);
    }
  }

  lemma CharDiffers(h: string, j: nat, d: nat)
    requires d < 4 && j + d < |h| && h[j + d] != BLANK[d]
    ensures !(BLANK <= h[j..])
  {
    assert h[j..][d] == h[j + d];
  }

  // ---- Re-parsing ----

  /** Where the request line's second space is. */
  function SecondSpace(s: string): (k: nat)
  {
    var v := IndexOf(s, ' ');
    if v == |s| then |s| else v + 1 + IndexOf(s[v + 1..], ' ')
  }

  lemma FindSplit(x: string, line: string, y: string)
    requires (x == [] || x[|x| - 1] == '\n') && line != [] && line[|line| - 1] == '\n' && 'H' !in line
    ensures var k := Find(x, HOST);
      && Find(x + y, HOST) == (if k < |x| then k else |x| + Find(y, HOST))
      && Find(x + line + y, HOST) == (if k < |x| then k else |x| + |line| + Find(y, HOST))
  {
    FindBroken(x, y, HOST);
    assert x + line + y == x + (line + y);
    FindBroken(x, line + y, HOST);
    FindBroken(line, y, HOST);
    FindNone(line, HOST);
  }

  /** The host's text ends before the place where a line is inserted, or starts behind it. */
  lemma ValueSplit(x: string, y: string, z: string, l: RequestLine)
    requires l.RequestLine? && Find(x, HOST) < |x| && |x| >= 2 && x[|x| - 2] == '\r' && x[|x| - 1] == '\n'
    ensures var k := Find(x, HOST); k + 6 <= |x| && WithHost(l, (x + y)[k + 6..]) == WithHost(l, (x + z)[k + 6..])
  {
    hide Find; hide WithHost;
    var k := Find(x, HOST);
    FindFirst(x, HOST);
    MatchChars(x, k);
    HasLineEnd(x, k + 6);
    BehindPart(x, y, k + 6);
    BehindPart(x, z, k + 6);
    SameValue(l, x[k + 6..], y, z);
  }

  lemma HasLineEnd(x: string, n: nat)
    requires |x| >= 2 && x[|x| - 2] == '\r' && n <= |x| - 2
    ensures '\r' in x[n..]
  {
    assert x[n..][|x| - 2 - n] == '\r';
  }

  lemma SameValue(l: RequestLine, v: string, y: string, z: string)
    requires l.RequestLine? && '\r' in v
    ensures WithHost(l, v + y) == WithHost(l, v + z)
  {
    FirstWithin(v, y, '\r');
    FirstWithin(v, z, '\r');
    IndexOfFirst(v, '\r');
  }

  lemma MatchChars(x: string, k: nat)
    requires k <= |x| && HOST <= x[k..]
    ensures k + 6 <= |x| && forall m :: k <= m < k + 6 ==> x[m] in HOST
  {
    assert |x[k..]| >= 6;
    forall m | k <= m < k + 6 ensures x[m] in HOST {
      assert x[m] == x[k..][m - k] == HOST[m - k];
    }
  }

  lemma Beyond(x: string, y: string, d: nat)
    requires d <= |y|
    ensures (x + y)[|x| + d..] == y[d..]
  {
  }

  /** The outcome for a request line and what is searched for the host. */
  function Finish(l: RequestLine, u: string): Outcome
    requires l.RequestLine?
  {
    if ValueIn(u).None? then Crash else WithHost(l, ValueIn(u).value)
  }

  /** Inserting a line at the start or behind a line end does not change the outcome. */
  lemma InsertKeepsHost(l: RequestLine, x: string, line: string, y: string)
    requires l.RequestLine? && LineEnds(x) && line != [] && line[|line| - 1] == '\n' && 'H' !in line
    ensures Finish(l, x + line + y) == Finish(l, x + y)
  {
    hide Find; hide WithHost;
    FindSplit(x, line, y);
    var k, m := Find(x, HOST), Find(y, HOST);
    if k < |x| {
      FindFirst(x, HOST);
      MatchChars(x, k);
      ValueSplit(x, y, line + y, l);
      AppendAssoc(x, line, y);
    } else if m + 6 <= |y| {
      Beyond(x, y, m + 6);
      Beyond(x + line, y, m + 6);
    }
  }

  /** Empty, or ending a line. */
  predicate LineEnds(x: string) {
    x == [] || (x[|x| - 1] == '\n' && (|x| >= 2 ==> x[|x| - 2] == '\r'))
  }

  lemma SecondSpaceIs(s: string)
    requires LineOf(s).RequestLine?
    ensures SecondSpace(s) == |LineOf(s).verb| + 1 + |LineOf(s).target|
  {
  }

  /** What comes before the rest of a request line's text. */
  function Front(l: RequestLine): string
    requires l.RequestLine?
  {
    l.verb + ([' '] + (l.target + ([' '] + (l.protocol + ['\r']))))
  }

  lemma FrontOf(l: RequestLine, z: string)
    requires l.RequestLine?
    ensures PrintLine(l.verb, l.target, l.protocol, z) == Front(l) + z
    ensures |Front(l)| == |l.verb| + |l.target| + |l.protocol| + 3
  {
    AppendAssoc(l.protocol, ['\r'], z);
    AppendAssoc([' '], l.protocol + ['\r'], z);
    AppendAssoc(l.target, [' '] + (l.protocol + ['\r']), z);
    AppendAssoc([' '], l.target + ([' '] + (l.protocol + ['\r'])), z);
    AppendAssoc(l.verb, [' '] + (l.target + ([' '] + (l.protocol + ['\r']))), z);
  }

  /** If the second space comes before the blank line, so does the end of the request line. */
  lemma LineEndsEarly(s: string, i: nat)
    requires LineOf(s).RequestLine? && SecondSpace(s) < i < |s| && s[i] == '\r'
    ensures |Front(LineOf(s))| <= i + 1 && s == Front(LineOf(s)) + LineOf(s).rest
  {
    var l := LineOf(s);
    LineOfInverse(s);
    SecondSpaceIs(s);
    FrontOf(l, l.rest);
    var t := SecondSpace(s);
    var c := l.verb + ([' '] + (l.target + [' ']));
    assert |c| == t + 1;
    assert s == c + (l.protocol + (['\r'] + l.rest)) by {
      AppendAssoc(l.target, [' '], l.protocol + (['\r'] + l.rest));
      AppendAssoc([' '], l.target + [' '], l.protocol + (['\r'] + l.rest));
      AppendAssoc(l.verb, [' '] + (l.target + [' ']), l.protocol + (['\r'] + l.rest));
    }
    forall m | t + 1 <= m < t + 1 + |l.protocol| ensures s[m] in l.protocol {
      assert s[m] == l.protocol[m - (t + 1)];
    }
  }

  lemma ParseOfFront(l: RequestLine, z: string, c: char, u: string)
    requires l.RequestLine? && ' ' !in l.verb && ' ' !in l.target && '\r' !in l.protocol && z == [c] + u
    ensures ParseText(Front(l) + z) == Finish(l, u) && LineOf(Front(l) + z) == l.(rest := z)
  {
    hide LineOf; hide Front; hide Find; hide WithHost; hide ValueIn;
    FrontOf(l, z);
    LineOfPrinted(l.verb, l.target, l.protocol, z);
    assert z[1..] == u;
    if ValueIn(u).Some? { RestDoesNotMatter(l, z, ValueIn(u).value); }
  }

  lemma RestDoesNotMatter(l: RequestLine, z: string, value: string)
    requires l.RequestLine?
    ensures WithHost(l.(rest := z), value) == WithHost(l, value)
  {
  }

  /** A request whose line ends before the blank line, taken apart around the place where a line is inserted. */
  lemma HopInParts(s: string, ip: string)
    requires BlankAt(s) < |s| && Dotted(ip) && LineOf(s).RequestLine? && SecondSpace(s) < BlankAt(s)
    ensures var i, p := BlankAt(s), |Front(LineOf(s))|;
      && p < i + 2 <= |s| && LineEnds(s[p + 1..i + 2])
      && s == Front(LineOf(s)) + ([s[p]] + (s[p + 1..i + 2] + s[i + 2..]))
      && Hop(s, ip) == Front(LineOf(s)) + ([s[p]] + (s[p + 1..i + 2] + Inserted(ip) + s[i + 2..]))
  {
    hide Find; hide LineOf; hide SecondSpace; hide Hop; hide Front; hide Inserted; hide BlankAt;
    HopBlank(s, ip);
    BlankChars(s);
    var i, l := BlankAt(s), LineOf(s);
    LineEndsEarly(s, i);
    Behind(Front(l), l.rest);
    assert Front(l) == s[..|Front(l)|];
    InsertInParts(s, |Front(l)|, i + 2, Inserted(ip));
  }

  /** If the request line ends before the blank line, a hop does not change how the request is parsed. */
  lemma HopKeepsEarly(s: string, ip: string)
    requires BlankAt(s) < |s| && Dotted(ip) && LineOf(s).RequestLine? && SecondSpace(s) < BlankAt(s)
    ensures ParseText(Hop(s, ip)) == ParseText(s) && LineOf(Hop(s, ip)).RequestLine?
    ensures SecondSpace(Hop(s, ip)) == SecondSpace(s)
  {
    hide Find; hide LineOf; hide SecondSpace; hide Hop; hide Front; hide Finish; hide ParseText; hide Inserted;
    hide BlankAt;
    hide LineEnds;
    var i, l, line := BlankAt(s), LineOf(s), Inserted(ip);
    var p := |Front(l)|;
    HopInParts(s, ip);
    var c, x, y := s[p], s[p + 1..i + 2], s[i + 2..];
    InsertedChars(ip);
    LineOfInverse(s);
    ParseOfFront(l, [c] + (x + y), c, x + y);
    ParseOfFront(l, [c] + (x + line + y), c, x + line + y);
    SecondSpaceIs(s);
    SecondSpaceIs(Hop(s, ip));
    InsertKeepsHost(l, x, line, y);
  }

  lemma InsertInParts(s: string, p: nat, q: nat, line: string)
    requires p < q <= |s|
    ensures var x, y := s[p + 1..q], s[q..];
      && s == s[..p] + ([s[p]] + (x + y))
      && s[..q] + line + s[q..] == s[..p] + ([s[p]] + (x + line + y))
  {
    var x, y := s[p + 1..q], s[q..];
    assert s[..q] == s[..p] + ([s[p]] + x);
    AppendAssoc(s[..p], [s[p]] + x, y);
    AppendAssoc([s[p]], x, y);
    assert s == s[..q] + y;
    AppendAssoc(s[..p], [s[p]] + x, line + y);
    AppendAssoc([s[p]], x, line + y);
    AppendAssoc(x, line, y);
    AppendAssoc(s[..q], line, y);
  }

  lemma BlankChars(s: string)
    requires BlankAt(s) < |s|
    ensures var i := BlankAt(s);
      i + 4 <= |s| && s[i] == '\r' && s[i + 1] == '\n' && s[i + 2] == '\r' && s[i + 3] == '\n'
  {
    BlankIsThere(s);
    var i := BlankAt(s);
    assert s[i] == s[i..i + 4][0] && s[i + 1] == s[i..i + 4][1] && s[i + 2] == s[i..i + 4][2]
        && s[i + 3] == s[i..i + 4][3];
  }

  /** Two targets that differ in a character other than '?' give different fields. */
  lemma TargetsDiffer(l: RequestLine, m: RequestLine, a: string, b: string, e: nat)
    requires l.RequestLine? && m.RequestLine? && e < |l.target| && e < |m.target| && l.target[..e] == m.target[..e]
    requires l.target[e] != m.target[e] && l.target[e] != '?' && m.target[e] != '?'
    requires WithHost(l, a).Parsed? && WithHost(m, b).Parsed?
    ensures WithHost(l, a) != WithHost(m, b)
  {
    var q, r := IndexOf(l.target, '?'), IndexOf(m.target, '?');
    var f, g := WithHost(l, a).fields, WithHost(m, b).fields;
    IndexOfFirst(l.target, '?');
    IndexOfFirst(m.target, '?');
    assert forall i :: 0 <= i < e ==> l.target[i] == l.target[..e][i] && m.target[i] == l.target[..e][i];
    if q < e {
      assert q == r;
      assert f.query.value[e - q - 1] == l.target[e] && g.query.value[e - q - 1] == m.target[e];
    } else {
      assert f.path[e] == l.target[e] && g.path[e] == m.target[e];
    }
  }

  /** The words of two texts that first differ at position d, where neither has a space. */
  lemma WordAround(s: string, h: string, d: nat, p: nat)
    requires p <= d < |s| && d < |h| && s[..d] == h[..d] && s[d] != ' ' && h[d] != ' '
    ensures var v, w := IndexOf(s[p..], ' '), IndexOf(h[p..], ' ');
      if p + v < d then w == v && s[p..][..v] == h[p..][..v] else p + v > d && p + w > d
  {
    var a, b := s[p..], h[p..];
    IndexOfFirst(a, ' ');
    IndexOfFirst(b, ' ');
    assert forall i :: p <= i < d ==> a[i - p] == s[..d][i] && b[i - p] == s[..d][i];
    assert a[d - p] == s[d] && b[d - p] == h[d];
    var v, w := IndexOf(a, ' '), IndexOf(b, ' ');
    assert forall i :: 0 <= i < d - p ==> a[i] == b[i];
  }

  lemma LinesDiffer(s: string, h: string, d: nat, l: RequestLine, m: RequestLine)
    requires d < |s| && d < |h| && s[..d] == h[..d] && s[d] == '\r' && h[d] == 'X' && SecondSpace(s) > d
    requires l.RequestLine? && m.RequestLine? && l == LineOf(s) && m == LineOf(h)
    ensures l.verb != m.verb || exists e :: 0 <= e < |l.target| && e < |m.target| && l.target[..e] == m.target[..e]
                                          && l.target[e] == '\r' && m.target[e] == 'X'
  {
    hide IndexOf;
    assert s[0..] == s && h[0..] == h;
    WordAround(s, h, d, 0);
    var v := IndexOf(s, ' ');
    if v > d {
      assert l.verb[d] == s[d] && m.verb[d] == h[d];
    } else {
      WordAround(s, h, d, v + 1);
      TargetAround(s, h, d, v + 1, IndexOf(s[v + 1..], ' '), IndexOf(h[v + 1..], ' '));
    }
  }

  lemma TargetAround(s: string, h: string, d: nat, p: nat, n: nat, k: nat)
    requires p <= d < |s| && d < |h| && s[..d] == h[..d] && d < p + n <= |s| && d < p + k <= |h|
    ensures var a, b, e := s[p..][..n], h[p..][..k], d - p; a[..e] == b[..e] && a[e] == s[d] && b[e] == h[d]
  {
    var a, b, e := s[p..][..n], h[p..][..k], d - p;
    assert a[..e] == s[..d][p..] && b[..e] == h[..d][p..];
  }

  /** If it does not, the request comes out changed: an inserted line lands in its verb or its target. */
  lemma InsertChangesLate(s: string, h: string)
    requires BlankAt(s) < |s| && ParseText(s).Parsed? && SecondSpace(s) >= BlankAt(s)
    requires BlankAt(s) + 2 < |h| && BlankAt(s) + 2 <= |s| && h[..BlankAt(s) + 2] == s[..BlankAt(s) + 2]
    requires h[BlankAt(s) + 2] == 'X'
    ensures ParseText(h) != ParseText(s)
  {
    hide Find; hide LineOf; hide WithHost; hide IndexOf; hide SecondSpace; hide HostValue;
    BlankChars(s);
    var i := BlankAt(s);
    SecondSpaceLate(s, i);
    if ParseText(h).Parsed? {
      var l, m := LineOf(s), LineOf(h);
      LinesDiffer(s, h, i + 2, l, m);
      var a, b := HostValue(l.rest).value, HostValue(m.rest).value;
      if l.verb != m.verb {
        VerbOf(l, a);
        VerbOf(m, b);
      } else {
        var e :| 0 <= e < |l.target| && e < |m.target| && l.target[..e] == m.target[..e] && l.target[e] == '\r'
            && m.target[e] == 'X';
        TargetsDiffer(l, m, a, b, e);
      }
    }
  }

  lemma VerbOf(l: RequestLine, a: string)
    requires l.RequestLine? && WithHost(l, a).Parsed?
    ensures WithHost(l, a).fields.verb == l.verb
  {
  }

  /** The second space is a space, so it cannot be one of the four characters of the blank line. */
  lemma SecondSpaceLate(s: string, i: nat)
    requires LineOf(s).RequestLine? && SecondSpace(s) >= i && i + 4 <= |s|
    requires s[i] == '\r' && s[i + 1] == '\n' && s[i + 2] == '\r'
    ensures SecondSpace(s) > i + 2
  {
    hide IndexOf;
    var v := IndexOf(s, ' ');
    IndexOfFirst(s[v + 1..], ' ');
    assert s[SecondSpace(s)] == s[v + 1..][IndexOf(s[v + 1..], ' ')] == ' ';
  }

  // ---- Any number of hops ----

  function Hops(s: string, ips: seq<string>): string {
    if ips == [] then s else Hop(Hops(s, ips[..|ips| - 1]), ips[|ips| - 1])
  }

  function InsertedAll(ips: seq<string>): string {
    if ips == [] then [] else InsertedAll(ips[..|ips| - 1]) + Inserted(ips[|ips| - 1])
  }

  predicate AllDotted(ips: seq<string>) {
    forall j :: 0 <= j < |ips| ==> Dotted(ips[j])
  }

  /** An IPv4 address as inet_ntop writes it. */
  function AddressText(a: nat, b: nat, c: nat, d: nat): string {
    Decimal(a) + "." + Decimal(b) + "." + Decimal(c) + "." + Decimal(d)
  }

  lemma AddressesAreDotted(ips: seq<string>, a: nat, b: nat, c: nat, d: nat)
    ensures AllDotted([]) && (AllDotted(ips + [AddressText(a, b, c, d)]) <==> AllDotted(ips))
  {
    var all := ips + [AddressText(a, b, c, d)];
    assert forall j :: 0 <= j < |ips| ==> all[j] == ips[j];
    DigitsOfDecimal(a);
    DigitsOfDecimal(b);
    DigitsOfDecimal(c);
    DigitsOfDecimal(d);
    assert Dotted(AddressText(a, b, c, d));
    hide Dotted; hide AddressText;
  }

  lemma InsertAtEnd(a: string, b: string, line: string, rest: string)
    ensures var h := a + b + rest; h[..|a| + |b|] + line + h[|a| + |b|..] == a + (b + line) + rest
  {
    var h := a + b + rest;
    assert h[..|a| + |b|] == a + b && h[|a| + |b|..] == rest;
    AppendAssoc(a, b, line);
  }

  /** After any number of hops the lines stand in order at the end of the header section; the rest is as it was. */
  lemma {:induction false} HopsInsertAll(s: string, ips: seq<string>)
    requires BlankAt(s) < |s| && AllDotted(ips)
    ensures var i, h := BlankAt(s), Hops(s, ips);
      && i + 4 <= |s| && h == s[..i + 2] + InsertedAll(ips) + s[i + 2..]
      && BlankAt(h) == i + |InsertedAll(ips)| < |h| && h[BlankAt(h) + 2..] == s[i + 2..]
  {
    BlankIsThere(s);
    var i := BlankAt(s);
    if ips == [] {
      assert s[..i + 2] + [] + s[i + 2..] == s;
    } else {
      hide Find; hide Hop; hide Inserted;
      var n := |ips| - 1;
      HopsInsertAll(s, ips[..n]);
      var g := Hops(s, ips[..n]);
      HopBlank(g, ips[n]);
      InsertAtEnd(s[..i + 2], InsertedAll(ips[..n]), Inserted(ips[n]), s[i + 2..]);
      Behind(s[..i + 2] + InsertedAll(ips), s[i + 2..]);
    }
  }

  lemma {:induction false} HopsKeepEarly(s: string, ips: seq<string>)
    requires BlankAt(s) < |s| && AllDotted(ips) && LineOf(s).RequestLine? && SecondSpace(s) < BlankAt(s)
    ensures var h := Hops(s, ips);
      && ParseText(h) == ParseText(s) && LineOf(h).RequestLine? && SecondSpace(h) == SecondSpace(s)
          && BlankAt(s) <= BlankAt(h) < |h|
  {
    hide Find; hide Hop; hide LineOf; hide SecondSpace; hide ParseText;
    if ips != [] {
      var n := |ips| - 1;
      HopsKeepEarly(s, ips[..n]);
      HopKeepsEarly(Hops(s, ips[..n]), ips[n]);
      HopBlank(Hops(s, ips[..n]), ips[n]);
    }
  }

  lemma {:induction false} InsertedAllStart(ips: seq<string>)
    requires ips != []
    ensures |InsertedAll(ips)| > 0 && InsertedAll(ips)[0] == 'X'
  {
    if |ips| > 1 {
      InsertedAllStart(ips[..|ips| - 1]);
    }
  }

  /** The lines that the hops add, each with the line break in front of it. */
  function AddedText(ips: seq<string>): string {
    if ips == [] then [] else AddedText(ips[..|ips| - 1]) + ("\r\n" + "X-Forwarded-For: " + ips[|ips| - 1])
  }

  lemma BreakInFront(n: string, all: string, added: string, name: string, ip: string)
    requires n + all == added + n
    ensures n + (all + (name + ip + n)) == added + (n + name + ip) + n
  {
    var line := name + ip;
    AppendAssoc(n, all, line + n);
    AppendAssoc(added, n, line + n);
    AppendAssoc(n, line, n);
    AppendAssoc(n, name, ip);
    AppendAssoc(added, n + name + ip, n);
  }

  lemma {:induction false} AddedTextIs(ips: seq<string>)
    ensures "\r\n" + InsertedAll(ips) == AddedText(ips) + "\r\n"
  {
    if ips == [] {
      AppendNone("\r\n");
    } else {
      var n := |ips| - 1;
      AddedTextIs(ips[..n]);
      BreakInFront("\r\n", InsertedAll(ips[..n]), AddedText(ips[..n]), "X-Forwarded-For: ", ips[n]);
    }
  }

  /** Character by character: what comes out of the hops for a request with a blank line, and for one without. */
  lemma HopsText(headers: string, body: string, ips: seq<string>)
    requires AllDotted(ips)
    requires forall j :: 0 <= j < |headers| ==> !("\r\n\r\n" <= (headers + "\r\n\r\n")[j..])
    ensures Hops(headers + "\r\n\r\n" + body, ips) == headers + AddedText(ips) + "\r\n\r\n" + body
  {
    hide Find; hide Hops; hide InsertedAll; hide AddedText;
    var s := headers + "\r\n\r\n" + body;
    BlankIs(headers, body);
    HopsInsertAll(s, ips);
    AddedTextIs(ips);
    assert s[..|headers| + 2] == headers + "\r\n" && s[|headers| + 2..] == "\r\n" + body;
    AppendAssoc(headers, "\r\n", InsertedAll(ips));
    AppendAssoc(headers, AddedText(ips), "\r\n");
    AppendAssoc(headers + AddedText(ips), "\r\n", "\r\n" + body);
    AppendAssoc("\r\n", "\r\n", body);
    AppendAssoc(headers + AddedText(ips), "\r\n\r\n", body);
  }

  lemma BlankIs(headers: string, body: string)
    requires forall j :: 0 <= j < |headers| ==> !("\r\n\r\n" <= (headers + "\r\n\r\n")[j..])
    ensures BlankAt(headers + "\r\n\r\n" + body) == |headers|
  {
    hide Find;
    var t, s := headers + "\r\n\r\n", headers + "\r\n\r\n" + body;
    assert s[|headers|..] == "\r\n\r\n" + body;
    forall j | 0 <= j < |headers| ensures !("\r\n\r\n" <= s[j..]) {
      assert s[j..][..4] == t[j..][..4];
    }
    FindIs(s, "\r\n\r\n", |headers|);
  }

  lemma {:induction false} HopsWithoutBlank(s: string, ips: seq<string>)
    requires forall j :: 0 <= j < |s| ==> !("\r\n\r\n" <= s[j..])
    ensures Hops(s, ips) == s
  {
    if ips != [] {
      FindIs(s, "\r\n\r\n", |s|);
      HopsWithoutBlank(s, ips[..|ips| - 1]);
    }
  }

  /** One hop or more leave the parsed request as it was exactly when the request line's two spaces come before the
      blank line. */
  lemma HopsKeepRequest(s: string, ips: seq<string>)
    requires BlankAt(s) < |s| && AllDotted(ips) && ips != [] && ParseText(s).Parsed?
    ensures ParseText(Hops(s, ips)) == ParseText(s) <==> SecondSpace(s) < BlankAt(s)
  {
    hide Find; hide LineOf; hide SecondSpace; hide Hops; hide WithHost; hide HostValue;
    if SecondSpace(s) < BlankAt(s) {
      HopsKeepEarly(s, ips);
    } else {
      HopsInsertAll(s, ips);
      InsertedAllStart(ips);
      InsertChangesLate(s, Hops(s, ips));
    }
  }

  /** The lines of a text that has no newline at its end. */
  function LinesOf(s: string): seq<string>
    decreases |s|
  {
    var k := Find(s, NEWLINE);
    if k + 2 > |s| then [s] else [s[..k]] + LinesOf(s[k + 2..])
  }

  function HeaderLines(s: string): seq<string> {
    LinesOf(s[..BlankAt(s)])
  }

  lemma {:induction false} LinesAppend(a: string, x: string)
    ensures LinesOf(a + (NEWLINE + x)) == LinesOf(a) + LinesOf(x)
    decreases |a|
  {
    hide Find;
    var s := a + (NEWLINE + x);
    var k := Find(a, NEWLINE);
    FindFirst(a, NEWLINE);
    if k < |a| {
      assert |a[k..]| >= 2;
      FindPrefix(a, NEWLINE + x, NEWLINE);
      assert s[..k] == a[..k] && s[k + 2..] == a[k + 2..] + (NEWLINE + x);
      LinesAppend(a[k + 2..], x);
    } else {
      FindAtEnd(a, x);
      assert s[..|a|] == a && s[|a| + 2..] == x;
    }
  }

  lemma FindAtEnd(a: string, x: string)
    requires forall j :: 0 <= j < |a| ==> !(NEWLINE <= a[j..])
    ensures Find(a + (NEWLINE + x), NEWLINE) == |a|
  {
    hide Find;
    var s := a + (NEWLINE + x);
    forall j | 0 <= j < |a| ensures !(NEWLINE <= s[j..]) {
      if j + 2 <= |a| {
        assert s[j..][..2] == a[j..][..2];
      } else {
        assert s[j..][1] == s[|a|] == '\r';
      }
    }
    assert s[|a|..] == NEWLINE + x;
    FindIs(s, NEWLINE, |a|);
  }

  /** The lines that the hops add. */
  function HopLines(ips: seq<string>): (r: seq<string>)
    ensures |r| == |ips|
  {
    if ips == [] then [] else HopLines(ips[..|ips| - 1]) + ["X-Forwarded-For: " + ips[|ips| - 1]]
  }

  /** One more line for every hop, in order. */
  lemma {:induction false} HopsAddHeaderLines(s: string, ips: seq<string>)
    requires BlankAt(s) < |s| && AllDotted(ips)
    ensures HeaderLines(Hops(s, ips)) == HeaderLines(s) + HopLines(ips)
  {
    if ips != [] {
      hide Hop; hide HeaderLines; hide Find; hide InsertedAll;
      var n := |ips| - 1;
      var g := Hops(s, ips[..n]);
      HopsInsertAll(s, ips[..n]);
      HopsAddHeaderLines(s, ips[..n]);
      HopAddsHeaderLine(g, ips[n]);
      AppendAssoc(HeaderLines(s), HopLines(ips[..n]), [XForwardedFor(ips[n])]);
    }
  }

  /** The addresses that the X-Forwarded-For lines among some header lines give. */
  function Addresses(lines: seq<string>): seq<string> {
    if lines == [] then []
    else
      var line := lines[|lines| - 1];
      Addresses(lines[..|lines| - 1]) + if "X-Forwarded-For: " <= line then [line[17..]] else []
  }

  lemma {:induction false} AddressesAppend(lines: seq<string>, ips: seq<string>)
    ensures Addresses(lines + HopLines(ips)) == Addresses(lines) + ips
  {
    if ips == [] {
      AppendNone(lines);
    } else {
      var n, all := |ips| - 1, lines + HopLines(ips);
      var line := "X-Forwarded-For: " + ips[n];
      AddressesAppend(lines, ips[..n]);
      assert all[..|all| - 1] == lines + HopLines(ips[..n]) && all[|all| - 1] == line;
      Behind("X-Forwarded-For: ", ips[n]);
      AppendAssoc(Addresses(lines), ips[..n], [ips[n]]);
      SplitLast(ips);
    }
  }

  /** Reading the header section at the far end gives back the address of every hop, in order, behind the addresses that
      were there before. */
  lemma AddressesArrive(s: string, ips: seq<string>)
    requires BlankAt(s) < |s| && AllDotted(ips)
    ensures Addresses(HeaderLines(Hops(s, ips))) == Addresses(HeaderLines(s)) + ips
  {
    HopsAddHeaderLines(s, ips);
    AddressesAppend(HeaderLines(s), ips);
  }

  lemma HopAddsHeaderLine(s: string, ip: string)
    requires BlankAt(s) < |s| && Dotted(ip)
    ensures HeaderLines(Hop(s, ip)) == HeaderLines(s) + [XForwardedFor(ip)]
  {
    hide Hop; hide Find;
    HopBlank(s, ip);
    BlankChars(s);
    InsertedChars(ip);
    HeadWithLine(s, BlankAt(s), XForwardedFor(ip));
    LinesAppend(s[..BlankAt(s)], XForwardedFor(ip));
    FindNone(XForwardedFor(ip), NEWLINE);
  }

  lemma HeadWithLine(s: string, i: nat, x: string)
    requires i + 2 <= |s| && s[i] == '\r' && s[i + 1] == '\n'
    ensures (s[..i + 2] + (x + NEWLINE) + s[i + 2..])[..i + |x| + 2] == s[..i] + (NEWLINE + x)
  {
    assert s[..i + 2] == s[..i] + NEWLINE;
    var h := s[..i + 2] + (x + NEWLINE) + s[i + 2..];
    assert h == (s[..i + 2] + x) + (NEWLINE + s[i + 2..]);
    assert h[..i + 2 + |x|] == s[..i + 2] + x;
  }

  // ---- Hops through the receive buffer ----

  const MAX_URI: nat := 255

  /** What one call of recvData yields of a request when the kernel has `ready` characters of it. */
  function Received(s: string, ready: nat): string {
    if ready < |s| then s[..ready] else s
  }

  /** The request parses, and with the location's document root the path is not too long. */
  predicate Takes(got: string, root: nat) {
    var r := ProcessBuffer(Filled(got), |got|);
    r.Parsed? && root + |r.fields.path| <= MAX_URI
  }

  /** What a proxy sends on for a request: nothing if it does not take what it receives of it, else the rewritten
      headers, which are a copy of the buffer's string. */
  function Relay(s: string, ip: string, root: nat, ready: nat): Option<string> {
    var got := Received(s, ready);
    if Takes(got, root) then Some(Hop(got[..IndexOf(got, NUL)], ip)) else None
  }

  /** A run of proxies; the j-th one has a document root of length roots[j] and ready[j] characters when it receives. */
  function Relays(s: string, ips: seq<string>, roots: seq<nat>, ready: seq<nat>): Option<string>
    requires |roots| >= |ips| && |ready| >= |ips|
  {
    if ips == [] then Some(s)
    else
      var n := |ips| - 1;
      var earlier := Relays(s, ips[..n], roots, ready);
      if earlier.Some? then Relay(earlier.value, ips[n], roots[n], ready[n]) else None
  }

  /** The far end, which has the last root and receives last, gets the whole request with only the inserted lines added,
      takes it, and parses it as it was parsed at the start. */
  predicate Delivered(s: string, ips: seq<string>, roots: seq<nat>, ready: seq<nat>)
    requires |roots| == |ready| == |ips| + 1
  {
    var n, h := |ips|, Hops(s, ips);
    var sent := Relays(s, ips, roots, ready);
    && sent.Some? && Received(sent.value, ready[n]) == h && Takes(h, roots[n])
    && ProcessBuffer(Filled(h), |h|) == ProcessBuffer(Filled(s), |s|)
  }

  /** Every receive has the whole request as it is at that hop. */
  predicate AllReady(s: string, ips: seq<string>, ready: seq<nat>)
    requires |ready| > |ips|
  {
    forall j :: 0 <= j <= |ips| ==> |Hops(s, ips[..j])| <= ready[j]
  }

  lemma RelayTaken(s: string, ip: string, root: nat, ready: nat)
    requires s != [] && |s| < BUFF_SIZE && NUL !in s && ParseText(s).Parsed? && |s| <= ready
    requires root + |ParseText(s).fields.path| <= MAX_URI
    ensures Takes(s, root) && Relay(s, ip, root, ready) == Some(Hop(s, ip))
  {
    hide Hop; hide ProcessBuffer; hide Filled; hide ParseText;
    BufferHoldsText(s);
    IndexOfIs(s, NUL, |s|);
    assert s[..|s|] == s;
  }

  lemma ProcessedIsShort(s: string)
    requires ProcessBuffer(Filled(s), |s|).Parsed?
    ensures s != [] && |s| < BUFF_SIZE
  {
  }

  lemma HopLength(s: string, ip: string)
    requires Dotted(ip)
    ensures |Hop(s, ip)| == |s| + if BlankAt(s) < |s| then |Inserted(ip)| else 0
  {
    hide Find;
    if BlankAt(s) < |s| { HopBlank(s, ip); }
  }

  lemma NoNulInHop(s: string, ip: string)
    requires NUL !in s && Dotted(ip)
    ensures NUL !in Hop(s, ip)
  {
    hide Find;
    if BlankAt(s) < |s| {
      HopBlank(s, ip);
      assert NUL !in XForwardedFor(ip);
    }
  }

  lemma {:induction false} HopsLength(s: string, ips: seq<string>)
    requires BlankAt(s) < |s| && AllDotted(ips)
    ensures |Hops(s, ips)| == |s| + |InsertedAll(ips)|
    ensures NUL !in s ==> NUL !in Hops(s, ips)
  {
    if ips != [] {
      hide Hop; hide Find;
      var n := |ips| - 1;
      HopsLength(s, ips[..n]);
      HopsInsertAll(s, ips[..n]);
      HopLength(Hops(s, ips[..n]), ips[n]);
      if NUL !in s { NoNulInHop(Hops(s, ips[..n]), ips[n]); }
    }
  }

  /** If everything is as it should be, every hop relays the request. */
  lemma {:induction false} AllRelay(s: string, ips: seq<string>, roots: seq<nat>, ready: seq<nat>)
    requires BlankAt(s) < |s| && AllDotted(ips) && NUL !in s && ParseText(s).Parsed? && SecondSpace(s) < BlankAt(s)
    requires |Hops(s, ips)| < BUFF_SIZE && |roots| >= |ips| && |ready| >= |ips|
    requires forall j :: 0 <= j < |ips| ==> |Hops(s, ips[..j])| <= ready[j]
    requires forall j :: 0 <= j < |ips| ==> roots[j] + |ParseText(s).fields.path| <= MAX_URI
    ensures Relays(s, ips, roots, ready) == Some(Hops(s, ips))
  {
    if ips != [] {
      hide Hop; hide Find; hide ParseText; hide SecondSpace; hide LineOf; hide Relay;
      var n := |ips| - 1;
      var g := Hops(s, ips[..n]);
      HopsLength(s, ips);
      HopsLength(s, ips[..n]);
      forall j | 0 <= j < n ensures |Hops(s, ips[..n][..j])| <= ready[j] {
        assert ips[..n][..j] == ips[..j];
      }
      AllRelay(s, ips[..n], roots, ready);
      ParsedHasLine(s);
      HopsKeepEarly(s, ips[..n]);
      RelayTaken(g, ips[n], roots[n], ready[n]);
    }
  }

  lemma ParsedHasLine(s: string)
    requires ParseText(s).Parsed?
    ensures LineOf(s).RequestLine?
  {
  }

  /** What one hop sends on is no longer than what it is sent and the inserted line; and if it is as long, the hop has
      received everything, and there is no NUL in it. */
  lemma RelayLength(s: string, ip: string, root: nat, ready: nat)
    requires Dotted(ip) && Relay(s, ip, root, ready).Some?
    ensures var sent := Relay(s, ip, root, ready).value;
      && |sent| <= |s| + |Inserted(ip)|
      && (|sent| == |s| + |Inserted(ip)| ==> |s| <= ready && NUL !in s && Takes(s, root) && sent == Hop(s, ip))
  {
    hide Hop; hide IndexOf; hide Takes;
    var got := Received(s, ready);
    IndexOfFirst(got, NUL);
    HopLength(got[..IndexOf(got, NUL)], ip);
    assert got[..|got|] == got;
  }

  /** If the request comes out of the proxies as long as it would with all lines inserted, all of them have done their
      part. */
  lemma {:induction false} FullLength(s: string, ips: seq<string>, roots: seq<nat>, ready: seq<nat>)
    requires AllDotted(ips) && |roots| >= |ips| && |ready| >= |ips|
    ensures var sent := Relays(s, ips, roots, ready);
      && (sent.Some? ==> |sent.value| <= |s| + |InsertedAll(ips)|)
      && (sent.Some? && |sent.value| == |s| + |InsertedAll(ips)| ==>
            sent.value == Hops(s, ips) && (ips != [] ==> NUL !in s) && AllDone(s, ips, roots, ready))
  {
    if ips != [] {
      hide Hop; hide Relay; hide Takes; hide Inserted; hide AllDone;
      var n := |ips| - 1;
      FullLength(s, ips[..n], roots, ready);
      var sent := Relays(s, ips, roots, ready);
      if sent.Some? {
        RelayLength(Relays(s, ips[..n], roots, ready).value, ips[n], roots[n], ready[n]);
        if |sent.value| == |s| + |InsertedAll(ips)| { OneMoreDone(s, ips, roots, ready); }
      }
    } else {
      assert AllDone(s, ips, roots, ready);
    }
  }

  /** Every hop receives all of the request, and takes it. */
  predicate AllDone(s: string, ips: seq<string>, roots: seq<nat>, ready: seq<nat>)
    requires |roots| >= |ips| && |ready| >= |ips|
  {
    forall j :: 0 <= j < |ips| ==> |Hops(s, ips[..j])| <= ready[j] && Takes(Hops(s, ips[..j]), roots[j])
  }

  lemma OneMoreDone(s: string, ips: seq<string>, roots: seq<nat>, ready: seq<nat>)
    requires ips != [] && |roots| >= |ips| && |ready| >= |ips|
    requires var n := |ips| - 1; AllDone(s, ips[..n], roots, ready) && |Hops(s, ips[..n])| <= ready[n]
    requires var n := |ips| - 1; Takes(Hops(s, ips[..n]), roots[n])
    ensures AllDone(s, ips, roots, ready)
  {
    hide Takes; hide Hops;
    var n := |ips| - 1;
    forall j | 0 <= j < |ips| ensures |Hops(s, ips[..j])| <= ready[j] && Takes(Hops(s, ips[..j]), roots[j]) {
      if j < n { assert ips[..n][..j] == ips[..j]; }
    }
  }

  /** Parsed as at the start, a request is taken with a root exactly if the path at the start is. */
  lemma TakesSame(s: string, h: string, root: nat)
    requires s != [] && |s| < BUFF_SIZE && NUL !in s && h != [] && |h| < BUFF_SIZE && NUL !in h
    requires ParseText(s).Parsed? && ParseText(h) == ParseText(s)
    ensures Takes(h, root) <==> root + |ParseText(s).fields.path| <= MAX_URI
  {
    hide ProcessBuffer; hide Filled; hide ParseText;
    BufferHoldsText(h);
  }

  /** A request that parses where it starts is delivered over any number of proxies exactly when it has no NUL, it still
      is shorter than the buffer with all inserted lines, its request line ends before its blank line, nobody on the way
      has a root that makes the path too long, and every receive yields all there is. */
  lemma RequestIsDelivered(s: string, ips: seq<string>, roots: seq<nat>, ready: seq<nat>)
    requires BlankAt(s) < |s| && AllDotted(ips) && ips != [] && |roots| == |ready| == |ips| + 1
    requires ProcessBuffer(Filled(s), |s|).Parsed?
    ensures Delivered(s, ips, roots, ready) <==>
            && NUL !in s && |Hops(s, ips)| < 4096 && SecondSpace(s) < BlankAt(s) && AllReady(s, ips, ready)
            && forall j :: 0 <= j <= |ips| ==>
                 roots[j] + |ProcessBuffer(Filled(s), |s|).fields.path| <= 255
    ensures |Hops(s, ips)| == |s| + |InsertedAll(ips)|
  {
    hide ProcessBuffer; hide Filled; hide Hop; hide Find; hide ParseText; hide SecondSpace; hide LineOf; hide Relays;
    hide Hops;
    var n, h := |ips|, Hops(s, ips);
    ProcessedIsShort(s);
    HopsLength(s, ips);
    if NUL !in s && |h| < BUFF_SIZE {
      BufferHoldsText(s);
      BufferHoldsText(h);
      HopsKeepRequest(s, ips);
      if SecondSpace(s) < BlankAt(s) {
        DeliveredEarly(s, ips, roots, ready);
      }
    }
    if Delivered(s, ips, roots, ready) {
      FullLength(s, ips, roots, ready);
      ProcessedIsShort(h);
    }
  }

  /** The same for a request that is otherwise all right. */
  lemma DeliveredEarly(s: string, ips: seq<string>, roots: seq<nat>, ready: seq<nat>)
    requires BlankAt(s) < |s| && AllDotted(ips) && ips != [] && |roots| == |ready| == |ips| + 1
    requires s != [] && |s| < BUFF_SIZE && NUL !in s && ParseText(s).Parsed? && |Hops(s, ips)| < BUFF_SIZE
    requires SecondSpace(s) < BlankAt(s)
    ensures Delivered(s, ips, roots, ready) <==>
            && AllReady(s, ips, ready)
            && forall j :: 0 <= j <= |ips| ==> roots[j] + |ParseText(s).fields.path| <= MAX_URI
  {
    hide ProcessBuffer; hide Filled; hide Hop; hide Find; hide ParseText; hide SecondSpace; hide LineOf; hide Relays;
    hide Hops; hide Takes;
    var n, h := |ips|, Hops(s, ips);
    assert ips[..n] == ips;
    BufferHoldsText(s);
    HopsLength(s, ips);
    forall j | 0 <= j <= n
      ensures Takes(Hops(s, ips[..j]), roots[j]) <==> roots[j] + |ParseText(s).fields.path| <= MAX_URI
      ensures j == n ==> ParseText(h) == ParseText(s)
    {
      TakesAtHop(s, ips, j, roots[j]);
    }
    BufferHoldsText(h);
    if Delivered(s, ips, roots, ready) { FullLength(s, ips, roots, ready); }
    if AllReady(s, ips, ready) && forall j :: 0 <= j <= n ==> roots[j] + |ParseText(s).fields.path| <= MAX_URI {
      AllRelay(s, ips, roots, ready);
    }
  }

  lemma TakesAtHop(s: string, ips: seq<string>, j: nat, root: nat)
    requires BlankAt(s) < |s| && AllDotted(ips) && j <= |ips| && SecondSpace(s) < BlankAt(s)
    requires s != [] && NUL !in s && ParseText(s).Parsed? && |Hops(s, ips)| < BUFF_SIZE
    ensures Takes(Hops(s, ips[..j]), root) <==> root + |ParseText(s).fields.path| <= MAX_URI
    ensures ParseText(Hops(s, ips[..j])) == ParseText(s)
  {
    hide Hop; hide Find; hide ParseText; hide SecondSpace; hide LineOf; hide Takes;
    HopsLength(s, ips);
    HopsLength(s, ips[..j]);
    InsertedPrefix(ips, j);
    ParsedHasLine(s);
    HopsKeepEarly(s, ips[..j]);
    TakesSame(s, Hops(s, ips[..j]), root);
  }

  lemma {:induction false} InsertedPrefix(ips: seq<string>, j: nat)
    requires j <= |ips|
    ensures |InsertedAll(ips[..j])| <= |InsertedAll(ips)|
  {
    if j < |ips| {
      InsertedPrefix(ips[..|ips| - 1], j);
      assert ips[..|ips| - 1][..j] == ips[..j];
    } else {
      assert ips[..j] == ips;
    }
  }

  lemma {:induction false} EachHopAdds(ips: seq<string>)
    ensures |InsertedAll(ips)| >= 19 * |ips|
  {
    if ips != [] { EachHopAdds(ips[..|ips| - 1]); }
  }

  /** No request survives 216 hops. */
  lemma TooManyHops(s: string, ips: seq<string>, roots: seq<nat>, ready: seq<nat>)
    requires BlankAt(s) < |s| && AllDotted(ips) && |roots| == |ready| == |ips| + 1
    requires ProcessBuffer(Filled(s), |s|).Parsed? && |ips| >= 216
    ensures !Delivered(s, ips, roots, ready)
  {
    RequestIsDelivered(s, ips, roots, ready);
    EachHopAdds(ips);
  }

  /** What stands behind a NUL is lost at the first hop. */
  lemma NulCutsTheRequest(s: string, tail: string, ip: string, root: nat, ready: nat)
    requires NUL !in s && |s + ([NUL] + tail)| <= ready && Takes(s + ([NUL] + tail), root)
    ensures Relay(s + ([NUL] + tail), ip, root, ready) == Some(Hop(s, ip))
  {
    hide Takes; hide Hop; hide IndexOf;
    SplitAtFirst(s, NUL, tail);
  }

  /** A path of more than 255 characters gets through nowhere. */
  lemma LongPathIsRefused(s: string, ip: string, root: nat, ready: nat)
    requires |s| <= ready && ProcessBuffer(Filled(s), |s|).Parsed?
    requires |ProcessBuffer(Filled(s), |s|).fields.path| > 255
    ensures Relay(s, ip, root, ready) == None
  {
    hide ProcessBuffer;
  }

  /** What a receive does not yield is lost. */
  lemma ShortReceiveCuts(s: string, ip: string, root: nat, ready: nat)
    requires ready < |s| && Dotted(ip) && Relay(s, ip, root, ready).Some?
    ensures |Relay(s, ip, root, ready).value| < |s| + |Inserted(ip)|
  {
    hide Relay;
    RelayLength(s, ip, root, ready);
  }

  /** The copy of the received headers that the proxy works on. */
  method CopyHeaders(text: string) returns (b: array<char>)
    requires NUL !in text
    ensures fresh(b) && StringAt(b[..], 0, |text|) && Str(b[..], 0, |text|) == text
  {
    b := new char[|text| + 1](i => if 0 <= i < |text| then text[i] else NUL);
    assert b[..|text|] == text;
  }

  /** processInput and handleProxyPass in a row: `a` holds what was received of a request, `root` is the document root
      of the location that was chosen. */
  method RelayRequest(req: Request, a: array<char>, ghost s: string, received: nat, root: string, ip: string,
                      upstream: Socket, ghost ready: nat)
    returns (outcome: Outcome)
    requires a[..] == Filled(Received(s, ready))
    requires received == if |Received(s, ready)| >= BUFF_SIZE then BUFF_SIZE else |Received(s, ready)|
    modifies req, a, upstream
    ensures outcome == ProcessBuffer(Filled(Received(s, ready)), |Received(s, ready)|)
    ensures var sent := Relay(s, ip, |root|, ready);
      upstream.sent == old(upstream.sent) + if sent.Some? then sent.value else []
  {
    hide ParseBuffer; hide Hop;
    ghost var got := Received(s, ready);
    assert forall i :: received <= i < BUFF_SIZE ==> a[..][i] == NUL;
    outcome := req.Process(a, received);
    if outcome.Parsed? && |root| + |req.path.value| <= MAX_URI {
      HeadersOf(got);
      var headers := CopyHeaders(req.headers.value);
      ForwardRequest(headers, IndexOf(got, NUL), ip, upstream);
    }
  }

  lemma HeadersOf(s: string)
    requires |s| < BUFF_SIZE
    ensures IndexOf(Filled(s), NUL) == IndexOf(s, NUL)
    ensures Str(Filled(s), 0, IndexOf(s, NUL)) == s[..IndexOf(s, NUL)] && NUL !in s[..IndexOf(s, NUL)]
  {
    hide IndexOf;
    FilledStart(s);
    hide Filled;
    IndexOfFirst(s, NUL);
    IndexOfIs(Filled(s), NUL, IndexOf(s, NUL));
    SameStart(Filled(s), s, IndexOf(s, NUL));
  }

  lemma SameStart(b: string, s: string, z: nat)
    requires z <= |s| <= |b| && b[..|s|] == s
    ensures Str(b, 0, z) == s[..z]
  {
    assert b[..|s|][..z] == b[..z];
  }

  lemma FilledStart(s: string)
    requires |s| < BUFF_SIZE
    ensures Filled(s)[..|s|] == s && Filled(s)[|s|] == NUL && forall i :: 0 <= i < |s| ==> Filled(s)[i] == s[i]
  {
  }
}
