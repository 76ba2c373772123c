/** NUL-terminated strings inside a character buffer, and the functions of string.h that the parsers use. */
module Text {
  import opened Options

  const NUL: char := '\0'

  /** The position of the first `c`; |s| if there is none. */
  function IndexOf(s: string, c: char): (k: nat)
    ensures k <= |s|
  {
    if s == [] || s[0] == c then 0 else 1 + IndexOf(s[1..], c)
  }

  lemma {:induction false} IndexOfFirst(s: string, c: char)
    ensures var k := IndexOf(s, c);
      && (k < |s| ==> s[k] == c) && (k < |s| <==> c in s)
      && forall i :: 0 <= i < k ==> s[i] != c
  {
    if s != [] && s[0] != c {
      IndexOfFirst(s[1..], c);
      assert s == [s[0]] + s[1..];
    }
  }

  lemma IndexOfIs(s: string, c: char, k: nat)
    requires k <= |s| && (k < |s| ==> s[k] == c) && forall i :: 0 <= i < k ==> s[i] != c
    ensures IndexOf(s, c) == k
  {
    IndexOfFirst(s, c);
  }

  // ---- Strings in a buffer ----

  /** The buffer holds a string from `p` that ends with the NUL at `end`. */
  predicate StringAt(b: seq<char>, p: nat, end: nat) {
    p <= end < |b| && b[end] == NUL && forall i :: p <= i < end ==> b[i] != NUL
  }

  function Str(b: seq<char>, p: nat, end: nat): (s: string)
    requires p <= end <= |b|
    ensures |s| == end - p
  {
    b[p..end]
  }

  lemma CharAt(b: seq<char>, p: nat, end: nat, i: nat)
    requires p <= i < end <= |b|
    ensures b[i] == Str(b, p, end)[i - p]
  {
  }

  lemma Tail(b: seq<char>, p: nat, q: nat, end: nat)
    requires p <= q <= end <= |b|
    ensures Str(b, q, end) == Str(b, p, end)[q - p..]
  {
  }

  /** Nothing outside from..to differs. */
  predicate SameButFor(now: seq<char>, before: seq<char>, from: nat, to: nat) {
    |now| == |before| && forall i :: 0 <= i < |now| && !(from <= i < to) ==> now[i] == before[i]
  }

  lemma SameAtFirst(b: seq<char>, from: nat, to: nat)
    ensures SameButFor(b, b, from, to)
  {
  }

  lemma SameStays(before: seq<char>, middle: seq<char>, now: seq<char>, f: nat, t: nat, from: nat, to: nat)
    requires SameButFor(middle, before, from, to) && SameButFor(now, middle, f, t) && from <= f && t <= to
    ensures SameButFor(now, before, from, to)
  {
  }

  /** A string that does not reach into the changed part is as it was. */
  lemma SameString(now: seq<char>, before: seq<char>, from: nat, to: nat, p: nat, end: nat)
    requires SameButFor(now, before, from, to) && StringAt(before, p, end) && (end < from || to <= p)
    ensures StringAt(now, p, end) && Str(now, p, end) == Str(before, p, end)
  {
  }

  /** strchr; None is a null pointer. */
  method Strchr(a: array<char>, p: nat, ghost end: nat, c: char) returns (q: Option<nat>)
    requires StringAt(a[..], p, end) && c != NUL
    ensures var k := IndexOf(Str(a[..], p, end), c); q == if p + k < end then Some(p + k) else None
    ensures q.Some? ==> p <= q.value < end
  {
    var i := p;
    while a[i] != NUL
      invariant p <= i <= end && forall j :: p <= j < i ==> a[j] != c
      decreases end - i
    {
      if a[i] == c {
        IndexOfIs(a[..][p..end], c, i - p);
        return Some(i);
      }
      i := i + 1;
    }
    IndexOfIs(a[..][p..end], c, end - p);
    return None;
  }

  lemma CutString(b: seq<char>, p: nat, q: nat, end: nat)
    requires StringAt(b, p, end) && p <= q < end
    ensures var c := b[q := NUL];
      && StringAt(c, p, q) && StringAt(c, q + 1, end) && SameButFor(c, b, q, q + 1)
      && Str(c, p, q) == Str(b, p, end)[..q - p] && Str(c, q + 1, end) == Str(b, p, end)[q - p + 1..]
  {
  }

  /** End the string at `p` at position `q`; the rest of it is the string after `q`. */
  method Cut(a: array<char>, p: nat, q: nat, ghost end: nat)
    requires StringAt(a[..], p, end) && p <= q < end
    modifies a
    ensures StringAt(a[..], p, q) && StringAt(a[..], q + 1, end)
    ensures Str(a[..], p, q) == old(Str(a[..], p, end))[..q - p]
    ensures Str(a[..], q + 1, end) == old(Str(a[..], p, end))[q - p + 1..]
    ensures SameButFor(a[..], old(a[..]), q, q + 1)
  {
    hide StringAt; hide Str; hide SameButFor;
    ghost var before := a[..];
    InBuffer(before, p, end);
    CutString(before, p, q, end);
    a[q] := NUL;
    assert a[..] == before[q := NUL];
  }

  lemma InBuffer(b: seq<char>, p: nat, end: nat)
    requires StringAt(b, p, end)
    ensures p <= end < |b|
  {
  }

  /** strcpy out of the buffer. */
  method CopyString(a: array<char>, p: nat, ghost end: nat) returns (s: string)
    requires StringAt(a[..], p, end)
    ensures s == Str(a[..], p, end)
  {
    s := [];
    var i := p;
    while a[i] != NUL
      invariant p <= i <= end && s == a[..][p..i]
      decreases end - i
    {
      s := s + [a[i]];
      i := i + 1;
    }
  }

  // ---- Splitting and joining ----

  /** The pieces of `s` between occurrences of `c`. */
  function Split(s: string, c: char): (r: seq<string>)
    ensures r != []
    decreases |s|
  {
    var k := IndexOf(s, c);
    if k == |s| then [s] else [s[..k]] + Split(s[k + 1..], c)
  }

  function Join(pieces: seq<string>, c: char): string
    requires pieces != []
  {
    if |pieces| == 1 then pieces[0] else pieces[0] + [c] + Join(pieces[1..], c)
  }

  lemma {:induction false} SplitOfJoin(pieces: seq<string>, c: char)
    requires pieces != [] && forall i :: 0 <= i < |pieces| ==> c !in pieces[i]
    ensures Split(Join(pieces, c), c) == pieces
    decreases |pieces|
  {
    if |pieces| == 1 {
      IndexOfIs(pieces[0], c, |pieces[0]|);
    } else {
      SplitOfJoin(pieces[1..], c);
      SplitOnce(pieces[0], c, Join(pieces[1..], c));
    }
  }

  lemma SplitOnce(piece: string, c: char, rest: string)
    requires c !in piece
    ensures Split(piece + [c] + rest, c) == [piece] + Split(rest, c)
  {
    var s := piece + [c] + rest;
    FirstAfter(piece, c, rest);
    assert s[..|piece|] == piece && s[|piece| + 1..] == rest;
  }

  lemma {:induction false} JoinAvoids(pieces: seq<string>, c: char, x: char)
    requires pieces != [] && x != c && forall i :: 0 <= i < |pieces| ==> x !in pieces[i]
    ensures x !in Join(pieces, c)
    decreases |pieces|
  {
    if |pieces| > 1 {
      JoinAvoids(pieces[1..], c, x);
    }
  }

  /** The first `c` of a text whose part before it has none. */
  lemma FirstAfter(before: string, c: char, after: string)
    requires c !in before
    ensures IndexOf(before + [c] + after, c) == |before|
  {
    IndexOfIs(before + [c] + after, c, |before|);
  }

  lemma FirstBeyond(before: string, after: string, c: char)
    requires c !in before
    ensures IndexOf(before + after, c) == |before| + IndexOf(after, c)
    ensures c in before + after <==> c in after
  {
    IndexOfFirst(after, c);
    IndexOfIs(before + after, c, |before| + IndexOf(after, c));
  }

  // ---- Numbers ----

  predicate IsDigit(c: char) {
    '0' <= c <= '9'
  }

  predicate IsSpace(c: char) {
    c == ' ' || '\t' <= c <= '\r'
  }

  function Digits(s: string, acc: int): int
    decreases |s|
  {
    if s == [] || !IsDigit(s[0]) then acc else Digits(s[1..], 10 * acc + (s[0] as int - '0' as int))
  }

  /** atoi, on unbounded integers. */
  function Atoi(s: string): int
    decreases |s|
  {
    if s == [] then 0
    else if IsSpace(s[0]) then Atoi(s[1..])
    else if s[0] == '-' then -Digits(s[1..], 0)
    else if s[0] == '+' then Digits(s[1..], 0)
    else Digits(s, 0)
  }

  /** A number as it is written. */
  function Decimal(n: nat): (s: string)
    ensures s != []
  {
    if n < 10 then ["0123456789"[n]] else Decimal(n / 10) + ["0123456789"[n % 10]]
  }

  lemma DigitAt(d: nat)
    requires d < 10
    ensures var c := "0123456789"[d]; IsDigit(c) && c as int - '0' as int == d
  {
  }

  lemma {:induction false} DigitsAppend(s: string, more: string, acc: int)
    requires forall i :: 0 <= i < |s| ==> IsDigit(s[i])
    ensures Digits(s + more, acc) == Digits(more, Digits(s, acc))
    decreases |s|
  {
    if s == [] {
      assert s + more == more;
    } else {
      assert (s + more)[1..] == s[1..] + more;
      DigitsAppend(s[1..], more, 10 * acc + (s[0] as int - '0' as int));
    }
  }

  lemma {:induction false} DigitsOfDecimal(n: nat)
    ensures forall i :: 0 <= i < |Decimal(n)| ==> '0' <= Decimal(n)[i] <= '9'
    ensures Digits(Decimal(n), 0) == n
  {
    DigitAt(n % 10);
    var last := ["0123456789"[n % 10]];
    assert last[1..] == [];
    if n >= 10 {
      DigitsOfDecimal(n / 10);
      DigitsAppend(Decimal(n / 10), last, 0);
    }
  }

  lemma {:induction false} AtoiSkips(blanks: string, t: string)
    requires forall i :: 0 <= i < |blanks| ==> blanks[i] in {' ', '\t', '\n', '\r'}
    ensures Atoi(blanks + t) == Atoi(t)
    decreases |blanks|
  {
    if blanks == [] {
      assert blanks + t == t;
    } else {
      assert (blanks + t)[1..] == blanks[1..] + t;
      AtoiSkips(blanks[1..], t);
    }
  }

  lemma AtoiOfNumber(number: string, n: nat)
    requires number != [] && IsDigit(number[0]) && Digits(number, 0) == n
    ensures Atoi(number) == Atoi(['+'] + number) == n && Atoi(['-'] + number) + n == 0
  {
    Tails('+', number);
    Tails('-', number);
  }

  lemma Tails(c: char, s: string)
    ensures ([c] + s)[1..] == s
  {
  }

  /** Reading a written number gives it back, whatever blanks stand in front of it and whatever but a digit behind. */
  lemma AtoiReads(blanks: string, n: nat, more: string)
    requires forall i :: 0 <= i < |blanks| ==> blanks[i] in {' ', '\t', '\n', '\r'}
    requires more == [] || !('0' <= more[0] <= '9')
    ensures Atoi(blanks + (Decimal(n) + more)) == n
    ensures Atoi(blanks + (['+'] + (Decimal(n) + more))) == n
    ensures Atoi(blanks + (['-'] + (Decimal(n) + more))) + n == 0
  {
    hide Atoi; hide Decimal;
    var number := Decimal(n) + more;
    DigitsOfDecimal(n);
    DigitsAppend(Decimal(n), more, 0);
    assert number[0] == Decimal(n)[0];
    AtoiOfNumber(number, n);
    AtoiSkips(blanks, number);
    AtoiSkips(blanks, ['+'] + number);
    AtoiSkips(blanks, ['-'] + number);
  }

  /** A text that starts with neither a number nor a sign nor a blank reads as zero. */
  lemma AtoiOfText(s: string)
    requires s == [] || (s[0] > ' ' && s[0] != '+' && s[0] != '-' && !('0' <= s[0] <= '9'))
    ensures Atoi(s) == 0
  {
  }
}
