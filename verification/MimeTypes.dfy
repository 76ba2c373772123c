/** The MIME type table (parseMimeTypes.c): a parser that cuts its buffer into strings in place, the format it
    reads, and the lookup by file name (handleGetVerb.c). */
module MimeTypes {
  import opened Options
  import opened Sequences
  import opened Chains
  import opened Text

  datatype Entry = Entry(mimeType: string, extension: string)

  // ---- The parser as a function on the text that is left ----

  function SkipBefore(s: string, blanks: set<char>): (r: string)
    ensures |r| <= |s|
  {
    if s == [] || s[0] !in blanks then s else SkipBefore(s[1..], blanks)
  }

  const LINE_BLANKS: set<char> := {' ', '\n'}
  const GAP_BLANKS: set<char> := {' ', '\t'}

  function Entries(mimeType: string, extensions: seq<string>): (r: seq<Entry>)
    ensures |r| == |extensions| && forall i :: 0 <= i < |r| ==> r[i] == Entry(mimeType, extensions[i])
  {
    seq(|extensions|, i requires 0 <= i < |extensions| => Entry(mimeType, extensions[i]))
  }

  /** parseLine looks for a tab in all of the remaining text before it looks for a space. */
  function TypeEnd(s: string): (k: nat)
    ensures k <= |s|
  {
    if IndexOf(s, '\t') < |s| then IndexOf(s, '\t') else IndexOf(s, ' ')
  }

  function LineOf(s: string): (r: Option<(seq<Entry>, string)>)
    ensures r.Some? ==> |r.value.1| < |s|
  {
    if TypeEnd(s) == |s| then None
    else
      var e := SkipBefore(s[TypeEnd(s) + 1..], GAP_BLANKS);
      var z := IndexOf(e, ';');
      if z == |e| then None
      else Some((Entries(s[..TypeEnd(s)], Split(e[..z], ' ')), e[z + 1..]))
  }

  function Prefixed(es: seq<Entry>, more: Option<seq<Entry>>): Option<seq<Entry>> {
    if more.Some? then Some(es + more.value) else None
  }

  function TableOf(s: string): Option<seq<Entry>>
    decreases |s|
  {
    if s != [] && s[0] == '}' then Some([])
    else
      var t := SkipBefore(s, LINE_BLANKS);
      if t == [] then None
      else if t[0] == '}' then Some([])
      else
        var l := LineOf(t);
        if l == None then None else Prefixed(l.value.0, TableOf(l.value.1))
  }

  /** What the file text yields; None is one of the errors that end the program. */
  function FileOf(s: string): Option<seq<Entry>> {
    if IndexOf(s, '{') < |s| then TableOf(s[IndexOf(s, '{') + 1..]) else None
  }

  // ---- The parser in place ----

  lemma SkipSteps(s: string, k: nat, blanks: set<char>)
    requires k < |s| && s[k] in blanks
    ensures SkipBefore(s[k..], blanks) == SkipBefore(s[k + 1..], blanks)
  {
    assert s[k..][1..] == s[k + 1..];
  }

  lemma SkipStops(s: string, k: nat, blanks: set<char>)
    requires k <= |s| && (k < |s| ==> s[k] !in blanks)
    ensures SkipBefore(s[k..], blanks) == s[k..]
  {
  }

  /** The skipping loops. */
  method SkipBlanks(a: array<char>, p: nat, ghost end: nat, blanks: set<char>) returns (q: nat)
    requires StringAt(a[..], p, end) && NUL !in blanks
    ensures p <= q <= end && Str(a[..], q, end) == SkipBefore(Str(a[..], p, end), blanks)
  {
    hide SkipBefore; hide Str;
    ghost var s := Str(a[..], p, end);
    assert s[0..] == s;
    q := p;
    while a[q] in blanks
      invariant p <= q <= end && SkipBefore(s[q - p..], blanks) == SkipBefore(s, blanks)
      decreases end - q
    {
      CharAt(a[..], p, end, q);
      SkipSteps(s, q - p, blanks);
      q := q + 1;
    }
    if q < end { CharAt(a[..], p, end, q); }
    SkipStops(s, q - p, blanks);
    Tail(a[..], p, q, end);
  }

  /** saveMimeType. */
  method SaveMimeType(a: array<char>, extension: nat, ghost extensionEnd: nat, mimeType: nat, ghost typeEnd: nat,
                      table: ItemList<Entry>)
    requires StringAt(a[..], extension, extensionEnd) && StringAt(a[..], mimeType, typeEnd) && table.Valid()
    requires a !in table.Repr
    modifies table.Repr
    ensures table.Valid() && a !in table.Repr && fresh(table.Repr - old(table.Repr))
    ensures table.items == old(table.items)
        + [Entry(Str(a[..], mimeType, typeEnd), Str(a[..], extension, extensionEnd))]
  {
    hide ItemList.Valid;
    var t := CopyString(a, mimeType, typeEnd);
    var e := CopyString(a, extension, extensionEnd);
    table.Append(Entry(t, e));
  }

  lemma EntriesSplit(mimeType: string, s: string, k: nat)
    requires k == IndexOf(s, ' ') < |s|
    ensures Entries(mimeType, Split(s, ' ')) == [Entry(mimeType, s[..k])] + Entries(mimeType, Split(s[k + 1..], ' '))
  {
    hide IndexOf; hide Entries;
    EntriesCons(mimeType, s[..k], Split(s[k + 1..], ' '));
  }

  lemma EntriesCons(mimeType: string, e: string, es: seq<string>)
    ensures Entries(mimeType, [e] + es) == [Entry(mimeType, e)] + Entries(mimeType, es)
  {
  }

  /** One extension in front of others. */
  method SaveNext(a: array<char>, p: nat, q: nat, ghost end: nat, mimeType: nat, ghost typeEnd: nat,
                  table: ItemList<Entry>)
    requires StringAt(a[..], p, end) && p <= q < end && StringAt(a[..], mimeType, typeEnd) && typeEnd < p
    requires table.Valid() && a !in table.Repr
    modifies a, table.Repr
    ensures table.Valid() && a !in table.Repr && fresh(table.Repr - old(table.Repr))
    ensures SameButFor(a[..], old(a[..]), q, q + 1) && StringAt(a[..], q + 1, end) && StringAt(a[..], mimeType, typeEnd)
    ensures Str(a[..], q + 1, end) == Str(old(a[..]), p, end)[q - p + 1..]
    ensures Str(a[..], mimeType, typeEnd) == Str(old(a[..]), mimeType, typeEnd)
    ensures table.items == old(table.items)
                         + [Entry(Str(old(a[..]), mimeType, typeEnd), Str(old(a[..]), p, end)[..q - p])]
  {
    hide ItemList.Valid; hide Str; hide SameButFor;
    ghost var before := a[..];
    Cut(a, p, q, end);
    SameString(a[..], before, q, q + 1, mimeType, typeEnd);
    SaveMimeType(a, p, q, mimeType, typeEnd, table);
  }

  /** The loop over the extensions of a line. */
  method SaveExtensions(a: array<char>, start: nat, ghost end: nat, mimeType: nat, ghost typeEnd: nat,
                        table: ItemList<Entry>)
    requires StringAt(a[..], start, end) && StringAt(a[..], mimeType, typeEnd) && typeEnd < start
    requires table.Valid() && a !in table.Repr
    modifies a, table.Repr
    ensures table.Valid() && a !in table.Repr && fresh(table.Repr - old(table.Repr))
    ensures SameButFor(a[..], old(a[..]), start, end)
    ensures table.items == old(table.items)
                         + Entries(Str(old(a[..]), mimeType, typeEnd), Split(Str(old(a[..]), start, end), ' '))
  {
    hide ItemList.Valid; hide Entries; hide Split; hide Str; hide SameButFor; hide IndexOf; hide StringAt;
    ghost var before := a[..];
    InBuffer(before, start, end);
    InBuffer(before, mimeType, typeEnd);
    SameAtFirst(before, start, end);
    var p := start;
    ghost var t, all := Str(a[..], mimeType, typeEnd), Str(a[..], start, end);
    var q := Strchr(a, p, end, ' ');
    while q.Some?
      invariant start <= p <= end && StringAt(a[..], p, end) && SameButFor(a[..], before, start, end)
      invariant StringAt(a[..], mimeType, typeEnd) && Str(a[..], mimeType, typeEnd) == t
      invariant table.Valid() && a !in table.Repr && fresh(table.Repr - old(table.Repr))
      invariant q == if p + IndexOf(Str(a[..], p, end), ' ') < end then Some(p + IndexOf(Str(a[..], p, end), ' '))
          else None
      invariant table.items + Entries(t, Split(Str(a[..], p, end), ' '))
             == old(table.items) + Entries(t, Split(all, ' '))
      decreases end - p
    {
      ghost var rest, middle, items := Str(a[..], p, end), a[..], table.items;
      EntriesSplit(t, rest, q.value - p);
      SaveNext(a, p, q.value, end, mimeType, typeEnd, table);
      SameStays(before, middle, a[..], q.value, q.value + 1, start, end);
      AppendAssoc(items, [Entry(t, rest[..q.value - p])], Entries(t, Split(rest[q.value - p + 1..], ' ')));
      p := q.value + 1;
      q := Strchr(a, p, end, ' ');
    }
    EntriesLast(t, Str(a[..], p, end));
    SaveMimeType(a, p, end, mimeType, typeEnd, table);
  }

  lemma EntriesLast(mimeType: string, s: string)
    requires IndexOf(s, ' ') == |s|
    ensures Entries(mimeType, Split(s, ' ')) == [Entry(mimeType, s)]
  {
  }

  /** The end of the type is overwritten. */
  method CutType(a: array<char>, p: nat, ghost end: nat) returns (q: Option<nat>)
    requires StringAt(a[..], p, end)
    modifies a
    ensures var s := Str(old(a[..]), p, end); var k := TypeEnd(s);
      && q == (if k < |s| then Some(p + k) else None)
      && (k < |s| ==>
            && StringAt(a[..], p, p + k) && Str(a[..], p, p + k) == s[..k]
            && StringAt(a[..], p + k + 1, end) && Str(a[..], p + k + 1, end) == s[k + 1..]
            && SameButFor(a[..], old(a[..]), p + k, p + k + 1))
  {
    hide Str; hide SameButFor; hide IndexOf;
    q := Strchr(a, p, end, '\t');
    if q == None {
      q := Strchr(a, p, end, ' ');
      if q == None {
        return;
      }
    }
    Cut(a, p, q.value, end);
  }

  /** parseLine: every NUL it writes is before the position it returns, so the text after that is as it was. */
  method ParseLine(a: array<char>, p: nat, ghost end: nat, table: ItemList<Entry>) returns (ok: bool, next: nat)
    requires StringAt(a[..], p, end) && p < end && table.Valid() && a !in table.Repr
    modifies a, table.Repr
    ensures table.Valid() && a !in table.Repr && fresh(table.Repr - old(table.Repr))
    ensures ok <==> LineOf(Str(old(a[..]), p, end)).Some?
    ensures ok ==> p < next <= end && SameButFor(a[..], old(a[..]), p, next)
    ensures ok ==> StringAt(a[..], next, end) && Str(a[..], next, end) == LineOf(Str(old(a[..]), p, end)).value.1
    ensures ok ==> table.items == old(table.items) + LineOf(Str(old(a[..]), p, end)).value.0
  {
    hide ItemList.Valid; hide Entries; hide Split; hide Str; hide SameButFor; hide IndexOf; hide SkipBefore;
    hide TypeEnd;
    ghost var before := a[..];
    var q := CutType(a, p, end);
    if q == None {
      return false, p;
    }
    var e := SkipBlanks(a, q.value + 1, end, GAP_BLANKS);
    if a[e] == NUL {
      return false, p;
    }
    var z := Strchr(a, e, end, ';');
    if z == None {
      return false, p;
    }
    ghost var middle := a[..];
    CutExtensions(a, p, q.value, e, z.value, end, table);
    SameAtFirst(before, p, z.value + 1);
    SameStays(before, before, middle, q.value, q.value + 1, p, z.value + 1);
    SameStays(before, middle, a[..], e, z.value + 1, p, z.value + 1);
    return true, z.value + 1;
  }

  /** The extensions, up to the `;`, which is overwritten. */
  method CutExtensions(a: array<char>, mimeType: nat, ghost typeEnd: nat, e: nat, z: nat, ghost end: nat,
                       table: ItemList<Entry>)
    requires StringAt(a[..], e, end) && StringAt(a[..], mimeType, typeEnd) && typeEnd < e <= z < end
    requires table.Valid() && a !in table.Repr
    modifies a, table.Repr
    ensures table.Valid() && a !in table.Repr && fresh(table.Repr - old(table.Repr))
    ensures SameButFor(a[..], old(a[..]), e, z + 1)
    ensures StringAt(a[..], z + 1, end) && Str(a[..], z + 1, end) == Str(old(a[..]), e, end)[z - e + 1..]
    ensures table.items == old(table.items)
                         + Entries(Str(old(a[..]), mimeType, typeEnd), Split(Str(old(a[..]), e, end)[..z - e], ' '))
  {
    hide ItemList.Valid; hide Entries; hide Split; hide Str; hide SameButFor;
    ghost var before := a[..];
    Cut(a, e, z, end);
    ghost var last := a[..];
    SameString(last, before, z, z + 1, mimeType, typeEnd);
    SameAtFirst(before, e, z + 1);
    SameStays(before, before, last, z, z + 1, e, z + 1);
    SaveExtensions(a, e, z, mimeType, typeEnd, table);
    SameString(a[..], last, e, z, z + 1, end);
    SameStays(before, last, a[..], e, z, e, z + 1);
  }

  lemma TableFrom(s: string)
    requires s == [] || s[0] != '}'
    ensures var t := SkipBefore(s, LINE_BLANKS);
      && (t == [] ==> TableOf(s) == None)
      && (t != [] && t[0] == '}' ==> TableOf(s) == TableOf(t))
      && (t != [] && t[0] != '}' && LineOf(t).None? ==> TableOf(s) == None)
      && (t != [] && t[0] != '}' && LineOf(t).Some? ==>
            TableOf(s) == Prefixed(LineOf(t).value.0, TableOf(LineOf(t).value.1)))
  {
  }

  lemma PrefixedTwice(done: seq<Entry>, es: seq<Entry>, more: Option<seq<Entry>>)
    ensures Prefixed(done, Prefixed(es, more)) == Prefixed(done + es, more)
  {
    if more.Some? { assert done + (es + more.value) == done + es + more.value; }
  }

  /** One turn of the loop: the line at `p`, if there is one. */
  method ParseNext(a: array<char>, p: nat, ghost end: nat, table: ItemList<Entry>) returns (ok: bool, next: nat,
                                                                                            ghost es: seq<Entry>)
    requires StringAt(a[..], p, end) && a[p] != '}' && table.Valid() && a !in table.Repr
    modifies a, table.Repr
    ensures table.Valid() && a !in table.Repr && fresh(table.Repr - old(table.Repr))
    ensures !ok ==> TableOf(old(Str(a[..], p, end))).None?
    ensures ok ==> StringAt(a[..], next, end) && p <= next && (a[next] != '}' ==> p < next)
    ensures ok ==> TableOf(old(Str(a[..], p, end))) == Prefixed(es, TableOf(Str(a[..], next, end)))
    ensures ok ==> table.items == old(table.items) + es
  {
    hide ItemList.Valid; hide Str; hide SkipBefore; hide LineOf; hide TableOf; hide SameButFor;
    if p < end { CharAt(a[..], p, end, p); }
    TableFrom(Str(a[..], p, end));
    var q := SkipBlanks(a, p, end, LINE_BLANKS);
    if a[q] == NUL {
      return false, q, [];
    }
    CharAt(a[..], q, end, q);
    if a[q] == '}' {
      PrefixNone(TableOf(Str(a[..], q, end)));
      return true, q, [];
    }
    es := if LineOf(Str(a[..], q, end)).Some? then LineOf(Str(a[..], q, end)).value.0 else [];
    ok, next := ParseLine(a, q, end, table);
  }

  lemma PrefixNone(more: Option<seq<Entry>>)
    ensures Prefixed([], more) == more
  {
    if more.Some? { assert [] + more.value == more.value; }
  }

  /** parseMimeTypes on the file's text, read into a buffer with a NUL after it. */
  method ParseMimeTypes(a: array<char>, ghost end: nat, table: ItemList<Entry>) returns (ok: bool)
    requires StringAt(a[..], 0, end) && table.Valid() && a !in table.Repr
    modifies a, table.Repr
    ensures table.Valid() && fresh(table.Repr - old(table.Repr))
    ensures ok <==> FileOf(old(Str(a[..], 0, end))).Some?
    ensures ok ==> table.items == old(table.items) + FileOf(old(Str(a[..], 0, end))).value
  {
    hide ItemList.Valid; hide Str; hide TableOf;
    ghost var text := Str(a[..], 0, end);
    var q := Strchr(a, 0, end, '{');
    if q == None {
      return false;
    }
    var p := q.value + 1;
    ghost var done: seq<Entry> := [];
    Tail(a[..], 0, p, end);
    PrefixNone(TableOf(Str(a[..], p, end)));
    while a[p] != '}'
      invariant StringAt(a[..], p, end) && table.Valid() && a !in table.Repr && fresh(table.Repr - old(table.Repr))
      invariant table.items == old(table.items) + done
      invariant FileOf(text) == Prefixed(done, TableOf(Str(a[..], p, end)))
      decreases end - p, a[p] != '}'
    {
      ghost var es;
      ok, p, es := ParseNext(a, p, end, table);
      if !ok {
        return;
      }
      PrefixedTwice(done, es, TableOf(Str(a[..], p, end)));
      done := done + es;
    }
    CharAt(a[..], p, end, p);
    TableEnds(Str(a[..], p, end));
    return true;
  }

  lemma TableEnds(s: string)
    requires s != [] && s[0] == '}'
    ensures TableOf(s) == Some([])
  {
  }

  // ---- The format ----

  /** A line as it may be laid out: blanks and newlines, a type, blanks or tabs, extensions separated by
      one space, `;`. */
  datatype Line = Line(indent: string, mimeType: string, gap: string, extensions: seq<string>)

  predicate Free(s: string, cs: set<char>) {
    forall i :: 0 <= i < |s| ==> s[i] !in cs
  }

  predicate Only(s: string, cs: set<char>) {
    forall i :: 0 <= i < |s| ==> s[i] in cs
  }

  predicate LineOk(l: Line) {
    && Only(l.indent, {' ', '\n'})
    && l.mimeType != [] && Free(l.mimeType, {' ', '\t', NUL}) && l.mimeType[0] != '\n' && l.mimeType[0] != '}'
    && l.gap != [] && Only(l.gap, {' ', '\t'})
    && l.extensions != []
    && forall i :: 0 <= i < |l.extensions| ==>
         l.extensions[i] != [] && Free(l.extensions[i], {' ', '\t', ';', NUL})
  }

  function Extensions(l: Line): string
    requires l.extensions != []
  {
    Join(l.extensions, ' ')
  }

  predicate TableOk(lines: seq<Line>) {
    forall i :: 0 <= i < |lines| ==> LineOk(lines[i])
  }

  /** The text of the lines, and after them `tail`. */
  function Print(lines: seq<Line>, tail: string): string
    requires TableOk(lines)
  {
    if lines == [] then tail
    else lines[0].indent + Body(lines[0], Print(lines[1..], tail))
  }

  /** A line without its indentation, and what follows it. */
  function Body(l: Line, rest: string): string
    requires LineOk(l)
  {
    l.mimeType + (l.gap + (Extensions(l) + ([';'] + rest)))
  }

  function Flatten(lines: seq<Line>): seq<Entry> {
    if lines == [] then [] else Entries(lines[0].mimeType, lines[0].extensions) + Flatten(lines[1..])
  }

  /** Where a gap starts with a space, no tab may follow anywhere in the file. */
  predicate TabsSafe(lines: seq<Line>, tail: string)
    requires TableOk(lines)
  {
    lines == [] || ((lines[0].gap[0] == ' ' ==> '\t' !in Body(lines[0], Print(lines[1..], tail)))
        && TabsSafe(lines[1..], tail))
  }

  lemma OnlyMeans(s: string, cs: set<char>)
    ensures Only(s, cs) <==> forall c :: c in s ==> c in cs
  {
    assert forall i :: 0 <= i < |s| ==> s[i] in s;
  }

  lemma FreeMeans(s: string, cs: set<char>)
    ensures Free(s, cs) <==> forall c :: c in s ==> c !in cs
  {
    assert forall i :: 0 <= i < |s| ==> s[i] in s;
  }

  /** Which lines those are, and that a table is any sequence of them. */
  lemma LayoutExactly(l: Line, lines: seq<Line>)
    ensures LineOk(l) <==>
            && (forall c :: c in l.indent ==> c == ' ' || c == '\n')
            && l.mimeType != [] && l.mimeType[0] != '\n' && l.mimeType[0] != '}'
            && (forall c :: c in l.mimeType ==> c != ' ' && c != '\t' && c != '\0')
            && l.gap != [] && (forall c :: c in l.gap ==> c == ' ' || c == '\t')
            && l.extensions != [] && [] !in l.extensions
            && (forall e, c :: e in l.extensions && c in e ==> c != ' ' && c != '\t' && c != ';' && c != '\0')
    ensures TableOk([]) && (TableOk([l] + lines) <==> LineOk(l) && TableOk(lines))
  {
    OnlyMeans(l.indent, {' ', '\n'});
    OnlyMeans(l.gap, {' ', '\t'});
    FreeMeans(l.mimeType, {' ', '\t', NUL});
    forall i | 0 <= i < |l.extensions|
      ensures Free(l.extensions[i], {' ', '\t', ';', NUL}) <==>
              forall c :: c in l.extensions[i] ==> c != ' ' && c != '\t' && c != ';' && c != '\0'
    {
      FreeMeans(l.extensions[i], {' ', '\t', ';', NUL});
    }
    hide Free; hide Only;
    assert ([l] + lines)[0] == l && forall i :: 0 <= i < |lines| ==> ([l] + lines)[i + 1] == lines[i];
    hide LineOk;
    assert (TableOk([l] + lines) <==> LineOk(l) && TableOk(lines));
  }

  lemma {:induction false} SkipsBlanks(blanks: string, rest: string, cs: set<char>)
    requires Only(blanks, cs)
    ensures SkipBefore(blanks + rest, cs) == SkipBefore(rest, cs)
  {
    if blanks == [] {
      assert blanks + rest == rest;
    } else {
      assert (blanks + rest)[1..] == blanks[1..] + rest;
      SkipsBlanks(blanks[1..], rest, cs);
    }
  }

  /** Where the type of a line is cut off: after the type if the tab search does not go too far. */
  lemma TypeEndOfBody(l: Line, rest: string)
    requires LineOk(l)
    ensures var s := Body(l, rest);
      if l.gap[0] == ' ' && '\t' in s then TypeEnd(s) > |l.mimeType| && '\t' in s
      else TypeEnd(s) == |l.mimeType|
    ensures |l.mimeType| < |Body(l, rest)|
  {
    var after := l.gap + (Extensions(l) + ([';'] + rest));
    assert Body(l, rest) == l.mimeType + after && after[0] == l.gap[0];
    FirstBeyond(l.mimeType, after, '\t');
    FirstBeyond(l.mimeType, after, ' ');
    IndexOfFirst(after, '\t');
    IndexOfFirst(Body(l, rest), '\t');
    if l.gap[0] == ' ' { IndexOfIs(after, ' ', 0); } else { IndexOfIs(after, '\t', 0); }
  }

  lemma FreeOfJoin(l: Line)
    requires LineOk(l)
    ensures Extensions(l) != [] && Extensions(l)[0] !in GAP_BLANKS && ';' !in Extensions(l)
    ensures Split(Extensions(l), ' ') == l.extensions
  {
    var es := l.extensions;
    assert forall i :: 0 <= i < |es| ==> ' ' !in es[i] && ';' !in es[i];
    JoinAvoids(es, ' ', ';');
    SplitOfJoin(es, ' ');
    assert Extensions(l)[0] == es[0][0];
  }

  /** A line whose type is cut off where it should be. */
  lemma LineOfBody(l: Line, rest: string)
    requires LineOk(l) && TypeEnd(Body(l, rest)) == |l.mimeType|
    ensures LineOf(Body(l, rest)) == Some((Entries(l.mimeType, l.extensions), rest))
  {
    var s, ext := Body(l, rest), Extensions(l) + ([';'] + rest);
    FreeOfJoin(l);
    assert s[..|l.mimeType|] == l.mimeType;
    assert s[|l.mimeType| + 1..] == l.gap[1..] + ext;
    SkipsBlanks(l.gap[1..], ext, GAP_BLANKS);
    assert SkipBefore(ext, GAP_BLANKS) == ext;
    FirstBeyond(Extensions(l), [';'] + rest, ';');
    assert ext[..|Extensions(l)|] == Extensions(l) && ext[|Extensions(l)| + 1..] == rest;
  }

  /** A line whose type is cut off too late has a type with a space in it. */
  lemma LineOfWrongType(s: string, l: Line)
    requires LineOk(l) && TypeEnd(s) > |l.mimeType|
    ensures LineOf(s).Some? ==> LineOf(s).value.0 != [] && LineOf(s).value.0[0].mimeType != l.mimeType
  {
  }

  lemma TableStart(l: Line, rest: string)
    requires LineOk(l)
    ensures TableOf(l.indent + Body(l, rest)) == TableOf(Body(l, rest))
    ensures var t := Body(l, rest); t != [] && t[0] != '}' && SkipBefore(t, LINE_BLANKS) == t
  {
    var t := Body(l, rest);
    assert t[0] == l.mimeType[0];
    SkipsBlanks(l.indent, t, LINE_BLANKS);
    if l.indent != [] {
      assert (l.indent + t)[0] == l.indent[0];
    } else {
      assert l.indent + t == t;
    }
  }

  /** Parsing what was printed gives back the table, exactly when no gap that starts with a space comes before a tab. */
  lemma {:induction false} ParsePrinted(lines: seq<Line>, tail: string)
    requires TableOk(lines) && TableOf(tail) == Some([])
    ensures TableOf(Print(lines, tail)) == Some(Flatten(lines)) <==> TabsSafe(lines, tail)
  {
    if lines != [] {
      var l, rest := lines[0], Print(lines[1..], tail);
      var t := Body(l, rest);
      ParsePrinted(lines[1..], tail);
      TableStart(l, rest);
      TableFrom(t);
      TypeEndOfBody(l, rest);
      if TypeEnd(t) == |l.mimeType| {
        LineOfBody(l, rest);
        PrefixedSame(Entries(l.mimeType, l.extensions), TableOf(rest), Flatten(lines[1..]));
      } else {
        LineOfWrongType(t, l);
        assert Flatten(lines)[0].mimeType == l.mimeType;
        DifferentFirst(TableOf(t), Flatten(lines), l.mimeType);
      }
    }
  }

  lemma DifferentFirst(got: Option<seq<Entry>>, expected: seq<Entry>, mimeType: string)
    requires got.Some? ==> got.value != [] && got.value[0].mimeType != mimeType
    requires expected != [] && expected[0].mimeType == mimeType
    ensures got != Some(expected)
  {
  }

  lemma PrefixedSame(es: seq<Entry>, more: Option<seq<Entry>>, expected: seq<Entry>)
    ensures Prefixed(es, more) == Some(es + expected) <==> more == Some(expected)
  {
    if more.Some? && es + more.value == es + expected {
      assert more.value == (es + more.value)[|es|..] && expected == (es + expected)[|es|..];
    }
  }

  /** A whole file: some text up to the brace, the lines, blanks, the closing brace, and anything after it. */
  lemma FileRoundTrip(header: string, lines: seq<Line>, blanks: string, trailer: string)
    requires '{' !in header && TableOk(lines) && Only(blanks, {' ', '\n'})
    ensures var tail := blanks + (['}'] + trailer);
      FileOf(header + ['{'] + Print(lines, tail)) == Some(Flatten(lines)) <==> TabsSafe(lines, tail)
  {
    var tail := blanks + (['}'] + trailer);
    SkipsBlanks(blanks, ['}'] + trailer, LINE_BLANKS);
    assert SkipBefore(['}'] + trailer, LINE_BLANKS) == ['}'] + trailer;
    assert TableOf(tail) == Some([]);
    ParsePrinted(lines, tail);
    var s := header + ['{'] + Print(lines, tail);
    FirstAfter(header, '{', Print(lines, tail));
    assert s[|header| + 1..] == Print(lines, tail);
    assert s[|header|] == '{';
  }

  // ---- Lookup by file name ----

  /** strrchr: the position of the last `c`; -1 if there is none. */
  function LastIndexOf(s: string, c: char): (k: int)
    ensures -1 <= k < |s| && (k >= 0 ==> s[k] == c) && forall i :: k < i < |s| ==> s[i] != c
  {
    if s == [] then -1 else if s[|s| - 1] == c then |s| - 1 else LastIndexOf(s[..|s| - 1], c)
  }

  /** The type of the first entry with this extension, or the default. */
  ghost predicate FirstFor(items: seq<Entry>, extension: string, mimeType: string, default: string) {
    || (mimeType == default && forall i :: 0 <= i < |items| ==> items[i].extension != extension)
    || exists k :: 0 <= k < |items| && items[k] == Entry(mimeType, extension)
        && forall i :: 0 <= i < k ==> items[i].extension != extension
  }

  lemma FirstForAt(items: seq<Entry>, k: nat, default: string)
    requires k < |items| && forall i :: 0 <= i < k ==> items[i].extension != items[k].extension
    ensures FirstFor(items, items[k].extension, items[k].mimeType, default)
  {
    assert items[k] == Entry(items[k].mimeType, items[k].extension);
  }

  lemma NoneFor(items: seq<Entry>, extension: string, default: string)
    requires forall i :: 0 <= i < |items| ==> items[i].extension != extension
    ensures FirstFor(items, extension, default, default)
  {
  }

  /** getMimeType. */
  method GetMimeType(name: string, list: AppendList<Entry>, ghost items: seq<Entry>,
                     default: string) returns (mimeType: string)
    requires list.Valid() && Holds(list.nodes, items)
    ensures LastIndexOf(name, '.') < 0 ==> mimeType == default
    ensures LastIndexOf(name, '.') >= 0 ==> FirstFor(items, name[LastIndexOf(name, '.') + 1..], mimeType, default)
  {
    hide FirstFor;
    mimeType := default;
    var dot := LastIndexOf(name, '.');
    if dot >= 0 {
      var mt := list.head;
      ghost var k := 0;
      while mt != null
        invariant k <= |list.nodes| && mt == NodeAt(list.nodes, k) && mimeType == default
        invariant forall i :: 0 <= i < k ==> items[i].extension != name[dot + 1..]
        decreases |list.nodes| - k
      {
        if mt.data.extension == name[dot + 1..] {
          FirstForAt(items, k, default);
          return mt.data.mimeType;
        }
        mt := mt.next;
        k := k + 1;
      }
      NoneFor(items, name[dot + 1..], default);
    }
  }

  /** The first line of a table that has this extension; |lines| if none has. */
  function LineFor(lines: seq<Line>, extension: string): (k: nat)
    ensures k <= |lines|
  {
    if lines == [] || extension in lines[0].extensions then 0 else 1 + LineFor(lines[1..], extension)
  }

  /** In the entries of a table, the first one for an extension comes from the first line that has it. */
  lemma {:induction false} FirstEntryIsOfFirstLine(lines: seq<Line>, extension: string, mimeType: string,
                                                   default: string)
    requires FirstFor(Flatten(lines), extension, mimeType, default)
    ensures mimeType == if LineFor(lines, extension) < |lines| then lines[LineFor(lines, extension)].mimeType
        else default
  {
    if lines != [] {
      var l, more := lines[0], Flatten(lines[1..]);
      var es := Entries(l.mimeType, l.extensions);
      assert Flatten(lines) == es + more;
      if extension in l.extensions {
        var i :| 0 <= i < |l.extensions| && l.extensions[i] == extension;
        assert (es + more)[i] == Entry(l.mimeType, extension);
        FirstOfFront(es, more, l.mimeType, extension, mimeType, default);
      } else {
        FirstOfRest(es, more, extension, mimeType, default);
        FirstEntryIsOfFirstLine(lines[1..], extension, mimeType, default);
      }
    }
  }

  lemma FirstOfFront(es: seq<Entry>, more: seq<Entry>, t: string, extension: string, mimeType: string, default: string)
    requires forall i :: 0 <= i < |es| ==> es[i].mimeType == t
    requires exists i :: 0 <= i < |es| && (es + more)[i].extension == extension
    requires FirstFor(es + more, extension, mimeType, default)
    ensures mimeType == t
  {
    var k :| 0 <= k < |es + more| && (es + more)[k] == Entry(mimeType, extension)
          && forall i :: 0 <= i < k ==> (es + more)[i].extension != extension;
    assert (es + more)[k] == es[k];
  }

  lemma FirstOfRest(es: seq<Entry>, more: seq<Entry>, extension: string, mimeType: string, default: string)
    requires forall i :: 0 <= i < |es| ==> es[i].extension != extension
    requires FirstFor(es + more, extension, mimeType, default)
    ensures FirstFor(more, extension, mimeType, default)
  {
    var all := es + more;
    assert forall i :: 0 <= i < |more| ==> all[|es| + i] == more[i];
    if exists k :: 0 <= k < |all| && all[k] == Entry(mimeType, extension)
        && forall i :: 0 <= i < k ==> all[i].extension != extension {
      var k :| 0 <= k < |all| && all[k] == Entry(mimeType, extension)
          && forall i :: 0 <= i < k ==> all[i].extension != extension;
      assert k >= |es| && more[k - |es|] == Entry(mimeType, extension);
    }
  }
}
