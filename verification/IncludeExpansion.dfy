/** Expanding the `include` lines of a configuration file (expandIncludeFiles.c). */
module IncludeExpansion {
  import opened Options
  import opened Sequences
  import opened Text

  type Files = map<string, string>

  const INCLUDE: string := "include"

  // ---- One line ----

  /** Where the first line ends, its newline included. */
  function LineEnd(s: string): (k: nat)
    ensures k <= |s| && (s != [] ==> k > 0)
  {
    if IndexOf(s, '\n') < |s| then IndexOf(s, '\n') + 1 else |s|
  }

  function SkipBlanks(s: string): (r: string)
    ensures |r| <= |s|
  {
    if s == [] || (s[0] != ' ' && s[0] != '\t') then s else SkipBlanks(s[1..])
  }

  /** What the string functions see of a line. */
  function Visible(line: string): string {
    line[..IndexOf(line, NUL)]
  }

  predicate IsInclude(line: string) {
    INCLUDE <= SkipBlanks(Visible(line))
  }

  /** The path an include line names; None without a semicolon. */
  function PathOf(line: string, dir: string): Option<string>
    requires IsInclude(line)
  {
    var file := SkipBlanks(SkipBlanks(Visible(line))[|INCLUDE|..]);
    var k := IndexOf(file, ';');
    if k == |file| then None
    else Some(if k > 0 && file[0] == '/' then file[..k] else dir + file[..k])
  }

  /** The file an include line brings in; None if it is ignored. */
  function Included(files: Files, dir: string, line: string): Option<string>
    requires IsInclude(line)
  {
    var path := PathOf(line, dir);
    if path.Some? && path.value in files then path else None
  }

  // ---- All lines ----

  ghost predicate LineBelow(files: Files, dir: string, rank: string -> nat, line: string, r: nat) {
    IsInclude(line) && Included(files, dir, line).Some? ==> rank(Included(files, dir, line).value) < r
  }

  /** The include lines of a text bring in only files ranked below r. */
  ghost predicate Below(files: Files, dir: string, rank: string -> nat, s: string, r: nat)
    decreases |s|
  {
    s == [] || (LineBelow(files, dir, rank, s[..LineEnd(s)], r) && Below(files, dir, rank, s[LineEnd(s)..], r))
  }

  /** The files do not include each other in a circle: each can be ranked above the files it includes. */
  ghost predicate Acyclic(files: Files, dir: string, rank: string -> nat) {
    forall p :: p in files ==> Below(files, dir, rank, files[p], rank(p))
  }

  /** The text with every include line replaced by the expansion of its file, and ignored ones dropped. */
  ghost function Flatten(files: Files, dir: string, rank: string -> nat, s: string, r: nat): string
    requires Acyclic(files, dir, rank) && Below(files, dir, rank, s, r)
    decreases r, |s|
  {
    if s == [] then [] else OfLine(files, dir, rank, s[..LineEnd(s)], r) + Flatten(files, dir, rank, s[LineEnd(s)..], r)
  }

  ghost function OfLine(files: Files, dir: string, rank: string -> nat, line: string, r: nat): string
    requires Acyclic(files, dir, rank) && LineBelow(files, dir, rank, line, r)
    decreases r, 0
  {
    if !IsInclude(line) then Visible(line)
    else if Included(files, dir, line).None? then []
    else
      var p := Included(files, dir, line).value;
      Flatten(files, dir, rank, files[p], rank(p))
  }

  /** The expansion does not depend on how the files are ranked. */
  lemma {:induction false} RankDoesNotMatter(files: Files, dir: string, rank: string -> nat, other: string -> nat,
                                             s: string, r: nat, q: nat)
    requires Acyclic(files, dir, rank) && Below(files, dir, rank, s, r)
    requires Acyclic(files, dir, other) && Below(files, dir, other, s, q)
    ensures Flatten(files, dir, rank, s, r) == Flatten(files, dir, other, s, q)
    decreases r, |s|
  {
    if s != [] {
      var line := s[..LineEnd(s)];
      if IsInclude(line) && Included(files, dir, line).Some? {
        var p := Included(files, dir, line).value;
        RankDoesNotMatter(files, dir, rank, other, files[p], rank(p), other(p));
      }
      RankDoesNotMatter(files, dir, rank, other, s[LineEnd(s)..], r, q);
    }
  }

  // ---- Rankings ----

  /** The files that the include lines of a text bring in. */
  ghost function BroughtIn(files: Files, dir: string, s: string): (r: set<string>)
    ensures r <= files.Keys
    decreases |s|
  {
    if s == [] then {}
    else
      var line := s[..LineEnd(s)];
      BroughtIn(files, dir, s[LineEnd(s)..])
      + if IsInclude(line) && Included(files, dir, line).Some? then {Included(files, dir, line).value} else {}
  }

  lemma {:induction false} BelowMeans(files: Files, dir: string, rank: string -> nat, s: string, r: nat)
    ensures Below(files, dir, rank, s, r) <==> forall q :: q in BroughtIn(files, dir, s) ==> rank(q) < r
    decreases |s|
  {
    if s != [] {
      hide IsInclude; hide Included; hide LineEnd;
      BelowMeans(files, dir, rank, s[LineEnd(s)..], r);
    }
  }

  /** Each file on the path brings in the next one. */
  ghost predicate Path(files: Files, dir: string, path: seq<string>) {
    && |path| >= 2 && path[0] in files
    && forall i :: 0 <= i < |path| - 1 ==> path[i] in files && path[i + 1] in BroughtIn(files, dir, files[path[i]])
  }

  ghost predicate Reaches(files: Files, dir: string, p: string, q: string) {
    exists path :: Path(files, dir, path) && path[0] == p && path[|path| - 1] == q
  }

  ghost predicate Circular(files: Files, dir: string) {
    exists p :: p in files && Reaches(files, dir, p, p)
  }

  ghost function Reachable(files: Files, dir: string, p: string): set<string> {
    set x | x in files.Keys && Reaches(files, dir, p, x)
  }

  /** How many files a file reaches. */
  ghost function ReachRank(files: Files, dir: string): string -> nat {
    p => |Reachable(files, dir, p)|
  }

  lemma ReachesNext(files: Files, dir: string, p: string, q: string)
    requires p in files && q in BroughtIn(files, dir, files[p])
    ensures Reaches(files, dir, p, q) && Reachable(files, dir, q) <= Reachable(files, dir, p)
  {
    assert Path(files, dir, [p, q]) && [p, q][0] == p && [p, q][|[p, q]| - 1] == q;
    forall x | x in Reachable(files, dir, q) ensures x in Reachable(files, dir, p) {
      var path :| Path(files, dir, path) && path[0] == q && path[|path| - 1] == x;
      var longer := [p] + path;
      forall i | 0 <= i < |longer| - 1
        ensures longer[i] in files && longer[i + 1] in BroughtIn(files, dir, files[longer[i]])
      {
        if i > 0 { assert longer[i] == path[i - 1] && longer[i + 1] == path[i]; }
      }
      assert Path(files, dir, longer) && longer[0] == p && longer[|longer| - 1] == x;
    }
  }

  lemma Smaller<T>(a: set<T>, b: set<T>)
    requires a < b
    ensures |a| < |b|
  {
    assert b == a + (b - a) && |b| == |a| + |b - a|;
  }

  /** Without a circle, a file reaches more files than any file it brings in. */
  lemma ReachRanks(files: Files, dir: string)
    requires !Circular(files, dir)
    ensures Acyclic(files, dir, ReachRank(files, dir))
  {
    var rank := ReachRank(files, dir);
    forall p | p in files ensures Below(files, dir, rank, files[p], rank(p)) {
      forall q | q in BroughtIn(files, dir, files[p]) ensures rank(q) < rank(p) {
        ReachesNext(files, dir, p, q);
        assert q in Reachable(files, dir, p) && q !in Reachable(files, dir, q);
        Smaller(Reachable(files, dir, q), Reachable(files, dir, p));
      }
      BelowMeans(files, dir, rank, files[p], rank(p));
    }
  }

  lemma {:induction false} RankFalls(files: Files, dir: string, rank: string -> nat, path: seq<string>)
    requires Acyclic(files, dir, rank) && Path(files, dir, path)
    ensures rank(path[|path| - 1]) < rank(path[0])
    decreases |path|
  {
    var n := |path| - 1;
    BelowMeans(files, dir, rank, files[path[n - 1]], rank(path[n - 1]));
    if n > 1 {
      RankFalls(files, dir, rank, path[..n]);
    }
  }

  /** A ranking exists exactly when no file brings itself in, directly or through others. */
  lemma RankingExists(files: Files, dir: string)
    ensures (exists rank: string -> nat :: Acyclic(files, dir, rank)) <==> !Circular(files, dir)
  {
    if Circular(files, dir) {
      var p :| p in files && Reaches(files, dir, p, p);
      var path :| Path(files, dir, path) && path[0] == p && path[|path| - 1] == p;
      forall rank: string -> nat ensures !Acyclic(files, dir, rank) {
        if Acyclic(files, dir, rank) { RankFalls(files, dir, rank, path); }
      }
    } else {
      ReachRanks(files, dir);
    }
  }

  /** And then every text has a bound. */
  lemma EveryTextIsBelow(files: Files, dir: string, s: string)
    ensures Below(files, dir, ReachRank(files, dir), s, |files.Keys| + 1)
  {
    var rank := ReachRank(files, dir);
    forall q | q in BroughtIn(files, dir, s) ensures rank(q) < |files.Keys| + 1 {
      var some := Reachable(files, dir, q);
      if some != files.Keys { Smaller(some, files.Keys); }
    }
    BelowMeans(files, dir, rank, s, |files.Keys| + 1);
  }

  // ---- expandFile ----

  class OutFile {
    var text: string

    constructor ()
      ensures text == []
    {
      text := [];
    }

    /** fputs. */
    method Put(s: string)
      modifies this
      ensures text == old(text) + s
    {
      text := text + s;
    }
  }

  /** getline from a position in the file. */
  method GetLine(s: string, pos: nat) returns (line: string, next: nat)
    requires pos < |s|
    ensures pos < next <= |s| && next == pos + LineEnd(s[pos..]) && line == s[pos..][..LineEnd(s[pos..])]
  {
    next := pos;
    while next < |s| && s[next] != '\n'
      invariant pos <= next <= |s| && forall i :: pos <= i < next ==> s[i] != '\n'
    {
      next := next + 1;
    }
    IndexOfIs(s[pos..], '\n', next - pos);
    if next < |s| {
      next := next + 1;
    }
    line := s[pos..next];
  }

  /** expandFile. The rank is what makes the recursion end. */
  method ExpandFile(files: Files, dir: string, input: string, out: OutFile, ghost rank: string -> nat, ghost r: nat)
    requires Acyclic(files, dir, rank) && Below(files, dir, rank, input, r)
    modifies out
    ensures out.text == old(out.text) + Flatten(files, dir, rank, input, r)
    decreases r, 1
  {
    hide IsInclude; hide Included; hide Visible; hide LineEnd;
    var pos := 0;
    ghost var done: string := [];
    assert input[0..] == input;
    while pos < |input|
      invariant 0 <= pos <= |input| && out.text == old(out.text) + done
      invariant Below(files, dir, rank, input[pos..], r)
      invariant done + Flatten(files, dir, rank, input[pos..], r) == Flatten(files, dir, rank, input, r)
    {
      ghost var before := pos;
      var line;
      line, pos := GetLine(input, pos);
      assert input[before..][LineEnd(input[before..])..] == input[pos..];
      PutLine(files, dir, line, out, rank, r);
      done := done + OfLine(files, dir, rank, line, r);
    }
  }

  /** The body of the loop. */
  method PutLine(files: Files, dir: string, line: string, out: OutFile, ghost rank: string -> nat, ghost r: nat)
    requires Acyclic(files, dir, rank) && LineBelow(files, dir, rank, line, r)
    modifies out
    ensures out.text == old(out.text) + OfLine(files, dir, rank, line, r)
    decreases r, 0
  {
    if IsInclude(line) {
      var path := Included(files, dir, line);
      if path.Some? {
        ExpandFile(files, dir, files[path.value], out, rank, rank(path.value));
      }
    } else {
      out.Put(Visible(line));
    }
  }

  // ---- Printed lines ----

  predicate Blanks(b: string) {
    forall i :: 0 <= i < |b| ==> b[i] == ' ' || b[i] == '\t'
  }

  predicate Unindented(x: string) {
    x == [] || (x[0] != ' ' && x[0] != '\t')
  }

  lemma {:induction false} BlanksSkipped(b: string, x: string)
    requires Blanks(b) && Unindented(x)
    ensures SkipBlanks(b + x) == x
  {
    if b == [] {
      assert b + x == x;
    } else {
      assert (b + x)[1..] == b[1..] + x;
      BlanksSkipped(b[1..], x);
    }
  }

  /** A line without its newline, the newline, which only a last line may lack, and what follows. */
  predicate LineAt(line: string, end: string, rest: string) {
    '\n' !in line && NUL !in line && (end == "\n" || end + rest == [])
  }

  lemma LineIsFirst(line: string, end: string, rest: string)
    requires LineAt(line, end, rest) && line + end != []
    ensures var s := line + end + rest; s[..LineEnd(s)] == line + end && s[LineEnd(s)..] == rest
    ensures Visible(line + end) == line + end
  {
    var s := line + end + rest;
    IndexOfIs(s, '\n', |line|);
    IndexOfIs(line + end, NUL, |line + end|);
    assert s[..|line + end|] == line + end && s[|line + end|..] == rest;
  }

  /** Where an include line gets its text from, read off its parts. */
  lemma IncludeParts(indent: string, gap: string, file: string, after: string, end: string, dir: string)
    requires Blanks(indent) && Blanks(gap) && Unindented(file) && ';' !in file
    requires var line := indent + ("include" + (gap + (file + ([';'] + after)))) + end; Visible(line) == line
    ensures var line := indent + ("include" + (gap + (file + ([';'] + after)))) + end;
      IsInclude(line) && PathOf(line, dir) == Some(if file != [] && file[0] == '/' then file else dir + file)
  {
    hide Visible;
    var tail := file + ([';'] + after) + end;
    var word := "include" + (gap + (file + ([';'] + after)));
    AppendAssoc(indent, word, end);
    BlanksSkipped(indent, word + end);
    assert word + end == "include" + (gap + tail);
    Behind("include", gap + tail);
    assert tail == file + ([';'] + (after + end));
    BlanksSkipped(gap, tail);
    IndexOfIs(tail, ';', |file|);
    assert tail[..|file|] == file;
  }

  lemma WithoutSemicolon(indent: string, more: string, end: string, dir: string)
    requires Blanks(indent) && ';' !in more && (end == "\n" || end == [])
    requires Visible(indent + ("include" + more) + end) == indent + ("include" + more) + end
    ensures IsInclude(indent + ("include" + more) + end) && PathOf(indent + ("include" + more) + end, dir) == None
  {
    hide Visible;
    AppendAssoc(indent, "include" + more, end);
    AppendAssoc("include", more, end);
    BlanksSkipped(indent, "include" + (more + end));
    Behind("include", more + end);
    var file := SkipBlanks(more + end);
    SkipBlanksIsSuffix(more + end);
    assert ';' !in more + end;
    IndexOfIs(file, ';', |file|);
  }

  lemma {:induction false} SkipBlanksIsSuffix(s: string)
    ensures forall c :: c in SkipBlanks(s) ==> c in s
  {
    if s != [] && (s[0] == ' ' || s[0] == '\t') { SkipBlanksIsSuffix(s[1..]); }
  }

  /** An include line stands for the expansion of the file it names: the path as it is if it is absolute, otherwise
      the one in the directory; and for nothing if there is no such file. */
  lemma IncludeLine(files: Files, dir: string, rank: string -> nat, indent: string, gap: string, file: string,
                    after: string, end: string, rest: string, r: nat)
    requires Blanks(indent) && Blanks(gap) && Unindented(file) && ';' !in file
    requires var line := indent + ("include" + (gap + (file + ([';'] + after))));
      LineAt(line, end, rest) && Acyclic(files, dir, rank) && Below(files, dir, rank, line + end + rest, r)
    ensures var s := indent + ("include" + (gap + (file + ([';'] + after)))) + end + rest;
      var path := if file != [] && file[0] == '/' then file else dir + file;
      && (path in files ==> rank(path) < r) && Below(files, dir, rank, rest, r)
      && Flatten(files, dir, rank, s, r)
         == (if path in files then Flatten(files, dir, rank, files[path], rank(path)) else [])
            + Flatten(files, dir, rank, rest, r)
  {
    var line := indent + ("include" + (gap + (file + ([';'] + after))));
    assert line + end != [] by { assert |line| >= |"include" + (gap + (file + ([';'] + after)))| >= 7; }
    LineIsFirst(line, end, rest);
    IncludeParts(indent, gap, file, after, end, dir);
    hide Visible; hide LineEnd; hide IsInclude; hide PathOf; hide Blanks; hide Unindented;
    assert line + end + rest != [];
  }

  /** One without a semicolon stands for nothing. */
  lemma IncludeWithoutSemicolon(files: Files, dir: string, rank: string -> nat, indent: string, more: string,
                                end: string, rest: string, r: nat)
    requires Blanks(indent) && ';' !in more && LineAt(indent + ("include" + more), end, rest)
    requires Acyclic(files, dir, rank) && Below(files, dir, rank, indent + ("include" + more) + end + rest, r)
    ensures Below(files, dir, rank, rest, r)
    ensures Flatten(files, dir, rank, indent + ("include" + more) + end + rest, r) == Flatten(files, dir, rank, rest, r)
  {
    var line := indent + ("include" + more);
    assert |line| >= |"include" + more| >= 7;
    LineIsFirst(line, end, rest);
    WithoutSemicolon(indent, more, end, dir);
    hide Visible; hide LineEnd; hide IsInclude; hide PathOf; hide Blanks;
    assert line + end + rest != [];
    AppendNone(Flatten(files, dir, rank, rest, r));
  }

  lemma NotStarted(text: string, end: string)
    requires !("include" <= text) && (end == "\n" || end == [])
    ensures !("include" <= text + end)
  {
    if |text| >= 7 {
      assert (text + end)[..7] == text[..7];
    } else if end == [] {
      AppendNone(text);
    } else {
      assert "include"[|text|] != '\n' && (text + end)[|text|] == '\n';
    }
  }

  /** Any other line stands for itself. */
  lemma OtherLine(files: Files, dir: string, rank: string -> nat, indent: string, text: string, end: string,
                  rest: string, r: nat)
    requires Blanks(indent) && Unindented(text) && !("include" <= text) && LineAt(indent + text, end, rest)
    requires Acyclic(files, dir, rank) && Below(files, dir, rank, indent + text + end + rest, r)
    ensures Below(files, dir, rank, rest, r)
    ensures Flatten(files, dir, rank, indent + text + end + rest, r)
         == indent + text + end + Flatten(files, dir, rank, rest, r)
  {
    var line := indent + text;
    if line + end == [] {
      assert end + rest == [] && indent + text + end + rest == [];
    } else {
      LineIsFirst(line, end, rest);
      AppendAssoc(indent, text, end);
      BlanksSkipped(indent, text + end);
      NotStarted(text, end);
      hide LineEnd;
    }
  }

  /** Every text without NULs begins with a line of one of these forms, the last two of which start with "include". */
  lemma EveryLine(s: string) returns (indent: string, text: string, end: string, rest: string)
    requires s != [] && NUL !in s
    ensures s == indent + text + end + rest && |rest| < |s|
    ensures Blanks(indent) && Unindented(text) && LineAt(indent + text, end, rest)
  {
    IndexOfFirst(s, '\n');
    var k := IndexOf(s, '\n');
    var line := s[..k];
    assert forall i :: 0 <= i < k ==> line[i] in s;
    indent, text := Indented(line);
    if k < |s| {
      end, rest := "\n", s[k + 1..];
      assert s == line + [s[k]] + s[k + 1..];
    } else {
      end, rest := [], [];
      assert s == line + [] + [];
    }
  }

  lemma {:induction false} Indented(s: string) returns (indent: string, text: string)
    ensures s == indent + text && Blanks(indent) && Unindented(text)
  {
    if Unindented(s) {
      indent, text := [], s;
    } else {
      var b;
      b, text := Indented(s[1..]);
      indent := [s[0]] + b;
      assert s == [s[0]] + s[1..];
    }
  }

  lemma EveryIncludeLine(text: string) returns (gap: string, file: string, after: string)
    requires "include" <= text && ';' in text
    ensures text == "include" + (gap + (file + ([';'] + after)))
    ensures Blanks(gap) && Unindented(file) && ';' !in file
  {
    var more;
    gap, more := Indented(text[7..]);
    assert text == "include" + (gap + more);
    SplitAtSemicolon(gap, more);
    IndexOfFirst(more, ';');
    var k := IndexOf(more, ';');
    file, after := more[..k], more[k + 1..];
    assert more == file + ([';'] + after);
  }

  lemma SplitAtSemicolon(gap: string, more: string)
    requires Blanks(gap) && ';' in "include" + (gap + more)
    ensures ';' in more
  {
    assert ';' !in gap;
    assert ';' !in "include" by {
      assert "include" == ['i', 'n', 'c', 'l', 'u', 'd', 'e'];
    }
  }

  // ---- What the output is like ----

  /** Empty, or ending with a newline; and without NULs. */
  predicate Whole(s: string) {
    (s == [] || s[|s| - 1] == '\n') && NUL !in s
  }

  lemma WholeExactly(a: string)
    ensures Whole([]) && (Whole(a + "\n") <==> '\0' !in a) && (Whole(a) ==> a == [] || a[|a| - 1] == '\n')
  {
    var s := a + "\n";
    assert forall i :: 0 <= i < |s| ==> s[i] in s;
    assert '\0' in a ==> '\0' in s;
  }

  predicate NoInclude(s: string)
    decreases |s|
  {
    s == [] || (!IsInclude(s[..LineEnd(s)]) && NoInclude(s[LineEnd(s)..]))
  }

  lemma FirstLine(a: string, b: string)
    requires Whole(a) && a != []
    ensures LineEnd(a + b) == LineEnd(a) && (a + b)[..LineEnd(a)] == a[..LineEnd(a)]
    ensures (a + b)[LineEnd(a)..] == a[LineEnd(a)..] + b
    ensures LineEnd(a[..LineEnd(a)]) == LineEnd(a)
    ensures Whole(a[..LineEnd(a)]) && Whole(a[LineEnd(a)..]) && Visible(a[..LineEnd(a)]) == a[..LineEnd(a)]
  {
    IndexOfFirst(a, '\n');
    IndexOfIs(a + b, '\n', IndexOf(a, '\n'));
    var line := a[..LineEnd(a)];
    assert forall i :: 0 <= i < |line| ==> line[i] in a;
    IndexOfIs(line, NUL, |line|);
    IndexOfIs(line, '\n', |line| - 1);
  }

  lemma {:induction false} NoIncludeAppend(a: string, b: string)
    requires Whole(a)
    ensures NoInclude(a + b) <==> NoInclude(a) && NoInclude(b)
    decreases |a|
  {
    if a == [] {
      assert a + b == b;
    } else {
      FirstLine(a, b);
      NoIncludeAppend(a[LineEnd(a)..], b);
    }
  }

  /** Expanding whole files gives a whole text without include lines. */
  lemma {:induction false} OutputHasNoIncludes(files: Files, dir: string, rank: string -> nat, s: string, r: nat)
    requires Acyclic(files, dir, rank) && Below(files, dir, rank, s, r) && Whole(s)
    requires forall p :: p in files ==> Whole(files[p])
    ensures var out := Flatten(files, dir, rank, s, r); Whole(out) && NoInclude(out)
    decreases r, |s|, 1
  {
    if s != [] {
      FirstLine(s, []);
      OutputHasNoIncludes(files, dir, rank, s[LineEnd(s)..], r);
      LineHasNoIncludes(files, dir, rank, s[..LineEnd(s)], r, |s|);
      var front, rest := OfLine(files, dir, rank, s[..LineEnd(s)], r), Flatten(files, dir, rank, s[LineEnd(s)..], r);
      NoIncludeAppend(front, rest);
      WholeAppend(front, rest);
    }
  }

  lemma {:induction false} LineHasNoIncludes(files: Files, dir: string, rank: string -> nat, line: string, r: nat,
                                             size: nat)
    requires Acyclic(files, dir, rank) && LineBelow(files, dir, rank, line, r)
    requires forall p :: p in files ==> Whole(files[p])
    requires Whole(line) && line != [] && LineEnd(line) == |line| && Visible(line) == line
    ensures var out := OfLine(files, dir, rank, line, r); Whole(out) && NoInclude(out)
    decreases r, size, 0
  {
    if !IsInclude(line) {
      OneLine(line);
    } else if Included(files, dir, line).Some? {
      var p := Included(files, dir, line).value;
      OutputHasNoIncludes(files, dir, rank, files[p], rank(p));
    }
  }

  lemma WholeAppend(a: string, b: string)
    requires Whole(a) && Whole(b)
    ensures Whole(a + b)
  {
  }

  lemma OneLine(line: string)
    requires line != [] && LineEnd(line) == |line| && !IsInclude(line)
    ensures NoInclude(line)
  {
    hide LineEnd; hide IsInclude;
    assert line[..|line|] == line && line[|line|..] == [];
  }

  /** A whole text is its own expansion exactly when it has no include line. */
  lemma {:induction false} UnchangedWithoutIncludes(files: Files, dir: string, rank: string -> nat, s: string, r: nat)
    requires Acyclic(files, dir, rank) && Whole(s) && NoInclude(s)
    ensures Below(files, dir, rank, s, r) && Flatten(files, dir, rank, s, r) == s
    decreases |s|
  {
    if s != [] {
      FirstLine(s, []);
      UnchangedWithoutIncludes(files, dir, rank, s[LineEnd(s)..], r);
      assert s == s[..LineEnd(s)] + s[LineEnd(s)..];
    }
  }

  lemma ExpandedIffNoIncludes(files: Files, dir: string, rank: string -> nat, s: string, r: nat)
    requires Acyclic(files, dir, rank) && Below(files, dir, rank, s, r) && Whole(s)
    requires forall p :: p in files ==> Whole(files[p])
    ensures Flatten(files, dir, rank, s, r) == s <==> NoInclude(s)
  {
    OutputHasNoIncludes(files, dir, rank, s, r);
    if NoInclude(s) { UnchangedWithoutIncludes(files, dir, rank, s, r); }
  }

  /** Expanding the output again changes nothing. */
  lemma ExpandingTwice(files: Files, dir: string, rank: string -> nat, s: string, r: nat, q: nat)
    requires Acyclic(files, dir, rank) && Below(files, dir, rank, s, r) && Whole(s)
    requires forall p :: p in files ==> Whole(files[p])
    ensures var out := Flatten(files, dir, rank, s, r);
      NoInclude(out) && Below(files, dir, rank, out, q) && Flatten(files, dir, rank, out, q) == out
  {
    OutputHasNoIncludes(files, dir, rank, s, r);
    UnchangedWithoutIncludes(files, dir, rank, Flatten(files, dir, rank, s, r), q);
  }

  /** Whole texts can be expanded one after the other. */
  lemma {:induction false} FlattenAppend(files: Files, dir: string, rank: string -> nat, a: string, b: string, r: nat)
    requires Acyclic(files, dir, rank) && Whole(a)
    requires Below(files, dir, rank, a, r) && Below(files, dir, rank, b, r)
    ensures Below(files, dir, rank, a + b, r)
    ensures Flatten(files, dir, rank, a + b, r) == Flatten(files, dir, rank, a, r) + Flatten(files, dir, rank, b, r)
    decreases |a|
  {
    if a == [] {
      assert a + b == b;
    } else {
      hide LineEnd; hide OfLine; hide LineBelow;
      FirstLine(a, b);
      var rest := a[LineEnd(a)..];
      FlattenAppend(files, dir, rank, rest, b, r);
      AppendAssoc(OfLine(files, dir, rank, a[..LineEnd(a)], r), Flatten(files, dir, rank, rest, r),
          Flatten(files, dir, rank, b, r));
    }
  }

  // ---- Files without a final newline ----

  /** An unfinished line. */
  predicate Fragment(t: string) {
    NUL !in t && '\n' !in t
  }

  predicate EndsLine(v: string) {
    v != [] && v[|v| - 1] == '\n'
  }

  /** The unfinished line behind the expansion of a text, if `t` is unfinished in front of it. */
  ghost function OpenEnd(files: Files, dir: string, rank: string -> nat, s: string, r: nat, t: string): string
    requires Acyclic(files, dir, rank) && Below(files, dir, rank, s, r)
    decreases r, |s|
  {
    if s == [] then t
    else OpenEnd(files, dir, rank, s[LineEnd(s)..], r, OpenAfter(files, dir, rank, s[..LineEnd(s)], r, t))
  }

  ghost function OpenAfter(files: Files, dir: string, rank: string -> nat, line: string, r: nat, t: string): string
    requires Acyclic(files, dir, rank) && LineBelow(files, dir, rank, line, r)
    decreases r, 0
  {
    if !IsInclude(line) then if EndsLine(Visible(line)) then [] else t + Visible(line)
    else if Included(files, dir, line).None? then t
    else OpenEnd(files, dir, rank, files[Included(files, dir, line).value], rank(Included(files, dir, line).value), t)
  }

  /** Whenever a line is finished, it does not begin with "include" together with the unfinished ones in front of it. */
  ghost predicate JoinsSafely(files: Files, dir: string, rank: string -> nat, s: string, r: nat, t: string)
    requires Acyclic(files, dir, rank) && Below(files, dir, rank, s, r)
    decreases r, |s|
  {
    s == [] ||
    (&& LineJoinsSafely(files, dir, rank, s[..LineEnd(s)], r, t)
     && JoinsSafely(files, dir, rank, s[LineEnd(s)..], r, OpenAfter(files, dir, rank, s[..LineEnd(s)], r, t)))
  }

  ghost predicate LineJoinsSafely(files: Files, dir: string, rank: string -> nat, line: string, r: nat, t: string)
    requires Acyclic(files, dir, rank) && LineBelow(files, dir, rank, line, r)
    decreases r, 0
  {
    if !IsInclude(line) then EndsLine(Visible(line)) ==> !IsInclude(t + Visible(line))
    else if Included(files, dir, line).None? then true
    else JoinsSafely(files, dir, rank, files[Included(files, dir, line).value],
        rank(Included(files, dir, line).value), t)
  }

  /** The first line of a text has a newline at most at its end. */
  lemma FirstLineShape(s: string)
    requires s != []
    ensures var v := Visible(s[..LineEnd(s)]);
      NUL !in v && if EndsLine(v) then '\n' !in v[..|v| - 1] else '\n' !in v
  {
    IndexOfFirst(s, '\n');
    var line := s[..LineEnd(s)];
    IndexOfFirst(line, NUL);
    var v := Visible(line);
    assert forall i :: 0 <= i < |v| ==> v[i] == s[i];
    assert forall i :: 0 <= i < |v| - 1 ==> v[i] != '\n';
  }

  /** A finished line in front of a text. */
  lemma FinishedLine(t: string, v: string, more: string)
    requires Fragment(t) && NUL !in v && EndsLine(v) && '\n' !in v[..|v| - 1]
    ensures NoInclude(t + v + more) <==> !IsInclude(t + v) && NoInclude(more)
  {
    hide IsInclude;
    var line, all := t + v, t + v + more;
    assert line[|line| - 1] == '\n'
        && forall i :: 0 <= i < |line| - 1 ==> line[i] == if i < |t| then t[i] else v[..|v| - 1][i - |t|];
    assert forall i :: 0 <= i < |line| ==> all[i] == line[i];
    IndexOfIs(all, '\n', |line| - 1);
    assert all[..|line|] == line && all[|line|..] == more;
  }

  lemma FragmentGrows(t: string, v: string)
    requires Fragment(t) && NUL !in v && '\n' !in v
    ensures Fragment(t + v)
  {
  }

  /** For any files at all, and any text around the expansion: no include line in it exactly when all joins are safe,
      and the unfinished line at its end is safe with what follows. */
  lemma {:induction false} ExpansionIsSafe(files: Files, dir: string, rank: string -> nat, s: string, r: nat, t: string,
                                           more: string)
    requires Acyclic(files, dir, rank) && Below(files, dir, rank, s, r) && Fragment(t)
    ensures Fragment(OpenEnd(files, dir, rank, s, r, t))
    ensures NoInclude(t + Flatten(files, dir, rank, s, r) + more) <==>
            JoinsSafely(files, dir, rank, s, r, t) && NoInclude(OpenEnd(files, dir, rank, s, r, t) + more)
    decreases r, |s|, 1
  {
    if s == [] {
      AppendNone(t);
    } else {
      hide NoInclude; hide OfLine; hide OpenAfter; hide LineJoinsSafely; hide LineEnd; hide LineBelow; hide Fragment;
      var line, rest := s[..LineEnd(s)], s[LineEnd(s)..];
      var a, b := OfLine(files, dir, rank, line, r), Flatten(files, dir, rank, rest, r);
      LineIsSafe(files, dir, rank, s, r, t, b + more);
      ExpansionIsSafe(files, dir, rank, rest, r, OpenAfter(files, dir, rank, line, r, t), more);
      AppendAssoc(t, a, b);
      AppendAssoc(t + a, b, more);
      AppendAssoc(OpenAfter(files, dir, rank, line, r, t), b, more);
    }
  }

  lemma {:induction false} LineIsSafe(files: Files, dir: string, rank: string -> nat, s: string, r: nat, t: string,
                                      more: string)
    requires Acyclic(files, dir, rank) && s != [] && LineBelow(files, dir, rank, s[..LineEnd(s)], r) && Fragment(t)
    ensures Fragment(OpenAfter(files, dir, rank, s[..LineEnd(s)], r, t))
    ensures NoInclude(t + OfLine(files, dir, rank, s[..LineEnd(s)], r) + more) <==>
            && LineJoinsSafely(files, dir, rank, s[..LineEnd(s)], r, t)
            && NoInclude(OpenAfter(files, dir, rank, s[..LineEnd(s)], r, t) + more)
    decreases r, |s|, 0
  {
    hide NoInclude; hide LineEnd;
    var line := s[..LineEnd(s)];
    if !IsInclude(line) {
      var v := Visible(line);
      FirstLineShape(s);
      if EndsLine(v) {
        FinishedLine(t, v, more);
        AppendNone(more);
      } else {
        FragmentGrows(t, v);
      }
    } else if Included(files, dir, line).Some? {
      var p := Included(files, dir, line).value;
      ExpansionIsSafe(files, dir, rank, files[p], rank(p), t, more);
    } else {
      AppendNone(t);
    }
  }

  /** The output has no include line exactly when no line that comes right behind unfinished ones begins with "include"
      together with them, and an unfinished line at the very end does not. */
  lemma OutputIsSafe(files: Files, dir: string, rank: string -> nat, s: string, r: nat)
    requires Acyclic(files, dir, rank) && Below(files, dir, rank, s, r)
    ensures NoInclude(Flatten(files, dir, rank, s, r)) <==>
            JoinsSafely(files, dir, rank, s, r, []) && NoInclude(OpenEnd(files, dir, rank, s, r, []))
  {
    hide NoInclude; hide Flatten; hide OpenEnd; hide JoinsSafely;
    ExpansionIsSafe(files, dir, rank, s, r, [], []);
    AppendNone(Flatten(files, dir, rank, s, r));
    AppendNone([] + Flatten(files, dir, rank, s, r));
    AppendNone(OpenEnd(files, dir, rank, s, r, []));
  }

  /** An unfinished line is harmless, whatever comes behind it, unless it is blank or the start of "include". */
  lemma HarmlessFragment(t: string, v: string)
    requires Fragment(t) && NUL !in v && SkipBlanks(t) != []
    requires !(SkipBlanks(t) <= INCLUDE) && !(INCLUDE <= SkipBlanks(t))
    ensures !IsInclude(t + v)
  {
    IndexOfIs(t + v, NUL, |t + v|);
    assert (t + v)[..|t + v|] == t + v;
    SkipBlanksAppend(t, v);
    var u := SkipBlanks(t);
    if |u| >= |INCLUDE| {
      assert (u + v)[..|INCLUDE|] == u[..|INCLUDE|];
    } else {
      ShortPrefix(u, v, INCLUDE);
    }
  }

  lemma ShortPrefix(u: string, v: string, w: string)
    requires |u| <= |w|
    ensures w <= u + v ==> u <= w
  {
    if w <= u + v { assert u == (u + v)[..|u|] == w[..|u|]; }
  }

  lemma {:induction false} SkipBlanksAppend(t: string, v: string)
    requires SkipBlanks(t) != []
    ensures SkipBlanks(t + v) == SkipBlanks(t) + v
  {
    if t[0] == ' ' || t[0] == '\t' {
      assert (t + v)[1..] == t[1..] + v;
      SkipBlanksAppend(t[1..], v);
    }
  }

  /** A line that is copied as it is. */
  predicate PlainLine(w: string) {
    w != [] && NUL !in w && w[0] != ' ' && w[0] != '\t' && !(INCLUDE <= w)
        && forall i :: 0 <= i < |w| - 1 ==> w[i] != '\n'
  }

  lemma StartsWithInclude(s: string)
    requires INCLUDE <= s && NUL !in s
    ensures !NoInclude(s)
  {
    var line := s[..LineEnd(s)];
    IndexOfFirst(s, '\n');
    assert forall i :: 0 <= i < |INCLUDE| ==> s[i] == INCLUDE[i];
    assert INCLUDE <= line;
    assert forall i :: 0 <= i < |line| ==> line[i] in s;
    IndexOfIs(line, NUL, |line|);
    assert SkipBlanks(line) == line;
  }

  /** Without a newline at its end, a file's last line `u` runs into the line `w` behind the include: the output can
      have an include line that was in no file, such as one made of "inc" and "lude x;". */
  lemma UnterminatedFileRunsOn(files: Files, dir: string, rank: string -> nat, line: string, r: nat, u: string,
                               w: string)
    requires Acyclic(files, dir, rank) && LineBelow(files, dir, rank, line, r) && Whole(line) && line != []
    requires LineEnd(line) == |line|
    requires IsInclude(line) && Included(files, dir, line).Some? && files[Included(files, dir, line).value] == u
    requires PlainLine(u) && PlainLine(w) && INCLUDE <= u + w
    ensures Below(files, dir, rank, line + w, r) && Flatten(files, dir, rank, line + w, r) == u + w && !NoInclude(u + w)
  {
    hide IsInclude; hide LineEnd; hide Included; hide NoInclude;
    FirstLine(line, w);
    OneVisibleLine(files, dir, rank, u, rank(Included(files, dir, line).value));
    OneVisibleLine(files, dir, rank, w, r);
    assert line[..|line|] == line && line[|line|..] + w == w;
    StartsWithInclude(u + w);
  }

  lemma OneVisibleLine(files: Files, dir: string, rank: string -> nat, w: string, r: nat)
    requires Acyclic(files, dir, rank) && PlainLine(w)
    ensures Below(files, dir, rank, w, r) && Flatten(files, dir, rank, w, r) == w
  {
    IndexOfIs(w, NUL, |w|);
    IndexOfIs(w, '\n', if w[|w| - 1] == '\n' then |w| - 1 else |w|);
    assert LineEnd(w) == |w| && w[..|w|] == w && w[|w|..] == [];
    assert w + [] == w;
  }
}
