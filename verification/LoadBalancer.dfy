/** Upstream groups: weights become repeated nodes when the configuration is read (parseConfig.c), and a
    cursor walks the nodes and wraps when requests are proxied (getUpstreamServer.c). */
module LoadBalancer {
  import opened Options
  import opened Chains

  /** One `server` line of an upstream block; weight -1 marks a backup server. */
  datatype Upstream = Upstream(host: string, port: int, weight: int)

  datatype Group = Group(name: string, servers: Node?<Upstream>, current: Node?<Upstream>)

  function Copies(line: Upstream): nat {
    if line.weight > 0 then line.weight else 0
  }

  function Repeat<T>(x: T, n: nat): (r: seq<T>)
    ensures |r| == n && forall i :: 0 <= i < n ==> r[i] == x
  {
    seq(n, i => x)
  }

  /** The node list after reading these lines, from its head: the last line comes first. */
  function Expand(lines: seq<Upstream>): seq<Upstream> {
    if lines == [] then []
    else Repeat(lines[|lines| - 1], Copies(lines[|lines| - 1])) + Expand(lines[..|lines| - 1])
  }

  /** The same list as indices into the lines, which tells equal lines apart. */
  function ExpandIndices(lines: seq<Upstream>): seq<int> {
    if lines == [] then []
    else Repeat<int>(|lines| - 1, Copies(lines[|lines| - 1])) + ExpandIndices(lines[..|lines| - 1])
  }

  /** The cursor's position after one pick. */
  function Advance(pos: nat, length: nat): nat {
    if pos + 1 == length then 0 else pos + 1
  }

  /** What `n` requests in a row get, the cursor starting at position `pos`. */
  function Picks<T>(chain: seq<T>, pos: nat, n: nat): (r: seq<T>)
    requires pos < |chain|
    ensures |r| == n
    decreases n
  {
    if n == 0 then [] else [chain[pos]] + Picks(chain, Advance(pos, |chain|), n - 1)
  }

  function After(pos: nat, length: nat, n: nat): (p: nat)
    requires pos < length
    ensures p < length
    decreases n
  {
    if n == 0 then pos else After(Advance(pos, length), length, n - 1)
  }

  lemma {:induction false} ExpandFollowsIndices(lines: seq<Upstream>)
    ensures |Expand(lines)| == |ExpandIndices(lines)|
    ensures forall k :: 0 <= k < |Expand(lines)| ==>
      0 <= ExpandIndices(lines)[k] < |lines| && Expand(lines)[k] == lines[ExpandIndices(lines)[k]]
  {
    if lines != [] {
      ExpandFollowsIndices(lines[..|lines| - 1]);
    }
  }

  /** Which lines a run of requests reaches, in terms of the indices that the fairness bounds count. */
  lemma {:induction false} PicksFollowIndices(lines: seq<Upstream>, pos: nat, n: nat)
    requires pos < |Expand(lines)|
    ensures |ExpandIndices(lines)| == |Expand(lines)|
    ensures forall k :: 0 <= k < n ==>
      0 <= Picks(ExpandIndices(lines), pos, n)[k] < |lines|
          && Picks(Expand(lines), pos, n)[k] == lines[Picks(ExpandIndices(lines), pos, n)[k]]
    decreases n
  {
    ExpandFollowsIndices(lines);
    if n > 0 {
      PicksFollowIndices(lines, Advance(pos, |Expand(lines)|), n - 1);
    }
  }

  lemma {:induction false} RepeatCount<T>(x: T, n: nat, y: T)
    ensures multiset(Repeat(x, n))[y] == if x == y then n else 0
  {
    if n > 0 {
      assert Repeat(x, n) == [x] + Repeat(x, n - 1);
      RepeatCount(x, n - 1, y);
    }
  }

  /** Every line owns as many nodes as its weight says, and a backup line owns none. */
  lemma {:induction false} NodesPerLine(lines: seq<Upstream>, i: int)
    ensures multiset(ExpandIndices(lines))[i] == if 0 <= i < |lines| && lines[i].weight > 0 then lines[i].weight else 0
  {
    if lines != [] {
      var n := |lines| - 1;
      NodesPerLine(lines[..n], i);
      RepeatCount<int>(n, Copies(lines[n]), i);
      MultisetOfSum(Repeat<int>(n, Copies(lines[n])), ExpandIndices(lines[..n]), i);
    }
  }

  lemma MultisetOfSum<T>(a: seq<T>, b: seq<T>, x: T)
    ensures multiset(a + b)[x] == multiset(a)[x] + multiset(b)[x]
  {
  }

  lemma {:induction false} PicksSplit<T>(chain: seq<T>, pos: nat, m: nat, n: nat)
    requires pos < |chain|
    ensures Picks(chain, pos, m + n) == Picks(chain, pos, m) + Picks(chain, After(pos, |chain|, m), n)
    decreases m
  {
    if m > 0 {
      PicksSplit(chain, Advance(pos, |chain|), m - 1, n);
    }
  }

  lemma {:induction false} PicksWithoutWrap<T>(chain: seq<T>, pos: nat, n: nat)
    requires pos < |chain| && pos + n <= |chain|
    ensures Picks(chain, pos, n) == chain[pos..pos + n]
    ensures After(pos, |chain|, n) == if pos + n == |chain| then 0 else pos + n
    decreases n
  {
    if n > 0 {
      assert chain[pos..pos + n] == [chain[pos]] + chain[pos + 1..pos + n];
      if pos + 1 < |chain| {
        PicksWithoutWrap(chain, pos + 1, n - 1);
      } else {
        assert n == 1;
      }
    }
  }

  lemma WindowRotates<T>(chain: seq<T>, pos: nat, m: nat)
    requires pos < |chain| && m + pos == |chain|
    ensures Picks(chain, pos, m + pos) == chain[pos..] + chain[..pos]
    ensures After(pos, |chain|, m + pos) == pos
  {
    PicksSplit(chain, pos, m, pos);
    AfterSplit(pos, |chain|, m, pos);
    PicksWithoutWrap(chain, pos, m);
    PicksWithoutWrap(chain, 0, pos);
    assert chain[pos..pos + m] == chain[pos..];
    assert chain[0..0 + pos] == chain[..pos];
  }

  /** Any |chain| consecutive picks are a permutation of the chain and bring the cursor back. */
  lemma WindowIsWholeChain<T>(chain: seq<T>, pos: nat)
    requires pos < |chain|
    ensures multiset(Picks(chain, pos, |chain|)) == multiset(chain)
    ensures After(pos, |chain|, |chain|) == pos
  {
    hide Picks; hide After;
    WindowRotates(chain, pos, |chain| - pos);
    SumCommutes(chain[..pos], chain[pos..]);
    assert chain == chain[..pos] + chain[pos..];
  }

  lemma SumCommutes<T>(a: seq<T>, b: seq<T>)
    ensures multiset(a + b) == multiset(b + a)
  {
  }

  lemma CountSplit<T>(chain: seq<T>, pos: nat, m: nat, n: nat, x: T)
    requires pos < |chain|
    ensures multiset(Picks(chain, pos, m + n))[x]
         == multiset(Picks(chain, pos, m))[x] + multiset(Picks(chain, After(pos, |chain|, m), n))[x]
  {
    PicksSplit(chain, pos, m, n);
    MultisetOfSum(Picks(chain, pos, m), Picks(chain, After(pos, |chain|, m), n), x);
  }

  lemma {:induction false} AfterSplit(pos: nat, length: nat, m: nat, n: nat)
    requires pos < length
    ensures After(pos, length, m + n) == After(After(pos, length, m), length, n)
    decreases m
  {
    if m > 0 {
      AfterSplit(Advance(pos, length), length, m - 1, n);
    }
  }

  lemma PartialRound<T>(chain: seq<T>, pos: nat, r: nat, x: T)
    requires pos < |chain| && r < |chain|
    ensures multiset(Picks(chain, pos, r))[x] <= multiset(chain)[x]
  {
    hide Picks; hide After;
    CountSplit(chain, pos, r, |chain| - r, x);
    WindowIsWholeChain(chain, pos);
  }

  lemma FullRound<T>(chain: seq<T>, pos: nat, n: nat, x: T)
    requires pos < |chain|
    ensures multiset(Picks(chain, pos, |chain| + n))[x] == multiset(chain)[x] + multiset(Picks(chain, pos, n))[x]
  {
    hide Picks; hide After;
    CountSplit(chain, pos, |chain|, n, x);
    WindowIsWholeChain(chain, pos);
  }

  lemma {:induction false} Rounds<T>(chain: seq<T>, pos: nat, n: nat, q: nat, r: nat, x: T)
    requires pos < |chain| && n == q * |chain| + r
    ensures multiset(Picks(chain, pos, n))[x] == q * multiset(chain)[x] + multiset(Picks(chain, pos, r))[x]
    decreases q
  {
    hide Picks; hide After;
    var l, w := |chain|, multiset(chain)[x];
    if q > 0 {
      Distribute(q, l);
      Distribute(q, w);
      FullRound(chain, pos, n - l, x);
      Rounds(chain, pos, n - l, q - 1, r, x);
    }
  }

  lemma Distribute(q: nat, l: nat)
    requires q > 0
    ensures q * l == (q - 1) * l + l && q * l >= l
  {
    assert q * l == (q - 1) * l + l;
  }

  /** From any cursor position, as many picks as the chain is long choose each line exactly as often as
      its weight says. */
  lemma FairWindow(lines: seq<Upstream>, pos: nat, i: int)
    requires 0 <= i < |lines| && pos < |ExpandIndices(lines)|
    ensures multiset(Picks(ExpandIndices(lines), pos, |ExpandIndices(lines)|))[i]
         == if lines[i].weight > 0 then lines[i].weight else 0
  {
    WindowIsWholeChain<int>(ExpandIndices(lines), pos);
    NodesPerLine(lines, i);
  }

  /** Weighted fairness: wherever the cursor stands, q full rounds and r more picks (r less than the chain
      length L) choose line i at least q and, if r > 0, at most q + 1 times its weight; so exactly its weight
      in every window of L picks. These are floor(n/L) and ceil(n/L) times the weight for n picks. */
  lemma WeightedFairness(lines: seq<Upstream>, pos: nat, n: nat, q: nat, r: nat, i: int)
    requires 0 <= i < |lines| && pos < |ExpandIndices(lines)| && r < |ExpandIndices(lines)|
    requires n == q * |ExpandIndices(lines)| + r
    ensures var c := multiset(Picks(ExpandIndices(lines), pos, n))[i];
      var w := if lines[i].weight > 0 then lines[i].weight else 0;
      q * w <= c <= (if r == 0 then q else q + 1) * w
  {
    var chain := ExpandIndices(lines);
    var w := multiset(chain)[i];
    NodesPerLine(lines, i);
    Rounds<int>(chain, pos, n, q, r, i);
    PartialRound<int>(chain, pos, r, i);
    Distribute(q + 1, w);
    assert r == 0 ==> Picks(chain, pos, r) == [];
  }

  /** A group's node chain and where its cursor stands; a chain without nodes has no cursor. */
  ghost predicate GroupValid(g: Group, chain: seq<Node<Upstream>>, pos: nat)
    reads chain
  {
    && Chain(g.servers, chain)
    && g.current == NodeAt(chain, pos)
    && (chain != [] ==> pos < |chain|)
  }

  /** getUpstreamServer for a location with an upstream group: take the cursor's server, advance, wrap.
      None is the null dereference of a group all of whose servers are backups. */
  method Pick(g: Node<Group>, ghost chain: seq<Node<Upstream>>, ghost pos: nat) returns (target: Option<Upstream>)
    requires GroupValid(g.data, chain, pos)
    modifies g`data
    ensures chain == [] ==> target == None && g.data == old(g.data)
    ensures chain != [] ==> target == Some(chain[pos].data) && GroupValid(g.data, chain, Advance(pos, |chain|))
    ensures g.data.servers == old(g.data.servers) && g.data.name == old(g.data.name)
  {
    if g.data.current == null {
      return None;
    }
    target := Some(g.data.current.data);
    g.data := g.data.(current := g.data.current.next);
    if g.data.current == null {
      g.data := g.data.(current := g.data.servers);
    }
  }

  /** A run of requests to one group whose nodes hold `items`. */
  method PickMany(g: Node<Group>, ghost chain: seq<Node<Upstream>>, ghost items: seq<Upstream>, ghost pos: nat, n: nat)
    returns (targets: seq<Upstream>)
    requires GroupValid(g.data, chain, pos) && chain != [] && Holds(chain, items)
    modifies g`data
    ensures targets == Picks(items, pos, n)
    ensures GroupValid(g.data, chain, After(pos, |chain|, n))
  {
    targets := [];
    ghost var p := pos;
    for i := 0 to n
      invariant GroupValid(g.data, chain, p)
      invariant After(p, |chain|, n - i) == After(pos, |chain|, n)
      invariant targets + Picks(items, p, n - i) == Picks(items, pos, n)
    {
      var t := Pick(g, chain, p);
      targets := targets + [t.value];
      p := Advance(p, |chain|);
    }
  }

  lemma {:induction false} ExpandAppend(earlier: seq<Upstream>, own: seq<Upstream>)
    ensures Expand(earlier + own) == Expand(own) + Expand(earlier)
  {
    if own == [] {
      assert earlier + own == earlier;
    } else {
      var n := |own| - 1;
      assert (earlier + own)[..|earlier + own| - 1] == earlier + own[..n];
      ExpandAppend(earlier, own[..n]);
    }
  }

  lemma {:induction false} ExpandEmpty(lines: seq<Upstream>)
    ensures Expand(lines) == [] <==> forall i :: 0 <= i < |lines| ==> lines[i].weight <= 0
  {
    if lines != [] {
      var n := |lines| - 1;
      ExpandEmpty(lines[..n]);
      assert forall i :: 0 <= i < n ==> lines[..n][i] == lines[i];
    }
  }

  /** f_upstreams never clears the pending nodes, so a group also serves every line of the groups before it.
      Its chain is its own lines' nodes, as the configuration asks, exactly when no earlier line had a node. */
  lemma GroupServesOnlyItsOwnLines(earlier: seq<Upstream>, own: seq<Upstream>)
    ensures Expand(earlier + own) == Expand(own) <==> forall i :: 0 <= i < |earlier| ==> earlier[i].weight <= 0
  {
    ExpandAppend(earlier, own);
    ExpandEmpty(earlier);
  }

  /** The loop of f_upstream: one node per unit of weight, in front of nodes that hold `items`. */
  method PushCopies(head: Node?<Upstream>, line: Upstream, ghost nodes: seq<Node<Upstream>>, ghost items: seq<Upstream>)
    returns (newHead: Node?<Upstream>, ghost all: seq<Node<Upstream>>)
    requires Chain(head, nodes) && Holds(nodes, items)
    ensures var w := if line.weight > 0 then line.weight else 0;
      && Chain(newHead, all) && Holds(all, Repeat(line, w) + items)
      && |all| == w + |nodes| && all[w..] == nodes
  {
    var w := line.weight;
    ghost var k := 0;
    all, newHead := nodes, head;
    while w > 0
      invariant k == Copies(line) - (if w > 0 then w else 0) && |all| == k + |nodes| && all[k..] == nodes
      invariant Chain(newHead, all)
      invariant forall i :: 0 <= i < k ==> all[i].data == line
    {
      w := w - 1;
      newHead := new Node(line, newHead);
      all, k := [newHead] + all, k + 1;
    }
    forall i | 0 <= i < |all| ensures all[i].data == (Repeat(line, k) + items)[i] {
      if k <= i { assert all[i] == nodes[i - k]; }
    }
  }

  lemma ExpandOne(lines: seq<Upstream>, line: Upstream)
    ensures Expand(lines + [line]) == Repeat(line, Copies(line)) + Expand(lines)
  {
    assert (lines + [line])[..|lines|] == lines;
  }

  /** Positions counted from the end do not change when nodes are put in front. */
  lemma SameFromTheEnd<T>(nodes: seq<Node<T>>, all: seq<Node<T>>, c: nat, k: nat)
    requires |all| == c + |nodes| && all[c..] == nodes && k <= |nodes|
    ensures NodeAt(all, |all| - k) == NodeAt(nodes, |nodes| - k)
  {
    if k > 0 { assert all[c..][|nodes| - k] == all[|all| - k]; }
  }

  /** The upstream part of the configuration builder: the static node list and the list of groups. */
  class UpstreamTable {
    var servers: Node?<Upstream>
    const groups: AppendList<Group>
    ghost var nodes: seq<Node<Upstream>>
    ghost var lines: seq<Upstream>                // every upstream line so far
    ghost var groupLines: seq<seq<Upstream>>      // for each group, the lines read before its block ended

    /** A group points at the node that was first when its block ended. */
    ghost predicate Valid()
      reads this, nodes, groups, groups.nodes
    {
      && Chain(servers, nodes) && Holds(nodes, Expand(lines))
      && groups.Valid() && |groupLines| == |groups.nodes|
      && forall g :: 0 <= g < |groupLines| ==>
           && groupLines[g] <= lines && |Expand(groupLines[g])| <= |nodes|
           && groups.nodes[g].data.servers == groups.nodes[g].data.current
               == NodeAt(nodes, |nodes| - |Expand(groupLines[g])|)
    }

    constructor ()
      ensures Valid() && fresh(groups) && nodes == [] && lines == [] && groups.nodes == []
    {
      servers, nodes, lines, groupLines := null, [], [], [];
      groups := new AppendList();
    }

    /** f_upstream. */
    method AddLine(line: Upstream)
      requires Valid()
      modifies this`servers, this`nodes, this`lines
      ensures Valid() && lines == old(lines) + [line] && groupLines == old(groupLines)
    {
      hide Chain; hide Holds; hide NodeAt; hide Expand;
      ghost var before := nodes;
      HeadAt();
      ExpandOne(lines, line);
      servers, nodes := PushCopies(servers, line, nodes, Expand(lines));
      lines := lines + [line];
      forall g | 0 <= g < |groupLines|
        ensures NodeAt(nodes, |nodes| - |Expand(groupLines[g])|) == NodeAt(before, |before| - |Expand(groupLines[g])|)
      {
        SameFromTheEnd(before, nodes, Copies(line), |Expand(groupLines[g])|);
      }
    }

    /** f_upstreams: a group starts with whatever the node list holds. */
    method AddGroup(name: string)
      requires Valid()
      modifies this`groupLines, groups, groups.nodes`next
      ensures Valid() && groupLines == old(groupLines) + [lines]
      ensures |groups.nodes| == |old(groups.nodes)| + 1 && groups.nodes[..|old(groups.nodes)|] == old(groups.nodes)
      ensures groups.nodes[|old(groups.nodes)|].data == Group(name, servers, servers)
      ensures fresh(groups.nodes[|old(groups.nodes)|])
    {
      hide Chain; hide Holds; hide Expand; hide AppendList.Valid;
      var g := new Node(Group(name, servers, servers), null);
      HeadAt();
      groups.Append(g);
      groupLines := groupLines + [lines];
    }

    /** An upstream block: its lines, then the group. What the group serves starts with the lines of
        every block so far. */
    method AddBlock(name: string, block: seq<Upstream>)
      requires Valid()
      modifies this, groups, groups.nodes`next
      ensures Valid() && lines == old(lines) + block && groupLines == old(groupLines) + [old(lines) + block]
      ensures |groups.nodes| == |old(groups.nodes)| + 1 && groups.nodes[..|old(groups.nodes)|] == old(groups.nodes)
      ensures groups.nodes[|old(groups.nodes)|].data.name == name && fresh(groups.nodes[|old(groups.nodes)|])
    {
      hide Valid;
      for i := 0 to |block|
        invariant Valid() && lines == old(lines) + block[..i]
        invariant groupLines == old(groupLines) && groups.nodes == old(groups.nodes)
      {
        AddLine(block[i]);
      }
      assert block[..|block|] == block;
      AddGroup(name);
    }

    lemma HeadAt()
      requires Valid()
      ensures servers == NodeAt(nodes, 0) && |nodes| == |Expand(lines)|
    {
    }

    /** Every group's node list holds the expansion of all lines read before its block ended, with the cursor at its
        first node. */
    lemma GroupHolds(g: nat)
      requires Valid() && g < |groupLines|
      ensures |Expand(groupLines[g])| <= |nodes|
      ensures var chain := nodes[|nodes| - |Expand(groupLines[g])|..];
        GroupValid(groups.nodes[g].data, chain, 0) && Holds(chain, Expand(groupLines[g]))
    {
      hide Chain; hide Holds; hide NodeAt; hide Expand;
      HeadAt();
      var own := groupLines[g];
      assert lines == own + lines[|own|..];
      ExpandAppend(own, lines[|own|..]);
      assert Expand(lines)[|nodes| - |Expand(own)|..] == Expand(own);
      Suffix(servers, nodes, Expand(lines), |nodes| - |Expand(own)|);
    }
  }

  /** A list from one of its nodes on. */
  lemma Suffix<T>(head: Node?<T>, nodes: seq<Node<T>>, items: seq<T>, k: nat)
    requires Chain(head, nodes) && Holds(nodes, items) && k <= |nodes|
    ensures NodeAt(nodes, k) == NodeAt(nodes[k..], 0) && Chain(NodeAt(nodes, k), nodes[k..])
    ensures Holds(nodes[k..], items[k..])
  {
    forall i | 0 <= i < |nodes[k..]| ensures nodes[k..][i].next == NodeAt(nodes[k..], i + 1)
        && nodes[k..][i].data == items[k..][i] {
      assert nodes[k..][i] == nodes[k + i];
    }
  }
}
