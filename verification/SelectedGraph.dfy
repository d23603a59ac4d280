/** The graph kernel over implementation identities (selected-graph.ts). */
module SelectedGraph {
  import opened Sequences
  import opened Text
  import opened GraphPaths
  import GraphComponents
  import opened ResidualOrder

  /** A pair (provider, consumer). */
  type ProviderEdge = (Id, Id)

  // ---------- what the results mean, in terms of identities ----------

  ghost predicate IdWalk(nodes: seq<Id>, edges: seq<ProviderEdge>, p: seq<Id>) {
    && |p| > 0
    && (forall i :: 0 <= i < |p| ==> p[i] in nodes)
    && (forall i :: 0 < i < |p| ==> (p[i - 1], p[i]) in edges)
  }

  /** a provides for b, directly or through others. */
  ghost predicate Feeds(nodes: seq<Id>, edges: seq<ProviderEdge>, a: Id, b: Id) {
    exists p :: IdWalk(nodes, edges, p) && p[0] == a && p[|p| - 1] == b
  }

  ghost predicate InCycle(nodes: seq<Id>, edges: seq<ProviderEdge>, a: Id) {
    exists b :: (a, b) in edges && Feeds(nodes, edges, b, a)
  }

  /** Every identity once, every provider before its consumers. */
  ghost predicate DependencyOrder(nodes: seq<Id>, edges: seq<ProviderEdge>, order: seq<Id>) {
    && multiset(order) == multiset(nodes)
    && forall i, j :: 0 <= i < |order| && 0 <= j < |order| && (order[i], order[j]) in edges ==> i < j
  }

  ghost predicate IdLexLe(a: seq<Id>, b: seq<Id>) {
    a == b || exists k :: 0 <= k < |a| && k < |b| && a[..k] == b[..k] && TextLess(a[k], b[k])
  }

  ghost predicate LeastDependencyOrder(nodes: seq<Id>, edges: seq<ProviderEdge>, order: seq<Id>) {
    DependencyOrder(nodes, edges, order)
      && forall other :: DependencyOrder(nodes, edges, other) ==> IdLexLe(order, other)
  }

  /** A walk that meets no cyclic identity. */
  ghost predicate AcyclicWalk(nodes: seq<Id>, edges: seq<ProviderEdge>, p: seq<Id>) {
    IdWalk(nodes, edges, p) && forall i :: 0 <= i < |p| ==> !InCycle(nodes, edges, p[i])
  }

  /** d is the number of identities on the longest walk off all cycles, cut at 2049. */
  ghost predicate LongestWalk(nodes: seq<Id>, edges: seq<ProviderEdge>, d: nat) {
    && d <= DEPTH_LIMIT + 1
    && (d > 0 ==> exists p :: AcyclicWalk(nodes, edges, p) && |p| == d)
    && (d == DEPTH_LIMIT + 1 || forall p :: AcyclicWalk(nodes, edges, p) ==> |p| <= d)
  }

  ghost predicate IdsIncrease(s: seq<Id>) {
    forall i, j :: 0 <= i < j < |s| ==> TextLess(s[i], s[j])
  }

  /** One reported cycle: the cyclic identities that provide for each other, in order. */
  ghost predicate CycleReport(nodes: seq<Id>, edges: seq<ProviderEdge>, cycle: seq<Id>) {
    && cycle != [] && IdsIncrease(cycle) && InCycle(nodes, edges, cycle[0])
    && forall b :: b in cycle <==> Feeds(nodes, edges, cycle[0], b) && Feeds(nodes, edges, b, cycle[0])
  }

  ghost predicate CycleReports(nodes: seq<Id>, edges: seq<ProviderEdge>, cycles: seq<seq<Id>>) {
    && (forall i :: 0 <= i < |cycles| ==> CycleReport(nodes, edges, cycles[i]))
    && (forall i, j ::
      0 <= i < j < |cycles| ==> cycles[i] != [] && cycles[j] != [] && TextLess(cycles[i][0], cycles[j][0]))
    && (forall a :: a in nodes && InCycle(nodes, edges, a) ==> exists i :: 0 <= i < |cycles| && a in cycles[i])
  }

  ghost predicate RootClosure(nodes: seq<Id>, edges: seq<ProviderEdge>, roots: seq<Id>, closure: seq<Id>) {
    && IdsIncrease(closure)
    && forall a :: a in closure <==> exists r :: r in roots && Feeds(nodes, edges, a, r)
  }

  // ---------- identities and ranks ----------

  function IdsOf(nodes: seq<Id>, p: seq<nat>): (r: seq<Id>)
    requires forall i :: 0 <= i < |p| ==> p[i] < |nodes|
    ensures |r| == |p| && forall i :: 0 <= i < |p| ==> r[i] == nodes[p[i]]
  {
    seq(|p|, i requires 0 <= i < |p| => nodes[p[i]])
  }

  ghost predicate Projected(nodes: seq<Id>, p: seq<nat>, ids: seq<Id>) {
    |ids| == |p| && forall i :: 0 <= i < |p| ==> p[i] < |nodes| && ids[i] == nodes[p[i]]
  }

  /** The rank graph of sorted, distinct identities. */
  ghost predicate Represents(nodes: seq<Id>, edges: seq<ProviderEdge>, g: Adjacency) {
    && |g| == |nodes| && Graph(g) && IdsIncrease(nodes)
    && (forall e :: e in edges ==> e.0 in nodes && e.1 in nodes)
    && (forall u: nat, v: nat :: u < |nodes| && v < |nodes| ==> (Edge(g, u, v) <==> (nodes[u], nodes[v]) in edges))
  }

  lemma RankOfNode(nodes: seq<Id>, a: Id) returns (u: nat)
    requires a in nodes
    ensures u < |nodes| && nodes[u] == a
  {
    u :| 0 <= u < |nodes| && nodes[u] == a;
  }

  lemma IncreasingDistinct(nodes: seq<Id>)
    requires IdsIncrease(nodes)
    ensures Distinct(nodes)
    ensures forall i, j :: 0 <= i < |nodes| && 0 <= j < |nodes| ==> (TextLess(nodes[i], nodes[j]) <==> i < j)
  {
    forall i, j | 0 <= i < j < |nodes| ensures nodes[i] != nodes[j] { TextTrichotomy(nodes[i], nodes[j]); }
    forall i, j | 0 <= i < |nodes| && 0 <= j < |nodes| ensures TextLess(nodes[i], nodes[j]) <==> i < j {
      TextTrichotomy(nodes[i], nodes[j]);
      if j < i { TextTrichotomy(nodes[j], nodes[i]); }
    }
  }

  lemma WalkToIds(nodes: seq<Id>, edges: seq<ProviderEdge>, g: Adjacency, p: seq<nat>)
    requires Represents(nodes, edges, g) && Walk(g, p)
    ensures IdWalk(nodes, edges, IdsOf(nodes, p))
  {
    var q := IdsOf(nodes, p);
    forall i | 0 < i < |q| ensures (q[i - 1], q[i]) in edges { assert Edge(g, p[i - 1], p[i]); }
  }

  lemma {:induction false} IdsToWalk(nodes: seq<Id>, edges: seq<ProviderEdge>, g: Adjacency, q: seq<Id>)
    returns (p: seq<nat>)
    requires Represents(nodes, edges, g) && IdWalk(nodes, edges, q)
    ensures Walk(g, p) && IdsOf(nodes, p) == q
  {
    var last := RankOfNode(nodes, q[|q| - 1]);
    if |q| == 1 {
      p := [last];
    } else {
      var start := q[..|q| - 1];
      assert IdWalk(nodes, edges, start) && (start[|start| - 1], q[|q| - 1]) in edges;
      hide IdWalk;
      var r := IdsToWalk(nodes, edges, g, start);
      p := r + [last];
      assert IdsOf(nodes, r)[|r| - 1] == start[|start| - 1];
      assert Edge(g, r[|r| - 1], last);
      assert IdsOf(nodes, p) == q;
    }
  }

  /** Providing for each other is reachability of ranks. */
  lemma FeedsIsReach(nodes: seq<Id>, edges: seq<ProviderEdge>, g: Adjacency, u: nat, v: nat)
    requires Represents(nodes, edges, g) && u < |nodes| && v < |nodes|
    ensures Feeds(nodes, edges, nodes[u], nodes[v]) <==> Reach(g, u, v)
  {
    IncreasingDistinct(nodes);
    if Reach(g, u, v) {
      var p :| WalkFrom(g, p, u, v);
      WalkToIds(nodes, edges, g, p);
    }
    if Feeds(nodes, edges, nodes[u], nodes[v]) {
      var q :| IdWalk(nodes, edges, q) && q[0] == nodes[u] && q[|q| - 1] == nodes[v];
      var p := IdsToWalk(nodes, edges, g, q);
      assert WalkFrom(g, p, u, v);
    }
  }

  lemma InCycleIsOnCycle(nodes: seq<Id>, edges: seq<ProviderEdge>, g: Adjacency, u: nat)
    requires Represents(nodes, edges, g) && u < |nodes|
    ensures InCycle(nodes, edges, nodes[u]) <==> OnCycle(g, u)
  {
    if OnCycle(g, u) {
      var w :| Edge(g, u, w) && Reach(g, w, u);
      FeedsIsReach(nodes, edges, g, w, u);
    }
    if InCycle(nodes, edges, nodes[u]) {
      var b :| (nodes[u], b) in edges && Feeds(nodes, edges, b, nodes[u]);
      var w := RankOfNode(nodes, b);
      FeedsIsReach(nodes, edges, g, w, u);
      assert Edge(g, u, w);
    }
  }

  ghost predicate CyclicFlags(g: Adjacency, cyclic: seq<bool>) {
    |cyclic| == |g| && forall v: nat :: v < |g| ==> (cyclic[v] <==> OnCycle(g, v))
  }

  lemma DepthInIds(nodes: seq<Id>, edges: seq<ProviderEdge>, g: Adjacency, cyclic: seq<bool>, d: nat)
    requires Represents(nodes, edges, g) && CyclicFlags(g, cyclic) && ResidualDepth(g, cyclic, d)
    ensures LongestWalk(nodes, edges, d)
  {
    if d > 0 {
      var v :| ChainOfLength(g, cyclic, v, d);
      var p :| Chain(g, cyclic, p, v) && |p| == d;
      WalkToIds(nodes, edges, g, p);
      forall i | 0 <= i < |p| ensures !InCycle(nodes, edges, IdsOf(nodes, p)[i]) {
        assert Residual(cyclic, p[i]);
        InCycleIsOnCycle(nodes, edges, g, p[i]);
      }
      assert AcyclicWalk(nodes, edges, IdsOf(nodes, p));
    }
    if d <= DEPTH_LIMIT {
      forall q | AcyclicWalk(nodes, edges, q) ensures |q| <= d {
        var p := IdsToWalk(nodes, edges, g, q);
        forall i | 0 <= i < |p| ensures Residual(cyclic, p[i]) {
          assert IdsOf(nodes, p)[i] == q[i];
          InCycleIsOnCycle(nodes, edges, g, p[i]);
        }
        assert Chain(g, cyclic, p, p[|p| - 1]);
        assert NoChainLonger(g, cyclic, p[|p| - 1], d);
      }
    }
  }

  ghost predicate NoCycle(g: Adjacency, cyclic: seq<bool>) {
    |cyclic| == |g| && forall v: nat :: v < |g| ==> !cyclic[v]
  }

  /** A topological order of ranks is a dependency order of identities. */
  lemma OrderToIds(nodes: seq<Id>, edges: seq<ProviderEdge>, g: Adjacency, back: Adjacency, cyclic: seq<bool>,
                   order: seq<nat>)
    requires Represents(nodes, edges, g)
    requires Transposed(g, back)
    requires NoCycle(g, cyclic)
    requires Topological(back, cyclic, order)
    ensures forall i :: 0 <= i < |order| ==> order[i] < |nodes|
    ensures DependencyOrder(nodes, edges, IdsOf(nodes, order))
  {
    forall i | 0 <= i < |order| ensures order[i] < |nodes| {
      assert order[i] in order;
      assert Residual(cyclic, order[i]);
    }
    var ids := IdsOf(nodes, order);
    IncreasingDistinct(nodes);
    forall i, j | 0 <= i < j < |ids| ensures ids[i] != ids[j] { assert order[i] != order[j]; }
    forall a ensures a in ids <==> a in nodes {
      if a in nodes {
        var u := RankOfNode(nodes, a);
        assert Residual(cyclic, u) && u in order;
        var k :| 0 <= k < |order| && order[k] == u;
        assert ids[k] == a;
      }
    }
    SameElementsPermute(ids, nodes);
    forall i, j | 0 <= i < |ids| && 0 <= j < |ids| && (ids[i], ids[j]) in edges ensures i < j {
      assert Edge(g, order[i], order[j]);
      assert Edge(back, order[j], order[i]);
      assert Candidate(back, cyclic, order[..j], order[j]);
      assert order[i] !in Pending(back, cyclic, Elements(order[..j]), order[j]);
      assert order[i] in order[..j];
      var k :| 0 <= k < j && order[k] == order[i];
    }
  }

  lemma {:induction false} RanksOf(nodes: seq<Id>, ids: seq<Id>) returns (r: seq<nat>)
    requires forall a :: a in ids ==> a in nodes
    ensures |r| == |ids| && (forall i :: 0 <= i < |r| ==> r[i] < |nodes|) && IdsOf(nodes, r) == ids
  {
    if ids == [] {
      r := [];
    } else {
      var u := RankOfNode(nodes, ids[0]);
      var t := RanksOf(nodes, ids[1..]);
      r := [u] + t;
      assert IdsOf(nodes, t) == ids[1..];
    }
  }

  /** Every dependency order of identities is a topological order of ranks. */
  lemma OrderFromIds(nodes: seq<Id>, edges: seq<ProviderEdge>, g: Adjacency, back: Adjacency, cyclic: seq<bool>,
                     ids: seq<Id>)
    returns (order: seq<nat>)
    requires Represents(nodes, edges, g)
    requires Transposed(g, back)
    requires NoCycle(g, cyclic)
    requires DependencyOrder(nodes, edges, ids)
    ensures Topological(back, cyclic, order)
    ensures (forall i :: 0 <= i < |order| ==> order[i] < |nodes|) && IdsOf(nodes, order) == ids
  {
    MembersOfMultiset(ids, nodes);
    order := RanksOf(nodes, ids);
    IncreasingDistinct(nodes);
    DistinctPermutation(nodes, ids);
    forall i, j | 0 <= i < j < |order| ensures order[i] != order[j] { assert ids[i] != ids[j]; }
    forall v: nat ensures v in order <==> Residual(cyclic, v) {
      if v < |nodes| {
        assert nodes[v] in ids;
        var k :| 0 <= k < |ids| && ids[k] == nodes[v];
        assert nodes[order[k]] == nodes[v];
        assert order[k] == v;
      }
    }
    forall k | 0 <= k < |order| ensures Candidate(back, cyclic, order[..k], order[k]) {
      var v := order[k];
      forall u | u in back[v] && Residual(cyclic, u) ensures u in order[..k] {
        assert Edge(back, v, u) && Edge(g, u, v);
        assert u in order;
        var i :| 0 <= i < |order| && order[i] == u;
        assert (ids[i], ids[k]) in edges;
        assert order[..k][i] == u;
      }
      assert v !in order[..k];
    }
  }

  lemma LexInIds(nodes: seq<Id>, a: seq<nat>, b: seq<nat>)
    requires IdsIncrease(nodes) && LexLe(a, b)
    requires forall i :: 0 <= i < |a| ==> a[i] < |nodes|
    requires forall i :: 0 <= i < |b| ==> b[i] < |nodes|
    ensures IdLexLe(IdsOf(nodes, a), IdsOf(nodes, b))
  {
    var x, y := IdsOf(nodes, a), IdsOf(nodes, b);
    if a != b {
      var k :| 0 <= k < |a| && k < |b| && a[..k] == b[..k] && a[k] < b[k];
      forall i | 0 <= i < k ensures x[i] == y[i] { assert a[..k][i] == b[..k][i]; }
      assert x[..k] == y[..k];
    }
  }

  /** The greedy order is the least of all dependency orders. */
  lemma LeastInIds(nodes: seq<Id>, edges: seq<ProviderEdge>, g: Adjacency, back: Adjacency, cyclic: seq<bool>,
                   order: seq<nat>)
    requires Represents(nodes, edges, g) && Transposed(g, back) && NoCycle(g, cyclic)
    requires Topological(back, cyclic, order) && Greedy(back, cyclic, order)
    ensures forall i :: 0 <= i < |order| ==> order[i] < |nodes|
    ensures LeastDependencyOrder(nodes, edges, IdsOf(nodes, order))
  {
    assert IdsIncrease(nodes);
    hide Represents, Transposed, NoCycle, Topological, Greedy, DependencyOrder, IdLexLe, IdsIncrease, LexLe, IdsOf;
    OrderToIds(nodes, edges, g, back, cyclic, order);
    forall other | DependencyOrder(nodes, edges, other) ensures IdLexLe(IdsOf(nodes, order), other) {
      var r := OrderFromIds(nodes, edges, g, back, cyclic, other);
      GreedyIsLeast(back, cyclic, order, r);
      LexInIds(nodes, order, r);
    }
  }

  lemma SamePrefix(a: seq<Id>, b: seq<Id>, i: nat)
    requires i <= |a| && i <= |b| && a[..i] == b[..i]
    ensures forall k :: 0 <= k < i ==> a[k] == b[k]
  {
    forall k | 0 <= k < i ensures a[k] == b[k] { assert a[..i][k] == b[..i][k]; }
  }

  /** There is at most one least dependency order. */
  lemma LeastDependencyOrderUnique(nodes: seq<Id>, edges: seq<ProviderEdge>, a: seq<Id>, b: seq<Id>)
    requires LeastDependencyOrder(nodes, edges, a) && LeastDependencyOrder(nodes, edges, b)
    ensures a == b
  {
    if a != b {
      var i :| 0 <= i < |a| && i < |b| && a[..i] == b[..i] && TextLess(a[i], b[i]);
      var j :| 0 <= j < |b| && j < |a| && b[..j] == a[..j] && TextLess(b[j], a[j]);
      TextTrichotomy(a[i], b[i]);
      TextTrichotomy(b[j], a[j]);
      SamePrefix(a, b, i);
      SamePrefix(a, b, j);
    }
  }

  // ---------- building the rank graph ----------

  datatype Failure = DuplicateNode | UnresolvedIdentity

  ghost predicate RankMap(nodes: seq<Id>, rank: map<Id, nat>) {
    && (forall i :: 0 <= i < |nodes| ==> nodes[i] in rank)
    && (forall a :: a in rank ==> rank[a] < |nodes| && nodes[rank[a]] == a)
  }

  /** Later positions win, so the map is smaller than the list exactly when an identity repeats. */
  method RankNodes(nodes: seq<Id>) returns (rank: map<Id, nat>)
    ensures RankMap(nodes, rank)
    ensures |rank| == |nodes| <==> Distinct(nodes)
  {
    rank := map[];
    for index := 0 to |nodes|
      invariant RankMap(nodes[..index], rank)
      invariant |rank| <= index && (|rank| == index <==> Distinct(nodes[..index]))
    {
      assert nodes[..index + 1] == nodes[..index] + [nodes[index]];
      RankMore(nodes[..index], rank, nodes[index]);
      rank := rank[nodes[index] := index];
    }
    assert nodes[..|nodes|] == nodes;
  }

  lemma RankMore(nodes: seq<Id>, rank: map<Id, nat>, a: Id)
    requires RankMap(nodes, rank) && |rank| <= |nodes| && (|rank| == |nodes| <==> Distinct(nodes))
    ensures var more, next := rank[a := |nodes|], nodes + [a];
            RankMap(next, more) && |more| <= |next| && (|more| == |next| <==> Distinct(next))
  {
    var more, next := rank[a := |nodes|], nodes + [a];
    if a in rank {
      assert more.Keys == rank.Keys;
      assert next[rank[a]] == next[|nodes|];
    } else {
      assert more.Keys == rank.Keys + {a};
      assert a !in nodes;
      if Distinct(next) { DistinctParts(nodes, [a]); }
    }
    assert |more| == |more.Keys| && |rank| == |rank.Keys|;
  }

  ghost predicate Resolved(rank: map<Id, nat>, edges: seq<ProviderEdge>) {
    forall e :: e in edges ==> e.0 in rank && e.1 in rank
  }

  ghost predicate Links(rank: map<Id, nat>, edges: seq<ProviderEdge>, u: nat, v: nat) {
    exists e :: e in edges && e.0 in rank && e.1 in rank && rank[e.0] == u && rank[e.1] == v
  }

  /** Both adjacency directions hold each distinct edge exactly once. */
  ghost predicate Adjacent(n: nat, rank: map<Id, nat>, edges: seq<ProviderEdge>, outgoing: Adjacency,
                           incoming: Adjacency, unique: seq<set<nat>>, count: nat) {
    && |outgoing| == |incoming| == |unique| == n
    && Graph(outgoing) && Graph(incoming) && Simple(outgoing) && Simple(incoming)
    && (forall u: nat, v: nat :: Edge(outgoing, u, v) <==> Links(rank, edges, u, v))
    && (forall u: nat, v: nat :: Edge(incoming, v, u) <==> Links(rank, edges, u, v))
    && (forall u: nat :: u < n ==> unique[u] == Elements(outgoing[u]))
    && count == EdgeCount(outgoing) && count == EdgeCount(incoming)
  }

  lemma {:induction false} EdgeCountUpdate(g: Adjacency, u: nat, row: seq<nat>)
    requires u < |g|
    ensures EdgeCount(g[u := row]) == EdgeCount(g) - |g[u]| + |row|
  {
    var h := g[u := row];
    if u == |g| - 1 {
      assert h[..|h| - 1] == g[..|g| - 1];
    } else {
      assert h[..|h| - 1] == g[..|g| - 1][u := row];
      EdgeCountUpdate(g[..|g| - 1], u, row);
    }
  }

  function EmptyRows(n: nat): (g: Adjacency)
    ensures |g| == n && EdgeCount(g) == 0
    ensures forall u :: 0 <= u < n ==> g[u] == []
  {
    if n == 0 then []
    else
      var g := EmptyRows(n - 1);
      assert (g + [[]])[..n - 1] == g;
      g + [[]]
  }

  lemma LinksMore(rank: map<Id, nat>, edges: seq<ProviderEdge>, k: nat, u: nat, v: nat)
    requires k < |edges| && edges[k].0 in rank && edges[k].1 in rank
    ensures Links(rank, edges[..k + 1], u, v) <==>
              Links(rank, edges[..k], u, v) || (u == rank[edges[k].0] && v == rank[edges[k].1])
  {
    var more := edges[..k + 1];
    assert more == edges[..k] + [edges[k]];
    assert edges[k] in more;
    if Links(rank, edges[..k], u, v) {
      var e :| e in edges[..k] && e.0 in rank && e.1 in rank && rank[e.0] == u && rank[e.1] == v;
      assert e in more;
    }
  }

  lemma AddRow(g: Adjacency, u: nat, v: nat)
    requires Graph(g) && Simple(g) && u < |g| && v < |g| && v !in g[u]
    ensures var h := g[u := g[u] + [v]];
      && Graph(h) && Simple(h) && Elements(h[u]) == Elements(g[u]) + {v}
      && (forall x: nat, y: nat :: Edge(h, x, y) <==> Edge(g, x, y) || (x == u && y == v))
      && EdgeCount(h) == EdgeCount(g) + 1
  {
    EdgeCountUpdate(g, u, g[u] + [v]);
    var h := g[u := g[u] + [v]];
    assert h[u] == g[u] + [v] && v in h[u];
    forall x | 0 <= x < |h| ensures Distinct(h[x]) && forall y :: y in h[x] ==> y < |h| {
      if x != u { assert h[x] == g[x]; }
    }
    forall x: nat, y: nat ensures Edge(h, x, y) <==> Edge(g, x, y) || (x == u && y == v) {
      if x < |h| && x != u { assert h[x] == g[x]; }
    }
  }

  /** One more edge occurrence, new or already known. */
  lemma AdjacentMore(n: nat, rank: map<Id, nat>, edges: seq<ProviderEdge>, k: nat, outgoing: Adjacency,
                     incoming: Adjacency, unique: seq<set<nat>>, count: nat)
    requires k < |edges| && edges[k].0 in rank && edges[k].1 in rank && rank[edges[k].0] < n && rank[edges[k].1] < n
    requires Adjacent(n, rank, edges[..k], outgoing, incoming, unique, count)
    ensures var p, c := rank[edges[k].0], rank[edges[k].1];
            if c in unique[p] then Adjacent(n, rank, edges[..k + 1], outgoing, incoming, unique, count)
            else Adjacent(n, rank, edges[..k + 1], outgoing[p := outgoing[p] + [c]], incoming[c := incoming[c] + [p]],
                          unique[p := unique[p] + {c}], count + 1)
  {
    var p, c := rank[edges[k].0], rank[edges[k].1];
    forall u: nat, v: nat
      ensures Links(rank, edges[..k + 1], u, v) <==> Links(rank, edges[..k], u, v) || (u == p && v == c)
    {
      LinksMore(rank, edges, k, u, v);
    }
    assert c in unique[p] <==> Edge(outgoing, p, c);
    if c !in unique[p] {
      assert !Edge(incoming, c, p);
      AddRow(outgoing, p, c);
      AddRow(incoming, c, p);
    }
  }

  method BuildAdjacency(n: nat, edges: seq<ProviderEdge>, rank: map<Id, nat>)
    returns (resolved: bool, outgoing: Adjacency, incoming: Adjacency, unique: seq<set<nat>>, adjacencyEdges: nat)
    requires forall a :: a in rank ==> rank[a] < n
    ensures resolved <==> Resolved(rank, edges)
    ensures resolved ==> Adjacent(n, rank, edges, outgoing, incoming, unique, adjacencyEdges)
  {
    outgoing, incoming, unique := EmptyRows(n), EmptyRows(n), seq(n, _ => {});
    adjacencyEdges := 0;
    for k := 0 to |edges|
      invariant Resolved(rank, edges[..k])
      invariant Adjacent(n, rank, edges[..k], outgoing, incoming, unique, adjacencyEdges)
    {
      assert edges[k] in edges;
      if edges[k].0 !in rank || edges[k].1 !in rank { return false, [], [], [], 0; }
      assert edges[..k + 1] == edges[..k] + [edges[k]];
      AdjacentMore(n, rank, edges, k, outgoing, incoming, unique, adjacencyEdges);
      var provider, consumer := rank[edges[k].0], rank[edges[k].1];
      if consumer in unique[provider] { continue; }
      unique := unique[provider := unique[provider] + {consumer}];
      outgoing := outgoing[provider := outgoing[provider] + [consumer]];
      incoming := incoming[consumer := incoming[consumer] + [provider]];
      adjacencyEdges := adjacencyEdges + 1;
    }
    assert edges[..|edges|] == edges;
    resolved := true;
  }

  lemma AdjacentRepresents(nodes: seq<Id>, rank: map<Id, nat>, edges: seq<ProviderEdge>, outgoing: Adjacency,
                           incoming: Adjacency, unique: seq<set<nat>>, count: nat)
    requires IdsIncrease(nodes) && RankMap(nodes, rank) && Resolved(rank, edges)
    requires Adjacent(|nodes|, rank, edges, outgoing, incoming, unique, count)
    ensures Represents(nodes, edges, outgoing) && Transposed(outgoing, incoming)
  {
    IncreasingDistinct(nodes);
    forall e | e in edges ensures e.0 in nodes && e.1 in nodes {
      assert nodes[rank[e.0]] == e.0 && nodes[rank[e.1]] == e.1;
    }
    forall u: nat, v: nat | u < |nodes| && v < |nodes| ensures Edge(outgoing, u, v) <==> (nodes[u], nodes[v]) in edges {
      assert nodes[u] in rank && nodes[v] in rank;
      assert rank[nodes[u]] == u && rank[nodes[v]] == v;
      if (nodes[u], nodes[v]) in edges { assert Links(rank, edges, u, v); }
    }
  }

  // ---------- cycles ----------

  ghost predicate CyclicComponent(g: Adjacency, c: seq<nat>)
    requires GraphComponents.Component(g, c)
  {
    |c| > 1 || c[0] in g[c[0]]
  }

  /** A component of several vertices, or with a self-edge, is one whose vertices lie on cycles. */
  lemma CyclicComponentCorrect(g: Adjacency, c: seq<nat>, v: nat)
    requires Graph(g) && GraphComponents.Component(g, c) && v in c
    ensures OnCycle(g, v) <==> CyclicComponent(g, c)
  {
    assert Mutual(g, c[0], v);
    if OnCycle(g, v) {
      var u :| Edge(g, v, u) && Reach(g, u, v);
      ReachEdge(g, v, u);
      MutualTransitive(g, c[0], v, u);
      assert u in c;
    }
    if CyclicComponent(g, c) {
      if |c| == 1 {
        ReachSelf(g, v);
        assert Edge(g, v, v);
      } else {
        var w := if c[0] == v then c[1] else c[0];
        assert w in c && w != v;
        MutualTransitive(g, v, c[0], w);
        var p :| WalkFrom(g, p, v, w);
        assert Edge(g, p[0], p[1]);
        WalkPieceReaches(g, p, 1, |p| - 1);
        ReachTransitive(g, p[1], w, v);
      }
    }
  }

  lemma ComponentInIds(nodes: seq<Id>, edges: seq<ProviderEdge>, g: Adjacency, c: seq<nat>)
    requires Represents(nodes, edges, g) && GraphComponents.Component(g, c) && CyclicComponent(g, c)
    requires forall i :: 0 <= i < |c| ==> c[i] < |nodes|
    ensures CycleReport(nodes, edges, IdsOf(nodes, c))
  {
    var ids := IdsOf(nodes, c);
    IncreasingDistinct(nodes);
    CyclicComponentCorrect(g, c, c[0]);
    InCycleIsOnCycle(nodes, edges, g, c[0]);
    forall b ensures b in ids <==> Feeds(nodes, edges, ids[0], b) && Feeds(nodes, edges, b, ids[0]) {
      if b in nodes {
        var v := RankOfNode(nodes, b);
        FeedsIsReach(nodes, edges, g, c[0], v);
        FeedsIsReach(nodes, edges, g, v, c[0]);
        if v in c { var i :| 0 <= i < |c| && c[i] == v; assert ids[i] == b; }
      }
    }
  }

  lemma ComponentBounds(g: Adjacency, c: seq<nat>)
    requires GraphComponents.Component(g, c)
    ensures forall v :: v in c ==> v < |g|
    ensures forall i :: 0 <= i < |c| ==> c[i] < |g|
  {
    forall i | 0 <= i < |c| ensures c[i] < |g| { assert c[i] in c; }
    forall v | v in c ensures v < |g| {
      var p :| WalkFrom(g, p, c[0], v);
      assert p[|p| - 1] < |g|;
    }
  }

  ghost predicate FlagsSoFar(g: Adjacency, members: seq<seq<nat>>, k: nat, cyclic: seq<bool>) {
    && |cyclic| == |g| && k <= |members|
    && forall v: nat :: v < |g| ==> (cyclic[v] <==> OnCycle(g, v) && GraphComponents.Listed(members[..k], v))
  }

  /** The reports made from the first `k` components: exactly the cyclic ones, in order. */
  ghost predicate ReportsSoFar(nodes: seq<Id>, g: Adjacency, members: seq<seq<nat>>, k: nat, source: seq<nat>,
                               cycles: seq<seq<Id>>) {
    && |g| == |nodes| && k <= |members| && |source| == |cycles| && StrictlyUp(source)
    && (forall j :: 0 <= j < k ==> GraphComponents.Component(g, members[j]))
    && (forall i :: 0 <= i < |source| ==> source[i] < k && CyclicComponent(g, members[source[i]]))
    && (forall i :: 0 <= i < |source| ==> Projected(nodes, members[source[i]], cycles[i]))
    && (forall j :: 0 <= j < k && CyclicComponent(g, members[j]) ==> j in source)
  }

  ghost predicate StrictlyUp(source: seq<nat>) {
    forall i, j :: 0 <= i < j < |source| ==> source[i] < source[j]
  }

  lemma ListedMore(members: seq<seq<nat>>, k: nat, v: nat)
    requires k < |members|
    ensures GraphComponents.Listed(members[..k + 1], v) <==> GraphComponents.Listed(members[..k], v) || v in members[k]
  {
    var more := members[..k + 1];
    assert more[k] == members[k];
    if GraphComponents.Listed(members[..k], v) {
      var i :| 0 <= i < k && v in members[..k][i];
      assert v in more[i];
    }
    if GraphComponents.Listed(more, v) && v !in members[k] {
      var i :| 0 <= i < k + 1 && v in more[i];
      assert v in members[..k][i];
    }
  }

  /** One more component: flagged as a whole when it is cyclic, else left alone. */
  lemma FlagsMore(g: Adjacency, members: seq<seq<nat>>, k: nat, cyclic: seq<bool>, flagged: seq<bool>)
    requires Graph(g) && k < |members| && GraphComponents.Component(g, members[k]) && FlagsSoFar(g, members, k, cyclic)
    requires |flagged| == |g|
    requires forall v: nat ::
      v < |g| ==> (flagged[v] <==> cyclic[v] || (CyclicComponent(g, members[k]) && v in members[k]))
    ensures FlagsSoFar(g, members, k + 1, flagged)
  {
    forall v: nat | v < |g| ensures flagged[v] <==> OnCycle(g, v) && GraphComponents.Listed(members[..k + 1], v) {
      ListedMore(members, k, v);
      if v in members[k] { CyclicComponentCorrect(g, members[k], v); }
    }
  }

  lemma ReportsMore(nodes: seq<Id>, g: Adjacency, members: seq<seq<nat>>, k: nat, source: seq<nat>,
                    cycles: seq<seq<Id>>)
    requires ReportsSoFar(nodes, g, members, k, source, cycles)
    requires k < |members|
    requires GraphComponents.Component(g, members[k])
    ensures !CyclicComponent(g, members[k]) ==> ReportsSoFar(nodes, g, members, k + 1, source, cycles)
    ensures forall i :: 0 <= i < |members[k]| ==> members[k][i] < |nodes|
    ensures CyclicComponent(g, members[k]) ==>
              ReportsSoFar(nodes, g, members, k + 1, source + [k], cycles + [IdsOf(nodes, members[k])])
  {
    ComponentBounds(g, members[k]);
    var more := source + [k];
    assert more[|source|] == k;
    forall j | 0 <= j < k && CyclicComponent(g, members[j]) ensures j in more { assert j in source; }
  }

  lemma FlagsComplete(g: Adjacency, members: seq<seq<nat>>, cyclic: seq<bool>)
    requires GraphComponents.Decomposition(g, members) && FlagsSoFar(g, members, |members|, cyclic)
    ensures CyclicFlags(g, cyclic)
  {
    assert members[..|members|] == members;
    forall v: nat | v < |g| ensures cyclic[v] <==> OnCycle(g, v) { assert GraphComponents.Listed(members, v); }
  }

  lemma ReportOf(nodes: seq<Id>, edges: seq<ProviderEdge>, g: Adjacency, members: seq<seq<nat>>, source: seq<nat>,
                 cycles: seq<seq<Id>>, i: nat)
    requires Represents(nodes, edges, g) && ReportsSoFar(nodes, g, members, |members|, source, cycles) && i < |cycles|
    ensures CycleReport(nodes, edges, cycles[i])
  {
    var c := members[source[i]];
    assert CyclicComponent(g, c) && Projected(nodes, c, cycles[i]);
    ComponentBounds(g, c);
    assert cycles[i] == IdsOf(nodes, c);
    ComponentInIds(nodes, edges, g, c);
  }

  /** A vertex on a cycle is found in one of the reports. */
  lemma ReportFor(nodes: seq<Id>, g: Adjacency, members: seq<seq<nat>>, source: seq<nat>, cycles: seq<seq<Id>>, v: nat)
    requires GraphComponents.Decomposition(g, members) && ReportsSoFar(nodes, g, members, |members|, source, cycles)
    requires Graph(g) && v < |g| && OnCycle(g, v)
    ensures exists i :: 0 <= i < |cycles| && nodes[v] in cycles[i]
  {
    assert GraphComponents.Listed(members, v);
    var j :| 0 <= j < |members| && v in members[j];
    CyclicComponentCorrect(g, members[j], v);
    assert j in source;
    var i :| 0 <= i < |source| && source[i] == j;
    var m :| 0 <= m < |members[j]| && members[j][m] == v;
    assert Projected(nodes, members[j], cycles[i]);
    assert cycles[i][m] == nodes[v];
  }

  lemma ReportsOrdered(nodes: seq<Id>, edges: seq<ProviderEdge>, g: Adjacency, members: seq<seq<nat>>,
                       source: seq<nat>, cycles: seq<seq<Id>>, i: nat, j: nat)
    requires Represents(nodes, edges, g) && GraphComponents.Decomposition(g, members)
    requires ReportsSoFar(nodes, g, members, |members|, source, cycles) && i < j < |cycles|
    ensures cycles[i] != [] && cycles[j] != [] && TextLess(cycles[i][0], cycles[j][0])
  {
    var a, b := members[source[i]], members[source[j]];
    assert source[i] < source[j];
    assert GraphComponents.Component(g, a) && GraphComponents.Component(g, b);
    assert GraphComponents.First(a) < GraphComponents.First(b);
    IncreasingDistinct(nodes);
    assert Projected(nodes, a, cycles[i]) && Projected(nodes, b, cycles[j]);
  }

  lemma CyclesComplete(nodes: seq<Id>, edges: seq<ProviderEdge>, g: Adjacency, members: seq<seq<nat>>,
                       cyclic: seq<bool>, source: seq<nat>, cycles: seq<seq<Id>>)
    requires Represents(nodes, edges, g) && GraphComponents.Decomposition(g, members)
    requires FlagsSoFar(g, members, |members|, cyclic) && ReportsSoFar(nodes, g, members, |members|, source, cycles)
    ensures CyclicFlags(g, cyclic) && CycleReports(nodes, edges, cycles)
    ensures cycles == [] <==> NoCycle(g, cyclic)
  {
    hide ReportsSoFar, FlagsSoFar, GraphComponents.Decomposition, InCycle, OnCycle, CycleReport;
    FlagsComplete(g, members, cyclic);
    forall i | 0 <= i < |cycles| ensures CycleReport(nodes, edges, cycles[i]) {
      ReportOf(nodes, edges, g, members, source, cycles, i);
    }
    forall i, j | 0 <= i < j < |cycles|
      ensures cycles[i] != [] && cycles[j] != [] && TextLess(cycles[i][0], cycles[j][0]) {
      ReportsOrdered(nodes, edges, g, members, source, cycles, i, j);
    }
    forall a | a in nodes && InCycle(nodes, edges, a) ensures exists i :: 0 <= i < |cycles| && a in cycles[i] {
      var v := RankOfNode(nodes, a);
      InCycleIsOnCycle(nodes, edges, g, v);
      ReportFor(nodes, g, members, source, cycles, v);
    }
    if v: nat :| v < |g| && cyclic[v] { ReportFor(nodes, g, members, source, cycles, v); }
    if cycles != [] { SomeCycle(nodes, edges, g, cyclic, cycles[0]); }
  }

  lemma SomeCycle(nodes: seq<Id>, edges: seq<ProviderEdge>, g: Adjacency, cyclic: seq<bool>, cycle: seq<Id>)
    requires Represents(nodes, edges, g) && CyclicFlags(g, cyclic) && CycleReport(nodes, edges, cycle)
    ensures !NoCycle(g, cyclic)
  {
    CycleReportNodes(nodes, edges, cycle);
    assert cycle[0] in cycle;
    var v := RankOfNode(nodes, cycle[0]);
    InCycleIsOnCycle(nodes, edges, g, v);
  }

  lemma CycleReportNodes(nodes: seq<Id>, edges: seq<ProviderEdge>, cycle: seq<Id>)
    requires CycleReport(nodes, edges, cycle)
    ensures forall a :: a in cycle ==> a in nodes
  {
    forall a | a in cycle ensures a in nodes {
      var p :| IdWalk(nodes, edges, p) && p[0] == cycle[0] && p[|p| - 1] == a;
    }
  }

  method FindCycles(nodes: seq<Id>, ghost edges: seq<ProviderEdge>, unique: seq<set<nat>>, outgoing: Adjacency,
                    incoming: Adjacency)
    returns (cyclic: seq<bool>, cycles: seq<seq<Id>>, edgeVisits: nat, peakFrames: nat)
    requires Represents(nodes, edges, outgoing) && Transposed(outgoing, incoming)
    requires |unique| == |outgoing| && forall u: nat :: u < |outgoing| ==> unique[u] == Elements(outgoing[u])
    ensures CyclicFlags(outgoing, cyclic) && CycleReports(nodes, edges, cycles)
    ensures cycles == [] <==> NoCycle(outgoing, cyclic)
    ensures edgeVisits == EdgeCount(outgoing) + EdgeCount(incoming)
    ensures peakFrames <= |nodes|
  {
    var members: seq<seq<nat>>;
    members, edgeVisits, peakFrames := GraphComponents.Components(outgoing, incoming);
    var flags := new bool[|nodes|](_ => false);
    cycles := [];
    ghost var source: seq<nat> := [];
    for k := 0 to |members|
      invariant FlagsSoFar(outgoing, members, k, flags[..])
      invariant ReportsSoFar(nodes, outgoing, members, k, source, cycles)
    {
      var component := members[k];
      ghost var before := flags[..];
      assert GraphComponents.Component(outgoing, component);
      ComponentBounds(outgoing, component);
      ReportsMore(nodes, outgoing, members, k, source, cycles);
      hide FlagsSoFar, ReportsSoFar, GraphComponents.Decomposition, Represents, Transposed;
      assert component[0] in unique[component[0]] <==> component[0] in outgoing[component[0]];
      if |component| == 1 && component[0] !in unique[component[0]] {
        FlagsMore(outgoing, members, k, before, flags[..]);
        continue;
      }
      FlagMembers(component, flags);
      FlagsMore(outgoing, members, k, before, flags[..]);
      cycles := cycles + [IdsOf(nodes, component)];
      source := source + [k];
    }
    cyclic := flags[..];
    CyclesComplete(nodes, edges, outgoing, members, cyclic, source, cycles);
  }

  method FlagMembers(component: seq<nat>, flags: array<bool>)
    requires forall v :: v in component ==> v < flags.Length
    modifies flags
    ensures forall v: nat :: v < flags.Length ==> (flags[v] <==> old(flags[v]) || v in component)
  {
    for i := 0 to |component|
      invariant forall v: nat :: v < flags.Length ==> (flags[v] <==> old(flags[v]) || v in component[..i])
    {
      assert component[i] in component;
      assert component[..i + 1] == component[..i] + [component[i]];
      flags[component[i]] := true;
    }
    assert component[..|component|] == component;
  }

  // ---------- root closure ----------

  ghost predicate ReachesRoot(g: Adjacency, starts: set<nat>, v: nat) {
    exists r :: r in starts && Reach(g, v, r)
  }

  /** What the closure search keeps: everything met leads to a root, and `done` have all their providers met. */
  ghost predicate Closing(g: Adjacency, starts: set<nat>, reached: seq<bool>, done: seq<nat>, pending: seq<nat>) {
    && |reached| == |g| && Tracks(reached, done + pending)
    && (forall v :: v in done + pending ==> v < |g| && ReachesRoot(g, starts, v))
    && (forall r :: r in starts ==> r in done + pending)
    && (forall v :: v in done ==> ProvidersMet(g, reached, v))
  }

  ghost predicate ProvidersMet(g: Adjacency, reached: seq<bool>, v: nat)
    requires |reached| == |g|
  {
    forall u: nat :: Edge(g, u, v) ==> reached[u]
  }

  lemma ReachesRootStep(g: Adjacency, starts: set<nat>, u: nat, v: nat)
    requires Graph(g) && Edge(g, u, v) && ReachesRoot(g, starts, v)
    ensures ReachesRoot(g, starts, u)
  {
    var r :| r in starts && Reach(g, v, r);
    ReachEdge(g, u, v);
    ReachTransitive(g, u, v, r);
  }

  /** Meets all roots in turn. */
  method StartClosure(n: nat, ghost g: Adjacency, roots: seq<Id>, rank: map<Id, nat>, reached: array<bool>)
    returns (resolved: bool, pending: seq<nat>, ghost starts: set<nat>)
    requires |g| == n == reached.Length && Graph(g) && forall a :: a in rank ==> rank[a] < n
    requires forall v :: 0 <= v < n ==> !reached[v]
    modifies reached
    ensures resolved <==> forall a :: a in roots ==> a in rank
    ensures resolved ==> Closing(g, starts, reached[..], [], pending)
    ensures resolved ==> forall v: nat :: v in starts <==> exists a :: a in roots && a in rank && rank[a] == v
  {
    pending, starts := [], {};
    for k := 0 to |roots|
      invariant forall a :: a in roots[..k] ==> a in rank
      invariant forall v: nat :: v in starts <==> exists a :: a in roots[..k] && a in rank && rank[a] == v
      invariant forall v: nat :: v < n && reached[v] <==> v in pending
      invariant forall v: nat :: v in pending <==> v in starts
      invariant Distinct(pending) && forall v :: v in starts ==> v < n
    {
      assert roots[k] in roots;
      if roots[k] !in rank { return false, [], {}; }
      assert roots[..k + 1] == roots[..k] + [roots[k]];
      var node := rank[roots[k]];
      starts := starts + {node};
      if !reached[node] {
        reached[node] := true;
        pending := pending + [node];
      }
    }
    assert roots[..|roots|] == roots;
    assert [] + pending == pending;
    forall v | v in pending ensures ReachesRoot(g, starts, v) { ReachSelf(g, v); }
    resolved := true;
  }

  lemma ClosingMet(g: Adjacency, starts: set<nat>, reached: seq<bool>, done: seq<nat>, pending: seq<nat>, u: nat,
                   v: nat)
    requires Graph(g) && Closing(g, starts, reached, done, pending) && v in pending && Edge(g, u, v) && !reached[u]
    ensures Closing(g, starts, reached[u := true], done, pending + [u])
  {
    hide ReachesRoot, Edge, Tracks, Graph, ProvidersMet;
    EdgeStarts(g, u, v);
    assert v in done + pending;
    ReachesRootStep(g, starts, u, v);
    var all := done + pending;
    assert done + (pending + [u]) == all + [u];
    TracksMore(reached, all, u);
    AllMetMore(g, reached, done, u);
    assert forall w :: w in all + [u] <==> w in all || w == u;
  }

  lemma EdgeStarts(g: Adjacency, u: nat, v: nat)
    requires Edge(g, u, v)
    ensures u < |g|
  {
  }

  lemma AllMetMore(g: Adjacency, reached: seq<bool>, done: seq<nat>, u: nat)
    requires |reached| == |g| && u < |g| && forall w :: w in done ==> ProvidersMet(g, reached, w)
    ensures forall w :: w in done ==> ProvidersMet(g, reached[u := true], w)
  {
    hide ProvidersMet;
    forall w | w in done ensures ProvidersMet(g, reached[u := true], w) { ProvidersMetMore(g, reached, u, w); }
  }

  lemma ProvidersMetMore(g: Adjacency, reached: seq<bool>, u: nat, w: nat)
    requires |reached| == |g| && u < |g| && ProvidersMet(g, reached, w)
    ensures ProvidersMet(g, reached[u := true], w)
  {
  }

  lemma ClosingBounds(g: Adjacency, starts: set<nat>, reached: seq<bool>, done: seq<nat>, pending: seq<nat>)
    requires Closing(g, starts, reached, done, pending)
    ensures |done| + |pending| <= |g| && |reached| == |g|
    ensures forall v :: v in pending ==> v < |g|
  {
    forall i | 0 <= i < |done + pending| ensures (done + pending)[i] < |g| {
      assert (done + pending)[i] in done + pending;
    }
    DistinctBelow(done + pending, |g|);
    forall v | v in pending ensures v < |g| { assert v in done + pending; }
  }

  lemma ClosingReorder(g: Adjacency, starts: set<nat>, reached: seq<bool>, done: seq<nat>, pending: seq<nat>)
    requires Closing(g, starts, reached, done, pending) && pending != []
    ensures var top := |pending| - 1; Closing(g, starts, reached, done, [pending[top]] + pending[..top])
  {
    var top := |pending| - 1;
    var a, b := done + pending, done + ([pending[top]] + pending[..top]);
    assert pending == pending[..top] + [pending[top]];
    assert multiset(a) == multiset(b);
    MembersOfMultiset(a, b);
    DistinctPermutation(a, b);
  }

  lemma ClosingPop(g: Adjacency, incoming: Adjacency, starts: set<nat>, reached: seq<bool>, done: seq<nat>, v: nat,
                   rest: seq<nat>)
    requires Transposed(g, incoming) && v < |incoming| && |reached| == |g|
    requires Closing(g, starts, reached, done, [v] + rest)
    requires forall i :: 0 <= i < |incoming[v]| ==> incoming[v][i] < |g| && reached[incoming[v][i]]
    ensures Closing(g, starts, reached, done + [v], rest)
  {
    GraphComponents.BackEdges(g, incoming, v);
    assert done + ([v] + rest) == (done + [v]) + rest;
  }

  lemma {:induction false} MetAlongWalk(g: Adjacency, reached: seq<bool>, p: seq<nat>)
    requires |reached| == |g| && Walk(g, p) && reached[p[|p| - 1]]
    requires forall v: nat :: v < |g| && reached[v] ==> ProvidersMet(g, reached, v)
    ensures reached[p[0]]
  {
    if |p| > 1 {
      MetAlongWalk(g, reached, p[1..]);
      assert Edge(g, p[0], p[1]) && ProvidersMet(g, reached, p[1]);
    }
  }

  /** With nothing pending, everything that leads to a root was met. */
  lemma ClosingDone(g: Adjacency, starts: set<nat>, reached: seq<bool>, done: seq<nat>)
    requires Closing(g, starts, reached, done, [])
    ensures |reached| == |g|
    ensures forall v: nat :: v < |g| ==> (reached[v] <==> ReachesRoot(g, starts, v))
  {
    assert done + [] == done;
    forall v: nat | v < |g| && ReachesRoot(g, starts, v) ensures reached[v] {
      var r :| r in starts && Reach(g, v, r);
      var p :| WalkFrom(g, p, v, r);
      hide Walk, ReachesRoot, Reach;
      MetAlongWalk(g, reached, p);
    }
  }

  method MeetProviders(ghost g: Adjacency, incoming: Adjacency, ghost starts: set<nat>, reached: array<bool>,
                       ghost done: seq<nat>, node: nat, rest: seq<nat>, peak: nat, visits: nat)
    returns (pending: seq<nat>, peakFrames: nat, edgeVisits: nat)
    requires Transposed(g, incoming) && reached.Length == |g| && node < |g| && peak <= |g|
    requires Closing(g, starts, reached[..], done, [node] + rest)
    modifies reached
    ensures Closing(g, starts, reached[..], done + [node], pending) && peakFrames <= |g|
    ensures node < |incoming| && edgeVisits == visits + |incoming[node]|
  {
    hide Closing, ReachesRoot, Transposed, Graph, Edge;
    GraphComponents.BackEdges(g, incoming, node);
    TransposedSize(g, incoming);
    pending, peakFrames, edgeVisits := rest, peak, visits;
    for t := 0 to |incoming[node]|
      invariant Closing(g, starts, reached[..], done, [node] + pending) && peakFrames <= |g| && edgeVisits == visits + t
      invariant forall i :: 0 <= i < t ==> incoming[node][i] < |g| && reached[incoming[node][i]]
    {
      edgeVisits := edgeVisits + 1;
      var provider := incoming[node][t];
      assert provider in incoming[node];
      if !reached[provider] {
        ClosingMet(g, starts, reached[..], done, [node] + pending, provider, node);
        assert ([node] + pending) + [provider] == [node] + (pending + [provider]);
        reached[provider] := true;
        pending := pending + [provider];
        ClosingBounds(g, starts, reached[..], done, [node] + pending);
        peakFrames := Max(peakFrames, |pending|);
      }
    }
    ClosingPop(g, incoming, starts, reached[..], done, node, pending);
  }

  lemma ClosureInIds(nodes: seq<Id>, edges: seq<ProviderEdge>, g: Adjacency, roots: seq<Id>, rank: map<Id, nat>,
                     starts: set<nat>, v: nat)
    requires Represents(nodes, edges, g) && RankMap(nodes, rank) && v < |nodes|
    requires forall u: nat :: u in starts <==> exists a :: a in roots && a in rank && rank[a] == u
    ensures ReachesRoot(g, starts, v) ==> exists r :: r in roots && Feeds(nodes, edges, nodes[v], r)
    ensures (forall a :: a in roots ==> a in rank) && (exists r :: r in roots && Feeds(nodes, edges, nodes[v], r)) ==>
      ReachesRoot(g, starts, v)
  {
    if ReachesRoot(g, starts, v) {
      var u :| u in starts && Reach(g, v, u);
      var a :| a in roots && a in rank && rank[a] == u;
      FeedsIsReach(nodes, edges, g, v, u);
      assert nodes[u] == a;
    }
    if (forall a :: a in roots ==> a in rank) && (exists r :: r in roots && Feeds(nodes, edges, nodes[v], r)) {
      var r :| r in roots && Feeds(nodes, edges, nodes[v], r);
      assert r in rank && nodes[rank[r]] == r;
      FeedsIsReach(nodes, edges, g, v, rank[r]);
    }
  }

  lemma RepresentsSize(nodes: seq<Id>, edges: seq<ProviderEdge>, g: Adjacency)
    requires Represents(nodes, edges, g)
    ensures |g| == |nodes| && Graph(g) && IdsIncrease(nodes)
  {
  }

  method FindRootClosure(nodes: seq<Id>, ghost edges: seq<ProviderEdge>, ghost g: Adjacency, roots: seq<Id>,
                         rank: map<Id, nat>, incoming: Adjacency, initialPeak: nat)
    returns (resolved: bool, closure: seq<Id>, edgeVisits: nat, peakFrames: nat)
    requires Represents(nodes, edges, g) && Transposed(g, incoming) && RankMap(nodes, rank) && initialPeak <= |nodes|
    ensures resolved <==> forall a :: a in roots ==> a in rank
    ensures resolved ==> RootClosure(nodes, edges, roots, closure) && peakFrames <= |nodes|
    ensures resolved ==> edgeVisits == EdgesFrom(incoming, RankSet(nodes, closure))
  {
    hide Closing, ReachesRoot, Represents, Transposed, RootClosure, EdgesFrom, Elements, RankSet, Graph, RankMap;
    RepresentsSize(nodes, edges, g);
    TransposedSize(g, incoming);
    RanksBelow(nodes, rank);
    var reached := new bool[|nodes|](_ => false);
    var pending: seq<nat>;
    ghost var starts: set<nat>;
    closure, edgeVisits, peakFrames := [], 0, initialPeak;
    resolved, pending, starts := StartClosure(|nodes|, g, roots, rank, reached);
    if !resolved { return; }
    ghost var done: seq<nat> := [];
    NoneVisited(incoming);
    ClosingBounds(g, starts, reached[..], done, pending);
    peakFrames := Max(peakFrames, |pending|);
    while |pending| > 0
      invariant Closing(g, starts, reached[..], done, pending) && peakFrames <= |nodes| && |done| <= |nodes|
      invariant edgeVisits == EdgesFrom(incoming, Elements(done))
      decreases |nodes| - |done|
    {
      var top := |pending| - 1;
      var node := pending[top];
      ClosingBounds(g, starts, reached[..], done, pending);
      assert node in pending;
      ClosingReorder(g, starts, reached[..], done, pending);
      DoneVisits(g, incoming, starts, reached[..], done, node, pending[..top]);
      pending, peakFrames, edgeVisits :=
        MeetProviders(g, incoming, starts, reached, done, node, pending[..top], peakFrames, edgeVisits);
      done := done + [node];
      ClosingBounds(g, starts, reached[..], done, pending);
    }
    ClosingDone(g, starts, reached[..], done);
    closure := Filter(nodes, reached);
    DoneIsClosure(nodes, g, starts, reached[..], done, closure);
    ClosureMembers(nodes, edges, g, roots, rank, starts, reached[..], closure);
  }

  lemma RanksBelow(nodes: seq<Id>, rank: map<Id, nat>)
    requires RankMap(nodes, rank)
    ensures forall a :: a in rank ==> rank[a] < |nodes|
  {
  }

  ghost function RankSet(nodes: seq<Id>, ids: seq<Id>): set<nat> {
    set v | v in Below(|nodes|) && nodes[v] in ids
  }

  /** A pending vertex is not done, so its providers are counted once. */
  lemma DoneVisits(g: Adjacency, incoming: Adjacency, starts: set<nat>, reached: seq<bool>, done: seq<nat>, node: nat,
                   rest: seq<nat>)
    requires Closing(g, starts, reached, done, [node] + rest) && node < |incoming|
    ensures EdgesFrom(incoming, Elements(done + [node])) == EdgesFrom(incoming, Elements(done)) + |incoming[node]|
  {
    DistinctParts(done, [node] + rest);
    assert node in [node] + rest;
    assert Elements(done + [node]) == Elements(done) + {node};
    EdgesFromAdd(incoming, Elements(done), node);
  }

  lemma DoneIsClosure(nodes: seq<Id>, g: Adjacency, starts: set<nat>, reached: seq<bool>, done: seq<nat>,
                      closure: seq<Id>)
    requires Closing(g, starts, reached, done, []) && |g| == |nodes| && IdsIncrease(nodes)
    requires forall a :: a in closure <==> exists v :: 0 <= v < |nodes| && reached[v] && a == nodes[v]
    ensures Elements(done) == RankSet(nodes, closure)
  {
    hide Closing, IdsIncrease, Tracks;
    DoneIsReached(g, starts, reached, done);
    forall v: nat | v < |nodes| ensures v in done <==> nodes[v] in closure {
      if nodes[v] in closure {
        var u :| 0 <= u < |nodes| && reached[u] && nodes[v] == nodes[u];
        SameRank(nodes, u, v);
      }
    }
    RanksAre(nodes, closure, done);
  }

  /** With nothing pending, what is done is what has been reached. */
  lemma DoneIsReached(g: Adjacency, starts: set<nat>, reached: seq<bool>, done: seq<nat>)
    requires Closing(g, starts, reached, done, [])
    ensures |reached| == |g| && forall v: nat :: v in done <==> v < |reached| && reached[v]
  {
    hide ReachesRoot, ProvidersMet;
    assert done + [] == done;
  }

  lemma RanksAre(nodes: seq<Id>, ids: seq<Id>, done: seq<nat>)
    requires forall v: nat :: v in done ==> v < |nodes|
    requires forall v: nat :: v < |nodes| ==> (v in done <==> nodes[v] in ids)
    ensures Elements(done) == RankSet(nodes, ids)
  {
    forall v: nat ensures v in Elements(done) <==> v in RankSet(nodes, ids) {}
  }

  lemma SameRank(nodes: seq<Id>, u: nat, v: nat)
    requires IdsIncrease(nodes) && u < |nodes| && v < |nodes| && nodes[u] == nodes[v]
    ensures u == v
  {
    TextTrichotomy(nodes[u], nodes[v]);
  }

  /** Keeps the reached identities, in order. */
  method Filter(nodes: seq<Id>, reached: array<bool>) returns (kept: seq<Id>)
    requires reached.Length == |nodes| && IdsIncrease(nodes)
    ensures IdsIncrease(kept)
    ensures forall a :: a in kept <==> exists v :: 0 <= v < |nodes| && reached[v] && a == nodes[v]
  {
    kept := [];
    for k := 0 to |nodes|
      invariant forall a :: a in kept <==> exists v :: 0 <= v < k && reached[v] && a == nodes[v]
      invariant IdsIncrease(kept)
    {
      forall j | 0 <= j < |kept| ensures TextLess(kept[j], nodes[k]) { assert kept[j] in kept; }
      if reached[k] { kept := kept + [nodes[k]]; }
    }
  }

  lemma ClosureMembers(nodes: seq<Id>, edges: seq<ProviderEdge>, g: Adjacency, roots: seq<Id>, rank: map<Id, nat>,
                       starts: set<nat>, reached: seq<bool>, closure: seq<Id>)
    requires Represents(nodes, edges, g) && RankMap(nodes, rank) && |reached| == |nodes|
    requires forall a :: a in roots ==> a in rank
    requires forall u: nat :: u in starts <==> exists a :: a in roots && a in rank && rank[a] == u
    requires forall v: nat :: v < |g| ==> (reached[v] <==> ReachesRoot(g, starts, v))
    requires forall a :: a in closure <==> exists v :: 0 <= v < |nodes| && reached[v] && a == nodes[v]
    requires IdsIncrease(closure)
    ensures RootClosure(nodes, edges, roots, closure)
  {
    forall a ensures a in closure <==> exists r :: r in roots && Feeds(nodes, edges, a, r) {
      if a in closure {
        var v :| 0 <= v < |nodes| && reached[v] && a == nodes[v];
        ClosureInIds(nodes, edges, g, roots, rank, starts, v);
      }
      if exists r :: r in roots && Feeds(nodes, edges, a, r) {
        var r :| r in roots && Feeds(nodes, edges, a, r);
        var p :| IdWalk(nodes, edges, p) && p[0] == a && p[|p| - 1] == r;
        var v := RankOfNode(nodes, a);
        ClosureInIds(nodes, edges, g, roots, rank, starts, v);
      }
    }
  }

  // ---------- counting edges by identity ----------

  ghost function EdgesOutOf(edges: seq<ProviderEdge>, ids: set<Id>): set<ProviderEdge> {
    set e | e in edges && e.0 in ids
  }

  ghost function EdgesInto(edges: seq<ProviderEdge>, ids: set<Id>): set<ProviderEdge> {
    set e | e in edges && e.1 in ids
  }

  ghost function IdsAt(nodes: seq<Id>, ranks: set<nat>): set<Id> {
    set v | v in ranks && v < |nodes| :: nodes[v]
  }

  /** The rows of the vertices of s, one after the other. */
  ghost function RowsOf(rows: seq<set<ProviderEdge>>, s: set<nat>): set<ProviderEdge> {
    if rows == [] then {} else RowsOf(rows[..|rows| - 1], s) + if |rows| - 1 in s then rows[|rows| - 1] else {}
  }

  lemma {:induction false} RowsMembers(rows: seq<set<ProviderEdge>>, s: set<nat>, e: ProviderEdge)
    ensures e in RowsOf(rows, s) <==> exists u :: 0 <= u < |rows| && u in s && e in rows[u]
  {
    if rows != [] { RowsMembers(rows[..|rows| - 1], s, e); }
  }

  /** With one row of different edges for each vertex, edges are counted row by row. */
  lemma {:induction false} RowsCount(g: Adjacency, rows: seq<set<ProviderEdge>>, s: set<nat>)
    requires |g| == |rows| && forall u :: 0 <= u < |g| ==> |rows[u]| == |g[u]|
    requires forall u, v :: 0 <= u < v < |rows| ==> rows[u] !! rows[v]
    ensures EdgesFrom(g, s) == |RowsOf(rows, s)|
  {
    if g != [] {
      var n := |g| - 1;
      RowsCount(g[..n], rows[..n], s);
      if n in s {
        forall e | e in RowsOf(rows[..n], s) ensures e !in rows[n] { RowsMembers(rows[..n], s, e); }
      }
    }
  }

  lemma RowCard(row: seq<ProviderEdge>, edges: set<ProviderEdge>)
    requires Distinct(row) && Elements(row) == edges
    ensures |edges| == |row|
  {
    DistinctCardinality(row);
  }

  /** Edges counted at the vertices they leave. */
  lemma OutgoingCount(nodes: seq<Id>, edges: seq<ProviderEdge>, g: Adjacency, s: set<nat>)
    requires Represents(nodes, edges, g) && Simple(g)
    ensures EdgesFrom(g, s) == |EdgesOutOf(edges, IdsAt(nodes, s))|
  {
    hide Represents, Transposed, Simple, Graph, EdgesFrom, EdgesOutOf, RowsOf, IdsAt;
    RepresentsSize(nodes, edges, g);
    var rows := OutgoingRows(nodes, edges);
    forall u: nat | u < |g| ensures |rows[u]| == |g[u]| { OutgoingRow(nodes, edges, g, u); }
    OutgoingRowsApart(nodes, edges);
    RowsCount(g, rows, s);
    OutgoingRowsAll(nodes, edges, s);
  }

  ghost function OutgoingRows(nodes: seq<Id>, edges: seq<ProviderEdge>): (rows: seq<set<ProviderEdge>>)
    ensures |rows| == |nodes| && forall u :: 0 <= u < |rows| ==> rows[u] == EdgesOutOf(edges, {nodes[u]})
  {
    seq(|nodes|, u requires 0 <= u < |nodes| => EdgesOutOf(edges, {nodes[u]}))
  }

  lemma OutgoingRowsApart(nodes: seq<Id>, edges: seq<ProviderEdge>)
    requires IdsIncrease(nodes)
    ensures forall u, v :: 0 <= u < v < |nodes| ==> OutgoingRows(nodes, edges)[u] !! OutgoingRows(nodes, edges)[v]
  {
    hide IdsIncrease;
    forall u, v | 0 <= u < v < |nodes| ensures OutgoingRows(nodes, edges)[u] !! OutgoingRows(nodes, edges)[v] {
      if nodes[u] == nodes[v] { SameRank(nodes, u, v); }
    }
  }

  lemma OutgoingRowsAll(nodes: seq<Id>, edges: seq<ProviderEdge>, s: set<nat>)
    ensures RowsOf(OutgoingRows(nodes, edges), s) == EdgesOutOf(edges, IdsAt(nodes, s))
  {
    hide RowsOf;
    var rows := OutgoingRows(nodes, edges);
    forall e ensures e in RowsOf(rows, s) <==> e in EdgesOutOf(edges, IdsAt(nodes, s)) {
      RowsMembers(rows, s, e);
      if e in EdgesOutOf(edges, IdsAt(nodes, s)) {
        var u :| u in s && u < |nodes| && nodes[u] == e.0;
        assert e in rows[u];
      }
    }
  }

  lemma OutgoingRow(nodes: seq<Id>, edges: seq<ProviderEdge>, g: Adjacency, u: nat)
    requires Represents(nodes, edges, g) && Simple(g) && u < |g|
    ensures u < |nodes| && u < |g| && |EdgesOutOf(edges, {nodes[u]})| == |g[u]|
  {
    hide EdgesOutOf;
    var row := g[u];
    forall k | 0 <= k < |row| ensures row[k] < |nodes| { assert row[k] in row; }
    var ids := seq(|row|, k requires 0 <= k < |row| => (nodes[u], nodes[row[k]]));
    OutgoingRowIs(nodes, edges, g, u, ids);
    RowCard(ids, EdgesOutOf(edges, {nodes[u]}));
  }

  lemma OutgoingRowIs(nodes: seq<Id>, edges: seq<ProviderEdge>, g: Adjacency, u: nat, row: seq<ProviderEdge>)
    requires Represents(nodes, edges, g) && Simple(g) && u < |g| && |row| == |g[u]|
    requires forall k :: 0 <= k < |row| ==> g[u][k] < |nodes| && row[k] == (nodes[u], nodes[g[u][k]])
    ensures Distinct(row) && Elements(row) == EdgesOutOf(edges, {nodes[u]})
  {
    forall j, k | 0 <= j < k < |row| ensures row[j] != row[k] {
      if row[j] == row[k] { SameRank(nodes, g[u][j], g[u][k]); }
    }
    forall e ensures e in row <==> e in EdgesOutOf(edges, {nodes[u]}) {
      if e in row {
        var k :| 0 <= k < |row| && row[k] == e;
        assert Edge(g, u, g[u][k]);
      }
      if e in EdgesOutOf(edges, {nodes[u]}) {
        var v := RankOfNode(nodes, e.1);
        assert Edge(g, u, v);
        var k :| 0 <= k < |g[u]| && g[u][k] == v;
        assert row[k] == e;
      }
    }
  }

  /** Edges counted at the vertices they enter. */
  lemma IncomingCount(nodes: seq<Id>, edges: seq<ProviderEdge>, g: Adjacency, back: Adjacency, s: set<nat>)
    requires Represents(nodes, edges, g) && Transposed(g, back) && Simple(back)
    ensures EdgesFrom(back, s) == |EdgesInto(edges, IdsAt(nodes, s))|
  {
    hide Represents, Transposed, Simple, Graph, EdgesFrom, EdgesInto, RowsOf, IdsAt;
    RepresentsSize(nodes, edges, g);
    TransposedSize(g, back);
    var rows := IncomingRows(nodes, edges);
    forall u: nat | u < |back| ensures |rows[u]| == |back[u]| { IncomingRow(nodes, edges, g, back, u); }
    IncomingRowsApart(nodes, edges);
    RowsCount(back, rows, s);
    IncomingRowsAll(nodes, edges, s);
  }

  ghost function IncomingRows(nodes: seq<Id>, edges: seq<ProviderEdge>): (rows: seq<set<ProviderEdge>>)
    ensures |rows| == |nodes| && forall u :: 0 <= u < |rows| ==> rows[u] == EdgesInto(edges, {nodes[u]})
  {
    seq(|nodes|, u requires 0 <= u < |nodes| => EdgesInto(edges, {nodes[u]}))
  }

  lemma IncomingRowsApart(nodes: seq<Id>, edges: seq<ProviderEdge>)
    requires IdsIncrease(nodes)
    ensures forall u, v :: 0 <= u < v < |nodes| ==> IncomingRows(nodes, edges)[u] !! IncomingRows(nodes, edges)[v]
  {
    hide IdsIncrease;
    forall u, v | 0 <= u < v < |nodes| ensures IncomingRows(nodes, edges)[u] !! IncomingRows(nodes, edges)[v] {
      if nodes[u] == nodes[v] { SameRank(nodes, u, v); }
    }
  }

  lemma IncomingRowsAll(nodes: seq<Id>, edges: seq<ProviderEdge>, s: set<nat>)
    ensures RowsOf(IncomingRows(nodes, edges), s) == EdgesInto(edges, IdsAt(nodes, s))
  {
    hide RowsOf;
    var rows := IncomingRows(nodes, edges);
    forall e ensures e in RowsOf(rows, s) <==> e in EdgesInto(edges, IdsAt(nodes, s)) {
      RowsMembers(rows, s, e);
      if e in EdgesInto(edges, IdsAt(nodes, s)) {
        var u :| u in s && u < |nodes| && nodes[u] == e.1;
        assert e in rows[u];
      }
    }
  }

  lemma IncomingRow(nodes: seq<Id>, edges: seq<ProviderEdge>, g: Adjacency, back: Adjacency, u: nat)
    requires Represents(nodes, edges, g) && Transposed(g, back) && Simple(back) && u < |g|
    ensures u < |nodes| && u < |back| && |EdgesInto(edges, {nodes[u]})| == |back[u]|
  {
    hide EdgesInto;
    var row := back[u];
    forall k | 0 <= k < |row| ensures row[k] < |nodes| { assert row[k] in row; }
    var ids := seq(|row|, k requires 0 <= k < |row| => (nodes[row[k]], nodes[u]));
    IncomingRowIs(nodes, edges, g, back, u, ids);
    RowCard(ids, EdgesInto(edges, {nodes[u]}));
  }

  lemma IncomingRowIs(nodes: seq<Id>, edges: seq<ProviderEdge>, g: Adjacency, back: Adjacency, u: nat,
                      row: seq<ProviderEdge>)
    requires Represents(nodes, edges, g) && Transposed(g, back) && Simple(back) && u < |back| && |row| == |back[u]|
    requires forall k :: 0 <= k < |row| ==> back[u][k] < |nodes| && row[k] == (nodes[back[u][k]], nodes[u])
    ensures Distinct(row) && Elements(row) == EdgesInto(edges, {nodes[u]})
  {
    forall j, k | 0 <= j < k < |row| ensures row[j] != row[k] {
      if row[j] == row[k] { SameRank(nodes, back[u][j], back[u][k]); }
    }
    forall e ensures e in row <==> e in EdgesInto(edges, {nodes[u]}) {
      if e in row {
        var k :| 0 <= k < |row| && row[k] == e;
        assert Edge(back, u, back[u][k]) && Edge(g, back[u][k], u);
      }
      if e in EdgesInto(edges, {nodes[u]}) {
        var v := RankOfNode(nodes, e.0);
        assert Edge(g, v, u) && Edge(back, u, v);
        var k :| 0 <= k < |back[u]| && back[u][k] == v;
        assert row[k] == e;
      }
    }
  }

  /** The edges whose provider, or whose consumer, lies on no cycle. */
  ghost function OffCycles(nodes: seq<Id>, edges: seq<ProviderEdge>): set<Id> {
    set a | a in nodes && !InCycle(nodes, edges, a)
  }

  lemma ResidualIds(nodes: seq<Id>, edges: seq<ProviderEdge>, g: Adjacency, cyclic: seq<bool>)
    requires Represents(nodes, edges, g) && CyclicFlags(g, cyclic)
    ensures IdsAt(nodes, ResidualBelow(cyclic, |g|)) == OffCycles(nodes, edges)
  {
    hide InCycle, OnCycle;
    forall v: nat | v < |g| ensures v in ResidualBelow(cyclic, |g|) <==> !InCycle(nodes, edges, nodes[v]) {
      InCycleIsOnCycle(nodes, edges, g, v);
    }
    forall a | a in OffCycles(nodes, edges) ensures a in IdsAt(nodes, ResidualBelow(cyclic, |g|)) {
      var v := RankOfNode(nodes, a);
      assert v in ResidualBelow(cyclic, |g|);
    }
  }

  lemma ClosureIds(nodes: seq<Id>, closure: seq<Id>)
    requires forall a :: a in closure ==> a in nodes
    ensures IdsAt(nodes, RankSet(nodes, closure)) == Elements(closure)
  {
    forall a | a in closure ensures a in IdsAt(nodes, RankSet(nodes, closure)) {
      var v := RankOfNode(nodes, a);
      assert v in RankSet(nodes, closure);
    }
  }

  lemma AllEdges(nodes: seq<Id>, edges: seq<ProviderEdge>, g: Adjacency)
    requires Represents(nodes, edges, g) && Simple(g)
    ensures EdgeCount(g) == |Elements(edges)|
  {
    var all := Below(|g|);
    EdgesFromAll(g, all);
    OutgoingCount(nodes, edges, g, all);
    forall e | e in edges ensures e in EdgesOutOf(edges, IdsAt(nodes, all)) {
      var v := RankOfNode(nodes, e.0);
      assert v in all;
    }
    assert EdgesOutOf(edges, IdsAt(nodes, all)) == Elements(edges);
  }

  // ---------- the whole analysis ----------

  datatype Statistics = Statistics(selectedNodes: nat, validEdgeOccurrences: nat, adjacencyEdges: nat,
    sccEdgeVisits: nat,
                                   depthEdgeVisits: nat, closureEdgeVisits: nat, peakTraversalFrames: nat,
                                     peakReady: nat)

  datatype Analysis = Analysis(cycles: seq<seq<Id>>, dependencyOrder: Option<seq<Id>>, residualDepth: nat,
    rootClosure: seq<Id>, statistics: Statistics)

  datatype Outcome = Analyzed(analysis: Analysis) | Failed(failure: Failure)

  /** What the graph kernel promises about a graph it could analyze. */
  ghost predicate Correct(nodes: seq<Id>, edges: seq<ProviderEdge>, roots: seq<Id>, a: Analysis) {
    && CycleReports(nodes, edges, a.cycles)
    && (a.dependencyOrder.Some? <==> a.cycles == [])
    && (a.dependencyOrder.Some? ==> LeastDependencyOrder(nodes, edges, a.dependencyOrder.value))
    && LongestWalk(nodes, edges, a.residualDepth)
    && RootClosure(nodes, edges, roots, a.rootClosure)
    && Counted(nodes, edges, a.rootClosure, a.statistics)
  }

  /**
   * Repeated edges are dropped; the component passes see every edge twice, the depth pass every edge into and
   * every edge out of an implementation on no cycle once, the closure every edge into what it reached once.
   */
  ghost predicate Counted(nodes: seq<Id>, edges: seq<ProviderEdge>, closure: seq<Id>, s: Statistics) {
    && s.selectedNodes == |nodes| && s.validEdgeOccurrences == |edges| && s.adjacencyEdges == |Elements(edges)|
    && s.sccEdgeVisits == 2 * s.adjacencyEdges
    && s.depthEdgeVisits == |EdgesInto(edges, OffCycles(nodes, edges))| + |EdgesOutOf(edges, OffCycles(nodes, edges))|
    && s.closureEdgeVisits == |EdgesInto(edges, Elements(closure))|
    && s.peakTraversalFrames <= |nodes| && s.peakReady <= |nodes|
  }

  lemma CountsInIds(nodes: seq<Id>, edges: seq<ProviderEdge>, g: Adjacency, back: Adjacency, cyclic: seq<bool>,
                    closure: seq<Id>, s: Statistics)
    requires Represents(nodes, edges, g) && Transposed(g, back) && Simple(g) && Simple(back) && CyclicFlags(g, cyclic)
    requires forall a :: a in closure ==> a in nodes
    requires s.selectedNodes == |nodes|
    requires s.validEdgeOccurrences == |edges|
    requires s.adjacencyEdges == EdgeCount(g)
    requires s.sccEdgeVisits == 2 * s.adjacencyEdges
    requires s.depthEdgeVisits == EdgesFrom(back, ResidualBelow(cyclic, |g|)) + EdgesFrom(g, ResidualBelow(cyclic, |g|))
    requires s.closureEdgeVisits == EdgesFrom(back, RankSet(nodes, closure))
    requires s.peakTraversalFrames <= |nodes|
    requires s.peakReady <= |nodes|
    ensures Counted(nodes, edges, closure, s)
  {
    hide *;
    AllEdges(nodes, edges, g);
    ResidualIds(nodes, edges, g, cyclic);
    OutgoingCount(nodes, edges, g, ResidualBelow(cyclic, |g|));
    IncomingCount(nodes, edges, g, back, ResidualBelow(cyclic, |g|));
    ClosureIds(nodes, closure);
    IncomingCount(nodes, edges, g, back, RankSet(nodes, closure));
    CountedIs(nodes, edges, closure, s);
  }

  lemma CountedIs(nodes: seq<Id>, edges: seq<ProviderEdge>, closure: seq<Id>, s: Statistics)
    requires s.selectedNodes == |nodes|
    requires s.validEdgeOccurrences == |edges|
    requires s.adjacencyEdges == |Elements(edges)|
    requires s.sccEdgeVisits == 2 * s.adjacencyEdges
    requires s.depthEdgeVisits ==
      |EdgesInto(edges, OffCycles(nodes, edges))| + |EdgesOutOf(edges, OffCycles(nodes, edges))|
    requires s.closureEdgeVisits == |EdgesInto(edges, Elements(closure))|
    requires s.peakTraversalFrames <= |nodes|
    requires s.peakReady <= |nodes|
    ensures Counted(nodes, edges, closure, s)
  {
  }

  lemma ClosureInside(nodes: seq<Id>, edges: seq<ProviderEdge>, roots: seq<Id>, closure: seq<Id>)
    requires RootClosure(nodes, edges, roots, closure)
    ensures forall a :: a in closure ==> a in nodes
  {
  }

  lemma SortedIds(ids: seq<Id>)
    ensures var nodes := Sort(TextLe, ids);
      && (Distinct(nodes) <==> Distinct(ids)) && (Distinct(nodes) ==> IdsIncrease(nodes))
      && |nodes| == |ids| && forall a :: a in nodes <==> a in ids
  {
    TextOrder();
    SortCorrect(TextLe, ids);
    var nodes := Sort(TextLe, ids);
    MembersOfMultiset(nodes, ids);
    if Distinct(nodes) {
      DistinctPermutation(nodes, ids);
      forall i, j | 0 <= i < j < |nodes| ensures TextLess(nodes[i], nodes[j]) {
        assert TextLe(nodes[i], nodes[j]);
        TextTrichotomy(nodes[i], nodes[j]);
      }
    }
    if Distinct(ids) { DistinctPermutation(ids, nodes); }
  }

  lemma AdjacentFacts(n: nat, rank: map<Id, nat>, edges: seq<ProviderEdge>, outgoing: Adjacency, incoming: Adjacency,
                      unique: seq<set<nat>>, count: nat)
    requires Adjacent(n, rank, edges, outgoing, incoming, unique, count)
    ensures |outgoing| == |incoming| == |unique| == n && Simple(outgoing) && Simple(incoming)
    ensures forall u: nat :: u < n ==> unique[u] == Elements(outgoing[u])
    ensures count == EdgeCount(outgoing) && count == EdgeCount(incoming)
  {
  }

  lemma ResidualOffCycles(g: Adjacency, cyclic: seq<bool>)
    requires CyclicFlags(g, cyclic)
    ensures |cyclic| == |g| && forall v: nat :: v < |g| && Residual(cyclic, v) ==> !OnCycle(g, v)
  {
  }

  /** The three searches over the rank graph, and their results as identities. */
  method AnalyzeRanks(nodes: seq<Id>, ghost edges: seq<ProviderEdge>, occurrences: nat, roots: seq<Id>,
                      rank: map<Id, nat>, outgoing: Adjacency, incoming: Adjacency, unique: seq<set<nat>>,
                      adjacencyEdges: nat)
    returns (r: Outcome)
    requires IdsIncrease(nodes) && RankMap(nodes, rank) && Resolved(rank, edges) && occurrences == |edges|
    requires Adjacent(|nodes|, rank, edges, outgoing, incoming, unique, adjacencyEdges)
    ensures r.Analyzed? <==> forall a :: a in roots ==> a in rank
    ensures r.Analyzed? ==> Correct(nodes, edges, roots, r.analysis)
    ensures r.Failed? ==> r.failure == UnresolvedIdentity
  {
    hide Represents, Transposed, Graph, Simple, CycleReports, LeastDependencyOrder, LongestWalk, RootClosure,
         Topological, Greedy, ResidualDepth, IdsIncrease, Adjacent, RankMap, Resolved, CyclicFlags, NoCycle, OnCycle,
         Residual, EdgeCount, IdsOf, Elements, Correct, Counted, EdgesFrom, RankSet, ResidualBelow;
    AdjacentRepresents(nodes, rank, edges, outgoing, incoming, unique, adjacencyEdges);
    AdjacentFacts(|nodes|, rank, edges, outgoing, incoming, unique, adjacencyEdges);
    var cyclic, cycles, sccEdgeVisits, peakFrames := FindCycles(nodes, edges, unique, outgoing, incoming);
    ResidualOffCycles(outgoing, cyclic);
    var order, residualDepth, depthEdgeVisits, peakReady := AnalyzeResidual(outgoing, incoming, cyclic);
    DepthInIds(nodes, edges, outgoing, cyclic, residualDepth);
    var closed, closure, closureEdgeVisits, peakTraversalFrames :=
      FindRootClosure(nodes, edges, outgoing, roots, rank, incoming, peakFrames);
    if !closed { return Failed(UnresolvedIdentity); }
    var dependencyOrder :=
      if cycles == [] then Some(IdsOfOrder(nodes, edges, outgoing, incoming, cyclic, order)) else None;
    var statistics :=
      Statistics(|nodes|, occurrences, adjacencyEdges, sccEdgeVisits, depthEdgeVisits, closureEdgeVisits,
        peakTraversalFrames, peakReady);
    ClosureInside(nodes, edges, roots, closure);
    RepresentsSize(nodes, edges, outgoing);
    CountsInIds(nodes, edges, outgoing, incoming, cyclic, closure, statistics);
    r := Analyzed(Analysis(cycles, dependencyOrder, residualDepth, closure, statistics));
    CorrectAnalysis(nodes, edges, roots, r.analysis);
  }

  function IdsOfOrder(nodes: seq<Id>, ghost edges: seq<ProviderEdge>, ghost g: Adjacency, ghost back: Adjacency,
                      ghost cyclic: seq<bool>, order: seq<nat>): (ids: seq<Id>)
    requires Represents(nodes, edges, g) && Transposed(g, back) && NoCycle(g, cyclic)
    requires Topological(back, cyclic, order) && Greedy(back, cyclic, order)
    ensures LeastDependencyOrder(nodes, edges, ids)
  {
    LeastInIds(nodes, edges, g, back, cyclic, order);
    IdsOf(nodes, order)
  }

  lemma CorrectAnalysis(nodes: seq<Id>, edges: seq<ProviderEdge>, roots: seq<Id>, a: Analysis)
    requires CycleReports(nodes, edges, a.cycles)
    requires LongestWalk(nodes, edges, a.residualDepth)
    requires RootClosure(nodes, edges, roots, a.rootClosure)
    requires a.dependencyOrder.Some? <==> a.cycles == []
    requires a.dependencyOrder.Some? ==> LeastDependencyOrder(nodes, edges, a.dependencyOrder.value)
    requires Counted(nodes, edges, a.rootClosure, a.statistics)
    ensures Correct(nodes, edges, roots, a)
  {
  }

  /**
   * The graph kernel. It fails exactly on a repeated identity or on an edge or root outside the selection;
   * otherwise it reports every cycle, the least dependency order, the depth and the root closure.
   */
  method AnalyzeSelectedGraph(implementationIds: seq<Id>, edges: seq<ProviderEdge>, roots: seq<Id>) returns (r: Outcome)
    ensures r == Failed(DuplicateNode) <==> !Distinct(implementationIds)
    ensures r.Analyzed? <==>
              && Distinct(implementationIds)
              && (forall e :: e in edges ==> e.0 in implementationIds && e.1 in implementationIds)
              && (forall a :: a in roots ==> a in implementationIds)
    ensures r.Analyzed? ==> Correct(Sort(TextLe, implementationIds), edges, roots, r.analysis)
  {
    var nodes := Sort(TextLe, implementationIds);
    SortedIds(implementationIds);
    hide Correct, Sort, TextLe, Adjacent, IdsIncrease;
    var rank := RankNodes(nodes);
    if |rank| != |nodes| { return Failed(DuplicateNode); }
    RankedMembers(nodes, rank);
    var resolved, outgoing, incoming, unique, adjacencyEdges := BuildAdjacency(|nodes|, edges, rank);
    if !resolved { return Failed(UnresolvedIdentity); }
    r := AnalyzeRanks(nodes, edges, |edges|, roots, rank, outgoing, incoming, unique, adjacencyEdges);
  }

  lemma RankedMembers(nodes: seq<Id>, rank: map<Id, nat>)
    requires RankMap(nodes, rank)
    ensures forall a :: a in rank <==> a in nodes
  {
    forall a | a in rank ensures a in nodes { assert nodes[rank[a]] == a; }
  }
}