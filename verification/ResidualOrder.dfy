/** Kahn's algorithm on what cycles leave over: canonical order and saturating depth (selected-graph.ts). */
module ResidualOrder {
  import opened Sequences
  import opened GraphPaths
  import opened ReadyQueues
  import Heaps

  const DEPTH_LIMIT: nat := 2048

  ghost predicate Residual(cyclic: seq<bool>, v: nat) {
    v < |cyclic| && !cyclic[v]
  }

  /** The providers of v that are neither cyclic nor taken yet. */
  ghost function Pending(back: Adjacency, cyclic: seq<bool>, taken: set<nat>, v: nat): set<nat>
    requires v < |back|
  {
    set u | u in back[v] && Residual(cyclic, u) && u !in taken
  }

  /** v may come next after the vertices of `prefix`. */
  ghost predicate Candidate(back: Adjacency, cyclic: seq<bool>, prefix: seq<nat>, v: nat) {
    v < |back| && Residual(cyclic, v) && v !in prefix && Pending(back, cyclic, Elements(prefix), v) == {}
  }

  ghost predicate LeastCandidate(back: Adjacency, cyclic: seq<bool>, prefix: seq<nat>, v: nat) {
    Candidate(back, cyclic, prefix, v) && forall w :: Candidate(back, cyclic, prefix, w) ==> v <= w
  }

  /** Every element is the least vertex whose providers all come before it. */
  ghost predicate Greedy(back: Adjacency, cyclic: seq<bool>, order: seq<nat>) {
    forall k :: 0 <= k < |order| ==> LeastCandidate(back, cyclic, order[..k], order[k])
  }

  /** A permutation of the residual vertices with every provider before its consumers. */
  ghost predicate Topological(back: Adjacency, cyclic: seq<bool>, order: seq<nat>) {
    && Distinct(order)
    && (forall v: nat :: v in order <==> Residual(cyclic, v))
    && (forall k :: 0 <= k < |order| ==> Candidate(back, cyclic, order[..k], order[k]))
  }

  /** Lexicographic order on sequences of ranks. */
  ghost predicate LexLe(a: seq<nat>, b: seq<nat>) {
    a == b || exists k :: 0 <= k < |a| && k < |b| && a[..k] == b[..k] && a[k] < b[k]
  }

  lemma {:induction false} FirstDifference(a: seq<nat>, b: seq<nat>) returns (k: nat)
    requires |a| == |b| && a != b
    ensures k < |a| && a[..k] == b[..k] && a[k] != b[k]
  {
    k := 0;
    while k < |a| && a[k] == b[k]
      invariant k <= |a| && a[..k] == b[..k]
    {
      k := k + 1;
    }
    assert a[..|a|] == a && b[..|b|] == b;
  }

  /** Always taking the least candidate gives the least topological order. */
  lemma GreedyIsLeast(back: Adjacency, cyclic: seq<bool>, order: seq<nat>, other: seq<nat>)
    requires Topological(back, cyclic, order) && Greedy(back, cyclic, order)
    requires Topological(back, cyclic, other)
    ensures LexLe(order, other)
  {
    forall v ensures v in Elements(order) <==> v in Elements(other) { assert v in order <==> v in other; }
    assert Elements(order) == Elements(other);
    DistinctCardinality(order);
    DistinctCardinality(other);
    if order != other {
      var k := FirstDifference(order, other);
      assert LeastCandidate(back, cyclic, order[..k], order[k]);
      assert Candidate(back, cyclic, other[..k], other[k]);
    }
  }

  // ---------- depth ----------

  /** A walk through residual vertices that ends in v. */
  ghost predicate Chain(g: Adjacency, cyclic: seq<bool>, p: seq<nat>, v: nat) {
    Walk(g, p) && p[|p| - 1] == v && forall i :: 0 <= i < |p| ==> Residual(cyclic, p[i])
  }

  ghost predicate ChainOfLength(g: Adjacency, cyclic: seq<bool>, v: nat, d: nat) {
    exists p :: Chain(g, cyclic, p, v) && |p| == d
  }

  ghost predicate NoChainLonger(g: Adjacency, cyclic: seq<bool>, v: nat, d: nat) {
    forall p :: Chain(g, cyclic, p, v) ==> |p| <= d
  }

  /** d is the length of the longest chain into v, cut at the limit plus one. */
  ghost predicate ExactDepth(g: Adjacency, cyclic: seq<bool>, v: nat, d: nat) {
    d <= DEPTH_LIMIT + 1 && ChainOfLength(g, cyclic, v, d) && (d == DEPTH_LIMIT + 1 || NoChainLonger(g, cyclic, v, d))
  }

  /** What is known of the depth of v once the providers in `taken` have been accounted for. */
  ghost predicate DepthSoFar(g: Adjacency, back: Adjacency, cyclic: seq<bool>, depth: seq<nat>, taken: set<nat>, v: nat)
    requires v < |depth| && v < |back|
  {
    && depth[v] <= DEPTH_LIMIT + 1
    && ChainOfLength(g, cyclic, v, depth[v])
    && forall u :: u in back[v] && u in taken && u < |depth| ==> depth[v] >= Min(DEPTH_LIMIT + 1, depth[u] + 1)
  }

  lemma ChainExtends(g: Adjacency, cyclic: seq<bool>, u: nat, v: nat, d: nat)
    requires ChainOfLength(g, cyclic, u, d) && Edge(g, u, v) && v < |g| && Residual(cyclic, v)
    ensures ChainOfLength(g, cyclic, v, d + 1)
  {
    var p :| Chain(g, cyclic, p, u) && |p| == d;
    assert Chain(g, cyclic, p + [v], v);
  }

  lemma ChainShortens(g: Adjacency, cyclic: seq<bool>, v: nat, d: nat)
    requires ChainOfLength(g, cyclic, v, d) && d > 1
    ensures ChainOfLength(g, cyclic, v, d - 1)
  {
    var p :| Chain(g, cyclic, p, v) && |p| == d;
    assert Chain(g, cyclic, p[1..], v);
  }

  lemma ChainSingle(g: Adjacency, cyclic: seq<bool>, v: nat)
    requires v < |g| && Residual(cyclic, v)
    ensures ChainOfLength(g, cyclic, v, 1)
  {
    assert Chain(g, cyclic, [v], v);
  }

  /** With all providers accounted for and exact, the depth is exact. */
  lemma DepthBecomesExact(g: Adjacency, back: Adjacency, cyclic: seq<bool>, depth: seq<nat>, taken: set<nat>, v: nat)
    requires Transposed(g, back) && v < |g| == |depth|
    requires DepthSoFar(g, back, cyclic, depth, taken, v) && Pending(back, cyclic, taken, v) == {}
    requires forall u :: u in taken && u < |g| ==> ExactDepth(g, cyclic, u, depth[u])
    ensures ExactDepth(g, cyclic, v, depth[v])
  {
    if depth[v] <= DEPTH_LIMIT {
      forall p | Chain(g, cyclic, p, v) ensures |p| <= depth[v] {
        if |p| > 1 {
          var q := p[..|p| - 1];
          var u := q[|q| - 1];
          assert Edge(g, p[|p| - 2], p[|p| - 1]);
          assert Edge(back, v, u);
          assert Residual(cyclic, p[|p| - 2]);
          assert u !in Pending(back, cyclic, taken, v);
          assert Chain(g, cyclic, q, u);
          assert ExactDepth(g, cyclic, u, depth[u]);
        } else {
          var c :| Chain(g, cyclic, c, v) && |c| == depth[v];
        }
      }
    }
  }

  // ---------- the loop ----------

  ghost function Others(order: seq<nat>): set<nat> {
    if order == [] then {} else Elements(order[..|order| - 1])
  }

  /** The vertices accounted for at v: the last one taken is not yet, while v waits in `rest`. */
  ghost function Accounted(order: seq<nat>, rest: set<nat>, v: nat): set<nat> {
    if v in rest then Others(order) else Elements(order)
  }

  ghost predicate Taken(back: Adjacency, cyclic: seq<bool>, order: seq<nat>) {
    Distinct(order) && Greedy(back, cyclic, order) && forall v :: v in order ==> v < |back| && Residual(cyclic, v)
  }

  ghost predicate Waiting(back: Adjacency, cyclic: seq<bool>, indegree: seq<nat>, items: seq<nat>, order: seq<nat>,
                          rest: set<nat>) {
    && |indegree| == |back|
    && (forall v: nat :: v in items ==> v < |back| && Residual(cyclic, v) && v !in order)
    && (forall v: nat :: v < |back| && Residual(cyclic, v) && v !in order ==>
         && indegree[v] == |Pending(back, cyclic, Accounted(order, rest, v), v)|
         && (v in items <==> indegree[v] == 0))
    && Distinct(items)
  }

  ghost predicate Deep(g: Adjacency, back: Adjacency, cyclic: seq<bool>, depth: seq<nat>, order: seq<nat>,
                       rest: set<nat>, deepest: nat) {
    && |depth| == |back|
    && (forall v: nat ::
      v < |back| && Residual(cyclic, v) ==> DepthSoFar(g, back, cyclic, depth, Accounted(order, rest, v), v))
    && (forall v: nat :: v in order && v < |back| ==> ExactDepth(g, cyclic, v, depth[v]) && depth[v] <= deepest)
    && (deepest == 0 <==> order == [])
    && (order != [] ==> exists v :: v in order && v < |back| && depth[v] == deepest)
  }

  lemma TakeNext(back: Adjacency, cyclic: seq<bool>, indegree: seq<nat>, items: seq<nat>, left: seq<nat>,
                 order: seq<nat>, v: nat, rest: set<nat>)
    requires |cyclic| == |back|
    requires Taken(back, cyclic, order) && Waiting(back, cyclic, indegree, items, order, {})
    requires multiset(items) == multiset(left) + multiset{v} && forall w :: w in items ==> v <= w
    requires v < |back| ==> forall c: nat :: c in rest <==> c < |back| && v in back[c]
    ensures Taken(back, cyclic, order + [v])
    ensures Waiting(back, cyclic, indegree, left, order + [v], rest)
    ensures v < |back| && Pending(back, cyclic, Elements(order), v) == {} && v !in rest && v !in order
  {
    assert v in multiset(items) && v in items;
    assert |Pending(back, cyclic, Accounted(order, {}, v), v)| == 0;
    assert Pending(back, cyclic, Elements(order), v) == {};
    var next := order + [v];
    assert next[..|next| - 1] == order;
    forall w ensures Candidate(back, cyclic, order, w) ==> v <= w { }
    assert LeastCandidate(back, cyclic, order, v);
    forall k | 0 <= k < |next| ensures LeastCandidate(back, cyclic, next[..k], next[k]) {
      if k < |order| { assert next[..k] == order[..k]; } else { assert next[..k] == order; }
    }
    ItemsLeft(items, left, v);
    forall w: nat | w < |back| && Residual(cyclic, w) && w !in next
      ensures indegree[w] == |Pending(back, cyclic, Accounted(next, rest, w), w)|
    {
      if w !in rest {
        assert Pending(back, cyclic, Elements(next), w) == Pending(back, cyclic, Elements(order), w);
      }
    }
  }

  lemma ItemsLeft(items: seq<nat>, left: seq<nat>, v: nat)
    requires multiset(items) == multiset(left) + multiset{v} && Distinct(items)
    ensures Distinct(left)
    ensures forall w :: w in left <==> w in items && w != v
  {
    DistinctCount(items);
    forall w ensures multiset(left)[w] <= 1 && (w in left <==> w in items && w != v) {
      assert multiset(items)[w] == multiset(left)[w] + multiset{v}[w];
      assert multiset(items)[w] <= 1;
      assert w in left <==> multiset(left)[w] > 0;
      assert w in items <==> multiset(items)[w] > 0;
    }
    DistinctCount(left);
  }

  /** A consumer of the vertex just taken still waits for it. */
  lemma ConsumerWaits(back: Adjacency, cyclic: seq<bool>, indegree: seq<nat>, items: seq<nat>, order: seq<nat>,
                      rest: set<nat>, c: nat)
    requires |cyclic| == |back| && c < |back| && order != []
    requires Waiting(back, cyclic, indegree, items, order, rest) && Taken(back, cyclic, order)
    requires c in rest && order[|order| - 1] in back[c] && Residual(cyclic, c) && c !in order
    ensures indegree[c] == |Pending(back, cyclic, Elements(order), c)| + 1 && c !in items
  {
    var v := order[|order| - 1];
    assert v in order && Residual(cyclic, v) && Distinct(order);
    assert Accounted(order, rest, c) == Others(order);
    PendingLast(back, cyclic, order, c);
  }

  lemma PendingLast(back: Adjacency, cyclic: seq<bool>, order: seq<nat>, c: nat)
    requires c < |back| && order != [] && Distinct(order)
    requires order[|order| - 1] in back[c] && Residual(cyclic, order[|order| - 1])
    ensures |Pending(back, cyclic, Others(order), c)| == |Pending(back, cyclic, Elements(order), c)| + 1
  {
    var v := order[|order| - 1];
    assert order == order[..|order| - 1] + [v];
    assert v !in order[..|order| - 1];
    assert Pending(back, cyclic, Others(order), c) == Pending(back, cyclic, Elements(order), c) + {v};
  }

  /** One consumer of the vertex just taken is accounted for. */
  lemma AccountConsumer(back: Adjacency, cyclic: seq<bool>, indegree: seq<nat>, items: seq<nat>, order: seq<nat>,
                        rest: set<nat>, c: nat, more: seq<nat>)
    requires |cyclic| == |back| && c < |back| && order != []
    requires Waiting(back, cyclic, indegree, items, order, rest) && Taken(back, cyclic, order)
    requires c in rest && order[|order| - 1] in back[c] && Residual(cyclic, c) && c !in order && indegree[c] > 0
    requires multiset(more) == multiset(items) + (if indegree[c] == 1 then multiset{c} else multiset{})
    ensures Waiting(back, cyclic, indegree[c := indegree[c] - 1], more, order, rest - {c})
  {
    ConsumerWaits(back, cyclic, indegree, items, order, rest, c);
    var fewer, degrees := rest - {c}, indegree[c := indegree[c] - 1];
    ItemsMore(items, more, c, indegree[c] == 1);
    forall w: nat | w < |back| && Residual(cyclic, w) && w !in order
      ensures degrees[w] == |Pending(back, cyclic, Accounted(order, fewer, w), w)| && (w in more <==> degrees[w] == 0)
    {
      if w != c { assert Accounted(order, fewer, w) == Accounted(order, rest, w); }
    }
  }

  lemma SkipConsumer(back: Adjacency, cyclic: seq<bool>, indegree: seq<nat>, items: seq<nat>, order: seq<nat>,
                     rest: set<nat>, c: nat)
    requires Waiting(back, cyclic, indegree, items, order, rest) && !Residual(cyclic, c)
    ensures Waiting(back, cyclic, indegree, items, order, rest - {c})
  {
    forall w: nat | w < |back| && Residual(cyclic, w) && w !in order
      ensures Accounted(order, rest - {c}, w) == Accounted(order, rest, w) { }
  }

  lemma ItemsMore(items: seq<nat>, more: seq<nat>, c: nat, added: bool)
    requires multiset(more) == multiset(items) + (if added then multiset{c} else multiset{})
    requires Distinct(items) && c !in items
    ensures Distinct(more)
    ensures forall w :: w in more <==> w in items || (added && w == c)
  {
    DistinctCount(items);
    forall w ensures multiset(more)[w] <= 1 && (w in more <==> w in items || (added && w == c)) {
      assert w in more <==> multiset(more)[w] > 0;
      assert w in items <==> multiset(items)[w] > 0;
      assert multiset(items)[w] <= 1;
    }
    DistinctCount(more);
  }

  lemma DeepTake(g: Adjacency, back: Adjacency, cyclic: seq<bool>, depth: seq<nat>, order: seq<nat>, v: nat,
                 rest: set<nat>, deepest: nat)
    requires Transposed(g, back) && |cyclic| == |g| && v < |g| && Residual(cyclic, v) && v !in order
    requires Deep(g, back, cyclic, depth, order, {}, deepest)
    requires Pending(back, cyclic, Elements(order), v) == {}
    requires forall c: nat :: c in rest <==> c < |back| && v in back[c]
    ensures Deep(g, back, cyclic, depth, order + [v], rest, Max(deepest, depth[v]))
  {
    var next := order + [v];
    assert next[..|next| - 1] == order;
    assert Accounted(order, {}, v) == Elements(order);
    DepthBecomesExact(g, back, cyclic, depth, Elements(order), v);
    assert depth[v] > 0 by { var p :| Chain(g, cyclic, p, v) && |p| == depth[v]; }
    forall w: nat | w < |back| && Residual(cyclic, w)
      ensures DepthSoFar(g, back, cyclic, depth, Accounted(next, rest, w), w) {
      assert Accounted(order, {}, w) == Elements(order);
      assert DepthSoFar(g, back, cyclic, depth, Elements(order), w);
    }
    if deepest > depth[v] {
      var w :| w in order && w < |back| && depth[w] == deepest;
      assert w in next;
    } else {
      assert v in next;
    }
  }

  lemma DeepSkip(g: Adjacency, back: Adjacency, cyclic: seq<bool>, depth: seq<nat>, order: seq<nat>, rest: set<nat>,
                 deepest: nat, c: nat)
    requires Deep(g, back, cyclic, depth, order, rest, deepest) && !Residual(cyclic, c)
    ensures Deep(g, back, cyclic, depth, order, rest - {c}, deepest)
  {
    forall w: nat | w < |back| && Residual(cyclic, w)
      ensures DepthSoFar(g, back, cyclic, depth, Accounted(order, rest - {c}, w), w) {
      assert Accounted(order, rest - {c}, w) == Accounted(order, rest, w);
    }
  }

  function Deepened(own: nat, provider: nat): nat {
    Min(DEPTH_LIMIT + 1, Max(own, provider + 1))
  }

  /** Accounting for one more provider v of c. */
  lemma DepthDeepens(g: Adjacency, back: Adjacency, cyclic: seq<bool>, depth: seq<nat>, taken: set<nat>, v: nat, c: nat)
    requires Transposed(g, back) && c < |g| == |depth| && v < |g| && v in back[c] && v != c && c !in taken
    requires Residual(cyclic, c) && DepthSoFar(g, back, cyclic, depth, taken, c) && ExactDepth(g, cyclic, v, depth[v])
    ensures DepthSoFar(g, back, cyclic, depth[c := Deepened(depth[c], depth[v])], taken + {v}, c)
  {
    assert Edge(back, c, v) && Edge(g, v, c);
    ChainExtends(g, cyclic, v, c, depth[v]);
    ChainShortens(g, cyclic, c, depth[v] + 1);
  }

  lemma DeepConsumer(g: Adjacency, back: Adjacency, cyclic: seq<bool>, depth: seq<nat>, order: seq<nat>,
                     rest: set<nat>, deepest: nat, v: nat, c: nat)
    requires Transposed(g, back) && c < |g| && order != [] && order[|order| - 1] == v < |g|
    requires Deep(g, back, cyclic, depth, order, rest, deepest)
    requires c in rest && v in back[c] && c !in order && Residual(cyclic, c)
    ensures Deep(g, back, cyclic, depth[c := Deepened(depth[c], depth[v])], order, rest - {c}, deepest)
  {
    hide Transposed, Graph, DepthSoFar, ExactDepth, Residual, Accounted, Others, Elements;
    TransposedSize(g, back);
    var to := depth[c := Deepened(depth[c], depth[v])];
    assert v in order;
    forall w: nat | w < |back| && Residual(cyclic, w)
      ensures DepthSoFar(g, back, cyclic, to, Accounted(order, rest - {c}, w), w) {
      if w == c {
        DeepHere(g, back, cyclic, depth, order, rest, v, c);
      } else {
        DeepElsewhere(g, back, cyclic, depth, to, order, rest, c, w);
      }
    }
    DeepOrder(g, cyclic, back, depth, to, order, deepest, c);
  }

  /** The vertex taken last is now accounted for at its consumer c. */
  lemma DeepHere(g: Adjacency, back: Adjacency, cyclic: seq<bool>, depth: seq<nat>, order: seq<nat>, rest: set<nat>,
                 v: nat, c: nat)
    requires Transposed(g, back) && c < |g| == |depth| && order != [] && order[|order| - 1] == v < |g|
    requires c in rest && v in back[c] && c !in order && Residual(cyclic, c)
    requires c < |back|
    requires DepthSoFar(g, back, cyclic, depth, Accounted(order, rest, c), c)
    requires ExactDepth(g, cyclic, v, depth[v])
    ensures DepthSoFar(g, back, cyclic, depth[c := Deepened(depth[c], depth[v])], Accounted(order, rest - {c}, c), c)
  {
    hide Transposed, DepthSoFar, ExactDepth, Residual;
    assert order == order[..|order| - 1] + [v];
    assert v in order;
    assert Elements(order) == Others(order) + {v};
    DepthDeepens(g, back, cyclic, depth, Others(order), v, c);
  }

  /** What is accounted for at the other vertices is in the order already, and c is not. */
  lemma DeepElsewhere(g: Adjacency, back: Adjacency, cyclic: seq<bool>, depth: seq<nat>, to: seq<nat>,
                      order: seq<nat>, rest: set<nat>, c: nat, w: nat)
    requires |to| == |depth| && (forall u: nat :: u < |depth| && u != c ==> to[u] == depth[u]) && c !in order
    requires w != c && w < |depth| && w < |back| && DepthSoFar(g, back, cyclic, depth, Accounted(order, rest, w), w)
    ensures DepthSoFar(g, back, cyclic, to, Accounted(order, rest - {c}, w), w)
  {
    hide ChainOfLength;
    assert Accounted(order, rest - {c}, w) == Accounted(order, rest, w);
    assert c !in Accounted(order, rest, w);
  }

  lemma DeepOrder(g: Adjacency, cyclic: seq<bool>, back: Adjacency, depth: seq<nat>, to: seq<nat>, order: seq<nat>,
                  deepest: nat, c: nat)
    requires |depth| == |to| == |back| && c !in order && order != []
    requires forall w: nat :: w < |depth| && w != c ==> to[w] == depth[w]
    requires forall v: nat :: v in order && v < |back| ==> ExactDepth(g, cyclic, v, depth[v]) && depth[v] <= deepest
    requires exists v :: v in order && v < |back| && depth[v] == deepest
    ensures forall v: nat :: v in order && v < |back| ==> ExactDepth(g, cyclic, v, to[v]) && to[v] <= deepest
    ensures exists v :: v in order && v < |back| && to[v] == deepest
  {
    var v :| v in order && v < |back| && depth[v] == deepest;
    assert to[v] == deepest;
  }

  // ---------- the start and the end of the loop ----------

  ghost predicate Prepared(g: Adjacency, back: Adjacency, cyclic: seq<bool>, indegree: seq<nat>, depth: seq<nat>,
                           items: seq<nat>, k: nat) {
    && |indegree| == |depth| == |back|
    && (forall v: nat :: v in items ==> v < k && v < |back| && Residual(cyclic, v))
    && (forall v: nat :: v < k && v < |back| && Residual(cyclic, v) ==>
         depth[v] == 1 && indegree[v] == |Pending(back, cyclic, {}, v)| && (v in items <==> indegree[v] == 0))
    && Distinct(items)
  }

  lemma PreparedAll(g: Adjacency, back: Adjacency, cyclic: seq<bool>, indegree: seq<nat>, depth: seq<nat>,
                    items: seq<nat>)
    requires |g| == |back| && Prepared(g, back, cyclic, indegree, depth, items, |back|)
    ensures Progress(g, back, cyclic, indegree, depth, items, [], {}, 0)
  {
    assert Elements<nat>([]) == {};
    forall v: nat | v < |back| && Residual(cyclic, v) ensures DepthSoFar(g, back, cyclic, depth, {}, v) {
      ChainSingle(g, cyclic, v);
    }
  }

  lemma PrepareNothing(g: Adjacency, back: Adjacency, cyclic: seq<bool>, indegree: seq<nat>, depth: seq<nat>)
    requires |indegree| == |depth| == |back|
    ensures Prepared(g, back, cyclic, indegree, depth, [], 0)
  {
  }

  lemma PrepareSkip(g: Adjacency, back: Adjacency, cyclic: seq<bool>, indegree: seq<nat>, depth: seq<nat>,
                    items: seq<nat>, k: nat)
    requires Prepared(g, back, cyclic, indegree, depth, items, k) && !Residual(cyclic, k)
    ensures Prepared(g, back, cyclic, indegree, depth, items, k + 1)
  {
  }

  lemma PrepareNode(g: Adjacency, back: Adjacency, cyclic: seq<bool>, indegree: seq<nat>, depth: seq<nat>,
                    items: seq<nat>, k: nat, more: seq<nat>)
    requires Prepared(g, back, cyclic, indegree, depth, items, k) && k < |back| && Residual(cyclic, k)
    requires multiset(more) ==
      multiset(items) + (if Pending(back, cyclic, {}, k) == {} then multiset{k} else multiset{})
    ensures Prepared(g, back, cyclic, indegree[k := |Pending(back, cyclic, {}, k)|], depth[k := 1], more, k + 1)
  {
    ItemsMore(items, more, k, Pending(back, cyclic, {}, k) == {});
  }

  /** An empty queue means that nothing is left: what is left over would contain a cycle. */
  lemma NothingLeft(g: Adjacency, back: Adjacency, cyclic: seq<bool>, indegree: seq<nat>, order: seq<nat>)
    requires Transposed(g, back) && |cyclic| == |g|
    requires Taken(back, cyclic, order) && Waiting(back, cyclic, indegree, [], order, {})
    requires forall v: nat :: v < |g| && Residual(cyclic, v) ==> !OnCycle(g, v)
    ensures forall v: nat :: v in order <==> Residual(cyclic, v)
  {
    var left := set v | v in Below(|g|) && Residual(cyclic, v) && v !in order;
    if left != {} {
      forall v | v in left ensures PredecessorIn(g, left, v) {
        assert Accounted(order, {}, v) == Elements(order);
        assert |Pending(back, cyclic, Elements(order), v)| != 0;
        var u :| u in Pending(back, cyclic, Elements(order), v);
        assert Edge(back, v, u) && Edge(g, u, v);
        assert u in left;
      }
      NoSourceMeansCycle(g, left);
    }
    forall v: nat | Residual(cyclic, v) ensures v in order { assert v !in left; }
  }

  /** The depth of the residual graph: its longest chain, cut at the limit plus one. */
  ghost predicate ResidualDepth(g: Adjacency, cyclic: seq<bool>, d: nat) {
    && d <= DEPTH_LIMIT + 1
    && (d > 0 ==> exists v :: ChainOfLength(g, cyclic, v, d))
    && (d == DEPTH_LIMIT + 1 || forall v: nat :: NoChainLonger(g, cyclic, v, d))
  }

  lemma DeepAll(g: Adjacency, back: Adjacency, cyclic: seq<bool>, depth: seq<nat>, order: seq<nat>, deepest: nat)
    requires |g| == |back| == |cyclic|
    requires Deep(g, back, cyclic, depth, order, {}, deepest)
    requires forall v: nat :: v in order <==> Residual(cyclic, v)
    ensures ResidualDepth(g, cyclic, deepest)
  {
    if order != [] {
      var v :| v in order && v < |back| && depth[v] == deepest;
      assert ExactDepth(g, cyclic, v, depth[v]);
    }
    if deepest <= DEPTH_LIMIT {
      forall v: nat, p | Chain(g, cyclic, p, v) ensures |p| <= deepest {
        assert Residual(cyclic, p[|p| - 1]);
        assert v in order;
        assert ExactDepth(g, cyclic, v, depth[v]);
      }
    }
  }

  lemma TakenAll(back: Adjacency, cyclic: seq<bool>, order: seq<nat>)
    requires Taken(back, cyclic, order) && forall v: nat :: v in order <==> Residual(cyclic, v)
    ensures Topological(back, cyclic, order)
  {
    forall k | 0 <= k < |order| ensures Candidate(back, cyclic, order[..k], order[k]) {
      assert LeastCandidate(back, cyclic, order[..k], order[k]);
    }
  }

  // ---------- the method ----------

  ghost function ResidualIn(cyclic: seq<bool>, row: seq<nat>): set<nat> {
    set u | u in row && Residual(cyclic, u)
  }

  lemma ResidualInMore(cyclic: seq<bool>, row: seq<nat>, j: nat)
    requires j < |row| && Distinct(row)
    ensures |ResidualIn(cyclic, row[..j + 1])| == |ResidualIn(cyclic, row[..j])|
      + if Residual(cyclic, row[j]) then 1 else 0
  {
    var less, more := ResidualIn(cyclic, row[..j]), ResidualIn(cyclic, row[..j + 1]);
    assert row[..j + 1] == row[..j] + [row[j]];
    assert row[j] !in row[..j];
    assert more == less + if Residual(cyclic, row[j]) then {row[j]} else {};
  }

  /** Counts the residual providers of one vertex. */
  method CountProviders(back: Adjacency, cyclic: seq<bool>, node: nat) returns (count: nat, visits: nat)
    requires node < |back| && Distinct(back[node]) && forall u :: u in back[node] ==> u < |cyclic|
    ensures count == |Pending(back, cyclic, {}, node)| && visits == |back[node]|
  {
    count, visits := 0, 0;
    assert ResidualIn(cyclic, back[node][..0]) == {};
    for j := 0 to |back[node]|
      invariant count == |ResidualIn(cyclic, back[node][..j])| && visits == j
    {
      hide ResidualIn;
      visits := visits + 1;
      ResidualInMore(cyclic, back[node], j);
      assert back[node][j] in back[node];
      if !cyclic[back[node][j]] { count := count + 1; }
    }
    assert back[node][..|back[node]|] == back[node];
    assert ResidualIn(cyclic, back[node]) == Pending(back, cyclic, {}, node);
  }

  ghost function ResidualBelow(cyclic: seq<bool>, k: nat): (r: set<nat>) {
    set v | v in Below(k) && Residual(cyclic, v)
  }

  lemma ResidualBelowMore(cyclic: seq<bool>, k: nat)
    ensures |ResidualBelow(cyclic, k + 1)| == |ResidualBelow(cyclic, k)| + if Residual(cyclic, k) then 1 else 0
    ensures ResidualBelow(cyclic, 0) == {}
  {
    assert ResidualBelow(cyclic, k + 1) == ResidualBelow(cyclic, k) + if Residual(cyclic, k) then {k} else {};
  }

  lemma BackRow(g: Adjacency, back: Adjacency, v: nat)
    requires Transposed(g, back) && Simple(back) && v < |back|
    ensures Distinct(back[v]) && forall u :: u in back[v] ==> u < |g|
  {
  }

  method PrepareResidual(g: Adjacency, back: Adjacency, cyclic: seq<bool>, indegree: array<nat>, depth: array<nat>,
                         ready: ReadyQueue)
    returns (residualSize: nat, edgeVisits: nat)
    requires Transposed(g, back) && Simple(back) && |cyclic| == |g|
    requires indegree.Length == depth.Length == |g| && indegree != depth
    requires ready.Valid() && ready.items == []
    modifies indegree, depth, ready
    ensures ready.Valid()
    ensures Prepared(g, back, cyclic, indegree[..], depth[..], ready.items, |back|)
    ensures residualSize == |ResidualBelow(cyclic, |g|)| && edgeVisits == EdgesFrom(back, ResidualBelow(cyclic, |g|))
    ensures ready.peakSize <= Max(old(ready.peakSize), |g|)
  {
    hide Prepared, Pending, Simple, Heaps.Heap, ResidualBelow, Graph, EdgesFrom, Transposed, Edge;
    TransposedSize(g, back);
    residualSize, edgeVisits := 0, 0;
    ResidualBelowMore(cyclic, 0);
    EdgesFromNone(back);
    PrepareNothing(g, back, cyclic, indegree[..], depth[..]);
    for node := 0 to |g|
      invariant ready.Valid()
      invariant Prepared(g, back, cyclic, indegree[..], depth[..], ready.items, node)
      invariant residualSize == |ResidualBelow(cyclic, node)|
      invariant edgeVisits == EdgesFrom(back, ResidualBelow(cyclic, node))
      invariant ready.peakSize <= Max(old(ready.peakSize), |g|)
    {
      ResidualBelowMore(cyclic, node);
      EdgesOfNext(back, cyclic, node);
      if cyclic[node] {
        PrepareSkip(g, back, cyclic, indegree[..], depth[..], ready.items, node);
        continue;
      }
      residualSize := residualSize + 1;
      ghost var degrees, depths, items := indegree[..], depth[..], ready.items;
      BackRow(g, back, node);
      var count, visits := CountProviders(back, cyclic, node);
      edgeVisits := edgeVisits + visits;
      depth[node] := 1;
      indegree[node] := count;
      if count == 0 { ready.Push(node); }
      PrepareNode(g, back, cyclic, degrees, depths, items, node, ready.items);
      PreparedRoom(g, back, cyclic, indegree[..], depth[..], ready.items, node + 1);
    }
  }

  lemma EdgesOfNext(back: Adjacency, cyclic: seq<bool>, k: nat)
    requires k < |back|
    ensures EdgesFrom(back, ResidualBelow(cyclic, k + 1)) == EdgesFrom(back, ResidualBelow(cyclic, k))
      + if Residual(cyclic, k) then |back[k]| else 0
  {
    assert ResidualBelow(cyclic, k + 1) == ResidualBelow(cyclic, k) + if Residual(cyclic, k) then {k} else {};
    if Residual(cyclic, k) { EdgesFromAdd(back, ResidualBelow(cyclic, k), k); }
    else { assert ResidualBelow(cyclic, k) + {} == ResidualBelow(cyclic, k); }
  }

  /** Waiting vertices are different vertices, so they are no more than there are. */
  lemma PreparedRoom(g: Adjacency, back: Adjacency, cyclic: seq<bool>, indegree: seq<nat>, depth: seq<nat>,
                     items: seq<nat>, k: nat)
    requires Prepared(g, back, cyclic, indegree, depth, items, k)
    ensures |items| <= |back|
  {
    forall i | 0 <= i < |items| ensures items[i] < |back| { assert items[i] in items; }
    DistinctBelow(items, |back|);
  }

  lemma ItemsRoom(g: Adjacency, back: Adjacency, cyclic: seq<bool>, indegree: seq<nat>, depth: seq<nat>,
                  items: seq<nat>, order: seq<nat>, rest: set<nat>, deepest: nat)
    requires Progress(g, back, cyclic, indegree, depth, items, order, rest, deepest)
    ensures |items| <= |back|
  {
    hide Deep, Taken;
    WaitingRoom(back, cyclic, indegree, items, order, rest);
  }

  lemma WaitingRoom(back: Adjacency, cyclic: seq<bool>, indegree: seq<nat>, items: seq<nat>, order: seq<nat>,
                    rest: set<nat>)
    requires Waiting(back, cyclic, indegree, items, order, rest)
    ensures |items| <= |back|
  {
    forall i | 0 <= i < |items| ensures items[i] < |back| { assert items[i] in items; }
    DistinctBelow(items, |back|);
  }

  /** Everything the main loop keeps. */
  ghost predicate Progress(g: Adjacency, back: Adjacency, cyclic: seq<bool>, indegree: seq<nat>, depth: seq<nat>,
                           items: seq<nat>, order: seq<nat>, rest: set<nat>, deepest: nat) {
    && Taken(back, cyclic, order)
    && Waiting(back, cyclic, indegree, items, order, rest)
    && Deep(g, back, cyclic, depth, order, rest, deepest)
  }

  lemma ProvidersFirst(back: Adjacency, cyclic: seq<bool>, order: seq<nat>, k: nat, u: nat)
    requires Taken(back, cyclic, order)
    requires k < |order|
    requires order[k] < |back|
    requires u in back[order[k]]
    requires Residual(cyclic, u)
    ensures u in order[..k]
  {
    assert LeastCandidate(back, cyclic, order[..k], order[k]);
    assert u !in Pending(back, cyclic, Elements(order[..k]), order[k]);
  }

  /** No consumer of the vertex just taken was taken before it. */
  lemma ConsumerLater(g: Adjacency, back: Adjacency, cyclic: seq<bool>, order: seq<nat>, c: nat)
    requires Transposed(g, back) && Taken(back, cyclic, order) && order != []
    requires Edge(g, order[|order| - 1], c)
    ensures c < |g| && order[|order| - 1] in back[c] && c !in order && Residual(cyclic, order[|order| - 1])
  {
    var v := order[|order| - 1];
    assert Edge(back, c, v) && v in order;
    forall k | 0 <= k < |order| ensures order[k] != c {
      if order[k] == c { ProvidersFirst(back, cyclic, order, k, v); }
    }
  }

  lemma ProgressTake(g: Adjacency, back: Adjacency, cyclic: seq<bool>, indegree: seq<nat>, depth: seq<nat>,
                     items: seq<nat>, left: seq<nat>, order: seq<nat>, v: nat, deepest: nat)
    requires Transposed(g, back) && |cyclic| == |g|
    requires Progress(g, back, cyclic, indegree, depth, items, order, {}, deepest)
    requires multiset(items) == multiset(left) + multiset{v} && forall w :: w in items ==> v <= w
    ensures v < |g| && v < |depth| && v !in order && Residual(cyclic, v)
    ensures Progress(g, back, cyclic, indegree, depth, left, order + [v], Elements(g[v]), Max(deepest, depth[v]))
  {
    assert v in multiset(items);
    assert v in items;
    var rest := Elements(g[v]);
    forall c: nat ensures c in rest <==> c < |back| && v in back[c] { assert Edge(g, v, c) <==> Edge(back, c, v); }
    TakeNext(back, cyclic, indegree, items, left, order, v, rest);
    DeepTake(g, back, cyclic, depth, order, v, rest, deepest);
  }

  lemma ProgressSkip(g: Adjacency, back: Adjacency, cyclic: seq<bool>, indegree: seq<nat>, depth: seq<nat>,
                     items: seq<nat>, order: seq<nat>, rest: set<nat>, deepest: nat, c: nat)
    requires Progress(g, back, cyclic, indegree, depth, items, order, rest, deepest) && !Residual(cyclic, c)
    ensures Progress(g, back, cyclic, indegree, depth, items, order, rest - {c}, deepest)
  {
    SkipConsumer(back, cyclic, indegree, items, order, rest, c);
    DeepSkip(g, back, cyclic, depth, order, rest, deepest, c);
  }

  lemma ProgressReady(g: Adjacency, back: Adjacency, cyclic: seq<bool>, indegree: seq<nat>, depth: seq<nat>,
                      items: seq<nat>, order: seq<nat>, rest: set<nat>, deepest: nat, v: nat, c: nat)
    requires Transposed(g, back) && |cyclic| == |g| && order != [] && order[|order| - 1] == v
    requires Progress(g, back, cyclic, indegree, depth, items, order, rest, deepest)
    requires Edge(g, v, c) && c in rest && Residual(cyclic, c)
    ensures |indegree| == |depth| == |g| && v < |g| && c < |g| && indegree[c] > 0
  {
    ConsumerLater(g, back, cyclic, order, c);
    ConsumerWaits(back, cyclic, indegree, items, order, rest, c);
  }

  lemma ProgressConsumer(g: Adjacency, back: Adjacency, cyclic: seq<bool>, indegree: seq<nat>, depth: seq<nat>,
                         items: seq<nat>, order: seq<nat>, rest: set<nat>, deepest: nat, v: nat, c: nat,
                         more: seq<nat>)
    requires Transposed(g, back) && |cyclic| == |g| && order != [] && order[|order| - 1] == v
    requires Progress(g, back, cyclic, indegree, depth, items, order, rest, deepest)
    requires Edge(g, v, c)
    requires c in rest
    requires Residual(cyclic, c)
    requires c < |g| == |indegree| == |depth|
    requires v < |g|
    requires indegree[c] > 0
    requires multiset(more) == multiset(items) + (if indegree[c] == 1 then multiset{c} else multiset{})
    ensures Progress(g, back, cyclic, indegree[c := indegree[c] - 1], depth[c := Deepened(depth[c], depth[v])], more,
      order, rest - {c}, deepest)
  {
    ConsumerLater(g, back, cyclic, order, c);
    AccountConsumer(back, cyclic, indegree, items, order, rest, c, more);
    DeepConsumer(g, back, cyclic, depth, order, rest, deepest, v, c);
  }

  lemma ProgressDone(g: Adjacency, back: Adjacency, cyclic: seq<bool>, indegree: seq<nat>, depth: seq<nat>,
                     order: seq<nat>, deepest: nat)
    requires Transposed(g, back) && |cyclic| == |g|
    requires Progress(g, back, cyclic, indegree, depth, [], order, {}, deepest)
    requires forall v: nat :: v < |g| && Residual(cyclic, v) ==> !OnCycle(g, v)
    ensures Topological(back, cyclic, order) && Greedy(back, cyclic, order)
    ensures ResidualDepth(g, cyclic, deepest)
    ensures |order| == |ResidualBelow(cyclic, |g|)| && Elements(order) == ResidualBelow(cyclic, |g|)
  {
    NothingLeft(g, back, cyclic, indegree, order);
    TakenAll(back, cyclic, order);
    DeepAll(g, back, cyclic, depth, order, deepest);
    DistinctCardinality(order);
    assert Elements(order) == ResidualBelow(cyclic, |g|);
  }

  lemma ProgressRoom(g: Adjacency, back: Adjacency, cyclic: seq<bool>, indegree: seq<nat>, depth: seq<nat>,
                     items: seq<nat>, order: seq<nat>, rest: set<nat>, deepest: nat)
    requires Progress(g, back, cyclic, indegree, depth, items, order, rest, deepest)
    ensures |order| <= |back|
  {
    forall i | 0 <= i < |order| ensures order[i] < |back| { assert order[i] in order; }
    DistinctBelow(order, |back|);
  }

  lemma RestShrinks(g: Adjacency, v: nat, j: nat)
    requires Graph(g) && Simple(g) && v < |g| && j < |g[v]|
    ensures Elements(g[v][j..]) - {g[v][j]} == Elements(g[v][j + 1..])
    ensures g[v][j] in g[v] && g[v][j] in Elements(g[v][j..]) && g[v][j] < |g| && Edge(g, v, g[v][j])
  {
    var t := g[v][j..];
    assert t == [g[v][j]] + g[v][j + 1..];
    assert g[v][j] !in g[v][j + 1..];
    assert g[v][j] in g[v];
  }

  lemma SizesOfProgress(g: Adjacency, back: Adjacency, cyclic: seq<bool>, indegree: seq<nat>, depth: seq<nat>,
                        items: seq<nat>, order: seq<nat>, rest: set<nat>, deepest: nat)
    requires Progress(g, back, cyclic, indegree, depth, items, order, rest, deepest) && Transposed(g, back)
    ensures |order| <= |back| && |g| == |back| && Graph(g)
  {
    ProgressRoom(g, back, cyclic, indegree, depth, items, order, rest, deepest);
  }

  lemma NoElements(s: seq<nat>)
    ensures Elements(s[|s|..]) == {}
  {
  }

  /** Accounts for every consumer of the vertex just taken, and queues those that became ready. */
  method VisitConsumers(g: Adjacency, back: Adjacency, cyclic: seq<bool>, indegree: array<nat>, depth: array<nat>,
                        ready: ReadyQueue,
                        ghost order: seq<nat>, ghost deepest: nat, node: nat, visits: nat)
    returns (edgeVisits: nat)
    requires Transposed(g, back)
    requires Simple(g)
    requires |cyclic| == |g|
    requires node < |g|
    requires order != []
    requires order[|order| - 1] == node
    requires indegree != depth && indegree.Length == depth.Length == |g| && ready.Valid()
    requires Progress(g, back, cyclic, indegree[..], depth[..], ready.items, order, Elements(g[node]), deepest)
    modifies indegree, depth, ready
    ensures ready.Valid() && ready.peakSize <= Max(old(ready.peakSize), |g|)
    ensures Progress(g, back, cyclic, indegree[..], depth[..], ready.items, order, {}, deepest)
    ensures edgeVisits == visits + |g[node]|
  {
    hide Progress, Transposed, Simple, Graph, Heaps.Heap, Elements, Edge, Deepened;
    edgeVisits := visits;
    SizesOfProgress(g, back, cyclic, indegree[..], depth[..], ready.items, order, Elements(g[node]), deepest);
    assert g[node][0..] == g[node];
    for j := 0 to |g[node]|
      invariant ready.Valid() && ready.peakSize <= Max(old(ready.peakSize), |g|)
      invariant edgeVisits == visits + j
      invariant Progress(g, back, cyclic, indegree[..], depth[..], ready.items, order, Elements(g[node][j..]), deepest)
    {
      edgeVisits := edgeVisits + 1;
      var consumer := g[node][j];
      ghost var rest := Elements(g[node][j..]);
      RestShrinks(g, node, j);
      if cyclic[consumer] {
        ProgressSkip(g, back, cyclic, indegree[..], depth[..], ready.items, order, rest, deepest, consumer);
        continue;
      }
      ProgressReady(g, back, cyclic, indegree[..], depth[..], ready.items, order, rest, deepest, node, consumer);
      ghost var degrees, depths, before := indegree[..], depth[..], ready.items;
      depth[consumer] := Deepened(depth[consumer], depth[node]);
      indegree[consumer] := indegree[consumer] - 1;
      if indegree[consumer] == 0 { ready.Push(consumer); }
      ProgressConsumer(g, back, cyclic, degrees, depths, before, order, rest, deepest, node, consumer, ready.items);
      assert indegree[..] == degrees[consumer := degrees[consumer] - 1];
      assert depth[..] == depths[consumer := Deepened(depths[consumer], depths[node])];
      ItemsRoom(g, back, cyclic, indegree[..], depth[..], ready.items, order, rest - {consumer}, deepest);
    }
    NoElements(g[node]);
  }

  lemma NoneVisited(g: Adjacency)
    ensures EdgesFrom(g, Elements<nat>([])) == 0
  {
    EdgesFromNone(g);
    assert Elements<nat>([]) == {};
  }

  /** The vertex taken last was not taken before, so its edges are counted once. */
  lemma TakenVisits(g: Adjacency, back: Adjacency, cyclic: seq<bool>, indegree: seq<nat>, depth: seq<nat>,
                    items: seq<nat>, order: seq<nat>, rest: set<nat>, deepest: nat)
    requires Progress(g, back, cyclic, indegree, depth, items, order, rest, deepest)
    requires order != []
    requires order[|order| - 1] < |g|
    ensures EdgesFrom(g, Elements(order)) == EdgesFrom(g, Elements(order[..|order| - 1])) + |g[order[|order| - 1]]|
  {
    hide Waiting, Deep;
    var front, v := order[..|order| - 1], order[|order| - 1];
    assert order == front + [v] && v !in front;
    assert Elements(order) == Elements(front) + {v};
    EdgesFromAdd(g, Elements(front), v);
  }

  /**
   * The dependency order and the depth of the vertices that lie on no cycle. Taking the least ready
   * vertex never gets stuck, so the internal error after the loop cannot arise.
   */
  method AnalyzeResidual(g: Adjacency, back: Adjacency, cyclic: seq<bool>)
    returns (order: seq<nat>, residualDepth: nat, edgeVisits: nat, peakReady: nat)
    requires Transposed(g, back) && Simple(g) && Simple(back) && |cyclic| == |g|
    requires forall v: nat :: v < |g| && Residual(cyclic, v) ==> !OnCycle(g, v)
    ensures Topological(back, cyclic, order) && Greedy(back, cyclic, order)
    ensures ResidualDepth(g, cyclic, residualDepth)
    ensures edgeVisits == EdgesFrom(back, ResidualBelow(cyclic, |g|)) + EdgesFrom(g, ResidualBelow(cyclic, |g|))
    ensures peakReady <= |g|
  {
    hide Progress, Transposed, Simple, Graph, Edge, Heaps.Heap, Taken, Waiting, Deep, Prepared, Topological, Greedy,
         ResidualDepth,
         EdgesFrom, ResidualBelow, Elements, Residual, OnCycle;
    TransposedSize(g, back);
    var ready := new ReadyQueue();
    var indegree := new nat[|g|](_ => 0);
    var depth := new nat[|g|](_ => 0);
    var residualSize;
    residualSize, edgeVisits := PrepareResidual(g, back, cyclic, indegree, depth, ready);
    PreparedAll(g, back, cyclic, indegree[..], depth[..], ready.items);
    ghost var incomingVisits := edgeVisits;
    order, residualDepth := [], 0;
    NoneVisited(g);
    while |ready.items| > 0
      invariant ready.Valid()
      invariant Progress(g, back, cyclic, indegree[..], depth[..], ready.items, order, {}, residualDepth)
      invariant |order| <= |g| && ready.peakSize <= |g| && edgeVisits == incomingVisits + EdgesFrom(g, Elements(order))
      decreases |g| - |order|
    {
      ghost var items := ready.items;
      var node := ready.Take();
      ProgressTake(g, back, cyclic, indegree[..], depth[..], items, ready.items, order, node, residualDepth);
      order := order + [node];
      residualDepth := Max(residualDepth, depth[node]);
      TakenVisits(g, back, cyclic, indegree[..], depth[..], ready.items, order, Elements(g[node]), residualDepth);
      edgeVisits := VisitConsumers(g, back, cyclic, indegree, depth, ready, order, residualDepth, node, edgeVisits);
      SizesOfProgress(g, back, cyclic, indegree[..], depth[..], ready.items, order, {}, residualDepth);
    }
    assert ready.items == [];
    ProgressDone(g, back, cyclic, indegree[..], depth[..], order, residualDepth);
    peakReady := ready.peakSize;
    assert |order| == residualSize;
  }
}