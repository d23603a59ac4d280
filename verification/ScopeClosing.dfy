/** What a call of close does to the tree: what it seals, and when it opens a flight (scope.ts). */
module ScopeClosing {
  import opened Sequences
  import opened ScopeState
  import opened ScopeCustody
  import opened ScopeSteps
  import opened ScopeFlights
  import opened ScopeRuns

  lemma {:induction false} VisitedIsBelow(ns: seq<Node>, n: int, m: int)
    requires Visited(ns, n, m)
    ensures Under(ns, n, m)
    decreases m
  {
    if m != n { VisitedIsBelow(ns, n, ns[m].up); }
  }

  /** A request seals the tree of the scope, detached scopes included, and no other scope. */
  lemma RequestSeals(s: State, n: int)
    requires Core(s) && 0 <= n < |s.nodes|
    ensures forall m :: 0 <= m < |s.nodes| ==>
      (Request(s, n).nodes[m].requested <==> s.nodes[m].requested || Under(s.nodes, n, m))
  {
    hide Core, Visited, Under;
    RequestCore(s, n);
    forall m | 0 <= m < |s.nodes| && Visited(s.nodes, n, m) ensures Under(s.nodes, n, m) {
      VisitedIsBelow(s.nodes, n, m);
    }
  }

  lemma OpenKeepsSeals(s: State, n: int)
    requires Core(s) && 0 <= n < |s.nodes| && s.nodes[n].flight == NoFlight && s.nodes[n].requested
    ensures Linked(s.nodes, s.entries) && Linked(Reopen(s, n).nodes, Reopen(s, n).entries)
    ensures |Open(s, n).nodes| == |s.nodes|
    ensures forall m :: 0 <= m < |s.nodes| ==> Open(s, n).nodes[m].requested == s.nodes[m].requested
  {
    hide Core, Linked, Detach, Retry, Compact;
    OpenCore(s, n);
    ReopenCore(s, n);
    DetachFlights(Reopen(s, n), n);
  }

  /** A close seals exactly the tree of its scope: nothing is acquired there afterwards, and no other scope changes. */
  lemma CloseSeals(s: State, n: int, notify: bool)
    requires Core(s) && 0 <= n < |s.nodes|
    ensures var t := CloseNow(s, n, notify);
      |t.nodes| == |s.nodes| && forall m :: 0 <= m < |s.nodes| ==>
        (t.nodes[m].requested <==> s.nodes[m].requested || Under(s.nodes, n, m))
  {
    hide Core, Open, Visited, Under, Linked;
    RequestSeals(s, n);
    RequestCore(s, n);
    SealFacts(s, n);
    var t := Request(s, n);
    hide Request;
    if t.nodes[n].flight == NoFlight {
      UnderSelf(s, n);
      OpenKeepsSeals(t, n);
    }
  }

  /** Something of the scope is being set up, waits to be released, or could not be released. */
  ghost predicate Holds(s: State, n: int)
    requires 0 <= n < |s.nodes|
  {
    s.nodes[n].pending != {} || exists e :: Mine(s.entries, n, e) && s.entries[e].where in {Live, Failed}
  }

  lemma LiveIffNotCounted(s: State, n: int)
    requires Core(s) && 0 <= n < |s.nodes|
    ensures |s.nodes[n].live| != s.nodes[n].tombstones <==>
      exists e :: Mine(s.entries, n, e) && s.entries[e].where == Live
  {
    hide AllLanes, Sealed, SpentTrees, Linked, Compact, Lists;
    assert Held(s.entries, n, s.nodes[n]);
    var live := s.nodes[n].live;
    CompactMembers(s.entries, live);
    var c := Compact(s.entries, live);
    if c != [] {
      assert c[0] in c;
      ListedLive(s.entries, n, live, c[0]);
    }
    if e :| Mine(s.entries, n, e) && s.entries[e].where == Live {
      assert Kept(s.nodes, s.entries, e);
      assert e in c;
    }
  }

  lemma ListedLive(es: seq<Entry>, n: int, live: seq<int>, e: int)
    requires Lists(es, n, live, Live) && e in live && !IsGone(es, e)
    ensures Mine(es, n, e) && es[e].where == Live
  {
    var i :| 0 <= i < |live| && live[i] == e;
    assert Mine(es, n, live[i]);
  }

  /** Reopening makes live what was live or had failed. */
  lemma ReopenedLive(s: State, n: int)
    requires Core(s) && 0 <= n < |s.nodes|
    ensures forall e :: Mine(s.entries, n, e) ==>
      (Reopen(s, n).entries[e].where == Live <==> s.entries[e].where in {Live, Failed})
    ensures forall e :: Mine(s.entries, n, e) <==> Mine(Reopen(s, n).entries, n, e)
  {
    hide Held, AllHeld, AllLanes, Sealed, SpentTrees, Linked, Retry;
    forall e | Mine(s.entries, n, e)
      ensures Reopen(s, n).entries[e].where == Live <==> s.entries[e].where in {Live, Failed} {
      assert Kept(s.nodes, s.entries, e);
    }
  }

  /** With no flight in progress, a close opens one exactly when the scope holds something; else it detaches at once. */
  lemma OpensIffHolding(s: State, n: int, notify: bool)
    requires Core(s) && 0 <= n < |s.nodes| && s.nodes[n].flight == NoFlight
    ensures var t := CloseNow(s, n, notify);
      n < |t.nodes| && (t.nodes[n].flight.InFlight? <==> Holds(s, n)) && (!Holds(s, n) ==> t.nodes[n].detached)
  {
    hide Core, Open, Visited, Under, Linked, Reopen;
    RequestCore(s, n);
    RequestFlies(s, n);
    SealFacts(s, n);
    UnderSelf(s, n);
    var t := Request(s, n);
    OpenIff(t, n);
    assert t.entries == s.entries && t.nodes[n].pending == s.nodes[n].pending;
  }

  lemma OpenIff(s: State, n: int)
    requires Core(s) && 0 <= n < |s.nodes| && s.nodes[n].flight == NoFlight && s.nodes[n].requested
    ensures Linked(s.nodes, s.entries) && Linked(Reopen(s, n).nodes, Reopen(s, n).entries)
    ensures n < |Open(s, n).nodes| && (Open(s, n).nodes[n].flight.InFlight? <==> Holds(s, n))
  {
    hide Core, Linked, Detach, Retry, Compact;
    OpenCore(s, n);
    ReopenCore(s, n);
    ReopenedLive(s, n);
    LiveIffNotCounted(Reopen(s, n), n);
    DetachFlights(Reopen(s, n), n);
    hide Mine;
  }

  /** A parent that has joined a scope hears, as its flight settles, whether it left no debts. */
  lemma ParentHears(s: State, n: int)
    requires Core(s) && CanSettle(s, n) && Waiting(s, n)
    ensures var p, t := s.nodes[n].up, Settle(s, n);
      p < |t.nodes| && InPhase(t.nodes, p,
        Joining(s.nodes[n].entry, Some(NoDebts(End(s, n).nodes, End(s, n).entries, n))))
  {
    hide Core, Linked, NoDebts, Detach, DropGone;
    EndCore(s, n);
    EndFacts(s, n);
    var t := End(s, n);
    if NoDebts(t.nodes, t.entries, n) { DetachFlights(t, n); }
  }
}
