/** Compacting a list of live registrations is invisible: every later step does the same (scope.ts, reverse order). */
module ScopeCompaction {
  import opened Sequences
  import opened ScopeState
  import opened ScopeCustody
  import opened ScopeSteps
  import opened ScopeFlights
  import opened ScopeRuns
  import opened ScopeProtocol

  /** The same scope, but for the tombstones among its live registrations. */
  ghost predicate AlikeNode(es: seq<Entry>, a: Node, b: Node) {
    b == a.(live := b.live, tombstones := b.tombstones) && Compact(es, b.live) == Compact(es, a.live)
  }

  ghost predicate AlikeNodes(es: seq<Entry>, ns: seq<Node>, ms: seq<Node>) {
    |ms| == |ns| && forall n :: 0 <= n < |ns| ==> AlikeNode(es, ns[n], ms[n])
  }

  ghost predicate Alike(s: State, t: State) {
    && t.entries == s.entries && t.queue == s.queue && t.cursor == s.cursor && t.stack == s.stack && t.spent == s.spent
    && AlikeNodes(s.entries, s.nodes, t.nodes)
  }

  ghost predicate GoneStays(es: seq<Entry>, fs: seq<Entry>) {
    forall e :: IsGone(es, e) ==> IsGone(fs, e)
  }

  /** Tombstones dropped early are the ones that would be dropped later. */
  lemma {:induction false} CompactLater(es: seq<Entry>, fs: seq<Entry>, live: seq<int>)
    requires GoneStays(es, fs)
    ensures Compact(fs, Compact(es, live)) == Compact(fs, live)
  {
    if live != [] {
      CompactLater(es, fs, live[..|live| - 1]);
      var rest, e := Compact(es, live[..|live| - 1]), live[|live| - 1];
      if !IsGone(es, e) { assert (rest + [e])[..|rest|] == rest; }
    }
  }

  lemma AlikeLists(es: seq<Entry>, fs: seq<Entry>, a: seq<int>, b: seq<int>)
    requires GoneStays(es, fs) && Compact(es, b) == Compact(es, a)
    ensures Compact(fs, b) == Compact(fs, a)
  {
    CompactLater(es, fs, a);
    CompactLater(es, fs, b);
  }

  lemma AlikeLater(es: seq<Entry>, fs: seq<Entry>, ns: seq<Node>, ms: seq<Node>)
    requires GoneStays(es, fs) && AlikeNodes(es, ns, ms)
    ensures AlikeNodes(fs, ns, ms)
  {
    hide Compact, GoneStays;
    forall n | 0 <= n < |ns| ensures AlikeNode(fs, ns[n], ms[n]) {
      assert AlikeNode(es, ns[n], ms[n]);
      AlikeLists(es, fs, ns[n].live, ms[n].live);
    }
  }

  /** A change of one scope and of the entries. */
  lemma AlikeChange(s: State, t: State, n: int, a: Node, b: Node, fs: seq<Entry>)
    requires Alike(s, t) && 0 <= n < |s.nodes| && GoneStays(s.entries, fs) && AlikeNode(fs, a, b)
    ensures n < |t.nodes| && Alike(Changed(s, n, a, fs), Changed(t, n, b, fs))
  {
    hide GoneStays, AlikeNode;
    AlikeLater(s.entries, fs, s.nodes, t.nodes);
  }

  lemma AlikeAt(s: State, t: State, n: int)
    requires Alike(s, t) && 0 <= n < |s.nodes|
    ensures n < |t.nodes| && AlikeNode(s.entries, s.nodes[n], t.nodes[n])
  {
  }

  lemma NothingGoesBack(es: seq<Entry>)
    ensures GoneStays(es, es)
  {
  }

  lemma FlyAlike(s: State, t: State, n: int, flight: Flight)
    requires Alike(s, t) && 0 <= n < |s.nodes|
    ensures n < |t.nodes| && Alike(Fly(s, n, flight), Fly(t, n, flight))
  {
    hide Alike, Compact, GoneStays;
    AlikeAt(s, t, n);
    NothingGoesBack(s.entries);
    AlikeEntries(s, t);
    AlikeChange(s, t, n, s.nodes[n].(flight := flight), t.nodes[n].(flight := flight), s.entries);
  }

  lemma AlikeEntries(s: State, t: State)
    requires Alike(s, t)
    ensures t.entries == s.entries && |t.nodes| == |s.nodes|
  {
  }

  lemma PendAlike(s: State, t: State, n: int, pending: set<int>)
    requires Alike(s, t) && 0 <= n < |s.nodes|
    ensures n < |t.nodes| && Alike(Pend(s, n, pending), Pend(t, n, pending))
  {
    hide Alike, Compact, GoneStays;
    AlikeAt(s, t, n);
    NothingGoesBack(s.entries);
    AlikeEntries(s, t);
    AlikeChange(s, t, n, s.nodes[n].(pending := pending), t.nodes[n].(pending := pending), s.entries);
  }

  // ---------- registering ----------

  lemma NewEntry(es: seq<Entry>, x: Entry)
    requires x.where == Live
    ensures GoneStays(es, es + [x])
  {
  }

  lemma PushAlike(es: seq<Entry>, fs: seq<Entry>, a: Node, b: Node, more: seq<int>)
    requires AlikeNode(es, a, b) && GoneStays(es, fs)
    ensures AlikeNode(fs, a.(live := a.live + more), b.(live := b.live + more))
  {
    hide Compact, GoneStays;
    AlikeLists(es, fs, a.live, b.live);
    CompactAppend(fs, a.live, more);
    CompactAppend(fs, b.live, more);
  }

  lemma AcquireAlike(s: State, t: State, n: int, setup: set<int>)
    requires Alike(s, t) && 0 <= n < |s.nodes|
    ensures n < |t.nodes| && Alike(Acquire(s, n, setup), Acquire(t, n, setup))
  {
    hide Alike, Compact, GoneStays;
    AlikeAt(s, t, n);
    AlikeEntries(s, t);
    var a, b, k := s.nodes[n], t.nodes[n], |s.entries|;
    var fs := s.entries + [Entry(n, -1, Live)];
    NewEntry(s.entries, Entry(n, -1, Live));
    PushAlike(s.entries, fs, a, b, [k]);
    AlikeChange(s, t, n, a.(pending := a.pending - setup, live := a.live + [k]),
      b.(pending := b.pending - setup, live := b.live + [k]), fs);
  }

  lemma AdoptAlike(s: State, t: State, n: int)
    requires Alike(s, t) && 0 <= n < |s.nodes|
    ensures n < |t.nodes| && Alike(Adopt(s, n), Adopt(t, n))
  {
    hide Compact, GoneStays;
    var e, m := |s.entries|, |s.nodes|;
    var fs := s.entries + [Entry(n, m, Live)];
    NewEntry(s.entries, Entry(n, m, Live));
    assert AlikeNode(s.entries, s.nodes[n], t.nodes[n]);
    PushAlike(s.entries, fs, s.nodes[n], t.nodes[n], [e]);
    AlikeLater(s.entries, fs, s.nodes, t.nodes);
  }

  // ---------- sealing ----------

  lemma {:induction false} VisitedAlike(es: seq<Entry>, ns: seq<Node>, ms: seq<Node>, n: int, m: int)
    requires AlikeNodes(es, ns, ms)
    ensures Visited(ns, n, m) <==> Visited(ms, n, m)
    decreases m
  {
    hide Compact;
    if 0 <= m < |ns| {
      assert AlikeNode(es, ns[m], ms[m]);
      if m != n && 0 <= ns[m].up < m {
        assert AlikeNode(es, ns[ns[m].up], ms[ns[m].up]);
        VisitedAlike(es, ns, ms, n, ns[m].up);
      }
    }
  }

  lemma RequestAlike(s: State, t: State, n: int)
    requires Alike(s, t)
    ensures Alike(Request(s, n), Request(t, n))
  {
    hide Compact, Visited;
    var u, v := Request(s, n), Request(t, n);
    forall m | 0 <= m < |u.nodes| ensures AlikeNode(s.entries, u.nodes[m], v.nodes[m]) {
      assert AlikeNode(s.entries, s.nodes[m], t.nodes[m]);
      VisitedAlike(s.entries, s.nodes, t.nodes, n, m);
    }
  }

  lemma {:induction false} UnderAlike(es: seq<Entry>, ns: seq<Node>, ms: seq<Node>, n: int, m: int)
    requires AlikeNodes(es, ns, ms)
    ensures Under(ns, n, m) <==> Under(ms, n, m)
    decreases m
  {
    hide Compact;
    if 0 <= m < |ns| {
      assert AlikeNode(es, ns[m], ms[m]);
      if 0 <= ns[m].up < m { UnderAlike(es, ns, ms, n, ns[m].up); }
    }
  }

  lemma TreeAlike(es: seq<Entry>, ns: seq<Node>, ms: seq<Node>, n: int)
    requires AlikeNodes(es, ns, ms)
    ensures Tree(ns, n) == Tree(ms, n)
  {
    hide Under, AlikeNodes;
    forall m ensures Under(ns, n, m) <==> Under(ms, n, m) { UnderAlike(es, ns, ms, n, m); }
    SameCount(es, ns, ms);
  }

  lemma SameCount(es: seq<Entry>, ns: seq<Node>, ms: seq<Node>)
    requires AlikeNodes(es, ns, ms)
    ensures |ns| == |ms|
  {
  }

  lemma ForgetAlike(s: State, t: State, e: int)
    requires Alike(s, t) && 0 <= e < |s.entries| && 0 <= s.entries[e].owner < |s.nodes|
    ensures s.entries[e].owner < |t.nodes| && Alike(Forget(s, e), Forget(t, e))
  {
    hide Compact, GoneStays;
    var o, fs := s.entries[e].owner, s.entries[e := s.entries[e].(where := Gone)];
    OneGone(s.entries, e);
    AlikeLater(s.entries, fs, s.nodes, t.nodes);
    assert AlikeNode(fs, s.nodes[o], t.nodes[o]);
    CompactTwice(fs, s.nodes[o].live);
    CompactTwice(fs, t.nodes[o].live);
  }

  lemma OneGone(es: seq<Entry>, e: int)
    requires 0 <= e < |es|
    ensures GoneStays(es, es[e := es[e].(where := Gone)])
  {
  }

  lemma DetachAlike(s: State, t: State, n: int)
    requires Alike(s, t) && 0 <= n < |s.nodes| && Linked(s.nodes, s.entries) && Linked(t.nodes, t.entries)
    ensures n < |t.nodes| && Alike(Detach(s, n), Detach(t, n))
  {
    hide Alike, Forget, Linked, Compact, Tree, GoneStays;
    AlikeAt(s, t, n);
    AlikeEntries(s, t);
    if !s.nodes[n].detached {
      var u := s.(nodes := s.nodes[n := s.nodes[n].(detached := true)], spent := s.spent + Tree(s.nodes, n));
      var v := t.(nodes := t.nodes[n := t.nodes[n].(detached := true)], spent := t.spent + Tree(t.nodes, n));
      DetachedAlike(s, t, n);
      if n > 0 {
        LinkedChild(s, n);
        ForgetAlike(u, v, s.nodes[n].entry);
      }
    }
  }

  lemma DetachedAlike(s: State, t: State, n: int)
    requires Alike(s, t) && 0 <= n < |s.nodes|
    ensures n < |t.nodes|
    ensures Alike(s.(nodes := s.nodes[n := s.nodes[n].(detached := true)], spent := s.spent + Tree(s.nodes, n)),
                  t.(nodes := t.nodes[n := t.nodes[n].(detached := true)], spent := t.spent + Tree(t.nodes, n)))
  {
    hide Compact, Tree;
    TreeAlike(s.entries, s.nodes, t.nodes, n);
  }

  lemma ReopenAlike(s: State, t: State, n: int)
    requires Alike(s, t) && 0 <= n < |s.nodes|
    ensures n < |t.nodes| && Alike(Reopen(s, n), Reopen(t, n))
  {
    hide Alike, Compact, GoneStays, Retry;
    AlikeAt(s, t, n);
    AlikeEntries(s, t);
    var a, b, fs := s.nodes[n], t.nodes[n], Reopen(s, n).entries;
    var more := Retry(s.entries, a.failed);
    RetriedStay(s, n);
    PushAlike(s.entries, fs, a, b, more);
    AlikeChange(s, t, n, a.(live := a.live + more, failed := []), b.(live := b.live + more, failed := []), fs);
  }

  lemma RetriedStay(s: State, n: int)
    requires 0 <= n < |s.nodes|
    ensures GoneStays(s.entries, Reopen(s, n).entries)
  {
  }

  /** A list with nothing but tombstones. */
  lemma OnlyTombstones(s: State, n: int)
    requires Core(s) && 0 <= n < |s.nodes|
    ensures |s.nodes[n].live| == s.nodes[n].tombstones <==> Compact(s.entries, s.nodes[n].live) == []
  {
    hide Compact, Lists;
    assert Held(s.entries, n, s.nodes[n]);
  }

  lemma OpenAlike(s: State, t: State, n: int)
    requires Alike(s, t)
    requires Core(s)
    requires Core(t)
    requires 0 <= n < |s.nodes|
    requires s.nodes[n].flight == NoFlight
    requires s.nodes[n].requested
    ensures n < |t.nodes| && t.nodes[n].flight == NoFlight && t.nodes[n].requested
    ensures Linked(s.nodes, s.entries) && Linked(Reopen(s, n).nodes, Reopen(s, n).entries)
    ensures Linked(t.nodes, t.entries) && Linked(Reopen(t, n).nodes, Reopen(t, n).entries)
    ensures Alike(Open(s, n), Open(t, n))
  {
    hide Core, Alike, Reopen, Linked, Detach, Compact, Fly;
    AlikeAt(s, t, n);
    OpenCore(s, n);
    OpenCore(t, n);
    ReopenCore(s, n);
    ReopenCore(t, n);
    var u, v := Reopen(s, n), Reopen(t, n);
    ReopenAlike(s, t, n);
    ReopenSize(s, n);
    AlikeAt(u, v, n);
    AlikeEntries(u, v);
    OnlyTombstones(u, n);
    OnlyTombstones(v, n);
    if |u.nodes[n].live| == u.nodes[n].tombstones && u.nodes[n].pending == {} {
      DetachAlike(u, v, n);
    } else {
      FlyAlike(u, v, n, InFlight(Opened, {}));
    }
  }

  lemma ReopenSize(s: State, n: int)
    requires 0 <= n < |s.nodes|
    ensures |Reopen(s, n).nodes| == |s.nodes|
  {
  }

  lemma SealAlike(s: State, t: State, n: int)
    requires Alike(s, t) && Core(s) && Core(t) && 0 <= n < |s.nodes|
    ensures n < |t.nodes| && Alike(Seal(s, n), Seal(t, n))
  {
    hide Core, Alike, Request, Open, Linked, Under, Compact;
    AlikeAt(s, t, n);
    RequestCore(s, n);
    RequestCore(t, n);
    RequestAlike(s, t, n);
    RequestFlies(s, n);
    var u, v := Request(s, n), Request(t, n);
    AlikeAt(u, v, n);
    if u.nodes[n].flight == NoFlight {
      UnderSelf(s, n);
      OpenAlike(u, v, n);
    }
  }

  // ---------- a flight ----------

  lemma SameTop(es: seq<Entry>, a: Node, b: Node)
    requires AlikeNode(es, a, b)
    ensures DropGone(es, a.live) == [] <==> DropGone(es, b.live) == []
    ensures DropGone(es, a.live) != [] ==>
      var c, d := DropGone(es, a.live), DropGone(es, b.live);
      c[|c| - 1] == d[|d| - 1] && Compact(es, c[..|c| - 1]) == Compact(es, d[..|d| - 1])
  {
    PopIgnoresTombstones(es, a.live);
    PopIgnoresTombstones(es, b.live);
    hide Compact, DropGone;
  }

  lemma CanAttemptAlike(s: State, t: State, n: int)
    requires Alike(s, t)
    ensures CanAttempt(s, n) <==> CanAttempt(t, n)
    ensures CanSettle(s, n) <==> CanSettle(t, n)
    ensures CanAttempt(s, n) ==> Top(s, n) == Top(t, n)
  {
    hide Compact, DropGone;
    if 0 <= n < |s.nodes| {
      assert AlikeNode(s.entries, s.nodes[n], t.nodes[n]);
      SameTop(s.entries, s.nodes[n], t.nodes[n]);
    }
  }

  lemma AttemptAlike(s: State, t: State, n: int)
    requires Alike(s, t) && CanAttempt(s, n) && 0 <= Top(s, n) < |s.entries| && s.entries[Top(s, n)].where != Gone
    ensures CanAttempt(t, n) && Top(t, n) == Top(s, n) && Top(t, n) < |t.entries| && Alike(Attempt(s, n), Attempt(t, n))
  {
    hide Alike, Compact, DropGone, Top, GoneStays;
    CanAttemptAlike(s, t, n);
    AlikeAt(s, t, n);
    AlikeEntries(s, t);
    var e := Top(s, n);
    var fs := s.entries[e := s.entries[e].(where := Active)];
    NotGone(s.entries, e);
    PoppedAlike(s, t, n, fs);
    AlikeChange(s, t, n, Attempt(s, n).nodes[n], Attempt(t, n).nodes[n], fs);
  }

  lemma NotGone(es: seq<Entry>, e: int)
    requires 0 <= e < |es| && es[e].where != Gone
    ensures forall w :: GoneStays(es, es[e := es[e].(where := w)])
  {
  }

  lemma PoppedAlike(s: State, t: State, n: int, fs: seq<Entry>)
    requires Alike(s, t)
    requires CanAttempt(s, n)
    requires CanAttempt(t, n)
    requires 0 <= Top(s, n) < |s.entries|
    requires Top(t, n) == Top(s, n)
    requires GoneStays(s.entries, fs)
    ensures Top(t, n) < |t.entries| && AlikeNode(fs, Attempt(s, n).nodes[n], Attempt(t, n).nodes[n])
  {
    hide Alike, Compact, DropGone, GoneStays;
    AlikeAt(s, t, n);
    AlikeEntries(s, t);
    SameTop(s.entries, s.nodes[n], t.nodes[n]);
    var c, d := DropGone(s.entries, s.nodes[n].live), DropGone(s.entries, t.nodes[n].live);
    AlikeLists(s.entries, fs, c[..|c| - 1], d[..|d| - 1]);
  }

  lemma TellAlike(s: State, t: State, p: int, outcome: Option<bool>)
    requires Alike(s, t) && 0 <= p < |s.nodes| && s.nodes[p].flight.InFlight? && s.nodes[p].flight.phase.Joining?
    ensures p < |t.nodes|
    ensures t.nodes[p].flight.InFlight?
    ensures t.nodes[p].flight.phase.Joining?
    ensures Alike(Tell(s, p, outcome), Tell(t, p, outcome))
  {
    hide Alike, Compact, Fly;
    AlikeAt(s, t, p);
    FlyAlike(s, t, p, InFlight(Joining(s.nodes[p].flight.phase.entry, outcome), s.nodes[p].flight.attempted));
  }

  lemma CallAlike(s: State, t: State, u: State, v: State, n: int, notify: bool)
    requires Alike(s, t) && Alike(u, v) && 0 <= n < |s.nodes| && n < |u.nodes|
    ensures n < |t.nodes| && n < |v.nodes| && Alike(Call(s, u, n, notify), Call(t, v, n, notify))
  {
    hide Compact;
    assert AlikeNode(s.entries, s.nodes[n], t.nodes[n]);
    assert AlikeNode(u.entries, u.nodes[n], v.nodes[n]);
  }

  lemma CloseAlike(s: State, t: State, n: int, notify: bool)
    requires Alike(s, t) && Core(s) && Core(t) && 0 <= n < |s.nodes|
    ensures n < |t.nodes| && Alike(CloseNow(s, n, notify), CloseNow(t, n, notify))
  {
    hide Core, Alike, Seal, Call;
    AlikeEntries(s, t);
    SealFacts(s, n);
    SealFacts(t, n);
    SealAlike(s, t, n);
    CallAlike(s, t, Seal(s, n), Seal(t, n), n, notify);
  }

  lemma JoinAlike(s: State, t: State, n: int, notify: bool)
    requires Alike(s, t) && Core(s) && Core(t) && CanAttempt(s, n)
    ensures CanAttempt(t, n) && Alike(JoinChild(s, n, notify), JoinChild(t, n, notify))
  {
    hide Core, Alike, Seal, Call, Tell, Top, DropGone;
    TopIsHeld(s, n);
    AttemptAlike(s, t, n);
    AttemptCore(s, n);
    AttemptCore(t, n);
    AttemptJoins(s, n);
    AttemptJoins(t, n);
    var u, v, e := Attempt(s, n), Attempt(t, n), Top(s, n);
    AlikeEntries(u, v);
    if u.entries[e].child != -1 {
      var c := u.entries[e].child;
      SealFacts(u, c);
      SealFacts(v, c);
      SealAlike(u, v, c);
      var x, y := Seal(u, c), Seal(v, c);
      AlikeAt(x, y, c);
      var outcome := if x.nodes[c].flight.InFlight? then None else Some(true);
      TellAlike(x, y, n, outcome);
      ToldSize(x, n, outcome);
      CallAlike(u, v, Tell(x, n, outcome), Tell(y, n, outcome), c, notify);
    }
  }

  lemma ToldSize(s: State, p: int, outcome: Option<bool>)
    requires 0 <= p < |s.nodes| && s.nodes[p].flight.InFlight? && s.nodes[p].flight.phase.Joining?
    ensures |Tell(s, p, outcome).nodes| == |s.nodes|
  {
  }

  lemma ResolveAlike(s: State, t: State, n: int, failed: bool)
    requires Alike(s, t) && CanResolve(s, n, failed)
    ensures CanResolve(t, n, failed) && Alike(Resolve(s, n, failed), Resolve(t, n, failed))
  {
    hide Alike, Compact, GoneStays;
    AlikeAt(s, t, n);
    AlikeEntries(s, t);
    var e, fs := s.nodes[n].flight.phase.entry, Resolve(s, n, failed).entries;
    ResolvedStay(s, n, failed);
    AlikeLists(s.entries, fs, s.nodes[n].live, t.nodes[n].live);
    AlikeChange(s, t, n, Resolve(s, n, failed).nodes[n], Resolve(t, n, failed).nodes[n], fs);
  }

  lemma ResolvedStay(s: State, n: int, failed: bool)
    requires CanResolve(s, n, failed)
    ensures GoneStays(s.entries, Resolve(s, n, failed).entries)
  {
  }

  // ---------- settling ----------

  lemma {:induction false} NoDebtsAlike(es: seq<Entry>, ns: seq<Node>, ms: seq<Node>, n: int)
    requires AlikeNodes(es, ns, ms)
    ensures NoDebts(ns, es, n) <==> NoDebts(ms, es, n)
    decreases |ns| - n, 1
  {
    hide NoDebt;
    if 0 <= n < |ns| {
      var a, b := ns[n], ms[n];
      assert AlikeNode(es, a, b);
      CompactMembers(es, a.live);
      CompactMembers(es, b.live);
      hide Compact;
      forall e, w ensures NoDebt(ns, es, n, e, w) <==> NoDebt(ms, es, n, e, w) { NoDebtAlike(es, ns, ms, n, e, w); }
      LiveDebts(ns, es, n, a.live, b.live);
      LiveDebts(ns, es, n, b.live, a.live);
    }
  }

  /** What is owed to one list is owed to any other with the same live members. */
  lemma LiveDebts(ns: seq<Node>, es: seq<Entry>, n: int, a: seq<int>, b: seq<int>)
    requires 0 <= n < |ns| && forall e :: e in b && !IsGone(es, e) ==> e in a
    ensures (forall i :: 0 <= i < |a| ==> NoDebt(ns, es, n, a[i], Live)) ==> forall i ::
      0 <= i < |b| ==> NoDebt(ns, es, n, b[i], Live)
  {
    if forall i :: 0 <= i < |a| ==> NoDebt(ns, es, n, a[i], Live) {
      forall i | 0 <= i < |b| ensures NoDebt(ns, es, n, b[i], Live) {
        assert b[i] in b;
        if !IsGone(es, b[i]) {
          var k :| 0 <= k < |a| && a[k] == b[i];
          assert NoDebt(ns, es, n, a[k], Live);
        }
      }
    }
  }

  lemma {:induction false} NoDebtAlike(es: seq<Entry>, ns: seq<Node>, ms: seq<Node>, n: int, e: int, w: Where)
    requires AlikeNodes(es, ns, ms) && 0 <= n < |ns|
    ensures n < |ms| && (NoDebt(ns, es, n, e, w) <==> NoDebt(ms, es, n, e, w))
    decreases |ns| - n, 0
  {
    hide NoDebts;
    SameCount(es, ns, ms);
    if 0 <= e < |es| && n < es[e].child < |ns| { NoDebtsAlike(es, ns, ms, es[e].child); }
  }

  lemma EndAlike(s: State, t: State, n: int)
    requires Alike(s, t) && CanSettle(s, n)
    ensures CanSettle(t, n) && (Waiting(s, n) <==> Waiting(t, n)) && Alike(End(s, n), End(t, n))
  {
    hide Alike, Compact, DropGone, Tell, GoneStays;
    CanAttemptAlike(s, t, n);
    WaitingAlike(s, t, n);
    if Waiting(s, n) { TellAlike(s, t, s.nodes[n].up, Some(false)); }
    AlikeAt(s, t, n);
    var u := if Waiting(s, n) then Tell(s, s.nodes[n].up, Some(false)) else s;
    var v := if Waiting(t, n) then Tell(t, t.nodes[n].up, Some(false)) else t;
    if Waiting(s, n) { ToldSize(s, s.nodes[n].up, Some(false)); }
    AlikeAt(u, v, n);
    AlikeEntries(u, v);
    NothingGoesBack(u.entries);
    AlikeChange(u, v, n,
      u.nodes[n].(live := [], tombstones := u.nodes[n].tombstones - |u.nodes[n].live|, flight := NoFlight),
                v.nodes[n].(live := [], tombstones := v.nodes[n].tombstones - |v.nodes[n].live|, flight := NoFlight),
                  u.entries);
  }

  lemma WaitingAlike(s: State, t: State, n: int)
    requires Alike(s, t) && 0 <= n < |s.nodes|
    ensures n < |t.nodes| && t.nodes[n].up == s.nodes[n].up && (Waiting(s, n) <==> Waiting(t, n))
  {
    hide Compact;
    assert AlikeNode(s.entries, s.nodes[n], t.nodes[n]);
    if 0 <= s.nodes[n].up < |s.nodes| { assert AlikeNode(s.entries, s.nodes[s.nodes[n].up], t.nodes[s.nodes[n].up]); }
  }

  lemma HearAlike(s: State, t: State, p: int)
    requires Alike(s, t)
    ensures Alike(Hear(s, p), Hear(t, p))
  {
    hide Alike, Compact, Tell;
    AlikeEntries(s, t);
    if 0 <= p < |s.nodes| {
      AlikeAt(s, t, p);
      if s.nodes[p].flight.InFlight? && s.nodes[p].flight.phase.Joining? { TellAlike(s, t, p, Some(true)); }
    }
  }

  lemma SettleAlike(s: State, t: State, n: int)
    requires Alike(s, t) && Core(s) && Core(t) && CanSettle(s, n)
    ensures CanSettle(t, n) && Alike(Settle(s, n), Settle(t, n))
  {
    hide Core, Alike, NoDebts, Detach, Hear, End, Waiting, CanSettle, Linked, AlikeNodes;
    EndAlike(s, t, n);
    EndCore(s, n);
    EndCore(t, n);
    SettleUp(s, t, n);
    var u, v := End(s, n), End(t, n);
    AlikeParts(u, v);
    NoDebtsAlike(u.entries, u.nodes, v.nodes, n);
    if NoDebts(u.nodes, u.entries, n) {
      DetachAlike(u, v, n);
      HearAlike(Detach(u, n), Detach(v, n), s.nodes[n].up);
    }
  }

  lemma AlikeParts(s: State, t: State)
    requires Alike(s, t)
    ensures AlikeNodes(s.entries, s.nodes, t.nodes) && t.entries == s.entries
  {
  }

  lemma SettleUp(s: State, t: State, n: int)
    requires Alike(s, t) && CanSettle(s, n)
    ensures 0 <= n < |s.nodes| == |t.nodes| && t.nodes[n].up == s.nodes[n].up && |End(s, n).nodes| == |s.nodes|
  {
    hide Alike, Compact, DropGone;
    AlikeAt(s, t, n);
    AlikeEntries(s, t);
  }

  // ---------- steps and runs ----------

  lemma FlightsAlike(s: State, t: State)
    requires Alike(s, t)
    ensures forall n, phase :: InPhase(s.nodes, n, phase) <==> InPhase(t.nodes, n, phase)
  {
    hide Compact;
    forall n, phase ensures InPhase(s.nodes, n, phase) <==> InPhase(t.nodes, n, phase) {
      if 0 <= n < |s.nodes| { assert AlikeNode(s.entries, s.nodes[n], t.nodes[n]); }
    }
  }

  lemma ReachAlike(s: State, t: State, n: int, phase: Phase)
    requires Alike(s, t)
    ensures Alike(Reach(s, n, phase), Reach(t, n, phase))
  {
    hide Alike, Compact, Fly;
    AlikeEntries(s, t);
    if 0 <= n < |s.nodes| {
      AlikeAt(s, t, n);
      if s.nodes[n].flight.InFlight? { FlyAlike(s, t, n, InFlight(phase, s.nodes[n].flight.attempted)); }
    }
  }

  lemma CallsAlike(s: State, t: State, a: Action)
    requires Alike(s, t)
    requires Enabled(s, a)
    requires a.AbortSetups? || a.LeaveListeners? || a.LeaveClose? || a.StartFlight? || a.LeaveDrain?
    ensures Enabled(t, a) && Alike(Returning(s, a), Returning(t, a))
  {
    hide Reach, AlikeNodes;
    match a
    case StartFlight =>
      ReachAlike(s, t, s.queue[s.cursor], Running); ReachFrame(s, s.queue[s.cursor], Running); ReachFrame(t,
        s.queue[s.cursor], Running);
    case LeaveClose =>
      var n := s.stack[|s.stack| - 1].node;
      ReachAlike(Pop(s), Pop(t), n, Queued);
      ReachFrame(Pop(s), n, Queued);
      ReachFrame(Pop(t), n, Queued);
    case _ =>
  }

  lemma ReachFrame(s: State, n: int, phase: Phase)
    ensures var t := Reach(s, n, phase);
      t.entries == s.entries && t.stack == s.stack && t.queue == s.queue && t.cursor == s.cursor && t.spent == s.spent
  {
  }

  lemma RegistersAlike(s: State, t: State, a: Action)
    requires Alike(s, t)
    requires Enabled(s, a)
    requires a.AnnounceSetup? || a.FailSetup? || a.FinishSetup? || a.UseResource? || a.MakeChild?
    ensures Enabled(t, a) && Alike(Registering(s, a), Registering(t, a))
  {
    hide Alike, Compact, Pend, Acquire, Adopt;
    AlikeEntries(s, t);
    AlikeAt(s, t, a.node);
    match a
    case AnnounceSetup(n, p) => PendAlike(s, t, n, s.nodes[n].pending + {p});
    case FailSetup(n, p) => PendAlike(s, t, n, s.nodes[n].pending - {p});
    case FinishSetup(n, p) => AcquireAlike(s, t, n, {p});
    case UseResource(n) => AcquireAlike(s, t, n, {});
    case MakeChild(n) => AdoptAlike(s, t, n);
  }

  /** What one state can do, the other can, and they stay alike. */
  lemma StepAlike(s: State, t: State, a: Action)
    requires Alike(s, t) && Core(s) && Core(t) && Enabled(s, a)
    ensures Enabled(t, a) && Alike(Step(s, a), Step(t, a))
  {
    hide Core, Alike, CloseNow, JoinChild, Resolve, Settle, CanAttempt, CanResolve, CanSettle, Registering, Returning;
    match a
    case CloseScope(n, notify) => AlikeEntries(s, t); CloseAlike(s, t, n, notify);
    case AttemptTop(n, notify) => JoinAlike(s, t, n, notify);
    case GetOutcome(n, failed) => ResolveAlike(s, t, n, failed);
    case SettleFlight(n) => SettleAlike(s, t, n);
    case AbortSetups => CallsAlike(s, t, a);
    case LeaveListeners => CallsAlike(s, t, a);
    case LeaveClose => CallsAlike(s, t, a);
    case StartFlight => CallsAlike(s, t, a);
    case LeaveDrain => CallsAlike(s, t, a);
    case AnnounceSetup(_, _) => RegistersAlike(s, t, a);
    case FailSetup(_, _) => RegistersAlike(s, t, a);
    case FinishSetup(_, _) => RegistersAlike(s, t, a);
    case UseResource(_) => RegistersAlike(s, t, a);
    case MakeChild(_) => RegistersAlike(s, t, a);
  }

  /** `ts` goes on from the i-th state of a run with the actions of that run, alike at every step. */
  ghost predicate Shadows(ss: seq<State>, acts: seq<Action>, i: nat, ts: seq<State>) {
    && 0 < |ts| && i + |ts| <= |ss| && |ss| == |acts| + 1
    && (forall k :: 0 <= k < |ts| ==> Alike(ss[i + k], ts[k]))
    && (forall k :: 0 <= k < |ts| - 1 ==> Next(ts[k], acts[i + k], ts[k + 1]))
  }

  /** From a state alike, the rest of a run can be done as it was, and every state on the way is alike. */
  lemma {:induction false} AlikeRuns(ss: seq<State>, acts: seq<Action>, i: nat, j: nat, u: State)
    returns (ts: seq<State>)
    requires Run(ss, acts) && i <= j < |ss| && Valid(u) && Alike(ss[i], u)
    ensures |ts| == j - i + 1 && ts[0] == u && Valid(ts[j - i]) && Shadows(ss, acts, i, ts)
    decreases j
  {
    hide Valid, Core, Alike, Next, Enabled, Step;
    if i == j { return [u]; }
    ts := AlikeRuns(ss, acts, i, j - 1, u);
    var s, t, a := ss[j - 1], ts[j - 1 - i], acts[j - 1];
    RunValid(ss, acts, j - 1);
    assert Next(s, a, ss[j]);
    Parts(s);
    Parts(t);
    assert Alike(s, t) by { assert i + (j - 1 - i) == j - 1; }
    NextIs(s, a, ss[j]);
    StepAlike(s, t, a);
    StepValid(t, a);
    IsNext(t, a);
    assert j == i + (j - i);
    ts := ts + [Step(t, a)];
  }

  lemma IsNext(s: State, a: Action)
    requires Core(s) && Enabled(s, a)
    ensures Next(s, a, Step(s, a))
  {
  }

  // ---------- compacting every list ----------

  ghost function Tidied(s: State): State {
    s.(nodes :=
      seq(|s.nodes|,
        n requires 0 <= n < |s.nodes| => s.nodes[n].(live := Compact(s.entries, s.nodes[n].live), tombstones := 0)))
  }

  lemma TidiedAlike(s: State)
    ensures Alike(s, Tidied(s))
  {
    hide Compact;
    forall n | 0 <= n < |s.nodes| ensures AlikeNode(s.entries, s.nodes[n], Tidied(s).nodes[n]) {
      CompactTwice(s.entries, s.nodes[n].live);
    }
  }

  lemma TidiedHeld(es: seq<Entry>, n: int, node: Node)
    requires Held(es, n, node)
    ensures Held(es, n, node.(live := Compact(es, node.live), tombstones := 0))
  {
    hide Compact;
    CompactMembers(es, node.live);
    CompactTwice(es, node.live);
    var c := Compact(es, node.live);
    forall i | 0 <= i < |c| ensures Mine(es, n, c[i]) && es[c[i]].where in {Live, Gone} {
      assert c[i] in c;
      var k :| 0 <= k < |node.live| && node.live[k] == c[i];
    }
  }

  lemma TidiedKept(s: State, e: int)
    requires Linked(s.nodes, s.entries) && 0 <= e < |s.entries| && Kept(s.nodes, s.entries, e)
    ensures s.entries[e].owner < |Tidied(s).nodes| && Kept(Tidied(s).nodes, s.entries, e)
  {
    hide Compact;
    CompactMembers(s.entries, s.nodes[s.entries[e].owner].live);
  }

  lemma TidiedCore(s: State)
    requires Core(s)
    ensures Core(Tidied(s))
  {
    hide Compact, Held, Kept, Lane, Sealed, SpentTrees;
    var t := Tidied(s);
    LinkedFrame(s.nodes, s.entries, t.nodes, t.entries);
    forall n | 0 <= n < |t.nodes| ensures Held(t.entries, n, t.nodes[n]) { TidiedHeld(s.entries, n, s.nodes[n]); }
    forall e | 0 <= e < |t.entries| ensures Kept(t.nodes, t.entries, e) { TidiedKept(s, e); }
    forall n | 0 <= n < |t.nodes| ensures Lane(t.nodes, t.entries, t.nodes[n]) { TidiedLane(s, n); }
    TidiedSealed(s);
    Assemble(t);
  }

  lemma TidiedLane(s: State, n: int)
    requires 0 <= n < |s.nodes| && Lane(s.nodes, s.entries, s.nodes[n])
    ensures n < |Tidied(s).nodes| && Lane(Tidied(s).nodes, s.entries, Tidied(s).nodes[n])
  {
    hide Compact;
  }

  lemma TidiedSealed(s: State)
    requires Sealed(s.nodes) && SpentTrees(s.nodes, s.entries, s.spent)
    ensures Sealed(Tidied(s).nodes) && SpentTrees(Tidied(s).nodes, s.entries, s.spent)
  {
    hide Compact;
    var t := Tidied(s);
    forall n | n in s.spent ensures Done(t.nodes, s.entries, n) { assert Done(s.nodes, s.entries, n); }
  }

  lemma TidiedValid(s: State)
    requires Valid(s)
    ensures Valid(Tidied(s))
  {
    hide Core, Compact, Tidied, Alike, InPhase;
    TidiedCore(s);
    TidiedAlike(s);
    FlightsAlike(s, Tidied(s));
    SameFrames(s, Tidied(s));
  }

  lemma SameFrames(s: State, t: State)
    requires Alike(s, t)
    ensures t.stack == s.stack && t.queue == s.queue && t.cursor == s.cursor
  {
  }

  /** Compacting every list at any moment of a run changes nothing that can be seen of the rest of it. */
  lemma CompactionIsInvisible(ss: seq<State>, acts: seq<Action>, i: nat) returns (ts: seq<State>)
    requires Run(ss, acts) && i < |ss|
    ensures |ts| == |ss| - i && ts[0] == Tidied(ss[i]) && Shadows(ss, acts, i, ts)
  {
    hide Valid, Alike, Next, Tidied, Shadows;
    RunValid(ss, acts, i);
    TidiedValid(ss[i]);
    TidiedAlike(ss[i]);
    ts := AlikeRuns(ss, acts, i, |acts|, Tidied(ss[i]));
  }
}
