/** The commits of a store, and what the whole record of them says about depth and causality. */
module CommitHistory {
  import opened Sequences
  import opened Text

  const MAX_CASCADE_DEPTH: nat := 64

  /**
   * One delivery: the keys followed in a store, the commits it covers (after, revision], its depth, and, when it
   * is the first of a load, the context in which the load was subscribed.
   */
  datatype Delivery = Delivery(store: nat, keys: seq<Id>, after: nat, revision: nat, depth: nat,
    within: Option<Context>)

  /** A callback runs for a delivery, in a window that is closed when its task is over. */
  datatype Context = Context(delivery: Delivery, live: nat)

  /** One commit: the keys it changed, its depth, and the context it was made in. */
  datatype Commit = Commit(depth: nat, keys: set<Id>, cause: Option<Context>)

  /** Revision i is the commit at index i - 1. */
  type History = seq<Commit>

  ghost predicate Touches(c: Commit, keys: seq<Id>) {
    exists k :: k in keys && k in c.keys
  }

  /** The newest revision that changed one of the keys, 0 when none did. */
  ghost function Latest(h: History, keys: seq<Id>): (r: nat)
    ensures r <= |h|
  {
    if h == [] then 0
    else if Touches(h[|h| - 1], keys) then |h|
    else Latest(h[..|h| - 1], keys)
  }

  /** The greatest depth of the commits after `after` that changed one of the keys, 0 when there are none. */
  ghost function Missed(h: History, keys: seq<Id>, after: nat): nat {
    if |h| <= after then 0
    else
      var d := Missed(h[..|h| - 1], keys, after);
      if Touches(h[|h| - 1], keys) then Max(d, h[|h| - 1].depth) else d
  }

  /** The newest revision of this depth that changed the key, 0 when none did. */
  ghost function Slot(h: History, k: Id, d: nat): (r: nat)
    ensures r <= |h|
  {
    if h == [] then 0
    else if k in h[|h| - 1].keys && h[|h| - 1].depth == d then |h|
    else Slot(h[..|h| - 1], k, d)
  }

  ghost predicate Covered(h: History, keys: seq<Id>, after: nat, r: int) {
    after < r <= |h| && Touches(h[r - 1], keys)
  }

  /** What Latest and Missed mean for the full record. */
  lemma {:induction false} LatestMeans(h: History, keys: seq<Id>)
    ensures forall r :: Covered(h, keys, 0, r) ==> r <= Latest(h, keys)
    ensures Latest(h, keys) > 0 ==> Covered(h, keys, 0, Latest(h, keys))
  {
    if h != [] {
      LatestMeans(h[..|h| - 1], keys);
      forall r | Covered(h, keys, 0, r) ensures r <= Latest(h, keys) {
        assert r < |h| ==> Covered(h[..|h| - 1], keys, 0, r);
      }
    }
  }

  lemma {:induction false} MissedMeans(h: History, keys: seq<Id>, after: nat)
    ensures forall r :: Covered(h, keys, after, r) ==> h[r - 1].depth <= Missed(h, keys, after)
    ensures Missed(h, keys, after) > 0 ==> exists r ::
      Covered(h, keys, after, r) && h[r - 1].depth == Missed(h, keys, after)
  {
    if |h| > after {
      var g := h[..|h| - 1];
      MissedMeans(g, keys, after);
      forall r | Covered(h, keys, after, r) ensures h[r - 1].depth <= Missed(h, keys, after) {
        assert r < |h| ==> Covered(g, keys, after, r);
      }
      if Missed(h, keys, after) > 0 {
        if Touches(h[|h| - 1], keys) && h[|h| - 1].depth == Missed(h, keys, after) {
          assert Covered(h, keys, after, |h|);
        } else {
          var r :| Covered(g, keys, after, r) && g[r - 1].depth == Missed(g, keys, after);
          assert Covered(h, keys, after, r);
        }
      }
    }
  }

  /** The per-depth slots of one key answer for the full record: the greatest slot above `after` is the missed depth. */
  lemma {:induction false} SlotsAnswer(h: History, k: Id, after: nat)
    ensures forall d: nat :: Slot(h, k, d) > after ==> d <= Missed(h, [k], after)
    ensures Missed(h, [k], after) > 0 ==> Slot(h, k, Missed(h, [k], after)) > after
  {
    if |h| > after {
      var g := h[..|h| - 1];
      SlotsAnswer(g, k, after);
      assert Touches(h[|h| - 1], [k]) <==> k in h[|h| - 1].keys by { assert k in [k]; }
    }
  }

  lemma TouchesMore(c: Commit, keys: seq<Id>, k: Id)
    ensures Touches(c, keys + [k]) <==> Touches(c, keys) || k in c.keys
  {
    if k in c.keys { assert k in keys + [k]; }
    if Touches(c, keys) {
      var x :| x in keys && x in c.keys;
      assert x in keys + [k];
    }
  }

  /** Key by key, the answers combine by taking the larger. */
  lemma {:induction false} KeyByKey(h: History, keys: seq<Id>, k: Id, after: nat)
    ensures Latest(h, keys + [k]) == Max(Latest(h, keys), Latest(h, [k]))
    ensures Missed(h, keys + [k], after) == Max(Missed(h, keys, after), Missed(h, [k], after))
  {
    if h != [] {
      KeyByKey(h[..|h| - 1], keys, k, after);
      TouchesMore(h[|h| - 1], keys, k);
      TouchesMore(h[|h| - 1], [], k);
      assert [] + [k] == [k];
    }
  }

  lemma {:induction false} NoKeys(h: History, after: nat)
    ensures Latest(h, []) == 0 && Missed(h, [], after) == 0
  {
    if h != [] { NoKeys(h[..|h| - 1], after); }
  }

  lemma {:induction false} NothingMissed(h: History, keys: seq<Id>, after: nat)
    ensures Latest(h, keys) <= after ==> Missed(h, keys, after) == 0
  {
    if |h| > after { NothingMissed(h[..|h| - 1], keys, after); }
  }

  lemma {:induction false} MissedBound(h: History, keys: seq<Id>, after: nat)
    requires forall c :: c in h ==> c.depth <= MAX_CASCADE_DEPTH
    ensures Missed(h, keys, after) <= MAX_CASCADE_DEPTH
  {
    if |h| > after { MissedBound(h[..|h| - 1], keys, after); }
  }

  /** The history with one more commit. */
  lemma Grown(h: History, c: Commit, keys: seq<Id>, after: nat, k: Id, d: nat)
    ensures Latest(h + [c], keys) == if Touches(c, keys) then |h| + 1 else Latest(h, keys)
    ensures after <= |h| ==>
      Missed(h + [c], keys, after) ==
        if Touches(c, keys) then Max(Missed(h, keys, after), c.depth) else Missed(h, keys, after)
    ensures Slot(h + [c], k, d) == if k in c.keys && c.depth == d then |h| + 1 else Slot(h, k, d)
  {
    assert (h + [c])[..|h|] == h;
  }

  /** A commit that has changed no key yet. */
  lemma Untouched(h: History, c: Commit, keys: seq<Id>, after: nat, k: Id, d: nat)
    requires c.keys == {}
    ensures Latest(h + [c], keys) == Latest(h, keys) && Slot(h + [c], k, d) == Slot(h, k, d)
    ensures after <= |h| ==> Missed(h + [c], keys, after) == Missed(h, keys, after)
  {
    Grown(h, c, keys, after, k, d);
  }

  /** The history once the commit at its end has changed one more key. */
  ghost function WithKey(h: History, k: Id): History
    requires h != []
  {
    var c := h[|h| - 1];
    h[..|h| - 1] + [c.(keys := c.keys + {k})]
  }

  /** What one more key means for a follower of `keys` that has been told up to `after`. */
  lemma KeyAdded(h: History, k: Id, keys: seq<Id>, after: nat)
    requires h != [] && after < |h|
    ensures |WithKey(h, k)| == |h|
    ensures k in keys ==> Latest(WithKey(h, k), keys) == |h|
    ensures k in keys ==> Missed(WithKey(h, k), keys, after) == Max(Missed(h, keys, after), h[|h| - 1].depth)
    ensures k !in keys ==>
      Latest(WithKey(h, k), keys) == Latest(h, keys) && Missed(WithKey(h, k), keys, after) == Missed(h, keys, after)
  {
    var g, c := h[..|h| - 1], h[|h| - 1];
    var d := c.(keys := c.keys + {k});
    assert h == g + [c];
    Grown(g, c, keys, after, k, 0);
    Grown(g, d, keys, after, k, 0);
    assert k !in keys ==> (Touches(d, keys) <==> Touches(c, keys));
    assert k in keys ==> Touches(d, keys);
  }

  /** What it means for the slots and the newest revision of each key. */
  lemma KeyIndexed(h: History, k: Id, x: Id, d: nat)
    requires h != []
    ensures Slot(WithKey(h, k), x, d) == if x == k && d == h[|h| - 1].depth then |h| else Slot(h, x, d)
    ensures Latest(WithKey(h, k), [x]) == if x == k then |h| else Latest(h, [x])
  {
    var g, c := h[..|h| - 1], h[|h| - 1];
    assert h == g + [c];
    Grown(g, c, [x], 0, x, d);
    Grown(g, c.(keys := c.keys + {k}), [x], 0, x, d);
    TouchesMore(c, [], x);
    TouchesMore(c.(keys := c.keys + {k}), [], x);
    assert [] + [x] == [x];
  }

  /** Commits after the newest one that touches the keys change nothing. */
  lemma {:induction false} UpToLatest(h: History, keys: seq<Id>, after: nat)
    ensures Missed(h[..Latest(h, keys)], keys, after) == Missed(h, keys, after)
  {
    var n := Latest(h, keys);
    if n < |h| {
      UpToLatest(h[..|h| - 1], keys, after);
      assert h[..|h| - 1][..n] == h[..n];
      if |h| <= after { NothingMissed(h[..n], keys, after); }
    } else {
      assert h[..n] == h;
    }
  }

  // ---------- what a load starts from ----------

  /** The window a commit was made in. */
  function WindowOf(c: Commit): Option<nat> {
    if c.cause.Some? then Some(c.cause.value.live) else None
  }

  /** The depth of the key's last write, when that was made in this window. */
  ghost function WrittenAt(h: History, k: Id, live: nat): nat {
    var r := Latest(h, [k]);
    if r > 0 && WindowOf(h[r - 1]) == Some(live) then h[r - 1].depth else 0
  }

  ghost function WrittenIn(h: History, keys: seq<Id>, live: nat): nat {
    if keys == [] then 0 else Max(WrittenIn(h, keys[..|keys| - 1], live), WrittenAt(h, keys[|keys| - 1], live))
  }

  /**
   * A load subscribed inside a delivery starts as deep as that delivery and as its followed keys' writes in the
   * same window.
   */
  ghost function InitialDepth(h: History, keys: seq<Id>, within: Option<Context>): nat {
    if within.None? then 0 else Max(within.value.delivery.depth, WrittenIn(h, keys, within.value.live))
  }

  lemma {:induction false} WrittenInCovers(h: History, keys: seq<Id>, k: Id, live: nat)
    requires k in keys
    ensures WrittenAt(h, k, live) <= WrittenIn(h, keys, live)
  {
    var n := |keys| - 1;
    if keys[n] != k {
      assert keys == keys[..n] + [keys[n]];
      WrittenInCovers(h, keys[..n], k, live);
    }
  }

  /** What the next delivery of a follower is worth: where it started from, and the deepest commit it has missed. */
  ghost function DepthDue(h: History, keys: seq<Id>, since: nat, within: Option<Context>): nat
    requires since <= |h|
  {
    Max(InitialDepth(h[..since], keys, within), Missed(h, keys, since))
  }

  lemma DueAdded(h: History, k: Id, keys: seq<Id>, since: nat, within: Option<Context>)
    requires h != [] && since < |h|
    ensures |WithKey(h, k)| == |h|
    ensures DepthDue(WithKey(h, k), keys, since, within) ==
      if k in keys then Max(DepthDue(h, keys, since, within), h[|h| - 1].depth) else DepthDue(h, keys, since, within)
  {
    hide InitialDepth;
    KeyAdded(h, k, keys, since);
    assert WithKey(h, k)[..since] == h[..since];
  }

  lemma DueUntouched(h: History, c: Commit, keys: seq<Id>, since: nat, within: Option<Context>)
    requires c.keys == {} && since <= |h|
    ensures DepthDue(h + [c], keys, since, within) == DepthDue(h, keys, since, within)
  {
    hide InitialDepth;
    Untouched(h, c, keys, since, [], 0);
    assert (h + [c])[..since] == h[..since];
  }

  /** What a delivery takes away from its follower. */
  lemma DueDelivered(h: History, keys: seq<Id>, since: nat, within: Option<Context>)
    requires since <= |h|
    ensures DepthDue(h, keys, since, within) ==
      Max(InitialDepth(h[..since], keys, within), Missed(h[..Latest(h, keys)], keys, since))
    ensures DepthDue(h, keys, Latest(h, keys), None) == 0
    ensures Latest(h, keys) <= since ==> DepthDue(h, keys, since, None) == 0
  {
    UpToLatest(h, keys, since);
    NothingMissed(h, keys, Latest(h, keys));
    NothingMissed(h, keys, since);
  }

  lemma {:induction false} WrittenInMore(h: History, keys: seq<Id>, k: Id, live: nat)
    ensures WrittenIn(h, keys + [k], live) == Max(WrittenIn(h, keys, live), WrittenAt(h, k, live))
  {
    assert (keys + [k])[..|keys|] == keys;
  }

  // ---------- causality across stores ----------

  /** The histories of all the stores there are. */
  type World = map<nat, History>

  /**
   * A delivery covers what the store's record said when it was made, and what a new load found when it was
   * subscribed.
   */
  ghost predicate Delivered(w: World, d: Delivery)
    decreases d
  {
    && d.store in w && d.revision <= |w[d.store]| && d.after <= |w[d.store]|
    && d.depth ==
      Max(InitialDepth(w[d.store][..d.after], d.keys, d.within), Missed(w[d.store][..d.revision], d.keys, d.after))
    && (d.within.Some? ==> Delivered(w, d.within.value.delivery))
  }

  ghost predicate CauseHolds(w: World, c: Commit) {
    && c.depth <= MAX_CASCADE_DEPTH
    && (c.cause.Some? ==> Delivered(w, c.cause.value.delivery) && c.depth == c.cause.value.delivery.depth + 1)
    && (c.cause.None? ==> c.depth == 0)
  }

  /** Every commit made inside a delivery is one step deeper than it, and none is deeper than the limit. */
  ghost predicate Causal(w: World) {
    forall s, i | s in w && 0 <= i < |w[s]| :: CauseHolds(w, w[s][i])
  }

  datatype Event =
    | Committed(store: nat, commit: Commit)
    | Opened(store: nat)

  /** A store is opened empty, or commits on its own or inside a delivery that has happened, one step deeper. */
  ghost predicate Happens(w: World, e: Event, w': World) {
    match e
    case Opened(s) => s !in w && w' == w[s := []]
    case Committed(s, c) =>
      s in w && w' == w[s := w[s] + [c]] && CauseHolds(w, c)
  }

  ghost predicate Run(ws: seq<World>, es: seq<Event>) {
    && |ws| == |es| + 1 && ws[0] == map[]
    && forall i :: 0 <= i < |es| ==> Happens(ws[i], es[i], ws[i + 1])
  }

  lemma {:induction false} DeliveredPersists(w: World, e: Event, w': World, d: Delivery)
    requires Happens(w, e, w') && Delivered(w, d)
    ensures Delivered(w', d)
    decreases d
  {
    hide InitialDepth, Missed;
    assert w'[d.store][..d.revision] == w[d.store][..d.revision];
    assert w'[d.store][..d.after] == w[d.store][..d.after];
    if d.within.Some? { DeliveredPersists(w, e, w', d.within.value.delivery); }
  }

  lemma CausalStep(w: World, e: Event, w': World)
    requires Happens(w, e, w') && Causal(w)
    ensures Causal(w')
  {
    hide Delivered;
    forall s, i | s in w' && 0 <= i < |w'[s]| ensures CauseHolds(w', w'[s][i]) {
      var c := w'[s][i];
      assert CauseHolds(w, c);
      if c.cause.Some? { DeliveredPersists(w, e, w', c.cause.value.delivery); }
    }
  }

  lemma {:induction false} RunIsCausal(ws: seq<World>, es: seq<Event>, n: nat)
    requires Run(ws, es) && n < |ws|
    ensures Causal(ws[n])
  {
    if n > 0 {
      RunIsCausal(ws, es, n - 1);
      CausalStep(ws[n - 1], es[n - 1], ws[n]);
    }
  }

  /** A commit, named by its store and its revision. */
  datatype Name = Name(store: nat, revision: nat)

  ghost predicate Names(w: World, n: Name) {
    n.store in w && 0 < n.revision <= |w[n.store]|
  }

  ghost function CommitOf(w: World, n: Name): Commit
    requires Names(w, n)
  {
    w[n.store][n.revision - 1]
  }

  /** The last write of a followed key, found by a new load in the window it was subscribed in. */
  ghost predicate FoundIn(w: World, d: Delivery, a: Name)
    requires Names(w, a)
  {
    && d.within.Some? && a.store == d.store && d.store in w && a.revision <= d.after <= |w[d.store]|
    && WindowOf(CommitOf(w, a)) == Some(d.within.value.live)
    && exists k :: k in d.keys && Latest(w[d.store][..d.after], [k]) == a.revision
  }

  /**
   * A delivery answers for the commits it covers, for those a new load found, and for what the load was subscribed
   * in.
   */
  ghost predicate AnswersFor(w: World, d: Delivery, a: Name)
    requires Names(w, a)
    decreases d
  {
    || (d.store == a.store && d.after < a.revision <= d.revision && Touches(CommitOf(w, a), d.keys))
    || FoundIn(w, d, a)
    || (d.within.Some? && AnswersFor(w, d.within.value.delivery, a))
  }

  /** b was made inside a delivery that answers for a. */
  ghost predicate Causes(w: World, a: Name, b: Name) {
    Names(w, a) && Names(w, b) && CommitOf(w, b).cause.Some? && AnswersFor(w, CommitOf(w, b).cause.value.delivery, a)
  }

  lemma {:induction false} AnsweredIsNoDeeper(w: World, d: Delivery, a: Name)
    requires Delivered(w, d) && Names(w, a) && AnswersFor(w, d, a)
    ensures CommitOf(w, a).depth <= d.depth
    decreases d
  {
    var h := w[d.store];
    if d.store == a.store && d.after < a.revision <= d.revision && Touches(CommitOf(w, a), d.keys) {
      MissedMeans(h[..d.revision], d.keys, d.after);
      assert Covered(h[..d.revision], d.keys, d.after, a.revision);
    } else if FoundIn(w, d, a) {
      var k :| k in d.keys && Latest(h[..d.after], [k]) == a.revision;
      WrittenInCovers(h[..d.after], d.keys, k, d.within.value.live);
    } else {
      AnsweredIsNoDeeper(w, d.within.value.delivery, a);
    }
  }

  lemma CauseIsShallower(w: World, a: Name, b: Name)
    requires Causal(w) && Causes(w, a, b)
    ensures CommitOf(w, a).depth < CommitOf(w, b).depth <= MAX_CASCADE_DEPTH
  {
    hide Delivered, AnswersFor;
    assert CauseHolds(w, CommitOf(w, b));
    AnsweredIsNoDeeper(w, CommitOf(w, b).cause.value.delivery, a);
  }

  /** In every run, a chain of causes across any stores has at most 64 delivery steps. */
  lemma {:induction false} ChainIsBounded(ws: seq<World>, es: seq<Event>, n: nat, chain: seq<Name>)
    requires Run(ws, es) && n < |ws| && chain != [] && Names(ws[n], chain[0])
    requires forall i :: 0 <= i < |chain| - 1 ==> Causes(ws[n], chain[i], chain[i + 1])
    ensures |chain| - 1 <= MAX_CASCADE_DEPTH
  {
    RunIsCausal(ws, es, n);
    DepthAlong(ws[n], chain);
  }

  lemma {:induction false} DepthAlong(w: World, chain: seq<Name>)
    requires Causal(w) && chain != [] && Names(w, chain[0])
    requires forall i :: 0 <= i < |chain| - 1 ==> Causes(w, chain[i], chain[i + 1])
    ensures Names(w, chain[|chain| - 1])
    ensures |chain| - 1 <= CommitOf(w, chain[|chain| - 1]).depth <= MAX_CASCADE_DEPTH
  {
    if |chain| > 1 {
      DepthAlong(w, chain[..|chain| - 1]);
      CauseIsShallower(w, chain[|chain| - 2], chain[|chain| - 1]);
    }
  }
}
