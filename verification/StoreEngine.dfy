/** The observable store: commits, the subscriber index, coalesced delivery (engine.ts, watch.ts). */
module StoreEngine {
  import opened Sequences
  import opened Text
  import opened CommitHistory

  /** Values are compared by identity. */
  type Value = int

  /** A watch, or a load: a load has been told nothing yet when its delivered revision is negative. */
  class Registration {
    const id: nat
    const keys: seq<Id>
    const load: bool
    var depth: nat
    var delivered: int
    var attached: bool

    /**
     * Kept for the record of deliveries only: since which revision it counts what it misses, and where a load
     * that has not delivered yet was subscribed.
     */
    var since: nat
    var within: Option<Context>

    constructor Watch(id: nat, keys: seq<Id>, depth: nat, delivered: nat)
      ensures this.id == id
      ensures this.keys == keys
      ensures !load
      ensures this.depth == depth
      ensures this.delivered == delivered
      ensures attached
      ensures since == delivered && within == None
    {
      this.id, this.keys, this.load, this.depth, this.delivered, attached := id, keys, false, depth, delivered, true;
      since, within := delivered, None;
    }

    constructor Load(id: nat, keys: seq<Id>, depth: nat, since: nat, within: Option<Context>)
      ensures this.id == id && this.keys == keys && load && this.depth == depth && delivered == -1 && attached
      ensures this.since == since && this.within == within
    {
      this.id, this.keys, this.load, this.depth, this.delivered, attached := id, keys, true, depth, -1, true;
      this.since, this.within := since, within;
    }
  }

  /** The last write of a key: its revision, its depth, and the window it was made in. */
  datatype WriteCause = WriteCause(revision: nat, depth: nat, live: Option<nat>)

  datatype SetResult = Revision(value: nat) | Closed | UnknownKey | Echo | Cascade

  type Slots = map<Id, seq<nat>>
  type Buckets = map<Id, set<Registration>>

  /** The slots of a key are the newest revisions of each depth that changed it. */
  ghost predicate SlotsMatch(h: History, slots: Slots, k: Id) {
    if k in slots then
      && |slots[k]| == MAX_CASCADE_DEPTH + 1
      && forall d :: 0 <= d <= MAX_CASCADE_DEPTH ==> slots[k][d] == Slot(h, k, d)
    else forall d: nat :: Slot(h, k, d) == 0
  }

  /** The last write of a key is remembered with its depth and window. */
  ghost predicate CauseMatches(h: History, causes: map<Id, WriteCause>, k: Id) {
    var r := Latest(h, [k]);
    if k in causes then r > 0 && causes[k] == WriteCause(r, h[r - 1].depth, WindowOf(h[r - 1])) else r == 0
  }

  ghost predicate TouchedMatches(h: History, touched: map<Id, nat>, k: Id) {
    if k in touched then touched[k] == Latest(h, [k]) else Latest(h, [k]) == 0
  }

  function SlotsFor(slots: Slots, key: Id): (r: seq<nat>)
    ensures key !in slots ==> |r| == MAX_CASCADE_DEPTH + 1 && forall d :: 0 <= d < |r| ==> r[d] == 0
    ensures key in slots ==> r == slots[key]
  {
    if key in slots then slots[key] else seq(MAX_CASCADE_DEPTH + 1, _ => 0)
  }

  lemma SlotsUpdated(h: History, slots: Slots, key: Id, depth: nat, x: Id)
    requires h != []
    requires h[|h| - 1].depth == depth <= MAX_CASCADE_DEPTH
    requires SlotsMatch(h, slots, key)
    requires SlotsMatch(h, slots, x)
    ensures |SlotsFor(slots, key)| == MAX_CASCADE_DEPTH + 1
    ensures SlotsMatch(WithKey(h, key), slots[key := SlotsFor(slots, key)[depth := |h|]], x)
  {
    hide Latest, Slot, WithKey;
    forall d: nat { KeyIndexed(h, key, x, d); }
  }

  lemma CauseUpdated(h: History, causes: map<Id, WriteCause>, key: Id, x: Id)
    requires h != [] && CauseMatches(h, causes, x)
    ensures CauseMatches(WithKey(h, key), causes[key := WriteCause(|h|, h[|h| - 1].depth, WindowOf(h[|h| - 1]))], x)
  {
    hide Latest, Slot;
    KeyIndexed(h, key, x, 0);
  }

  lemma TouchedUpdated(h: History, touched: map<Id, nat>, key: Id, x: Id)
    requires h != [] && TouchedMatches(h, touched, x)
    ensures TouchedMatches(WithKey(h, key), touched[key := |h|], x)
  {
    hide Latest, Slot, WithKey;
    KeyIndexed(h, key, x, 0);
  }

  lemma IndexesBegin(h: History, c: Commit, slots: Slots, causes: map<Id, WriteCause>, touched: map<Id, nat>, k: Id)
    requires c.keys == {}
    ensures SlotsMatch(h, slots, k) ==> SlotsMatch(h + [c], slots, k)
    ensures CauseMatches(h, causes, k) ==> CauseMatches(h + [c], causes, k)
    ensures TouchedMatches(h, touched, k) ==> TouchedMatches(h + [c], touched, k)
  {
    hide Latest, Slot;
    forall d: nat { Untouched(h, c, [k], 0, k, d); }
    Untouched(h, c, [k], 0, k, 0);
  }

  lemma CommitsWithKey(h: History, key: Id, known: set<Id>)
    requires h != [] && key in known && forall c :: c in h ==> c.depth <= MAX_CASCADE_DEPTH && c.keys <= known
    ensures |WithKey(h, key)| == |h|
      && forall c :: c in WithKey(h, key) ==> c.depth <= MAX_CASCADE_DEPTH && c.keys <= known
  {
    var g, c := h[..|h| - 1], h[|h| - 1];
    assert h == g + [c] && c in h;
    assert forall x :: x in g ==> x in h;
  }

  // ---------- the subscriber index ----------

  ghost predicate IndexedOver(buckets: Buckets, registrations: set<Registration>) {
    && (forall k :: k in buckets ==> buckets[k] != {})
    && (forall k, r :: r in registrations && k in r.keys ==> k in buckets && r in buckets[k])
    && (forall k, r :: k in buckets && r in buckets[k] ==> r in registrations && k in r.keys)
  }

  /** Indexed, with r under the first i of its keys only. */
  ghost predicate IndexedPart(buckets: Buckets, registrations: set<Registration>, r: Registration, i: nat)
    requires i <= |r.keys|
  {
    && (forall k :: k in buckets ==> buckets[k] != {})
    && (forall k, q :: q in registrations && q != r && k in q.keys ==> k in buckets && q in buckets[k])
    && (forall k, q :: k in buckets && q in buckets[k] && q != r ==> q in registrations && k in q.keys)
    && (forall k :: k in r.keys[..i] <==> k in buckets && r in buckets[k])
  }

  /** Indexed, with r gone from the first i of its keys. */
  ghost predicate IndexedWithout(buckets: Buckets, registrations: set<Registration>, r: Registration, i: nat)
    requires i <= |r.keys|
  {
    && (forall k :: k in buckets ==> buckets[k] != {})
    && (forall k, q :: q in registrations && k in q.keys ==> k in buckets && q in buckets[k])
    && (forall k, q :: k in buckets && q in buckets[k] && q != r ==> q in registrations && k in q.keys)
    && (forall k :: k in buckets && r in buckets[k] ==> k in r.keys && k !in r.keys[..i])
  }

  function Joined(buckets: Buckets, key: Id, r: Registration): Buckets {
    buckets[key := (if key in buckets then buckets[key] else {}) + {r}]
  }

  function Left(buckets: Buckets, key: Id, r: Registration): Buckets {
    if key !in buckets then buckets
    else if buckets[key] - {r} == {} then buckets - {key}
    else buckets[key := buckets[key] - {r}]
  }

  lemma KeysNext(r: Registration, i: nat)
    requires i < |r.keys|
    ensures forall k :: k in r.keys[..i + 1] <==> k in r.keys[..i] || k == r.keys[i]
    ensures r.keys[i] in r.keys
  {
    assert r.keys[..i + 1] == r.keys[..i] + [r.keys[i]];
  }

  lemma JoinBegins(buckets: Buckets, registrations: set<Registration>, r: Registration)
    requires IndexedOver(buckets, registrations) && r !in registrations
    ensures IndexedPart(buckets, registrations + {r}, r, 0)
  {
  }

  lemma JoinStep(buckets: Buckets, registrations: set<Registration>, r: Registration, i: nat)
    requires i < |r.keys| && IndexedPart(buckets, registrations, r, i)
    ensures IndexedPart(Joined(buckets, r.keys[i], r), registrations, r, i + 1)
  {
    KeysNext(r, i);
  }

  lemma JoinEnds(buckets: Buckets, registrations: set<Registration>, r: Registration)
    requires IndexedPart(buckets, registrations, r, |r.keys|) && r in registrations
    ensures IndexedOver(buckets, registrations)
  {
    assert r.keys[..|r.keys|] == r.keys;
  }

  lemma LeaveBegins(buckets: Buckets, registrations: set<Registration>, r: Registration)
    requires IndexedOver(buckets, registrations)
    ensures IndexedWithout(buckets, registrations - {r}, r, 0)
  {
  }

  lemma LeaveStep(buckets: Buckets, registrations: set<Registration>, r: Registration, i: nat)
    requires i < |r.keys| && IndexedWithout(buckets, registrations, r, i) && r !in registrations
    ensures IndexedWithout(Left(buckets, r.keys[i], r), registrations, r, i + 1)
  {
    KeysNext(r, i);
    var key, after := r.keys[i], Left(buckets, r.keys[i], r);
    forall k, q | q in registrations && k in q.keys ensures k in after && q in after[k] {
      assert q in buckets[k] && q != r;
      if k == key { assert q in buckets[key] - {r}; }
    }
  }

  lemma LeaveEnds(buckets: Buckets, registrations: set<Registration>, r: Registration)
    requires IndexedWithout(buckets, registrations, r, |r.keys|) && r !in registrations
    ensures IndexedOver(buckets, registrations)
  {
    assert r.keys[..|r.keys|] == r.keys;
  }

  /** What a registration remembers of the commits to its keys; `due` when it is on its way to being told. */
  ghost predicate Knows(h: History, keys: seq<Id>, delivered: int, since: nat, within: Option<Context>, depth: nat,
                        due: bool) {
    && delivered <= |h| && since <= |h| && (delivered >= 0 ==> delivered == since && within == None)
    && depth == DepthDue(h, keys, since, within)
    && (Latest(h, keys) > delivered ==> due)
  }

  /** It has just been told everything. */
  lemma KnowsAll(h: History, keys: seq<Id>, due: bool)
    ensures Knows(h, keys, Latest(h, keys), Latest(h, keys), None, 0, due)
  {
    hide Latest, DepthDue;
    DueDelivered(h, keys, 0, None);
  }

  /** It had been told everything already. */
  lemma KnowsStill(h: History, keys: seq<Id>, delivered: int, since: nat, within: Option<Context>, depth: nat,
                   due: bool)
    requires Knows(h, keys, delivered, since, within, depth, true) && Latest(h, keys) <= delivered
    ensures Knows(h, keys, delivered, since, within, 0, due)
  {
    hide Latest, DepthDue;
    DueDelivered(h, keys, since, within);
  }

  lemma KnowsDue(h: History, keys: seq<Id>, delivered: int, since: nat, within: Option<Context>, depth: nat, due: bool)
    requires Knows(h, keys, delivered, since, within, depth, due)
    ensures Knows(h, keys, delivered, since, within, depth, true)
  {
  }

  lemma DepthKnown(h: History, keys: seq<Id>, delivered: int, since: nat, within: Option<Context>, depth: nat,
                   due: bool)
    requires Knows(h, keys, delivered, since, within, depth, due)
    ensures since <= |h| && depth == DepthDue(h, keys, since, within)
  {
  }

  /** One more key of the newest commit. */
  lemma KnowsKey(h: History, k: Id, keys: seq<Id>, delivered: int, since: nat, within: Option<Context>, depth: nat,
                 due: bool)
    requires h != [] && since < |h| && delivered < |h| && Knows(h, keys, delivered, since, within, depth, due)
    ensures k in keys ==> Knows(WithKey(h, k), keys, delivered, since, within, Max(depth, h[|h| - 1].depth), true)
    ensures k !in keys ==> Knows(WithKey(h, k), keys, delivered, since, within, depth, due)
  {
    hide Latest, DepthDue, WithKey;
    KeyAdded(h, k, keys, since);
    DueAdded(h, k, keys, since, within);
  }

  class Engine {
    const token: nat
    const known: set<Id>
    var values: map<Id, Value>
    var lastTouched: map<Id, nat>
    var latestRevisionAtDepth: map<Id, seq<nat>>
    var lastWriteCause: map<Id, WriteCause>
    var buckets: map<Id, set<Registration>>
    var registrations: set<Registration>
    var dirty: set<Registration>
    /** What the running flush has still to visit. */
    var batch: seq<Registration>
    var commits: nat
    var sequence: nat
    var closed: bool
    var flushScheduled: bool

    /** Every commit so far, and every registration ever made. */
    ghost var history: History
    ghost var made: set<Registration>

    /** A registration knows what it has missed, and is on its way to being told. */
    ghost predicate Tracked(h: History, r: Registration)
      reads this`closed, this`dirty, this`batch, r
    {
      r.attached && Knows(h, r.keys, r.delivered, r.since, r.within, r.depth, closed || r in dirty || r in batch)
    }

    ghost predicate AllTracked(h: History)
      reads this`registrations, this`closed, this`dirty, this`batch, registrations
    {
      forall r :: r in registrations ==> Tracked(h, r)
    }

    /** The bucket of a key is exactly the set of live registrations that follow it. */
    ghost predicate Indexed()
      reads this`buckets, this`registrations
    {
      IndexedOver(buckets, registrations)
    }

    /** The revision indexes answer as the full history would. */
    ghost predicate Summarised()
      reads this`commits, this`history, this`lastTouched, this`latestRevisionAtDepth, this`lastWriteCause, this`closed
    {
      && commits == |history|
      && (forall c :: c in history ==> c.depth <= MAX_CASCADE_DEPTH && c.keys <= known)
      && (forall k :: TouchedMatches(history, lastTouched, k))
      && (!closed ==> forall k :: SlotsMatch(history, latestRevisionAtDepth, k))
      && (!closed ==> forall k :: CauseMatches(history, lastWriteCause, k))
    }

    ghost predicate Listed()
      reads this`dirty, this`registrations, this`made, this`sequence, made`attached
    {
      && dirty <= registrations <= made
      && (forall r :: r in made ==> r.id <= sequence && (r.attached <==> r in registrations))
      && (forall r, q :: r in made && q in made && r.id == q.id ==> r == q)
    }

    ghost predicate Batched()
      reads this`made, this`batch
    {
      forall r :: r in batch ==> r in made
    }

    ghost predicate Core()
      reads this, made
    {
      Listed() && Batched() && Indexed() && Summarised() && AllTracked(history) && values.Keys == known
    }

    /** Holds between any two steps. */
    ghost predicate Valid()
      reads this, made
    {
      Core() && (dirty != {} ==> flushScheduled)
    }

    lemma CommitsCounted()
      requires Summarised()
      ensures commits == |history|
    {
    }

    constructor (token: nat, entries: map<Id, Value>)
      ensures Valid() && !closed && history == [] && this.token == token && known == entries.Keys && values == entries
      ensures registrations == {} && made == {} && batch == [] && !flushScheduled
    {
      this.token, known, values := token, entries.Keys, entries;
      lastTouched, latestRevisionAtDepth, lastWriteCause, buckets := map[], map[], map[], map[];
      registrations, dirty, batch := {}, {}, [];
      commits, sequence, closed, flushScheduled := 0, 0, false, false;
      history, made := [], {};
    }

    method LatestOf(keys: seq<Id>) returns (revision: nat)
      requires Summarised()
      ensures revision == Latest(history, keys)
    {
      revision := 0;
      NoKeys(history, 0);
      assert keys[..0] == [];
      for i := 0 to |keys|
        invariant revision == Latest(history, keys[..i])
      {
        KeyByKey(history, keys[..i], keys[i], 0);
        assert keys[..i + 1] == keys[..i] + [keys[i]];
        assert TouchedMatches(history, lastTouched, keys[i]);
        revision := Max(revision, if keys[i] in lastTouched then lastTouched[keys[i]] else 0);
      }
      assert keys[..|keys|] == keys;
    }

    method MissedDepth(keys: seq<Id>, revision: nat) returns (depth: nat)
      requires Summarised() && !closed
      ensures depth == Missed(history, keys, revision)
    {
      depth := 0;
      NoKeys(history, revision);
      assert keys[..0] == [];
      for i := 0 to |keys|
        invariant depth == Missed(history, keys[..i], revision)
      {
        KeyByKey(history, keys[..i], keys[i], revision);
        assert keys[..i + 1] == keys[..i] + [keys[i]];
        depth := MissedOf(keys[i], revision, depth);
      }
      assert keys[..|keys|] == keys;
    }

    /** The scan of one key's slots, from the deepest down to the depth already known. */
    method MissedOf(key: Id, revision: nat, depth: nat) returns (r: nat)
      requires Summarised() && !closed
      ensures r == Max(depth, Missed(history, [key], revision))
    {
      hide Missed, Slot;
      SlotsAnswer(history, key, revision);
      MissedBound(history, [key], revision);
      assert SlotsMatch(history, latestRevisionAtDepth, key);
      if key !in latestRevisionAtDepth { return depth; }
      var slots := latestRevisionAtDepth[key];
      var candidate: int := MAX_CASCADE_DEPTH;
      while candidate > depth
        invariant candidate <= MAX_CASCADE_DEPTH
        invariant forall d :: candidate < d <= MAX_CASCADE_DEPTH && d > depth ==> slots[d] <= revision
      {
        if slots[candidate] > revision { return candidate; }
        candidate := candidate - 1;
      }
      return depth;
    }

    /** How deep a load subscribed here starts. */
    method InitialLoadDepth(keys: seq<Id>, context: Option<Context>) returns (depth: nat)
      requires Summarised() && !closed
      ensures depth == InitialDepth(history, keys, context)
    {
      hide Latest, Slot, Missed, WrittenAt, SlotsMatch;
      if context.None? { return 0; }
      depth := context.value.delivery.depth;
      assert keys[..0] == [];
      for i := 0 to |keys|
        invariant depth == Max(context.value.delivery.depth, WrittenIn(history, keys[..i], context.value.live))
      {
        WrittenInMore(history, keys[..i], keys[i], context.value.live);
        assert keys[..i + 1] == keys[..i] + [keys[i]];
        CauseIs(keys[i], context.value.live);
        if keys[i] in lastWriteCause && lastWriteCause[keys[i]].live == Some(context.value.live) {
          depth := Max(depth, lastWriteCause[keys[i]].depth);
        }
      }
      assert keys[..|keys|] == keys;
    }

    lemma CauseIs(k: Id, live: nat)
      requires Summarised() && !closed
      ensures WrittenAt(history, k, live) ==
        if k in lastWriteCause && lastWriteCause[k].live == Some(live) then lastWriteCause[k].depth else 0
    {
      hide Latest, Slot, Missed, SlotsMatch;
      assert CauseMatches(history, lastWriteCause, k);
    }

    method Schedule()
      modifies this`flushScheduled
      ensures flushScheduled
    {
      if !flushScheduled { flushScheduled := true; }
    }

    // ---------- subscribing ----------

    method Attach(r: Registration)
      requires Indexed() && r !in registrations
      modifies this`registrations, this`buckets
      ensures Indexed() && registrations == old(registrations) + {r}
    {
      hide IndexedOver, IndexedPart, Joined;
      JoinBegins(buckets, registrations, r);
      registrations := registrations + {r};
      for i := 0 to |r.keys|
        invariant IndexedPart(buckets, registrations, r, i)
        modifies this`buckets
      {
        JoinStep(buckets, registrations, r, i);
        buckets := Joined(buckets, r.keys[i], r);
      }
      JoinEnds(buckets, registrations, r);
    }

    method Unlink(r: Registration)
      requires Indexed() && r in registrations
      modifies this`registrations, this`buckets, this`dirty
      ensures Indexed() && registrations == old(registrations) - {r} && dirty == old(dirty) - {r}
    {
      hide IndexedOver, IndexedWithout, Left;
      LeaveBegins(buckets, registrations, r);
      registrations := registrations - {r};
      dirty := dirty - {r};
      for i := 0 to |r.keys|
        invariant IndexedWithout(buckets, registrations, r, i)
        modifies this`buckets
      {
        LeaveStep(buckets, registrations, r, i);
        buckets := Left(buckets, r.keys[i], r);
      }
      LeaveEnds(buckets, registrations, r);
    }

    /** The registration enters the index; when it has already missed something it is marked. */
    method Subscribe(r: Registration)
      requires Valid() && !closed && r !in made && r.attached && r.id == sequence
      requires forall q :: q in made ==> q.id < sequence
      requires r.delivered <= |history|
      requires r.since <= |history|
      requires r.delivered >= 0 ==> r.delivered == r.since && r.within == None
      requires r.depth == DepthDue(history, r.keys, r.since, r.within)
      modifies this`registrations, this`buckets, this`dirty, this`flushScheduled, this`made
      ensures Valid() && registrations == old(registrations) + {r} && made == old(made) + {r}
      ensures Latest(history, r.keys) > r.delivered ==> r in dirty
      ensures old(flushScheduled) ==> flushScheduled
    {
      hide DepthDue, InitialDepth, Missed, Latest, Slot, Summarised, Indexed, IndexedOver;
      made := made + {r};
      Attach(r);
      var latest := LatestOf(r.keys);
      // A load is always marked; the revision it has been told is below every other.
      if r.load || latest > r.delivered { MarkDirty(r); }
    }

    method MarkDirty(r: Registration)
      modifies this`dirty, this`flushScheduled
      ensures dirty == old(dirty) + {r} && flushScheduled
    {
      dirty := dirty + {r};
      Schedule();
    }

    /**
     * Follow the keys from the revision of a snapshot of them: what was committed since is missed, and will be
     * delivered.
     */
    method Watch(keys: seq<Id>, revision: nat) returns (r: Registration)
      requires Valid() && !closed && revision <= commits
      modifies this`registrations, this`buckets, this`dirty, this`flushScheduled, this`sequence, this`made
      ensures Valid() && fresh(r) && r.keys == keys && r.delivered == revision
      ensures registrations == old(registrations) + {r} && made == old(made) + {r}
      ensures Latest(history, keys) > revision ==> r in dirty
      ensures (old(flushScheduled) ==> flushScheduled) && r.within == None
    {
      hide Missed, Latest, Slot, Summarised, Indexed, Tracked, InitialDepth;
      CommitsCounted();
      var depth := MissedDepth(keys, revision);
      NoInitialDepth(history[..revision], keys);
      sequence := sequence + 1;
      r := new Registration.Watch(sequence, keys, depth, revision);
      Subscribe(r);
    }

    lemma NoInitialDepth(h: History, keys: seq<Id>)
      ensures InitialDepth(h, keys, None) == 0
    {
    }

    /**
     * Load from a snapshot of the keys, which is always delivered; a load subscribed in a delivery starts no
     * shallower.
     */
    method Load(keys: seq<Id>, context: Option<Context>) returns (r: Registration)
      requires Valid() && !closed
      modifies this`registrations, this`buckets, this`dirty, this`flushScheduled, this`sequence, this`made
      ensures Valid()
      ensures fresh(r)
      ensures r.keys == keys
      ensures r.load
      ensures r.delivered == -1
      ensures r.since == |history|
      ensures r.within == context
      ensures registrations == old(registrations) + {r} && made == old(made) + {r}
      ensures r.depth == InitialDepth(history, keys, context) && Latest(history, keys) > r.delivered
      ensures r in dirty && flushScheduled
    {
      hide Latest, Slot, Summarised, Indexed, Tracked, InitialDepth, Missed;
      CommitsCounted();
      var depth := InitialLoadDepth(keys, context);
      DueNow(history, keys, context);
      sequence := sequence + 1;
      r := new Registration.Load(sequence, keys, depth, commits, context);
      Subscribe(r);
    }

    lemma DueNow(h: History, keys: seq<Id>, context: Option<Context>)
      ensures DepthDue(h, keys, |h|, context) == InitialDepth(h, keys, context)
    {
      hide InitialDepth;
      assert h[..|h|] == h;
    }

    method Detach(r: Registration)
      requires Valid() && r in made
      modifies this`registrations, this`buckets, this`dirty, r`attached
      ensures Valid() && !r.attached && registrations == old(registrations) - {r}
    {
      hide Missed, Latest, Slot, Summarised;
      if !r.attached { return; }
      r.attached := false;
      Unlink(r);
    }

    // ---------- committing ----------

    method Index(key: Id, depth: nat, live: Option<nat>)
      requires Summarised()
      requires history != []
      requires history[|history| - 1].depth == depth
      requires WindowOf(history[|history| - 1]) == live
      requires key in known
      requires !closed
      modifies this`lastTouched, this`latestRevisionAtDepth, this`lastWriteCause, this`history
      ensures Summarised() && history == WithKey(old(history), key)
    {
      hide Latest, Slot, WithKey, SlotsMatch, CauseMatches, TouchedMatches, SlotsFor;
      ghost var h, slots, causes, touched := history, latestRevisionAtDepth, lastWriteCause, lastTouched;
      assert h[|h| - 1] in h;
      SlotsUpdated(h, slots, key, depth, key);
      CommitsWithKey(h, key, known);
      lastTouched := lastTouched[key := commits];
      latestRevisionAtDepth := latestRevisionAtDepth[key := SlotsFor(latestRevisionAtDepth, key)[depth := commits]];
      lastWriteCause := lastWriteCause[key := WriteCause(commits, depth, live)];
      history := WithKey(h, key);
      forall x ensures SlotsMatch(history, latestRevisionAtDepth, x) { SlotsUpdated(h, slots, key, depth, x); }
      forall x ensures CauseMatches(history, lastWriteCause, x) { CauseUpdated(h, causes, key, x); }
      forall x ensures TouchedMatches(history, lastTouched, x) { TouchedUpdated(h, touched, key, x); }
    }

    /** The followers in `rest` still stand at g, the others know the whole history. */
    ghost predicate TrackedExcept(g: History, rest: set<Registration>)
      reads this`history, this`registrations, this`closed, this`dirty, this`batch, registrations
    {
      && (forall r :: r in registrations && r in rest ==> Tracked(g, r))
      && (forall r :: r in registrations && r !in rest ==> Tracked(history, r))
    }

    ghost predicate Follow(g: History, rest: set<Registration>, key: Id)
      reads rest
    {
      forall r :: r in rest ==> key in r.keys && r.since < |g| && r.delivered < |g|
    }

    lemma Behind(g: History, key: Id, bucket: set<Registration>)
      requires AllTracked(g) && g != [] && history == WithKey(g, key)
      requires forall r :: r in registrations ==> r.since < |g| && r.delivered < |g| && (key in r.keys ==> r in bucket)
      ensures TrackedExcept(g, bucket)
    {
      hide Knows, WithKey;
      forall r | r in registrations && r !in bucket ensures Tracked(history, r) {
        KnowsKey(g, key, r.keys, r.delivered, r.since, r.within, r.depth, closed || r in dirty || r in batch);
      }
    }

    lemma BucketOf(key: Id)
      requires Indexed()
      ensures var bucket := if key in buckets then buckets[key] else {};
              forall r :: r in bucket <==> r in registrations && key in r.keys
    {
    }

    /** Every follower of the key learns the depth and is marked. */
    method MarkFollowers(followers: set<Registration>, ghost g: History, key: Id, depth: nat)
      requires g != [] && history == WithKey(g, key) && g[|g| - 1].depth == depth
      requires followers <= registrations
      requires TrackedExcept(g, followers)
      requires Follow(g, followers, key)
      requires dirty <= registrations
      modifies this`dirty, registrations`depth
      ensures AllTracked(history) && dirty <= registrations
    {
      hide Knows, WithKey;
      var bucket := followers;
      while bucket != {}
        invariant bucket <= registrations
        invariant TrackedExcept(g, bucket)
        invariant dirty <= registrations
        invariant Follow(g, bucket, key)
      {
        var r :| r in bucket;
        KnowsKey(g, key, r.keys, r.delivered, r.since, r.within, r.depth, closed || r in dirty || r in batch);
        r.depth := Max(r.depth, depth);
        dirty := dirty + {r};
        bucket := bucket - {r};
      }
    }

    /** One key of the commit at the end of the history: the indexes, and every follower of the key. */
    method Touch(key: Id, depth: nat, live: Option<nat>)
      requires Core()
      requires history != []
      requires history[|history| - 1].depth == depth
      requires WindowOf(history[|history| - 1]) == live
      requires key in known
      requires !closed
      requires forall r :: r in registrations ==> r.since < |history| && r.delivered < |history|
      modifies this`lastTouched, this`latestRevisionAtDepth, this`lastWriteCause, this`dirty, this`history,
        registrations`depth
      ensures Core() && history == WithKey(old(history), key)
    {
      hide Missed, DepthDue, Latest, Slot, WithKey, Summarised, Tracked, TrackedExcept, Indexed, IndexedOver;
      ghost var g := history;
      Index(key, depth, live);
      var bucket := if key in buckets then buckets[key] else {};
      BucketOf(key);
      assert AllTracked(g);
      Behind(g, key, bucket);
      MarkFollowers(bucket, g, key, depth);
    }

    function Changed(patch: seq<(Id, Value)>): seq<(Id, Value)>
      reads this`values
    {
      if patch == [] then []
      else
        var last, rest := patch[|patch| - 1], Changed(patch[..|patch| - 1]);
        if last.0 in values && values[last.0] == last.1 then rest else rest + [last]
    }

    ghost function KeysOf(patch: seq<(Id, Value)>): set<Id> {
      set e | e in patch :: e.0
    }

    lemma ChangedSome(patch: seq<(Id, Value)>)
      ensures forall e :: e in Changed(patch) <==> e in patch && !(e.0 in values && values[e.0] == e.1)
      ensures DistinctKeys(patch) ==> DistinctKeys(Changed(patch))
    {
      if patch != [] {
        var front, last := patch[..|patch| - 1], patch[|patch| - 1];
        ChangedSome(front);
        assert patch == front + [last];
      }
    }

    /** The next commit, before it has changed any key. */
    method Begin(depth: nat, ghost cause: Option<Context>)
      requires Core() && depth <= MAX_CASCADE_DEPTH
      modifies this`commits, this`history
      ensures Core() && history == old(history) + [Commit(depth, {}, cause)]
      ensures forall r :: r in registrations ==> r.since < |history| && r.delivered < |history|
    {
      hide Missed, DepthDue, Latest, Slot, Indexed, Listed, SlotsMatch, CauseMatches, TouchedMatches;
      ghost var h, c := history, Commit(depth, {}, cause);
      commits := commits + 1;
      history := h + [c];
      assert AllTracked(history) by {
        forall r | r in registrations ensures Tracked(history, r) {
          Untouched(h, c, r.keys, r.since, [], 0);
          DueUntouched(h, c, r.keys, r.since, r.within);
        }
      }
      assert Summarised() by {
        forall k
          ensures !closed ==>
            SlotsMatch(history, latestRevisionAtDepth, k) && CauseMatches(history, lastWriteCause, k) {
          IndexesBegin(h, c, latestRevisionAtDepth, lastWriteCause, lastTouched, k);
        }
        forall k ensures TouchedMatches(history, lastTouched, k) {
          IndexesBegin(h, c, latestRevisionAtDepth, lastWriteCause, lastTouched, k);
        }
      }
    }

    ghost predicate DistinctKeys(patch: seq<(Id, Value)>) {
      forall i, j :: 0 <= i < j < |patch| ==> patch[i].0 != patch[j].0
    }

    /** Exactly the entries of the patch have taken effect. */
    ghost predicate Patched(before: map<Id, Value>, patch: seq<(Id, Value)>, after: map<Id, Value>) {
      && after.Keys == before.Keys
      && (forall e :: e in patch ==> e.0 in after && after[e.0] == e.1)
      && (forall k :: k in after && k !in KeysOf(patch) ==> k in before && after[k] == before[k])
    }

    lemma PatchStep(before: map<Id, Value>, patch: seq<(Id, Value)>, i: nat, after: map<Id, Value>)
      requires i < |patch| && DistinctKeys(patch) && patch[i].0 in before && Patched(before, patch[..i], after)
      ensures Patched(before, patch[..i + 1], after[patch[i].0 := patch[i].1])
      ensures KeysOf(patch[..i + 1]) == KeysOf(patch[..i]) + {patch[i].0}
    {
      assert patch[..i + 1] == patch[..i] + [patch[i]];
      KeysMore(patch[..i], patch[i]);
      forall e | e in patch[..i] ensures e.0 != patch[i].0 {}
      hide KeysOf;
    }

    lemma KeysMore(patch: seq<(Id, Value)>, e: (Id, Value))
      ensures KeysOf(patch + [e]) == KeysOf(patch) + {e.0}
    {
      forall k | k in KeysOf(patch) ensures k in KeysOf(patch + [e]) {
        var f :| f in patch && f.0 == k;
        assert f in patch + [e];
      }
      assert e in patch + [e];
    }

    method Apply(changed: seq<(Id, Value)>, depth: nat, cause: Option<Context>)
      requires Core() && !closed && depth <= MAX_CASCADE_DEPTH && DistinctKeys(changed)
        && forall e :: e in changed ==> e.0 in known
      modifies this`values, this`commits, this`lastTouched, this`latestRevisionAtDepth, this`lastWriteCause, this`dirty,
        this`history, registrations`depth
      ensures Core() && history == old(history) + [Commit(depth, KeysOf(changed), cause)]
      ensures Patched(old(values), changed, values)
    {
      hide Missed, Latest, Slot, Indexed, Listed, Summarised, AllTracked, Patched, KeysOf;
      NoChange(values, changed);
      Begin(depth, cause);
      for i := 0 to |changed|
        invariant Core() && history == old(history) + [Commit(depth, KeysOf(changed[..i]), cause)]
        invariant forall r :: r in registrations ==> r.since < |history| && r.delivered < |history|
        invariant Patched(old(values), changed[..i], values)
      {
        var key := changed[i].0;
        PatchStep(old(values), changed, i, values);
        values := values[key := changed[i].1];
        Touch(key, depth, if cause.Some? then Some(cause.value.live) else None);
        LastWithKey(old(history), Commit(depth, KeysOf(changed[..i]), cause), key);
      }
      assert changed[..|changed|] == changed;
    }

    lemma LastWithKey(h: History, c: Commit, k: Id)
      ensures WithKey(h + [c], k) == h + [c.(keys := c.keys + {k})]
    {
    }

    lemma NoChange(values: map<Id, Value>, patch: seq<(Id, Value)>)
      ensures Patched(values, patch[..0], values) && KeysOf(patch[..0]) == {}
    {
    }

    /**
     * The delivery a commit made now would be inside of; one that follows a changed key here is an echo, one too
     * deep a cascade.
     */
    method Guard(changed: seq<(Id, Value)>, context: Option<Context>, depth: nat) returns (failure: Option<SetResult>)
      ensures failure == if context.None? then None
                         else if context.value.delivery.store == token
                           && (exists e :: e in changed && e.0 in context.value.delivery.keys) then Some(Echo)
                         else if depth > MAX_CASCADE_DEPTH then Some(Cascade) else None
    {
      if context.None? { return None; }
      if context.value.delivery.store == token && (exists e :: e in changed && e.0 in context.value.delivery.keys) {
        return Some(Echo);
      }
      if depth > MAX_CASCADE_DEPTH { return Some(Cascade); }
      return None;
    }

    ghost function DepthIn(context: Option<Context>): nat {
      if context.None? then 0 else context.value.delivery.depth + 1
    }

    /** In any world that has this store and the running delivery, the commit happens as the world's rules say. */
    ghost predicate CommitsIn(before: History, after: History, context: Option<Context>) {
      forall w: World ::
        token in w && w[token] == before && (context.Some? ==> Delivered(w, context.value.delivery)) ==>
        after != [] && Happens(w, Committed(token, after[|after| - 1]), w[token := after])
    }

    lemma CommitHappens(before: History, after: History, c: Commit, context: Option<Context>)
      requires after == before + [c] && c.cause == context && c.depth == DepthIn(context) <= MAX_CASCADE_DEPTH
      ensures CommitsIn(before, after, context)
    {
      hide Delivered;
    }

    /** What a patch is answered in a context, and what becomes of the store. */
    twostate predicate Answered(patch: seq<(Id, Value)>, context: Option<Context>, result: SetResult)
      reads this`closed, this`values, this`history
    {
      var changed := old(Changed(patch));
      && result == (if closed then Closed
                    else if exists e :: e in patch && e.0 !in known then UnknownKey
                    else if changed != [] && context.Some? && context.value.delivery.store == token
                      && (exists e :: e in changed && e.0 in context.value.delivery.keys) then Echo
                    else if changed != [] && DepthIn(context) > MAX_CASCADE_DEPTH then Cascade
                    else Revision(|history|))
      && if result.Revision? && changed != []
         then history == old(history) + [Commit(DepthIn(context), KeysOf(changed), context)]
           && Patched(old(values), patch, values)
         else history == old(history) && values == old(values)
    }

    /** One commit, inside the delivery that is running, if any. */
    method Set(patch: seq<(Id, Value)>, context: Option<Context>) returns (result: SetResult)
      requires Valid() && DistinctKeys(patch)
      modifies this`values, this`commits, this`lastTouched, this`latestRevisionAtDepth, this`lastWriteCause, this`dirty,
        this`history, this`flushScheduled, registrations`depth
      ensures Valid()
      ensures Answered(patch, context, result)
      ensures history == old(history) ==> dirty == old(dirty)
      ensures history != old(history) ==> CommitsIn(old(history), history, context)
      ensures old(flushScheduled) ==> flushScheduled
    {
      hide Missed, Latest, Slot, Indexed, Listed, Summarised, AllTracked, Patched, KeysOf, DistinctKeys, Changed,
           CommitsIn;
      CommitsCounted();
      if closed { return Closed; }
      if exists e :: e in patch && e.0 !in known { return UnknownKey; }
      var changed := Changed(patch);
      ChangedSome(patch);
      if changed == [] { return Revision(commits); }
      var depth := if context.None? then 0 else context.value.delivery.depth + 1;
      var failure := Guard(changed, context, depth);
      if failure.Some? { return failure.value; }
      ghost var before := values;
      Apply(changed, depth, context);
      PatchedAll(before, patch, changed, values);
      CommitHappens(old(history), history, Commit(depth, KeysOf(changed), context), context);
      Schedule();
      CommitsCounted();
      return Revision(commits);
    }

    lemma PatchedAll(before: map<Id, Value>, patch: seq<(Id, Value)>, changed: seq<(Id, Value)>, after: map<Id, Value>)
      requires Patched(before, changed, after)
        && forall e :: e in changed <==> e in patch && !(e.0 in before && before[e.0] == e.1)
      requires DistinctKeys(patch) && forall e :: e in patch ==> e.0 in before
      ensures Patched(before, patch, after)
    {
      forall e | e in patch ensures e.0 in after && after[e.0] == e.1 {
        forall f | f in changed && f.0 == e.0 ensures f == e { SameEntry(patch, e, f); }
      }
    }

    lemma SameEntry(patch: seq<(Id, Value)>, e: (Id, Value), f: (Id, Value))
      requires DistinctKeys(patch) && e in patch && f in patch && e.0 == f.0
      ensures e == f
    {
      var i, j :| 0 <= i < |patch| && 0 <= j < |patch| && patch[i] == e && patch[j] == f;
    }

    // ---------- delivering ----------

    static lemma LeastId(s: set<Registration>) returns (m: Registration)
      requires s != {}
      ensures m in s && forall q :: q in s ==> m.id <= q.id
    {
      m :| m in s;
      if s != {m} {
        var n := LeastId(s - {m});
        if n.id < m.id { m := n; }
      }
    }

    static ghost predicate OrderedById(s: seq<Registration>) {
      forall i, j :: 0 <= i < j < |s| ==> s[i].id <= s[j].id
    }

    static method SortById(s: set<Registration>) returns (order: seq<Registration>)
      ensures OrderedById(order) && forall r :: r in order <==> r in s
    {
      order := [];
      var rest := s;
      while rest != {}
        invariant rest <= s && OrderedById(order) && forall r :: r in order <==> r in s - rest
        invariant forall r, q :: r in order && q in rest ==> r.id <= q.id
      {
        ghost var least := LeastId(rest);
        var m :| m in rest && forall q :: q in rest ==> m.id <= q.id;
        order := order + [m];
        rest := rest - {m};
      }
    }

    /** The batch is the registrations that were dirty, by identity. */
    ghost predicate Took(was: set<Registration>)
      reads this`batch
    {
      OrderedById(batch) && (forall r :: r in batch ==> r in was) && forall r :: r in was ==> r in batch
    }

    /** The flush task starts: everything dirty becomes its batch, in order of subscription. */
    method BeginFlush()
      requires Valid() && flushScheduled && batch == []
      modifies this`flushScheduled, this`batch, this`dirty
      ensures Valid() && !flushScheduled && dirty == {}
      ensures Took(old(dirty))
    {
      hide Missed, Latest, Slot, Summarised, Indexed, OrderedById;
      flushScheduled := false;
      batch := SortById(dirty);
      dirty := {};
    }

    /**
     * In any world that has this store, and where the load was subscribed, the delivery is one the world's rules
     * allow.
     */
    ghost predicate DeliversIn(h: History, d: Delivery) {
      forall w: World ::
        token in w && w[token] == h && (d.within.Some? ==> Delivered(w, d.within.value.delivery)) ==> Delivered(w, d)
    }

    lemma DeliveryHappens(h: History, keys: seq<Id>, since: nat, within: Option<Context>, d: Delivery)
      requires since <= |h|
      requires d == Delivery(token, keys, since, Latest(h, keys), DepthDue(h, keys, since, within), within)
      ensures DeliversIn(h, d)
    {
      DueDelivered(h, keys, since, within);
      hide InitialDepth, Missed, Latest, DepthDue;
    }

    /** A registration is told something exactly when it is attached to an open store and behind. */
    ghost predicate Owes(r: Registration)
      reads this`closed, this`history, r
    {
      !closed && r.attached && Latest(history, r.keys) > r.delivered
    }

    /** One registration of the batch; what is delivered is told once, later than anything it was told before. */
    method FlushNext() returns (d: Option<Delivery>)
      requires Valid() && batch != []
      modifies this`batch, batch[0]
      ensures Valid() && history == old(history)
      ensures closed || batch == old(batch[1..])
      ensures d.Some? <==> old(Owes(batch[0]))
      ensures d.Some? ==>
        var r := old(batch[0]);
        && d.value == Delivery(token, r.keys, old(r.since), Latest(history, r.keys), old(r.depth), old(r.within))
        && r.delivered == Latest(history, r.keys) > old(r.delivered)
      ensures d.Some? ==> DeliversIn(history, d.value)
      ensures old(batch[0]).within == None || old(batch[0]).within == old(batch[0].within)
      ensures old(batch[0]).attached == old(batch[0].attached)
      ensures d.None? ==> old(batch[0]).delivered == old(batch[0].delivered)
    {
      hide Knows, Latest, Listed, Summarised, Indexed, IndexedOver, DeliversIn;
      if closed { batch := []; return None; }
      var r := batch[0];
      AttachedIsListed(r);
      batch := batch[1..];
      if !r.attached { return None; }
      var depth := r.depth;
      r.depth := 0;
      var revision := LatestOf(r.keys);
      if revision <= r.delivered {
        KnowsStill(history, r.keys, r.delivered, r.since, r.within, depth, r in dirty || r in batch);
        return None;
      }
      KnowsAll(history, r.keys, r in dirty || r in batch);
      DepthKnown(history, r.keys, r.delivered, r.since, r.within, depth, true);
      var due := Delivery(token, r.keys, r.since, revision, depth, r.within);
      DeliveryHappens(history, r.keys, r.since, r.within, due);
      d := Some(due);
      r.delivered := revision;
      r.since, r.within := revision, None;
      assert AllTracked(history) by {
        forall q | q in registrations ensures Tracked(history, q) { if q != r { assert old(Tracked(history, q)); } }
      }
    }

    lemma AttachedIsListed(r: Registration)
      requires Listed() && r in made
      ensures r.attached <==> r in registrations
    {
    }

    /** Nothing left to flush means nobody is owed anything: every commit to a followed key has been told. */
    lemma NothingLost(r: Registration)
      requires Valid() && !closed && !flushScheduled && batch == [] && r in registrations
      ensures forall i :: Covered(history, r.keys, 0, i) ==> i <= r.delivered
      ensures r.delivered >= Latest(history, r.keys) && r.depth == 0
    {
      hide Latest, Missed, DepthDue, InitialDepth, Covered;
      LatestMeans(history, r.keys);
      DueDelivered(history, r.keys, r.since, r.within);
    }

    /** Nothing more is remembered or owed; the registrations are still to be detached. */
    method Shut()
      requires Valid() && !closed
      modifies this`closed, this`dirty, this`latestRevisionAtDepth, this`lastWriteCause
      ensures Valid() && closed && dirty == {}
    {
      hide Knows, Indexed, IndexedOver, SlotsMatch, CauseMatches, TouchedMatches;
      forall r | r in registrations ensures Knows(history, r.keys, r.delivered, r.since, r.within, r.depth, true) {
        KnowsDue(history, r.keys, r.delivered, r.since, r.within, r.depth, closed || r in dirty || r in batch);
      }
      closed := true;
      dirty := {};
      latestRevisionAtDepth := map[];
      lastWriteCause := map[];
    }

    method Close()
      requires Valid()
      modifies this`closed, this`dirty, this`latestRevisionAtDepth, this`lastWriteCause, this`registrations,
        this`buckets, registrations`attached
      ensures Valid() && closed && (!old(closed) ==> registrations == {} && buckets == map[])
      ensures history == old(history) && values == old(values)
    {
      hide Knows, AllTracked, Summarised, Indexed, IndexedOver, Batched;
      if closed { return; }
      Shut();
      while registrations != {}
        invariant Valid() && closed && registrations <= old(registrations)
        decreases |registrations|
      {
        var r :| r in registrations;
        Detach(r);
      }
      NoBuckets();
    }

    lemma NoBuckets()
      requires Indexed() && registrations == {}
      ensures buckets == map[]
    {
      assert forall k, r :: k in buckets ==> r !in buckets[k];
    }
  }
}
