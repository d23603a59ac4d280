/**
 * The stores of one process and the task queue they share: commits, flushes and callbacks in any order (engine.ts,
 * context.ts).
 */
module Observation {
  import opened Sequences
  import opened Text
  import opened CommitHistory
  import opened StoreEngine
  import opened DeliveryQueue

  /** Every delivery that a callback has been given is one the world's rules allow. */
  ghost predicate AllDelivered(w: World, told: set<Delivery>) {
    forall d :: d in told ==> Delivered(w, d)
  }

  lemma DeliveredStay(w: World, e: Event, w': World, told: set<Delivery>)
    requires Happens(w, e, w') && AllDelivered(w, told)
    ensures AllDelivered(w', told)
  {
    hide Happens, Delivered;
    forall d | d in told ensures Delivered(w', d) { DeliveredPersists(w, e, w', d); }
  }

  /** The worlds so far, one event after the other. */
  ghost predicate Leads(ws: seq<World>, es: seq<Event>, w: World) {
    Run(ws, es) && ws[|ws| - 1] == w
  }

  lemma RunMore(ws: seq<World>, es: seq<Event>, w: World, e: Event, w': World)
    requires Leads(ws, es, w) && Happens(w, e, w')
    ensures Leads(ws + [w'], es + [e], w')
  {
    hide Happens;
    var all, events := ws + [w'], es + [e];
    forall i | 0 <= i < |events| ensures Happens(all[i], events[i], all[i + 1]) {
      if i < |es| { assert all[i] == ws[i] && all[i + 1] == ws[i + 1] && events[i] == es[i]; }
    }
  }

  lemma LastWorld(ws: seq<World>, es: seq<Event>, w: World)
    requires Leads(ws, es, w)
    ensures Run(ws, es) && |ws| == |es| + 1 && ws[|es|] == w
  {
  }

  lemma NoWorldYet()
    ensures Leads([map[]], [], map[])
  {
  }

  /** The flush of a store is one task in the queue, exactly while its flush is scheduled. */
  ghost predicate Queued(flushes: map<nat, nat>, scheduled: set<nat>, rest: seq<Job>) {
    && (forall w :: w in flushes ==> flushes[w] in scheduled && Deliver(w) in rest)
    && (forall i :: i in scheduled ==> exists w :: w in flushes && flushes[w] == i)
    && (forall v, w :: v in flushes && w in flushes && flushes[v] == flushes[w] ==> v == w)
  }

  lemma QueuedMore(flushes: map<nat, nat>, scheduled: set<nat>, rest: seq<Job>, i: nat, w: nat)
    requires Queued(flushes, scheduled, rest) && i !in scheduled && w !in flushes
    ensures Queued(flushes[w := i], scheduled + {i}, rest + [Deliver(w)] + [Complete(w)])
  {
    var more := flushes[w := i];
    forall j | j in scheduled + {i} ensures exists v :: v in more && more[v] == j {
      if j == i {
        assert more[w] == i;
      } else {
        var v :| v in flushes && flushes[v] == j;
        assert more[v] == j;
      }
    }
  }

  /** The next job runs: a flush task is no longer waited for, any other job is none. */
  lemma QueuedRun(flushes: map<nat, nat>, scheduled: set<nat>, rest: seq<Job>)
    requires Queued(flushes, scheduled, rest) && rest != []
    ensures rest[0].Deliver? && rest[0].live in flushes ==>
      var w := rest[0].live; flushes[w] in scheduled && Queued(flushes - {w}, scheduled - {flushes[w]}, rest[1..])
    ensures !(rest[0].Deliver? && rest[0].live in flushes) ==> Queued(flushes, scheduled, rest[1..])
  {
    assert rest == [rest[0]] + rest[1..];
    if rest[0].Deliver? && rest[0].live in flushes {
      var w := rest[0].live;
      var less, now := flushes - {w}, scheduled - {flushes[w]};
      forall j | j in now ensures exists v :: v in less && less[v] == j {
        var v :| v in flushes && flushes[v] == j;
        assert v in less && less[v] == j;
      }
    }
  }

  lemma NothingQueued(flushes: map<nat, nat>, scheduled: set<nat>)
    requires Queued(flushes, scheduled, [])
    ensures forall i :: i !in scheduled
  {
  }

  class Observation {
    var engines: seq<Engine>
    const queue: Queue
    /** The store whose flush each queued task runs. */
    var flushes: map<nat, nat>
    /** The store that is being flushed, and the window of the flush. */
    var flushing: Option<(nat, nat)>

    /** All registrations of all stores, all deliveries told, and the world's run. */
    ghost var regs: set<Registration>
    ghost var told: set<Delivery>
    ghost var ws: seq<World>
    ghost var es: seq<Event>

    ghost function TheWorld(): (w: World)
      reads this`engines, engines
    {
      map i: nat | i < |engines| :: engines[i].history
    }

    ghost function Scheduled(): set<nat>
      reads this`engines, engines
    {
      set i: nat | i < |engines| && engines[i].flushScheduled
    }

    /** Stores share nothing. */
    ghost predicate Apart()
      reads this`engines, this`regs, engines
    {
      && (forall i :: 0 <= i < |engines| ==> engines[i].token == i && engines[i].made <= regs)
      && (forall i, j :: 0 <= i < j < |engines| ==> engines[i] != engines[j] && engines[i].made !! engines[j].made)
    }

    ghost predicate StoresValid()
      reads this`engines, this`regs, engines, regs
    {
      Apart() && forall i :: 0 <= i < |engines| ==> engines[i].Valid()
    }

    /** A batch is only left over while its store is being flushed. */
    ghost predicate OneFlush()
      reads this`engines, this`flushing, engines
    {
      && (flushing.Some? ==> flushing.value.0 < |engines|)
      && forall i :: 0 <= i < |engines| && engines[i].batch != [] ==> flushing.Some? && flushing.value.0 == i
    }

    /** Every context that a load or a callback refers to is of a delivery that was told. */
    ghost predicate ContextsTold()
      reads this`regs, this`told, regs, queue`syncContext
    {
      && (forall r :: r in regs && r.within.Some? ==> r.within.value.delivery in told)
      && (queue.syncContext.Some? ==> queue.syncContext.value.delivery in told)
    }

    /** What the stores and the code that uses them keep, the queue aside. */
    ghost predicate StoresRun()
      reads this`engines, this`regs, this`told, this`ws, this`es, this`flushing, engines, regs, queue`syncContext
    {
      StoresValid() && OneFlush() && ContextsTold() && Leads(ws, es, TheWorld()) && AllDelivered(TheWorld(), told)
    }

    /** The tasks in the queue are those of the flushes that are scheduled. */
    ghost predicate TasksQueued()
      reads this`engines, this`flushes, engines, queue, queue.nodes
    {
      queue.Valid() && queue.ran <= |queue.all| && Queued(flushes, Scheduled(), queue.all[queue.ran..])
    }

    ghost predicate Valid()
      reads this, engines, regs, queue, queue.nodes
    {
      StoresRun() && TasksQueued()
    }

    constructor ()
      ensures Valid() && engines == [] && told == {} && fresh(queue)
    {
      var q := new Queue();
      engines, queue, flushes, flushing := [], q, map[], None;
      regs, told, ws, es := {}, {}, [map[]], [];
      new;
      NoWorldYet();
      assert TheWorld() == map[];
    }

    // ---------- one store at a time ----------

    lemma Known(i: nat)
      requires StoresValid() && i < |engines|
      ensures engines[i].registrations <= engines[i].made && forall r :: r in engines[i].batch ==> r in engines[i].made
    {
    }

    /** Every other store is as it was, so the stores are still valid together. */
    twostate lemma StoresStay(i: nat)
      requires old(StoresValid()) && engines == old(engines) && i < |engines| && old(regs) <= regs
      requires forall j ::
        0 <= j < |engines| && j != i ==> unchanged(engines[j]) && forall r :: r in old(engines[j].made) ==> unchanged(r)
      requires engines[i].Valid() && engines[i].token == old(engines[i].token) && engines[i].made <= regs
      requires forall r :: r in engines[i].made && r !in old(engines[i].made) ==> fresh(r)
      ensures StoresValid()
    {
      hide Engine.Valid;
      forall j | 0 <= j < |engines| && j != i ensures engines[j].Valid() && engines[j].made !! engines[i].made {
        assert old(engines[j].Valid());
      }
    }

    /** The context in which the code that runs now commits and subscribes: its delivery was told. */
    method Current(stored: Option<Context>) returns (context: Option<Context>)
      requires Valid() && (stored.Some? ==> stored.value.delivery in told)
      ensures context == queue.InForce(stored)
      ensures context.Some? ==> context.value.delivery in told && context.value.live in queue.live
    {
      hide Engine.Valid, AllDelivered, Leads, Queued;
      context := queue.CurrentContext(stored);
    }

    /** A store that has just scheduled its flush queues the task for it. */
    method Enqueue(i: nat)
      requires i < |engines| && queue.Valid()
      requires queue.ran <= |queue.all|
      requires Queued(flushes, Scheduled() - {i}, queue.all[queue.ran..])
      requires engines[i].flushScheduled
      modifies this`flushes, queue`head, queue`tail, queue`scheduled, queue`nodes, queue`all, queue`live,
        queue`windows, queue.nodes
      ensures queue.Valid() && queue.ran <= |queue.all| && Queued(flushes, Scheduled(), queue.all[queue.ran..])
      ensures fresh(set n | n in queue.nodes && n !in old(queue.nodes))
    {
      hide Engine.Valid, Queue.Valid, Queued;
      ghost var all := queue.all;
      Unused(i);
      var w := queue.DeliveryTask();
      assert queue.all[queue.ran..] == all[queue.ran..] + [Deliver(w)] + [Complete(w)];
      QueuedMore(flushes, Scheduled() - {i}, all[queue.ran..], i, w);
      assert Scheduled() - {i} + {i} == Scheduled();
      flushes := flushes[w := i];
    }

    lemma Unused(i: nat)
      requires queue.Valid() && queue.ran <= |queue.all| && Queued(flushes, Scheduled() - {i}, queue.all[queue.ran..])
      ensures queue.windows !in flushes
    {
      NewIsUnused(queue.all, queue.windows);
    }

    /** The other stores, as objects. */
    lemma Others(i: nat)
      requires StoresValid() && i < |engines|
      ensures engines[i].Valid() && engines[i].token == i && engines[i].made <= regs
      ensures engines[i].registrations <= engines[i].made && forall r :: r in engines[i].batch ==> r in engines[i].made
      ensures forall j ::
        0 <= j < |engines| && j != i ==> engines[j] != engines[i] && engines[j].made !! engines[i].made
    {
      hide Engine.Valid;
      Known(i);
    }

    twostate lemma FlushStays()
      requires old(OneFlush()) && engines == old(engines) && flushing == old(flushing)
      requires forall j :: 0 <= j < |engines| ==> engines[j].batch == old(engines[j].batch)
      ensures OneFlush()
    {
    }

    twostate lemma ToldStays()
      requires old(ContextsTold()) && old(regs) <= regs && old(told) <= told
      requires queue.syncContext.Some? ==> queue.syncContext.value.delivery in told
      requires forall r :: r in old(regs) && r.within.Some? ==> r.within == old(r.within)
      requires forall r :: r in regs && r !in old(regs) && r.within.Some? ==> r.within.value.delivery in told
      ensures ContextsTold()
    {
    }

    lemma CallerTold()
      requires ContextsTold()
      ensures queue.syncContext.Some? ==> queue.syncContext.value.delivery in told
    {
    }

    twostate lemma WorldStays(i: nat)
      requires engines == old(engines) && i < |engines|
      requires forall j :: 0 <= j < |engines| && j != i ==> engines[j].history == old(engines[j].history)
      ensures TheWorld() == old(TheWorld())[i := engines[i].history]
      ensures i in old(TheWorld()) && old(TheWorld())[i] == old(engines[i].history)
      ensures engines[i].history == old(engines[i].history) ==> TheWorld() == old(TheWorld())
    {
    }

    twostate lemma FlagsStay(i: nat)
      requires engines == old(engines) && i < |engines|
      requires forall j :: 0 <= j < |engines| && j != i ==> engines[j].flushScheduled == old(engines[j].flushScheduled)
      ensures old(engines[i].flushScheduled) == engines[i].flushScheduled ==> Scheduled() == old(Scheduled())
      ensures !old(engines[i].flushScheduled) ==> Scheduled() - {i} == old(Scheduled())
    {
    }

    /** A commit made on its own, or inside a delivery that was told and whose window is open. */
    ghost predicate CausedNow(live: set<nat>, c: Commit)
      reads this`told
    {
      c.cause.Some? ==> c.cause.value.delivery in told && c.cause.value.live in live
    }

    /** The commit itself, and the flush it schedules. */
    method Commit(i: nat, patch: seq<(Id, Value)>, context: Option<Context>) returns (result: SetResult)
      requires StoresRun() && i < |engines| && engines[i].DistinctKeys(patch)
      requires context.Some? ==> context.value.delivery in told
      modifies this`ws, this`es, engines[i], engines[i].made
      ensures StoresRun() && (old(engines[i].flushScheduled) ==> engines[i].flushScheduled)
      ensures engines[i].Answered(patch, context, result)
      ensures forall j :: 0 <= j < |engines| && j != i ==> unchanged(engines[j])
      ensures engines[i].made == old(engines[i].made)
    {
      hide StoresValid, OneFlush, ContextsTold, Leads, AllDelivered, TheWorld, Engine.DistinctKeys, Engine.Valid,
           Engine.CommitsIn, Engine.Changed, Engine.Patched, Engine.KeysOf;
      Others(i);
      CallerTold();
      result := engines[i].Set(patch, context);
      StoresStay(i);
      FlushStays();
      ToldStays();
      WorldStays(i);
      Committing(i, old(TheWorld()), old(engines[i].history), context);
      if engines[i].history != old(engines[i].history) {
        ghost var h := engines[i].history;
        ws, es := ws + [TheWorld()], es + [Committed(i, h[|h| - 1])];
      }
    }

    /** Some code commits to the store i, in the context it runs in. */
    method Set(i: nat, patch: seq<(Id, Value)>, stored: Option<Context>) returns (result: SetResult)
      requires Valid()
      requires i < |engines|
      requires engines[i].DistinctKeys(patch)
      requires stored.Some? ==> stored.value.delivery in told
      modifies this`flushes, this`ws, this`es, engines[i], engines[i].made
      modifies queue`head, queue`tail, queue`scheduled, queue`nodes, queue`all, queue`live, queue`windows, queue.nodes
      ensures Valid()
      ensures engines[i].Answered(patch, old(queue.InForce(stored)), result)
      ensures engines[i].history == old(engines[i].history) ||
        exists c :: engines[i].history == old(engines[i].history) + [c] && CausedNow(old(queue.live), c)
    {
      hide StoresRun, Scheduled, Queued, Queue.Valid, Queue.InForce, Engine.DistinctKeys, Engine.Valid, Engine.Changed,
           Engine.Patched, Engine.KeysOf;
      var context := Current(stored);
      var was := engines[i].flushScheduled;
      result := Commit(i, patch, context);
      FlagsStay(i);
      if !was && engines[i].flushScheduled { Enqueue(i); }
    }

    /** What a commit of the store i makes of the world. */
    lemma Committing(i: nat, w: World, before: History, context: Option<Context>)
      requires i < |engines| && engines[i].token == i && Leads(ws, es, w) && AllDelivered(w, told)
      requires context.Some? ==> context.value.delivery in told
      requires i in w && w[i] == before && TheWorld() == w[i := engines[i].history]
      requires engines[i].history != before ==> engines[i].CommitsIn(before, engines[i].history, context)
      ensures AllDelivered(TheWorld(), told)
      ensures engines[i].history == before ==> TheWorld() == w
      ensures engines[i].history != before ==>
        var h := engines[i].history;
        h != [] && Leads(ws + [TheWorld()], es + [Committed(i, h[|h| - 1])], TheWorld())
    {
      hide Engine.Valid, Delivered, Happens, Leads;
      var h := engines[i].history;
      if h != before {
        var e := Committed(i, h[|h| - 1]);
        assert Happens(w, e, w[i := h]);
        RunMore(ws, es, w, e, TheWorld());
        hide AllDelivered;
        DeliveredStay(w, e, TheWorld(), told);
      } else {
        assert w[i := h] == w;
      }
    }

    /** A new store. */
    method OpenStore(entries: map<Id, Value>) returns (i: nat)
      requires Valid()
      modifies this`engines, this`ws, this`es
      ensures Valid() && i == |old(engines)| && |engines| == i + 1 && engines[..i] == old(engines) && fresh(engines[i])
    {
      hide StoresValid, OneFlush, ContextsTold, Leads, AllDelivered, Scheduled, Queued, Queue.Valid, Engine.Valid,
           TheWorld;
      i := |engines|;
      var engine := new Engine(i, entries);
      engines := engines + [engine];
      StoreAdded(engine);
      ws, es := ws + [TheWorld()], es + [Opened(i)];
    }

    twostate lemma StoreAdded(new engine: Engine)
      requires old(StoresRun())
      requires engines == old(engines) + [engine]
      requires fresh(engine)
      requires engine.Valid()
      requires engine.made == {}
      requires engine.token == |old(engines)| && engine.history == [] && engine.batch == [] && !engine.flushScheduled
      requires unchanged(this`regs, this`told, this`ws, this`es, this`flushing, queue)
      requires unchanged(old(regs))
      requires unchanged(old(engines))
      ensures StoresValid() && OneFlush() && ContextsTold() && Scheduled() == old(Scheduled())
      ensures Leads(ws + [TheWorld()], es + [Opened(|old(engines)|)], TheWorld()) && AllDelivered(TheWorld(), told)
    {
      hide Engine.Valid, Leads, AllDelivered, Happens;
      var w, i := old(TheWorld()), |old(engines)|;
      forall j | 0 <= j < i ensures engines[j] == old(engines)[j] && engines[j].Valid() {
        assert old(engines[j].Valid());
      }
      assert TheWorld() == w[i := []];
      OpeningHappens(w, i);
      RunMore(ws, es, w, Opened(i), TheWorld());
      DeliveredStay(w, Opened(i), TheWorld(), told);
    }

    // ---------- subscribing and closing ----------

    /** The store i has done something that is no commit; `more` are its new registrations. */
    twostate lemma NoCommit(i: nat, new more: set<Registration>)
      requires old(StoresRun()) && engines == old(engines) && i < |engines| && regs == old(regs) + more
      requires unchanged(this`told, this`ws, this`es, this`flushing, queue)
      requires forall j ::
        0 <= j < |engines| && j != i ==> unchanged(engines[j]) && forall r :: r in old(engines[j].made) ==> unchanged(r)
      requires engines[i].Valid()
      requires engines[i].token == old(engines[i].token)
      requires engines[i].made == old(engines[i].made) + more
      requires forall r :: r in more ==> fresh(r) && (r.within.Some? ==> r.within.value.delivery in told)
      requires forall r :: r in old(regs) ==> r.within == old(r.within)
      requires engines[i].history == old(engines[i].history) && engines[i].batch == old(engines[i].batch)
      ensures StoresRun()
    {
      hide StoresValid, OneFlush, ContextsTold, Leads, AllDelivered, TheWorld, Engine.Valid;
      OldOthers(i);
      CallerStays();
      StoresStay(i);
      FlushStays();
      ToldStays();
      WorldStays(i);
    }

    twostate lemma OldOthers(i: nat)
      requires old(StoresValid()) && engines == old(engines) && i < |engines|
      ensures old(engines[i].made) <= old(regs)
    {
    }

    twostate lemma CallerStays()
      requires old(ContextsTold()) && unchanged(this`told, queue)
      ensures queue.syncContext.Some? ==> queue.syncContext.value.delivery in told
    {
    }

    method Follow(i: nat, keys: seq<Id>, revision: nat) returns (r: Registration)
      requires StoresRun() && i < |engines| && !engines[i].closed && revision <= engines[i].commits
      modifies this`regs, engines[i]
      ensures StoresRun()
      ensures engines[i].registrations == old(engines[i].registrations) + {r}
      ensures fresh(r) && r.keys == keys && r.delivered == revision
      ensures old(engines[i].flushScheduled) ==> engines[i].flushScheduled
      ensures forall j :: 0 <= j < |engines| && j != i ==> unchanged(engines[j])
    {
      hide StoresRun, StoresValid, Engine.Valid;
      RunsValid();
      Others(i);
      r := engines[i].Watch(keys, revision);
      regs := regs + {r};
      NoCommit(i, {r});
    }

    method Fetch(i: nat, keys: seq<Id>, context: Option<Context>) returns (r: Registration)
      requires StoresRun() && i < |engines| && !engines[i].closed && (context.Some? ==> context.value.delivery in told)
      modifies this`regs, engines[i]
      ensures StoresRun() && engines[i].flushScheduled
      ensures engines[i].registrations == old(engines[i].registrations) + {r}
      ensures fresh(r) && r.keys == keys && r.load && r.delivered == -1 && r.within == context
      ensures r.depth == InitialDepth(engines[i].history, keys, context)
      ensures forall j :: 0 <= j < |engines| && j != i ==> unchanged(engines[j])
    {
      hide StoresRun, StoresValid, Engine.Valid;
      RunsValid();
      Others(i);
      r := engines[i].Load(keys, context);
      regs := regs + {r};
      NoCommit(i, {r});
    }

    lemma RunsValid()
      requires StoresRun()
      ensures StoresValid()
    {
    }

    /** Some code follows keys of the store i. */
    method Watch(i: nat, keys: seq<Id>, revision: nat) returns (r: Registration)
      requires Valid() && i < |engines| && !engines[i].closed && revision <= engines[i].commits
      modifies this`flushes, this`regs, engines[i]
      modifies queue`head, queue`tail, queue`scheduled, queue`nodes, queue`all, queue`live, queue`windows, queue.nodes
      ensures Valid() && engines[i].registrations == old(engines[i].registrations) + {r}
      ensures fresh(r) && r.keys == keys && r.delivered == revision
    {
      hide StoresRun, Scheduled, Queued, Queue.Valid, Engine.Valid;
      var was := engines[i].flushScheduled;
      r := Follow(i, keys, revision);
      FlagsStay(i);
      if !was && engines[i].flushScheduled { Enqueue(i); }
    }

    /** Some code loads from keys of the store i, in the context it runs in. */
    method Load(i: nat, keys: seq<Id>, stored: Option<Context>) returns (r: Registration)
      requires Valid() && i < |engines| && !engines[i].closed && (stored.Some? ==> stored.value.delivery in told)
      modifies this`flushes, this`regs, engines[i]
      modifies queue`head, queue`tail, queue`scheduled, queue`nodes, queue`all, queue`live, queue`windows, queue.nodes
      ensures Valid() && engines[i].registrations == old(engines[i].registrations) + {r}
      ensures fresh(r) && r.keys == keys && r.load && r.delivered == -1 && r.within == old(queue.InForce(stored))
      ensures r.depth == InitialDepth(engines[i].history, keys, r.within)
    {
      hide StoresRun, Scheduled, Queued, Queue.Valid, Queue.InForce, Engine.Valid, InitialDepth;
      var context := Current(stored);
      var was := engines[i].flushScheduled;
      r := Fetch(i, keys, context);
      FlagsStay(i);
      if !was && engines[i].flushScheduled { Enqueue(i); }
    }

    method Detach(i: nat, r: Registration)
      requires Valid() && i < |engines| && r in engines[i].made
      modifies engines[i], r`attached
      ensures Valid() && r !in engines[i].registrations
    {
      hide StoresRun, StoresValid, Scheduled, Queued, Queue.Valid, Engine.Valid;
      RunsValid();
      Others(i);
      engines[i].Detach(r);
      NoCommit(i, {});
      FlagsStay(i);
    }

    method Close(i: nat)
      requires Valid() && i < |engines|
      modifies engines[i], engines[i].made
      ensures Valid() && engines[i].closed
    {
      hide StoresRun, StoresValid, Scheduled, Queued, Queue.Valid, Engine.Valid;
      RunsValid();
      Others(i);
      engines[i].Close();
      NoCommit(i, {});
      FlagsStay(i);
    }

    // ---------- tasks and callbacks ----------

    /** Takes the next job, and the store whose flush it runs, if it does. */
    method NextJob() returns (job: Job, i: Option<nat>)
      requires TasksQueued() && queue.scheduled > 0
      modifies this`flushes, queue`head, queue`tail, queue`scheduled, queue`nodes, queue`ran, queue`live, queue.nodes
      ensures queue.Valid() && queue.scheduled == old(queue.scheduled) - 1 && queue.ran <= |queue.all|
      ensures i == if job.Deliver? && job.live in old(flushes) then Some(old(flushes)[job.live]) else None
      ensures i.Some? ==> i.value in Scheduled() && Queued(flushes, Scheduled() - {i.value}, queue.all[queue.ran..])
      ensures i.None? ==> Queued(flushes, Scheduled(), queue.all[queue.ran..])
    {
      hide Scheduled, Queued, Queue.Valid;
      ghost var rest := queue.all[queue.ran..];
      JobsLeft();
      job := queue.RunNext();
      assert queue.all[queue.ran..] == rest[1..] && job == rest[0];
      QueuedRun(flushes, Scheduled(), rest);
      i := None;
      if job.Deliver? && job.live in flushes {
        i := Some(flushes[job.live]);
        flushes := flushes - {job.live};
      }
    }

    /** The callback of the next task: a flush begins, or some other job runs. */
    method RunNext() returns (job: Job)
      requires Valid() && flushing.None? && queue.syncContext.None? && queue.scheduled > 0
      modifies this`flushes, this`flushing, engines
      modifies queue`head, queue`tail, queue`scheduled, queue`nodes, queue`ran, queue`live, queue.nodes
      ensures forall i :: 0 <= i < |engines| && flushing.Some? && flushing.value.0 == i ==>
        engines[i].Took(old(engines[i].dirty))
      ensures Valid() && queue.syncContext.None? && queue.scheduled == old(queue.scheduled) - 1
      ensures flushing ==
        if job.Deliver? && job.live in old(flushes) then Some((old(flushes)[job.live], job.live)) else None
    {
      hide StoresRun, StoresValid, ContextsTold, Leads, AllDelivered, TheWorld, Scheduled, Queued, Queue.Valid,
           Engine.Took;
      var i;
      job, i := NextJob();
      if i.Some? {
        NoBatchLeft();
        InFlags(i.value);
        flushing := Some((i.value, job.live));
        BeginFlush(i.value);
      }
    }

    lemma NoBatchLeft()
      requires StoresRun() && flushing.None?
      ensures StoresValid() && ContextsTold() && Leads(ws, es, TheWorld()) && AllDelivered(TheWorld(), told)
      ensures forall j :: 0 <= j < |engines| ==> engines[j].batch == []
    {
    }

    lemma JobsLeft()
      requires queue.Valid() && queue.scheduled > 0
      ensures queue.ran < |queue.all|
    {
    }

    lemma InFlags(i: nat)
      requires i in Scheduled()
      ensures i < |engines| && engines[i].flushScheduled
    {
    }

    /** The flush of the store i takes its batch. */
    method BeginFlush(i: nat)
      requires i < |engines| && engines[i].flushScheduled && flushing.Some? && flushing.value.0 == i
      requires StoresValid() && ContextsTold() && Leads(ws, es, TheWorld()) && AllDelivered(TheWorld(), told)
      requires forall j :: 0 <= j < |engines| ==> engines[j].batch == []
      modifies engines[i]
      ensures StoresRun() && Scheduled() == old(Scheduled()) - {i}
      ensures engines[i].Took(old(engines[i].dirty))
    {
      hide StoresValid, ContextsTold, Leads, AllDelivered, TheWorld, Scheduled, Engine.Valid;
      Others(i);
      engines[i].BeginFlush();
      StoresStay(i);
      WorldStays(i);
      FlagFalls(i);
    }

    twostate lemma FlagFalls(i: nat)
      requires engines == old(engines) && i < |engines| && !engines[i].flushScheduled
      requires forall j :: 0 <= j < |engines| && j != i ==> engines[j].flushScheduled == old(engines[j].flushScheduled)
      ensures Scheduled() == old(Scheduled()) - {i}
    {
    }

    /**
     * The next registration of the batch: its callback is entered when it is told something. The flush ends with
     * the batch.
     */
    method Tell() returns (context: Option<Context>)
      requires Valid() && flushing.Some? && queue.syncContext.None?
      modifies this`flushing, this`told, engines, regs, queue`syncContext
      ensures Valid() && queue.syncContext == context && old(told) <= told
      ensures flushing == if old(engines[flushing.value.0].batch) == [] then None else old(flushing)
      ensures context.Some? <==>
        var engine := old(engines[flushing.value.0]);
        old(engine.batch) != [] && old(engine.Owes(engine.batch[0]))
      ensures context.Some? ==>
        var engine, d := old(engines[flushing.value.0]), context.value.delivery;
        && d in told && context.value.live == old(flushing.value.1)
        && d.store == engine.token && d.keys == old(engine.batch[0]).keys
        && d.revision == Latest(engine.history, d.keys)
    {
      hide StoresRun, Queued, Scheduled, Queue.Valid;
      var i := flushing.value.0;
      FlushedStore();
      if engines[i].batch == [] {
        EndFlush(i);
        return None;
      }
      var d := TellNext(i);
      if d.None? { return None; }
      context := Some(Context(d.value, flushing.value.1));
      label Called:
      var _ := queue.EnterContext(context.value);
      Entered@Called();
    }

    lemma FlushedStore()
      requires StoresRun() && flushing.Some?
      ensures flushing.value.0 < |engines| && engines[flushing.value.0].made <= regs
    {
      hide Engine.Valid;
    }

    /** Some code has been called with a delivery that was told. */
    twostate lemma Entered()
      requires old(StoresRun()) && old(TasksQueued()) && unchanged(this) && unchanged(engines) && unchanged(regs)
      requires unchanged(queue`head, queue`tail, queue`scheduled, queue`nodes, queue`all, queue`ran, queue`live,
        queue`windows, queue`loaders)
      requires unchanged(queue.nodes)
      requires queue.syncContext.Some? ==> queue.syncContext.value.delivery in told
      ensures Valid()
    {
      hide StoresValid, OneFlush, Leads, AllDelivered, Queued, Paired, WindowsOpen;
      assert TheWorld() == old(TheWorld()) && Scheduled() == old(Scheduled());
      assert queue.Linked() && queue.Waiting();
      assert StoresRun();
    }

    method EndFlush(i: nat)
      requires Valid() && flushing.Some? && flushing.value.0 == i < |engines| && engines[i].batch == []
      modifies this`flushing
      ensures Valid() && flushing.None?
    {
      hide StoresValid, ContextsTold, Leads, AllDelivered, TasksQueued;
      flushing := None;
    }

    method TellNext(i: nat) returns (d: Option<Delivery>)
      requires StoresRun() && flushing.Some? && flushing.value.0 == i < |engines| && engines[i].batch != []
      modifies this`told, engines[i], engines[i].made
      ensures StoresRun() && Scheduled() == old(Scheduled())
      ensures told == old(told) + if d.Some? then {d.value} else {}
      ensures d.Some? <==> old(engines[i].Owes(engines[i].batch[0]))
      ensures d.Some? ==> d.value.store == engines[i].token && d.value.keys == old(engines[i].batch[0]).keys
      ensures d.Some? ==> d.value.revision == Latest(engines[i].history, d.value.keys)
    {
      hide StoresValid, ContextsTold, Leads, AllDelivered, TheWorld, Scheduled, Engine.Valid, Engine.DeliversIn,
           Delivered;
      Others(i);
      CallerTold();
      MadeTold(i);
      d := engines[i].FlushNext();
      StoresStay(i);
      WorldStays(i);
      FlagsStay(i);
      if d.Some? {
        DeliveryTold(i, d.value);
        told := told + {d.value};
      }
      ToldStays();
    }

    lemma MadeTold(i: nat)
      requires StoresRun() && i < |engines|
      ensures forall r :: r in engines[i].made && r.within.Some? ==> r.within.value.delivery in told
    {
      hide Engine.Valid;
    }

    lemma DeliveryTold(i: nat, d: Delivery)
      requires i < |engines|
      requires engines[i].token == i
      requires AllDelivered(TheWorld(), told)
      requires engines[i].DeliversIn(engines[i].history, d)
      requires d.within.Some? ==> d.within.value.delivery in told
      ensures AllDelivered(TheWorld(), told + {d})
    {
      hide Delivered;
      assert i in TheWorld() && TheWorld()[i] == engines[i].history;
    }

    /** The callback returns. */
    method Return()
      requires Valid()
      modifies queue`syncContext
      ensures Valid() && queue.syncContext.None?
    {
      hide StoresRun, TasksQueued;
      queue.LeaveContext(None);
      Entered();
    }

    /** Code that a load runs, in the context of its delivery and a window of its own. */
    method Enter(context: Context)
      requires Valid() && context.delivery in told
      modifies queue`syncContext
      ensures Valid() && queue.syncContext == Some(context)
    {
      hide StoresRun, TasksQueued;
      var _ := queue.EnterContext(context);
      Entered();
    }

    // ---------- what every run guarantees ----------

    /** No chain of causes, across any of the stores, has more than 64 delivery steps. */
    lemma NoLongChain(chain: seq<Name>)
      requires Valid() && chain != [] && Names(TheWorld(), chain[0])
      requires forall i :: 0 <= i < |chain| - 1 ==> Causes(TheWorld(), chain[i], chain[i + 1])
      ensures |chain| - 1 <= MAX_CASCADE_DEPTH
    {
      hide Run, Names, Causes, TheWorld, StoresValid, OneFlush, ContextsTold, AllDelivered, TasksQueued, Leads;
      LastWorld(ws, es, TheWorld());
      ChainIsBounded(ws, es, |es|, chain);
    }

    /** Once the task queue is empty, every open store has told every registration of every commit to its keys. */
    lemma NobodyIsOwed(i: nat, r: Registration)
      requires Valid() && queue.scheduled == 0 && flushing.None?
      requires i < |engines| && !engines[i].closed && r in engines[i].registrations
      ensures r.delivered >= Latest(engines[i].history, r.keys)
      ensures forall c :: Covered(engines[i].history, r.keys, 0, c) ==> c <= r.delivered
    {
      hide Engine.Valid, Latest, Covered, Leads, AllDelivered, Queue.Valid;
      NoJobs();
      assert queue.all[queue.ran..] == [];
      NothingQueued(flushes, Scheduled());
      assert i !in Scheduled();
      engines[i].NothingLost(r);
    }

    lemma NoJobs()
      requires queue.Valid() && queue.scheduled == 0
      ensures queue.ran == |queue.all|
    {
    }
  }

  lemma OpeningHappens(w: World, i: nat)
    requires i !in w
    ensures Happens(w, Opened(i), w[i := []])
  {
  }
}
