/** A load subscription as its store sees it and as its single lane runs: both speak of the same revisions (load.ts). */
module LoadSubscription {
  import opened Sequences
  import opened Text
  import opened CommitHistory
  import opened StoreEngine
  import Lanes = LoadRegistration

  lemma {:induction false} LatestGrows(h: History, more: History, keys: seq<Id>)
    ensures Latest(h, keys) <= Latest(h + more, keys)
  {
    if more == [] {
      assert h + more == h;
    } else {
      assert (h + more)[..|h + more| - 1] == h + more[..|more| - 1];
      LatestGrows(h, more[..|more| - 1], keys);
    }
  }

  class LoadSubscription {
    const engine: Engine
    const registration: Registration
    const lane: Lanes.Registration

    /** The lane knows no revision that the store has not; both have been told the same, and end together. */
    ghost predicate Valid()
      reads this, engine, engine.made, registration, lane
    {
      && engine.Valid() && registration in engine.made && lane.Valid()
      && lane.latest <= Latest(engine.history, registration.keys)
      && lane.delivered == registration.delivered && lane.open == registration.attached
    }

    /** A load that its store has just registered. */
    constructor (engine: Engine, registration: Registration)
      requires engine.Valid() && registration in engine.made && registration.attached && registration.delivered == -1
      ensures Valid() && this.engine == engine && this.registration == registration && fresh(lane)
    {
      this.engine, this.registration := engine, registration;
      var newLane := new Lanes.Registration(0);
      lane := newLane;
    }

    /** The store has gone on, whatever else it did. */
    twostate lemma StoreGoesOn()
      requires old(Valid())
      requires engine.Valid()
      requires old(engine.history) <= engine.history
      requires old(engine.made) <= engine.made
      requires unchanged(lane)
      requires registration.delivered == old(registration.delivered)
      requires registration.attached == old(registration.attached)
      ensures Valid()
    {
      hide Engine.Valid, Lanes.Registration.Valid, Latest;
      var more := engine.history[|old(engine.history)|..];
      assert engine.history == old(engine.history) + more;
      LatestGrows(old(engine.history), more, registration.keys);
    }

    /** The lane asks the store for the newest revision of its keys. */
    method Observe()
      requires Valid()
      modifies lane`latest
      ensures Valid() && lane.latest == Latest(engine.history, registration.keys)
    {
      hide Latest, Lanes.Registration.Told, Lanes.Registration.Outcomes, Lanes.Registration.Lane,
           Lanes.Registration.NothingLost;
      var newest := engine.LatestOf(registration.keys);
      if newest > lane.latest { lane.Commit(newest); }
    }

    /** The flush of the store comes to this load: the lane offers exactly what the store delivers. */
    method Flush() returns (d: Option<Delivery>)
      requires Valid() && lane.offering.None? && engine.batch != [] && engine.batch[0] == registration
      modifies engine`batch, registration, lane
      ensures Valid() && engine.history == old(engine.history)
      ensures d.Some? <==> old(engine.Owes(registration))
      ensures d.Some? ==>
        && d.value.revision == Latest(engine.history, registration.keys) && lane.offering == Some(d.value.revision)
        && lane.log == old(lane.log) + [Lanes.Loading(d.value.revision)]
      ensures d.None? ==> lane.offering.None? && lane.log == old(lane.log)
    {
      hide Latest, Engine.Valid, Lanes.Registration.Told, Lanes.Registration.Outcomes, Lanes.Registration.NothingLost;
      if engine.closed {
        d := engine.FlushNext();
        return;
      }
      Observe();
      d := engine.FlushNext();
      lane.Flush();
    }

    /**
     * The run's first step: the loader is called exactly when its revision is the newest offered and the newest in
     * the store.
     */
    method Run()
      requires Valid() && lane.offering.None? && lane.active.Some? && lane.active.value.phase.Starting?
      modifies lane
      ensures Valid()
      ensures var revision := old(lane.active.value.revision);
        lane.log == if Current(revision) then old(lane.log) + [Lanes.LoaderCalled(revision)] else old(lane.log)
    {
      hide Latest, Engine.Valid, Lanes.Registration.Told, Lanes.Registration.Outcomes, Lanes.Registration.NothingLost;
      Observe();
      lane.Run();
    }

    /** What the newest offer and the store agree on. */
    ghost predicate Current(revision: int)
      reads this, engine, registration, lane
    {
      && lane.open && revision !in lane.aborted && revision == lane.lastOffered
      && revision == Latest(engine.history, registration.keys)
    }

    /** The loader has settled: its outcome waits exactly when its revision is still the newest of both. */
    method Publish()
      requires Valid() && lane.offering.None? && lane.active.Some? && lane.active.value.phase.Running?
      modifies lane
      ensures Valid()
      ensures var revision := old(lane.active.value.revision);
        lane.queued == if Current(revision) then old(lane.queued) + [revision] else old(lane.queued)
    {
      hide Latest, Engine.Valid, Lanes.Registration.Told, Lanes.Registration.Outcomes, Lanes.Registration.NothingLost;
      Observe();
      lane.Publish();
    }

    /** An outcome is told exactly when its revision is still the newest of both. */
    method Report()
      requires Valid() && lane.offering.None? && lane.queued != []
      modifies lane
      ensures Valid() && lane.queued == old(lane.queued[1..])
      ensures var revision := old(lane.queued[0]);
        lane.log ==
          if Current(revision) then old(lane.log) + [Lanes.Reported(revision, revision, revision)] else old(lane.log)
    {
      hide Latest, Engine.Valid, Lanes.Registration.Told, Lanes.Registration.Outcomes, Lanes.Registration.NothingLost;
      Observe();
      lane.Report();
    }

    /** The subscription ends, in the store and in the lane. */
    method Detach()
      requires Valid()
      modifies engine, registration, lane
      ensures Valid() && !registration.attached && !lane.open && engine.history == old(engine.history)
    {
      hide Latest, Engine.Valid, Lanes.Registration.Told, Lanes.Registration.Outcomes, Lanes.Registration.NothingLost;
      engine.Detach(registration);
      lane.Detach();
    }
  }
}
