/** One load subscription: the loader runs in a single lane, for the newest values only (load.ts). */
module LoadRegistration {
  import opened Sequences

  /** What the subscriber sees: it is told a load begins, its loader is called, and it is told the outcome. */
  datatype Event =
    | Loading(revision: int)
    | LoaderCalled(revision: int)
    | LoaderSettled(revision: int)
    | Reported(revision: int, offered: int, latest: int)

  /** How far the active run has come. */
  datatype Phase = Starting | Running | Finished

  datatype Active = Active(revision: int, phase: Phase)

  /** Nothing the event e repeats or goes back before has happened in the log. */
  ghost predicate Fits(log: seq<Event>, e: Event) {
    match e
    case Loading(r) => forall x :: x in log && x.Loading? ==> x.revision < r
    case LoaderCalled(r) =>
      Loading(r) in log
        && forall x :: x in log && x.LoaderCalled? ==> x.revision < r && LoaderSettled(x.revision) in log
    case LoaderSettled(r) => LoaderCalled(r) in log && e !in log
    case Reported(r, offered, latest) =>
      r == offered == latest && LoaderSettled(r) in log && forall x :: x in log && x.Reported? ==> x.revision < r
  }

  /** Every event fits what went before it. */
  ghost predicate Orderly(log: seq<Event>) {
    forall i :: 0 <= i < |log| ==> Fits(log[..i], log[i])
  }

  lemma Extend(log: seq<Event>, e: Event)
    requires Orderly(log) && Fits(log, e)
    ensures Orderly(log + [e])
  {
    hide Fits;
    forall i | 0 <= i < |log| + 1 ensures Fits((log + [e])[..i], (log + [e])[i]) {
      assert (log + [e])[..i] == log[..i];
      assert log[..|log|] == log;
    }
  }

  /**
   * An outcome is for values that are the newest offered and the newest in the store, its loading was announced
   * first, and it is reported once.
   */
  lemma OutcomeInOrder(log: seq<Event>, i: nat)
    requires Orderly(log) && i < |log| && log[i].Reported?
    ensures log[i].revision == log[i].offered == log[i].latest
    ensures exists j, k, l :: 0 <= j < k < l < i && log[j] == Loading(log[i].revision)
                           && log[k] == LoaderCalled(log[i].revision) && log[l] == LoaderSettled(log[i].revision)
    ensures forall j :: 0 <= j < i && log[j].Reported? ==> log[j].revision < log[i].revision
  {
    var l := SettledFirst(log, i);
    var k := CalledFirst(log, l);
    var j := AnnouncedFirst(log, k);
    assert log[j] == Loading(log[i].revision) && log[k] == LoaderCalled(log[i].revision)
      && log[l] == LoaderSettled(log[i].revision);
    assert Fits(log[..i], log[i]);
    forall j | 0 <= j < i && log[j].Reported? ensures log[j].revision < log[i].revision { assert log[j] in log[..i]; }
  }

  lemma SettledFirst(log: seq<Event>, i: nat) returns (l: nat)
    requires Orderly(log) && i < |log| && log[i].Reported?
    ensures l < i && log[l] == LoaderSettled(log[i].revision)
  {
    assert Fits(log[..i], log[i]);
    l :| 0 <= l < i && log[..i][l] == LoaderSettled(log[i].revision);
  }

  lemma CalledFirst(log: seq<Event>, i: nat) returns (k: nat)
    requires Orderly(log) && i < |log| && log[i].LoaderSettled?
    ensures k < i && log[k] == LoaderCalled(log[i].revision)
  {
    assert Fits(log[..i], log[i]);
    k :| 0 <= k < i && log[..i][k] == LoaderCalled(log[i].revision);
  }

  lemma AnnouncedFirst(log: seq<Event>, i: nat) returns (j: nat)
    requires Orderly(log) && i < |log| && log[i].LoaderCalled?
    ensures j < i && log[j] == Loading(log[i].revision)
  {
    assert Fits(log[..i], log[i]);
    j :| 0 <= j < i && log[..i][j] == Loading(log[i].revision);
  }

  lemma CalledInOrder(log: seq<Event>, i: nat, j: nat)
    requires Orderly(log) && i < j < |log| && log[i].LoaderCalled? && log[j].LoaderCalled?
    ensures log[i].revision < log[j].revision
    ensures exists k :: 0 <= k < j && log[k] == LoaderSettled(log[i].revision)
  {
    assert Fits(log[..j], log[j]);
    assert log[i] in log[..j];
    var k :| 0 <= k < j && log[..j][k] == LoaderSettled(log[i].revision);
    assert log[k] == LoaderSettled(log[i].revision);
  }

  /** Two loaders never overlap: between two calls the first has settled. */
  lemma OneLoaderAtATime(log: seq<Event>, i: nat, j: nat)
    requires Orderly(log) && i < j < |log| && log[i].LoaderCalled? && log[j].LoaderCalled?
    ensures log[i].revision < log[j].revision
    ensures exists k :: i < k < j && log[k] == LoaderSettled(log[i].revision)
  {
    CalledInOrder(log, i, j);
    var k :| 0 <= k < j && log[k] == LoaderSettled(log[i].revision);
    var m := CalledFirst(log, k);
    hide Orderly;
    SameCall(log, i, m);
  }

  lemma SameCall(log: seq<Event>, i: nat, m: nat)
    requires Orderly(log) && i < |log| && m < |log| && log[i].LoaderCalled? && log[m] == log[i]
    ensures i == m
  {
    if i < m { CalledInOrder(log, i, m); }
    if m < i { CalledInOrder(log, m, i); }
  }

  /** The log, with the newest revision of each kind of event in it. */
  ghost predicate Recorded(log: seq<Event>, loading: int, called: int, reported: int, running: int) {
    && Orderly(log)
    && (forall x :: x in log ==> x.revision <= match x
                                               case Loading(_) => loading
                                               case LoaderCalled(_) => called
                                               case LoaderSettled(_) => called
                                               case Reported(_, _, _) => reported)
    && (forall x :: x in log && x.LoaderCalled? && x.revision != running ==> LoaderSettled(x.revision) in log)
    && LoaderSettled(running) !in log
  }

  lemma Record(log: seq<Event>, loading: int, called: int, reported: int, running: int, e: Event)
    requires Recorded(log, loading, called, reported, running)
    requires match e
             case Loading(r) => r > loading
             case LoaderCalled(r) => r > called && Loading(r) in log && running == -1 < r
             case LoaderSettled(r) => r == running > -1 && LoaderCalled(r) in log
             case Reported(r, offered, latest) => r > reported && r == offered == latest && LoaderSettled(r) in log
    requires forall x :: x in log ==> x.revision > -1
    ensures match e
            case Loading(r) => Recorded(log + [e], r, called, reported, running)
            case LoaderCalled(r) => Recorded(log + [e], loading, r, reported, r)
            case LoaderSettled(r) => Recorded(log + [e], loading, called, reported, -1)
            case Reported(r, _, _) => Recorded(log + [e], loading, called, r, running)
    ensures e in log + [e] && forall x :: x in log ==> x in log + [e]
  {
    hide Orderly;
    Extend(log, e);
    assert e in log + [e];
  }

  class Registration {
    var open: bool
    /** The newest revision of the followed keys in the store. */
    var latest: int
    var lastOffered: int
    var delivered: int
    var pending: Option<int>
    var active: Option<Active>
    /** The job whose onLoading callback is running. */
    var offering: Option<int>
    /** The jobs whose controller has been aborted. */
    var aborted: set<int>
    /** The outcomes waiting for their delivery task. */
    var queued: seq<int>
    ghost var log: seq<Event>

    /** The newest revision the loader was called for, and the newest reported. */
    ghost var called: int
    ghost var reported: int

    /**
     * The lane moves forward only: reported, then called, then the active run, then the waiting job, then the
     * newest offer.
     */
    ghost predicate Lane()
      reads this
    {
      && -1 <= reported <= called <= lastOffered == delivered <= latest
      && (active.Some? ==>
            var run := active.value;
            && called <= run.revision <= lastOffered && (run.phase.Starting? ==> called < run.revision)
            && (run.phase.Running? ==> called == run.revision && reported < run.revision && forall i ::
              0 <= i < |queued| ==> queued[i] < run.revision))
      && (pending.Some? ==> open && active.Some? && active.value.revision < pending.value <= lastOffered)
      && (offering.Some? ==>
            && offering.value == lastOffered && called < lastOffered
            && (active.Some? ==> active.value.revision < lastOffered)
            && (pending.Some? ==> pending.value < lastOffered))
      && (offering.None? && pending.Some? ==> pending.value == lastOffered)
      && (open ==> lastOffered !in aborted) && (forall a :: a in aborted ==> a <= lastOffered)
    }

    /** The outcomes that wait are of runs whose loader was called, oldest first. */
    ghost predicate Outcomes()
      reads this`queued, this`called, this`reported
    {
      && (forall i, j :: 0 <= i < j < |queued| ==> queued[i] < queued[j])
      && (forall i :: 0 <= i < |queued| ==> reported < queued[i] <= called)
    }

    /** The revision whose loader is running, -1 when none is. */
    ghost function RunningLoader(): int
      reads this`active
    {
      if active.Some? && active.value.phase.Running? then active.value.revision else -1
    }

    ghost predicate Told()
      reads this
    {
      && Recorded(log, lastOffered, called, reported, RunningLoader())
      && (forall x :: x in log ==> x.revision > -1)
      && (lastOffered >= 0 ==> Loading(lastOffered) in log)
      && (active.Some? ==> Loading(active.value.revision) in log)
      && (forall i :: 0 <= i < |queued| ==> LoaderSettled(queued[i]) in log)
      && (active.Some? && active.value.phase.Running? ==> LoaderCalled(active.value.revision) in log)
    }

    ghost predicate WillReport(revision: int)
      reads this
    {
      || offering == Some(revision) || pending == Some(revision)
      || (active.Some? && active.value.revision == revision && !active.value.phase.Finished?)
      || revision in queued
      || Reported(revision, revision, revision) in log
    }

    /** While the newest offer is what the store holds, its outcome has been reported or is on its way. */
    ghost predicate NothingLost()
      reads this
    {
      open && lastOffered >= 0 && lastOffered == latest ==> WillReport(lastOffered)
    }

    ghost predicate Valid()
      reads this
    {
      Told() && Outcomes() && Lane() && NothingLost()
    }

    constructor (latest: nat)
      ensures Valid() && open && this.latest == latest && log == [] && lastOffered == -1
    {
      open, this.latest, lastOffered, delivered := true, latest, -1, -1;
      pending, active, offering, aborted, queued, log := None, None, None, {}, [], [];
      called, reported := -1, -1;
    }

    /** A commit to a followed key. */
    method Commit(revision: int)
      requires Valid() && revision > latest
      modifies this`latest
      ensures Valid() && latest == revision
    {
      hide Recorded, Fits;
      latest := revision;
    }

    predicate IsCurrent(revision: int)
      reads this
    {
      open && revision !in aborted && revision == lastOffered && revision == latest
    }

    method Abort(revision: int)
      modifies this`aborted
      ensures aborted == old(aborted) + {revision}
    {
      aborted := aborted + {revision};
    }

    /** A flush of the store: the newest values are offered, and their loading announced. */
    method Flush()
      requires Valid() && offering.None?
      modifies this`delivered, this`lastOffered, this`offering, this`log
      ensures Valid()
      ensures if open && latest > old(delivered) then offering == Some(latest) && lastOffered == latest
        && log == old(log) + [Loading(latest)]
              else offering.None? && lastOffered == old(lastOffered) && log == old(log)
    {
      hide Recorded, Fits;
      if !open { return; }
      var revision := latest;
      if revision <= delivered { return; }
      Record(log, lastOffered, called, reported, RunningLoader(), Loading(revision));
      delivered := revision;
      lastOffered := revision;
      log := log + [Loading(revision)];
      offering := Some(revision);
    }

    /** Back from onLoading: the job starts, or waits while the older run is told to stop. */
    method Offered()
      requires Valid() && offering.Some?
      modifies this`offering, this`pending, this`active, this`aborted
      ensures Valid() && offering.None?
      ensures open && old(active).None? ==> active == Some(Active(lastOffered, Starting)) && pending == old(pending)
      ensures open && old(active).Some? ==>
        active == old(active) && pending == Some(lastOffered) && active.value.revision in aborted
      ensures !open ==> active == old(active) && pending == old(pending)
    {
      hide Recorded, Fits;
      var job := offering.value;
      offering := None;
      if !open { return; }
      if active.None? { Start(job); return; }
      pending := Some(job);
      Abort(active.value.revision);
    }

    method Start(job: int)
      modifies this`active
      ensures active == Some(Active(job, Starting))
    {
      active := Some(Active(job, Starting));
    }

    /** The run's first step: the loader is called, unless newer values are already in the store. */
    method Run()
      requires Valid() && offering.None? && active.Some? && active.value.phase.Starting?
      modifies this`active, this`log, this`called
      ensures Valid() && active.Some? && active.value.revision == old(active.value.revision)
      ensures if old(IsCurrent(active.value.revision)) then active.value.phase.Running?
        && log == old(log) + [LoaderCalled(active.value.revision)]
              else active.value.phase.Finished? && log == old(log)
    {
      hide Recorded, Fits;
      var job := active.value.revision;
      if !IsCurrent(job) { active := Some(Active(job, Finished)); return; }
      Record(log, lastOffered, called, reported, RunningLoader(), LoaderCalled(job));
      log := log + [LoaderCalled(job)];
      called := job;
      active := Some(Active(job, Running));
    }

    /** The loader has settled: its outcome waits for a delivery task, if the values are still the newest. */
    method Publish()
      requires Valid() && offering.None? && active.Some? && active.value.phase.Running?
      modifies this`active, this`queued, this`log
      ensures Valid() && active == Some(Active(old(active.value.revision), Finished))
      ensures queued == if IsCurrent(active.value.revision) then old(queued) + [active.value.revision] else old(queued)
      ensures log == old(log) + [LoaderSettled(active.value.revision)]
    {
      hide Recorded, Fits;
      var job := active.value.revision;
      Record(log, lastOffered, called, reported, RunningLoader(), LoaderSettled(job));
      log := log + [LoaderSettled(job)];
      if IsCurrent(job) {
        queued := queued + [job];
        assert queued[|queued| - 1] == job;
      }
      assert old(queued) <= queued;
      active := Some(Active(job, Finished));
    }

    /** The run is over: the waiting job, if any, takes the lane. */
    method Settle()
      requires Valid() && offering.None? && active.Some? && active.value.phase.Finished?
      modifies this`active, this`pending
      ensures Valid() && pending.None?
      ensures active == if open && old(pending).Some? then Some(Active(lastOffered, Starting)) else None
    {
      hide Recorded, Fits;
      active := None;
      var next := pending;
      pending := None;
      if open && next.Some? { Start(next.value); }
    }

    /** The delivery task of the oldest waiting outcome. */
    method Report()
      requires Valid() && offering.None? && queued != []
      modifies this`queued, this`log, this`reported
      ensures Valid() && queued == old(queued[1..])
      ensures log ==
        if IsCurrent(old(queued[0])) then old(log) + [Reported(old(queued[0]), lastOffered, latest)] else old(log)
    {
      hide Recorded, Fits;
      var job := queued[0];
      queued := queued[1..];
      assert old(queued) == [job] + queued;
      if IsCurrent(job) {
        Record(log, lastOffered, called, reported, RunningLoader(), Reported(job, lastOffered, latest));
        log := log + [Reported(job, lastOffered, latest)];
        reported := job;
        assert WillReport(job);
      }
    }

    /** The subscription ends: nothing waits, and a running loader is told to stop. */
    method Detach()
      requires Valid()
      modifies this`open, this`pending, this`aborted
      ensures Valid() && !open && pending.None?
    {
      hide Recorded, Fits;
      if !open { return; }
      open := false;
      pending := None;
      if active.Some? { Abort(active.value.revision); }
    }
  }
}
