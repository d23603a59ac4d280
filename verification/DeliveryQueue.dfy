/** The queue of delivery tasks, and the windows in which a callback's context counts (delivery/context.ts). */
module DeliveryQueue {
  import opened Sequences
  import opened CommitHistory

  /** A queued job: the run of a delivery task, the closing of its window, or anything else that was put off. */
  datatype Job = Deliver(live: nat) | Complete(live: nat) | Other(id: nat)

  /** In the order they were queued: the two jobs of every task next to each other, no task twice. */
  ghost predicate Paired(all: seq<Job>, windows: nat) {
    && (forall i ::
      0 <= i < |all| && all[i].Deliver? ==>
        all[i].live < windows && i + 1 < |all| && all[i + 1] == Complete(all[i].live))
    && (forall i :: 0 <= i < |all| && all[i].Complete? ==> i > 0 && all[i - 1] == Deliver(all[i].live))
    && (forall i, j :: 0 <= i < j < |all| && all[i].Deliver? ==> all[i] != all[j])
  }

  lemma PairedOther(all: seq<Job>, windows: nat, id: nat)
    requires Paired(all, windows)
    ensures Paired(all + [Other(id)], windows)
  {
  }

  lemma PairedTask(all: seq<Job>, windows: nat)
    requires Paired(all, windows)
    ensures Paired(all + [Deliver(windows)] + [Complete(windows)], windows + 1)
  {
  }

  /** The windows that are open: of tasks whose second job has not run, and of loaders that have not settled. */
  ghost predicate WindowsOpen(all: seq<Job>, ran: nat, windows: nat, loaders: set<nat>, live: set<nat>)
    requires ran <= |all|
  {
    && loaders <= live
    && (forall w :: w in live ==> w < windows)
    && (forall w :: w in live && w !in loaders ==> Deliver(w) in all && Complete(w) !in all[..ran])
    && (forall w :: Deliver(w) in all && Complete(w) !in all[..ran] ==> w in live)
    && (forall w :: w in loaders ==> Deliver(w) !in all)
  }

  lemma InPrefix(all: seq<Job>, n: nat)
    requires n <= |all|
    ensures forall i :: 0 <= i < n ==> all[i] in all[..n]
  {
    forall i | 0 <= i < n ensures all[i] in all[..n] { assert all[..n][i] == all[i]; }
  }

  /** Of the tasks that have begun, at most one has its window open: its second job is the next to run. */
  lemma OneWindowAtATime(all: seq<Job>, ran: nat, windows: nat, loaders: set<nat>, live: set<nat>, w: nat)
    requires ran <= |all| && Paired(all, windows) && WindowsOpen(all, ran, windows, loaders, live)
    requires Deliver(w) in all[..ran] && w in live
    ensures ran > 0 && all[ran - 1] == Deliver(w) && ran < |all| && all[ran] == Complete(w)
  {
    var i :| 0 <= i < ran && all[..ran][i] == Deliver(w);
    assert all[i] == Deliver(w) && all[i + 1] == Complete(w);
    assert Deliver(w) in all;
    InPrefix(all, ran);
  }

  lemma CompletedOnce(all: seq<Job>, windows: nat, ran: nat, w: nat)
    requires Paired(all, windows) && ran < |all| && all[ran] == Complete(w)
    ensures Complete(w) !in all[..ran] && Deliver(w) in all
  {
    assert all[ran - 1] == Deliver(w);
    forall i: nat | i < ran ensures all[i] != Complete(w) { CompletesApart(all, windows, i, ran); }
  }

  lemma DeliversBefore(all: seq<Job>, windows: nat, i: nat)
    requires Paired(all, windows) && i < |all| && all[i].Complete?
    ensures i > 0 && all[i - 1] == Deliver(all[i].live)
  {
  }

  lemma CompletesApart(all: seq<Job>, windows: nat, i: nat, j: nat)
    requires Paired(all, windows) && i < j < |all| && all[j].Complete?
    ensures all[i] != all[j]
  {
    DeliversBefore(all, windows, j);
    if all[i].Complete? { DeliversBefore(all, windows, i); }
  }

  /** A window that has not been made has no job. */
  lemma NewIsUnused(all: seq<Job>, windows: nat)
    requires Paired(all, windows)
    ensures Deliver(windows) !in all && Complete(windows) !in all
  {
    forall i: nat | i < |all| ensures all[i] != Complete(windows) {
      if all[i].Complete? { DeliversBefore(all, windows, i); }
    }
  }

  class Node {
    const job: Job
    var next: Node?

    constructor (job: Job)
      ensures this.job == job && next == null
    {
      this.job, next := job, null;
    }
  }

  class Queue {
    var head: Node?
    var tail: Node?
    /** The native callbacks that have been scheduled and have not run. */
    var scheduled: nat
    /** The windows whose token is open, and the supply of new ones. */
    var live: set<nat>
    var windows: nat
    /** The context whose callback is on the stack. */
    var syncContext: Option<Context>

    ghost var nodes: seq<Node>
    /** Every job ever queued, in order; the first `ran` have run. */
    ghost var all: seq<Job>
    ghost var ran: nat
    ghost var loaders: set<nat>

    ghost predicate Linked()
      reads this`head, this`tail, this`nodes, nodes
    {
      && (nodes == [] <==> head == null) && (nodes == [] <==> tail == null)
      && (nodes != [] ==> head == nodes[0] && tail == nodes[|nodes| - 1] && nodes[|nodes| - 1].next == null)
      && (forall i :: 0 <= i < |nodes| - 1 ==> nodes[i].next == nodes[i + 1])
      && (forall i, j :: 0 <= i < j < |nodes| ==> nodes[i] != nodes[j])
    }

    /** The nodes hold what is left to run, and each has its callback. */
    ghost predicate Waiting()
      reads this`nodes, this`all, this`ran, this`scheduled
    {
      && ran + |nodes| == |all| && scheduled == |nodes|
      && forall i :: 0 <= i < |nodes| ==> nodes[i].job == all[ran + i]
    }

    ghost predicate Valid()
      reads this, nodes
    {
      Linked() && Waiting() && Paired(all, windows) && WindowsOpen(all, ran, windows, loaders, live)
    }

    constructor ()
      ensures Valid() && all == [] && syncContext == None && fresh(nodes)
    {
      head, tail, scheduled, live, windows, syncContext := null, null, 0, {}, 0, None;
      nodes, all, ran, loaders := [], [], 0, {};
    }

    /** Appends one node, with one native callback for it. */
    method Append(job: Job)
      requires Linked() && Waiting()
      modifies this`head, this`tail, this`scheduled, this`nodes, this`all, nodes
      ensures Linked() && Waiting() && all == old(all) + [job] && fresh(set n | n in nodes && n !in old(nodes))
    {
      var node := new Node(job);
      if tail == null { head := node; } else { tail.next := node; }
      tail := node;
      nodes := nodes + [node];
      all := all + [job];
      scheduled := scheduled + 1;
    }

    method Later(id: nat)
      requires Valid()
      modifies this`head, this`tail, this`scheduled, this`nodes, this`all, nodes
      ensures Valid() && all == old(all) + [Other(id)] && fresh(set n | n in nodes && n !in old(nodes))
    {
      hide Linked, Paired, WindowsOpen;
      PairedOther(all, windows, id);
      OtherOpens(all, ran, windows, loaders, live, id);
      Append(Other(id));
      assert all[..ran] == old(all)[..ran];
    }

    /** A delivery task: its window is open from now until the second of its jobs. */
    method DeliveryTask() returns (w: nat)
      requires Valid()
      modifies this`head, this`tail, this`scheduled, this`nodes, this`all, this`live, this`windows, nodes
      ensures Valid() && w == old(windows) && windows == w + 1 && live == old(live) + {w}
      ensures all == old(all) + [Deliver(w)] + [Complete(w)] && fresh(set n | n in nodes && n !in old(nodes))
    {
      hide Linked, Paired, WindowsOpen;
      PairedTask(all, windows);
      NewWindow(all, ran, windows, loaders, live);
      w := windows;
      windows := windows + 1;
      live := live + {w};
      Append(Deliver(w));
      Append(Complete(w));
      assert all[..ran] == old(all)[..ran];
    }

    /** Unlinks the oldest node. */
    method Take() returns (job: Job)
      requires Linked() && Waiting() && nodes != []
      modifies this`head, this`tail, this`scheduled, this`nodes, this`ran, nodes
      ensures Linked() && Waiting() && ran == old(ran) + 1 && ran <= |all| && job == all[old(ran)]
      ensures nodes == old(nodes[1..]) && scheduled == old(scheduled) - 1
    {
      var node := head;
      job := node.job;
      head := node.next;
      node.next := null;
      assert |nodes| > 1 ==> head == nodes[1];
      if head == null { tail := null; }
      nodes := nodes[1..];
      scheduled := scheduled - 1;
      ran := ran + 1;
    }

    /** The callback of the oldest node. There always is one, and it takes the jobs in the order they were queued. */
    method RunNext() returns (job: Job)
      requires Valid() && scheduled > 0
      modifies this`head, this`tail, this`scheduled, this`nodes, this`ran, this`live, nodes
      ensures Valid() && ran == old(ran) + 1 && all == old(all) && old(ran) < |all| && job == all[old(ran)]
      ensures scheduled == old(scheduled) - 1 && nodes == old(nodes[1..])
      ensures live == if job.Complete? then old(live) - {job.live} else old(live)
    {
      hide Linked, Paired, WindowsOpen;
      OneWaits();
      JobRun(all, ran, windows, loaders, live);
      job := Take();
      if job.Complete? { live := live - {job.live}; }
    }

    lemma OneWaits()
      requires Waiting() && scheduled > 0
      ensures nodes != [] && ran < |all|
    {
    }

    /** A loader runs in a window of its own. */
    method OpenLoader() returns (w: nat)
      requires Valid()
      modifies this`live, this`windows, this`loaders
      ensures Valid() && w == old(windows) && live == old(live) + {w}
    {
      LoaderWindow(all, ran, windows, loaders, live);
      w := windows;
      windows := windows + 1;
      live := live + {w};
      loaders := loaders + {w};
    }

    method CloseLoader(w: nat)
      requires Valid() && w in loaders
      modifies this`live, this`loaders
      ensures Valid() && live == old(live) - {w}
    {
      live := live - {w};
      loaders := loaders - {w};
    }

    /** The context on the stack, else the stored one, as long as its window is open. */
    function InForce(stored: Option<Context>): Option<Context>
      reads this`syncContext, this`live
    {
      var c := if syncContext.Some? then syncContext else stored;
      if c.Some? && c.value.live in live then c else None
    }

    /** The context a commit is made in, and what an open window says about the jobs that ran. */
    method CurrentContext(stored: Option<Context>) returns (context: Option<Context>)
      requires Valid()
      ensures context == InForce(stored)
      ensures context.Some? ==> context.value.live in live && (context == syncContext || context == stored)
      ensures context.None? <==> var c :=
        if syncContext.Some? then syncContext else stored; c.None? || c.value.live !in live
      ensures context.Some? && context.value.live !in loaders ==>
        Complete(context.value.live) !in all[..ran] &&
        (Deliver(context.value.live) in all[..ran] ==> ran > 0 && all[ran - 1] == Deliver(context.value.live))
    {
      context := if syncContext.Some? then syncContext else stored;
      if context.None? || context.value.live !in live { return None; }
      ghost var w := context.value.live;
      if Deliver(w) in all[..ran] { OneWindowAtATime(all, ran, windows, loaders, live, w); }
    }

    method EnterContext(context: Context) returns (outer: Option<Context>)
      modifies this`syncContext
      ensures syncContext == Some(context) && outer == old(syncContext)
    {
      outer := syncContext;
      syncContext := Some(context);
    }

    method LeaveContext(outer: Option<Context>)
      modifies this`syncContext
      ensures syncContext == outer
    {
      syncContext := outer;
    }
  }

  lemma NewWindow(all: seq<Job>, ran: nat, windows: nat, loaders: set<nat>, live: set<nat>)
    requires ran <= |all| && Paired(all, windows) && WindowsOpen(all, ran, windows, loaders, live)
    ensures WindowsOpen(all + [Deliver(windows)] + [Complete(windows)], ran, windows + 1, loaders, live + {windows})
  {
    var more := all + [Deliver(windows)] + [Complete(windows)];
    NewIsUnused(all, windows);
    assert more[..ran] == all[..ran];
    assert more[|all|] == Deliver(windows);
    assert forall i :: 0 <= i < |all| ==> more[i] == all[i];
    assert forall w: nat :: Deliver(w) in more <==> Deliver(w) in all || w == windows;
    forall w: nat | Complete(w) in all[..ran] ensures Complete(w) in all {}
    forall w: nat | Deliver(w) in all ensures w < windows {}
  }

  lemma OtherOpens(all: seq<Job>, ran: nat, windows: nat, loaders: set<nat>, live: set<nat>, id: nat)
    requires ran <= |all| && WindowsOpen(all, ran, windows, loaders, live)
    ensures WindowsOpen(all + [Other(id)], ran, windows, loaders, live)
  {
    assert (all + [Other(id)])[..ran] == all[..ran];
  }

  lemma LoaderWindow(all: seq<Job>, ran: nat, windows: nat, loaders: set<nat>, live: set<nat>)
    requires ran <= |all| && Paired(all, windows) && WindowsOpen(all, ran, windows, loaders, live)
    ensures WindowsOpen(all, ran, windows + 1, loaders + {windows}, live + {windows}) && Paired(all, windows + 1)
  {
    NewIsUnused(all, windows);
  }

  lemma JobRun(all: seq<Job>, ran: nat, windows: nat, loaders: set<nat>, live: set<nat>)
    requires ran < |all| && Paired(all, windows) && WindowsOpen(all, ran, windows, loaders, live)
    ensures WindowsOpen(all, ran + 1, windows, loaders, if all[ran].Complete? then live - {all[ran].live} else live)
  {
    assert all[..ran + 1] == all[..ran] + [all[ran]];
    if all[ran].Complete? { CompletedOnce(all, windows, ran, all[ran].live); }
  }
}
